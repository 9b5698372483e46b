// The one mathematical object behind the convolution entry points: a grouped
// one-dimensional cross-correlation over [batch, channel, position] tensors held
// as flat row-major sequences, and its transpose.  Elements are exact reals.
module Convolution {
  import opened Division
  import opened Products
  import opened Segments
  import opened Sums

  // Everything the two entry points read off their descriptors.
  datatype Geometry = Geometry(
    batch: nat, groups: nat, inPer: nat, outPer: nat, taps: nat,
    xChannels: nat, xLen: nat, yChannels: nat, yLen: nat,
    pad: int, stride: int, dilation: int)
  {
    function In(): Layout {
      Layout(batch, groups, inPer, xChannels, xLen)
    }

    function Out(): Layout {
      Layout(batch, groups, outPer, yChannels, yLen)
    }

    // The groups fit into the tensors they are cut from.
    ghost predicate Fits() {
      In().Fits() && Out().Fits()
    }

    // The groups use every channel of both tensors.
    ghost predicate Exact() {
      groups * inPer == xChannels && groups * outPer == yChannels
    }

    // The input position that output position o sees through tap t.
    function Pos(o: int, t: int): int {
      o * stride - pad + t * dilation
    }
  }

  // Reading outside a row gives zero: the padding.
  ghost function At(s: seq<real>, i: int): real
  {
    if 0 <= i < |s| then s[i] else 0.0
  }

  // Row r of a flat tensor whose rows have the given length.
  ghost function Row(s: seq<real>, r: nat, len: nat): (row: seq<real>)
    ensures |row| == len
  {
    seq(len, i requires 0 <= i < len => At(s, r * len + i))
  }

  lemma RowAt(s: seq<real>, r: nat, len: nat, i: nat, k: nat)
    requires i < len && k == r * len + i && k < |s|
    ensures At(Row(s, r, len), i) == s[k]
  {
    assert Row(s, r, len)[i] == At(s, k);
  }

  ghost function Pairwise(a: seq<real>, b: seq<real>): nat -> real
  {
    (i: nat) => Mul(At(a, i), At(b, i))
  }

  ghost function Dot(a: seq<real>, b: seq<real>): real
  {
    Sum(|a|, Pairwise(a, b))
  }

  // ---- one row ---------------------------------------------------------------

  ghost function TapTerms(geo: Geometry, x: seq<real>, w: seq<real>, o: int): nat -> real
  {
    (t: nat) => Mul(At(w, t), At(x, geo.Pos(o, t)))
  }

  // One input row against one filter row, at output position o.
  ghost function Correlate(geo: Geometry, x: seq<real>, w: seq<real>, o: int): real
  {
    Sum(|w|, TapTerms(geo, x, w, o))
  }

  ghost function HitTerms(geo: Geometry, v: real, w: seq<real>, o: int, i: int): nat -> real
  {
    (t: nat) => if geo.Pos(o, t) == i then Mul(v, At(w, t)) else 0.0
  }

  // What value v at output position o sends back to input position i.
  ghost function Hits(geo: Geometry, v: real, w: seq<real>, o: int, i: int): real
  {
    Sum(|w|, HitTerms(geo, v, w, o, i))
  }

  ghost function ScatterTerms(geo: Geometry, y: seq<real>, w: seq<real>, i: int): nat -> real
  {
    (o: nat) => Hits(geo, At(y, o), w, o, i)
  }

  // What a whole output row sends back to input position i.
  ghost function Scatter(geo: Geometry, y: seq<real>, w: seq<real>, i: int): real
  {
    Sum(|y|, ScatterTerms(geo, y, w, i))
  }

  // ---- whole tensors -----------------------------------------------------------

  // The filter row that connects output channel ch to input channel c of its group.
  ghost function FilterRow(geo: Geometry, w: seq<real>, ch: nat, c: nat): (row: seq<real>)
    ensures |row| == geo.taps
  {
    Row(w, ch * geo.inPer + c, geo.taps)
  }

  ghost function InputRow(geo: Geometry, x: seq<real>, n: nat, g: nat, c: nat): (row: seq<real>)
    ensures |row| == geo.xLen
  {
    Row(x, n * geo.xChannels + (g * geo.inPer + c), geo.xLen)
  }

  ghost function OutputRow(geo: Geometry, y: seq<real>, n: nat, g: nat, m: nat): (row: seq<real>)
    ensures |row| == geo.yLen
  {
    Row(y, n * geo.yChannels + (g * geo.outPer + m), geo.yLen)
  }

  ghost function ForwardTerms(geo: Geometry, x: seq<real>, w: seq<real>, n: nat, g: nat, m: nat, o: int): nat -> real
  {
    (c: nat) => Correlate(geo, InputRow(geo, x, n, g, c), FilterRow(geo, w, g * geo.outPer + m, c), o)
  }

  // Output channel m of group g in batch item n, at position o: the direct sum.
  ghost function ForwardAt(geo: Geometry, x: seq<real>, w: seq<real>, n: nat, g: nat, m: nat, o: int): real
  {
    Sum(geo.inPer, ForwardTerms(geo, x, w, n, g, m, o))
  }

  ghost function BackwardTerms(geo: Geometry, dy: seq<real>, w: seq<real>, n: nat, g: nat, c: nat, i: int): nat -> real
  {
    (m: nat) => Scatter(geo, OutputRow(geo, dy, n, g, m), FilterRow(geo, w, g * geo.outPer + m, c), i)
  }

  // Input channel c of group g in batch item n, at position i, of the transpose.
  ghost function BackwardAt(geo: Geometry, dy: seq<real>, w: seq<real>, n: nat, g: nat, c: nat, i: int): real
  {
    Sum(geo.outPer, BackwardTerms(geo, dy, w, n, g, c, i))
  }

  // The value at flat position p of beta * y + alpha * conv(x, w); positions that
  // no group covers keep what they hold.
  ghost function ForwardPoint(geo: Geometry, al: real, be: real, x: seq<real>, w: seq<real>, y: seq<real>, p: nat): real
    requires p < |y|
  {
    if geo.yLen == 0 || geo.yChannels == 0 then y[p] else
    var row, o := Quot(p, geo.yLen), Rem(p, geo.yLen);
    var n, ch := Quot(row, geo.yChannels), Rem(row, geo.yChannels);
    if n < geo.batch && ch < geo.groups * geo.outPer then
      Mul(be, y[p]) + Mul(al, ForwardAt(geo, x, w, n, Quot(ch, geo.outPer), Rem(ch, geo.outPer), o))
    else
      y[p]
  }

  ghost function ForwardSpec(geo: Geometry, al: real, be: real, x: seq<real>, w: seq<real>, y: seq<real>): (r: seq<real>)
    ensures |r| == |y|
  {
    seq(|y|, p requires 0 <= p < |y| => ForwardPoint(geo, al, be, x, w, y, p))
  }

  // The value at flat position p of beta * x + alpha * transpose(dy, w).  Here the
  // whole of x is scaled, covered or not.
  ghost function BackwardPoint(geo: Geometry, al: real, be: real, w: seq<real>, dy: seq<real>, x: seq<real>, p: nat): real
    requires p < |x|
  {
    if geo.xLen == 0 || geo.xChannels == 0 then Mul(be, x[p]) else
    var row, i := Quot(p, geo.xLen), Rem(p, geo.xLen);
    var n, ch := Quot(row, geo.xChannels), Rem(row, geo.xChannels);
    if n < geo.batch && ch < geo.groups * geo.inPer then
      Mul(be, x[p]) + Mul(al, BackwardAt(geo, dy, w, n, Quot(ch, geo.inPer), Rem(ch, geo.inPer), i))
    else
      Mul(be, x[p])
  }

  ghost function BackwardSpec(geo: Geometry, al: real, be: real, w: seq<real>, dy: seq<real>, x: seq<real>): (r: seq<real>)
    ensures |r| == |x|
  {
    seq(|x|, p requires 0 <= p < |x| => BackwardPoint(geo, al, be, w, dy, x, p))
  }

  // ---- what the flat specifications say at position (n, g, channel, position) -----

  // Flat position (n, ch, i) of a [batch, channels, len] tensor.
  lemma Position(n: nat, batch: nat, ch: nat, channels: nat, i: nat, len: nat)
    requires n < batch && ch < channels && i < len
    ensures 0 <= (n * channels + ch) * len + i < batch * channels * len
    ensures ((n * channels + ch) * len + i) / len == n * channels + ch
    ensures ((n * channels + ch) * len + i) % len == i
    ensures (n * channels + ch) / channels == n && (n * channels + ch) % channels == ch
  {
    Below(n, batch, ch, channels);
    Below(n * channels + ch, batch * channels, i, len);
    Unique(n * channels + ch, channels, n, ch);
    Unique((n * channels + ch) * len + i, len, n * channels + ch, i);
  }

  lemma ForwardEntry(geo: Geometry, al: real, be: real, x: seq<real>, w: seq<real>, y: seq<real>,
                     n: nat, g: nat, m: nat, o: nat)
    requires geo.Fits()
    requires n < geo.batch && g < geo.groups && m < geo.outPer && o < geo.yLen
    requires (n * geo.yChannels + (g * geo.outPer + m)) * geo.yLen + o < |y|
    ensures var p := (n * geo.yChannels + (g * geo.outPer + m)) * geo.yLen + o;
      ForwardSpec(geo, al, be, x, w, y)[p] == Mul(be, y[p]) + Mul(al, ForwardAt(geo, x, w, n, g, m, o))
  {
    Below(g, geo.groups, m, geo.outPer);
    Unique(g * geo.outPer + m, geo.outPer, g, m);
    Position(n, geo.batch, g * geo.outPer + m, geo.yChannels, o, geo.yLen);
  }

  lemma BackwardEntry(geo: Geometry, al: real, be: real, w: seq<real>, dy: seq<real>, x: seq<real>,
                      n: nat, g: nat, c: nat, i: nat)
    requires geo.Fits()
    requires n < geo.batch && g < geo.groups && c < geo.inPer && i < geo.xLen
    requires (n * geo.xChannels + (g * geo.inPer + c)) * geo.xLen + i < |x|
    ensures var p := (n * geo.xChannels + (g * geo.inPer + c)) * geo.xLen + i;
      BackwardSpec(geo, al, be, w, dy, x)[p] == Mul(be, x[p]) + Mul(al, BackwardAt(geo, dy, w, n, g, c, i))
  {
    Below(g, geo.groups, c, geo.inPer);
    Unique(g * geo.inPer + c, geo.inPer, g, c);
    Position(n, geo.batch, g * geo.inPer + c, geo.xChannels, i, geo.xLen);
  }
}
