// The cuDNN entry points that compute, on the buffers they are handed.
module ConvolutionKernels {
  import opened Division
  import opened Products
  import opened Segments
  import opened Sums
  import opened Convolution
  import opened ConvolutionForms

  const OK := 0
  const NOT_SUPPORTED := 9
  const FLOAT := 0

  type Dims = d: seq<int> | |d| == 8 witness [0, 0, 0, 0, 0, 0, 0, 0]
  type Spatial = d: seq<int> | |d| == 4 witness [0, 0, 0, 0]

  datatype TensorDesc = TensorDesc(kind: int, nb: int, dim: Dims)
  datatype FilterDesc = FilterDesc(kind: int, nb: int, dim: Dims)
  datatype ConvDesc = ConvDesc(nb: int, pad: Spatial, stride: Spatial, dilation: Spatial, groups: int)

  // Batch, channels and one spatial extent, with the spatial slot it came from.
  datatype Shape = Unsupported | Shape(n: int, c: int, len: int, sp: int)
  {
    ghost predicate Sized() {
      Shape? ==> 0 <= n && 0 <= c && 0 <= len
    }
  }

  datatype Scalar = Null | Value(v: real)
  {
    function Or(default: real): real {
      if Null? then default else v
    }
  }

  function As1D(t: TensorDesc): (s: Shape)
    ensures s.Shape? ==> s.n == t.dim[0] && s.c == t.dim[1] && (s.sp == 0 || s.sp == 1) && s.len == t.dim[2 + s.sp]
    ensures s.Shape? ==> s.n * s.c * s.len == t.dim[0] * t.dim[1] * t.dim[2] * (if t.nb == 4 then t.dim[3] else 1)
    ensures s.Unsupported? <==> !(t.nb == 3 || (t.nb == 4 && (t.dim[2] == 1 || t.dim[3] == 1)))
  {
    if t.nb == 3 then
      Shape(t.dim[0], t.dim[1], t.dim[2], 0)
    else if t.nb == 4 && t.dim[3] == 1 then
      Shape(t.dim[0], t.dim[1], t.dim[2], 0)
    else if t.nb == 4 && t.dim[2] == 1 then
      Shape(t.dim[0], t.dim[1], t.dim[3], 1)
    else
      Unsupported
  }

  // The taps of the first nb dimensions of a filter.
  function Taps(w: FilterDesc, nb: int): int
    requires nb <= 8
  {
    if nb <= 2 then 1 else Taps(w, nb - 1) * w.dim[nb - 1]
  }

  ghost predicate FilterSized(w: FilterDesc) {
    w.nb <= 8 && forall i :: 0 <= i < 8 ==> w.dim[i] >= 0
  }

  lemma {:induction false} TapsSized(w: FilterDesc, nb: int)
    requires nb <= 8 && FilterSized(w)
    ensures Taps(w, nb) >= 0
  {
    if nb > 2 {
      TapsSized(w, nb - 1);
    }
  }

  function Groups(c: ConvDesc): (groups: nat)
    ensures groups > 0
  {
    if c.groups > 0 then c.groups else 1
  }

  function Slot(xs: Shape, c: ConvDesc): int
    requires xs.Shape?
  {
    if xs.sp < c.nb then xs.sp else 0
  }

  // Both directions read the same geometry off their descriptors, except that each
  // takes the batch count of the tensor it reads.
  ghost function GeometryOf(batch: nat, xs: Shape, ys: Shape, w: FilterDesc, c: ConvDesc): Geometry
    requires xs.Shape? && ys.Shape? && xs.Sized() && ys.Sized() && FilterSized(w)
    requires 0 <= Slot(xs, c) < 4
  {
    TapsSized(w, w.nb);
    var sp := Slot(xs, c);
    Geometry(batch, Groups(c), w.dim[1], w.dim[0] / Groups(c), Taps(w, w.nb),
             xs.c, xs.len, ys.c, ys.len, c.pad[sp], c.stride[sp], c.dilation[sp])
  }

  // What the entry points demand of their buffers: the sizes the descriptors say.
  ghost predicate Sizes(geo: Geometry, outC: nat, x: nat, w: nat, y: nat) {
    && geo.Fits()
    && geo.groups * geo.outPer <= outC
    && geo.batch * geo.xChannels * geo.xLen <= x
    && geo.batch * geo.yChannels * geo.yLen <= y
    && w == outC * geo.inPer * geo.taps
  }

  method CountTaps(w: FilterDesc) returns (k: int)
    requires w.nb <= 8
    ensures k == Taps(w, w.nb)
  {
    k := 1;
    var i := 2;
    while i < w.nb
      invariant 2 <= i && (i <= w.nb || i == 2)
      invariant k == Taps(w, i)
    {
      k := k * w.dim[i];
      i := i + 1;
    }
  }

  // The filter row of (output channel, input channel) lies inside the filter.
  lemma FilterInside(geo: Geometry, outC: nat, g: nat, m: nat, c: nat)
    requires geo.groups * geo.outPer <= outC && g < geo.groups && m < geo.outPer && c < geo.inPer
    ensures g * geo.outPer + m < outC
    ensures 0 <= ((g * geo.outPer + m) * geo.inPer + c) * geo.taps
    ensures ((g * geo.outPer + m) * geo.inPer + c) * geo.taps + geo.taps <= outC * geo.inPer * geo.taps
  {
    Below(g, geo.groups, m, geo.outPer);
    RowInside(g * geo.outPer + m, outC, c, geo.inPer, geo.taps);
  }

  // ---- forward, stride 1: one clipped, shifted block per tap ----------------------

  // Where tap t of input channel c reads the filter and the input.
  function FilterIndex(geo: Geometry, g: nat, m: nat, c: nat, t: nat): int {
    ((g * geo.outPer + m) * geo.inPer + c) * geo.taps + t
  }

  function InputIndex(geo: Geometry, n: nat, g: nat, c: nat, at: int): int {
    (n * geo.xChannels + (g * geo.inPer + c)) * geo.xLen + at
  }

  lemma TapTerm(geo: Geometry, outC: nat, x: seq<real>, w: seq<real>, n: nat, g: nat, m: nat, o: nat, t: nat, c: nat)
    requires Sizes(geo, outC, |x|, |w|, geo.batch * geo.yChannels * geo.yLen)
    requires n < geo.batch && g < geo.groups && m < geo.outPer && t < geo.taps && c < geo.inPer
    requires 0 <= geo.Pos(o, t) < geo.xLen
    ensures 0 <= FilterIndex(geo, g, m, c, t) < |w| && 0 <= InputIndex(geo, n, g, c, geo.Pos(o, t)) < |x|
    ensures ChannelTerms(geo, x, w, n, g, m, o, t)(c)
         == Mul(w[FilterIndex(geo, g, m, c, t)], x[InputIndex(geo, n, g, c, geo.Pos(o, t))])
  {
    FilterInside(geo, outC, g, m, c);
    Below(g, geo.groups, c, geo.inPer);
    RowInside(n, geo.batch, g * geo.inPer + c, geo.xChannels, geo.xLen);
    RowAt(w, (g * geo.outPer + m) * geo.inPer + c, geo.taps, t, FilterIndex(geo, g, m, c, t));
    RowAt(x, n * geo.xChannels + (g * geo.inPer + c), geo.xLen, geo.Pos(o, t), InputIndex(geo, n, g, c, geo.Pos(o, t)));
    assert ChannelTerms(geo, x, w, n, g, m, o, t)(c)
        == TapTerms(geo, InputRow(geo, x, n, g, c), FilterRow(geo, w, g * geo.outPer + m, c), o)(t);
  }

  method TapProduct(geo: Geometry, ghost outC: nat, x: array<real>, w: array<real>, n: nat, g: nat, m: nat, o: nat, t: nat, c: nat)
    returns (v: real)
    requires Sizes(geo, outC, x.Length, w.Length, geo.batch * geo.yChannels * geo.yLen)
    requires n < geo.batch && g < geo.groups && m < geo.outPer && t < geo.taps && c < geo.inPer
    requires 0 <= geo.Pos(o, t) < geo.xLen
    ensures v == ChannelTerms(geo, x[..], w[..], n, g, m, o, t)(c)
  {
    TapTerm(geo, outC, x[..], w[..], n, g, m, o, t, c);
    var from, into := FilterIndex(geo, g, m, c, t), InputIndex(geo, n, g, c, geo.Pos(o, t));
    Times(w[from], x[into]);
    v := w[from] * x[into];
  }

  method TapDot(geo: Geometry, ghost outC: nat, x: array<real>, w: array<real>, n: nat, g: nat, m: nat, o: nat, t: nat)
    returns (acc: real)
    requires Sizes(geo, outC, x.Length, w.Length, geo.batch * geo.yChannels * geo.yLen)
    requires n < geo.batch && g < geo.groups && m < geo.outPer && t < geo.taps
    requires 0 <= geo.Pos(o, t) < geo.xLen
    ensures acc == TapAt(geo, x[..], w[..], n, g, m, o, t)
  {
    acc := 0.0;
    var c := 0;
    ghost var terms := ChannelTerms(geo, x[..], w[..], n, g, m, o, t);
    while c < geo.inPer
      invariant 0 <= c <= geo.inPer
      invariant acc == Sum(c, terms)
    {
      var v := TapProduct(geo, outC, x, w, n, g, m, o, t, c);
      acc := acc + v;
      c := c + 1;
    }
  }

  ghost predicate Clipped(geo: Geometry, t: nat, o0: int, o1: int) {
    var shift := t * geo.dilation - geo.pad;
    && o0 == (if shift < 0 then -shift else 0)
    && o1 == (if geo.xLen - shift > geo.yLen then geo.yLen else geo.xLen - shift)
  }

  // Outside the clipped range the tap falls outside the input.
  lemma ClipExact(geo: Geometry, t: nat, o0: int, o1: int, o: int)
    requires geo.stride == 1 && Clipped(geo, t, o0, o1) && 0 <= o < geo.yLen
    ensures o0 <= o < o1 <==> 0 <= geo.Pos(o, t) < geo.xLen
  {
    assert geo.Pos(o, t) == o + (t * geo.dilation - geo.pad);
  }

  ghost function TapRound(geo: Geometry, x: seq<real>, w: seq<real>, n: nat, g: nat): (nat, nat, nat) -> real
  {
    (m: nat, o: nat, t: nat) => TapAt(geo, x, w, n, g, m, o, t)
  }

  // What tap t adds along row m, clipped positions included.
  ghost function TapRow(geo: Geometry, al: real, x: seq<real>, w: seq<real>, n: nat, g: nat, m: nat, t: nat): (row: seq<real>)
    ensures |row| == geo.yLen
  {
    seq(geo.yLen, o requires 0 <= o < geo.yLen => Mul(al, TapAt(geo, x, w, n, g, m, o, t)))
  }

  lemma TapClipped(geo: Geometry, x: seq<real>, w: seq<real>, n: nat, g: nat, t: nat, o0: int, o1: int)
    requires geo.stride == 1 && Clipped(geo, t, o0, o1)
    ensures forall m: nat, o: nat :: o < geo.yLen && !(o0 <= o < o1) ==> TapRound(geo, x, w, n, g)(m, o, t) == 0.0
  {
    forall m: nat, o: nat | o < geo.yLen && !(o0 <= o < o1)
      ensures TapRound(geo, x, w, n, g)(m, o, t) == 0.0
    {
      ClipExact(geo, t, o0, o1, o);
      OutsideTap(geo, x, w, n, g, m, o, t);
    }
  }

  lemma TapRowClipped(geo: Geometry, al: real, x: seq<real>, w: seq<real>, n: nat, g: nat, m: nat, t: nat, o0: int, o1: int)
    requires geo.stride == 1 && Clipped(geo, t, o0, o1)
    ensures forall o :: 0 <= o < geo.yLen && !(o0 <= o < o1) ==> TapRow(geo, al, x, w, n, g, m, t)[o] == 0.0
  {
    TapClipped(geo, x, w, n, g, t, o0, o1);
    forall o | 0 <= o < geo.yLen && !(o0 <= o < o1)
      ensures TapRow(geo, al, x, w, n, g, m, t)[o] == 0.0
    {
      assert TapRound(geo, x, w, n, g)(m, o, t) == 0.0;
      Zero(al);
    }
  }

  method AddTapRow(geo: Geometry, ghost outC: nat, al: real, x: array<real>, w: array<real>, y: array<real>,
                   n: nat, g: nat, m: nat, t: nat, o0: int, o1: int, base: nat)
    requires Sizes(geo, outC, x.Length, w.Length, y.Length) && y != x && y != w
    requires n < geo.batch && g < geo.groups && m < geo.outPer && t < geo.taps
    requires geo.stride == 1 && Clipped(geo, t, o0, o1) && base + geo.yLen <= y.Length
    modifies y
    ensures RowAdded(old(y[..]), y[..], base, TapRow(geo, al, x[..], w[..], n, g, m, t))
  {
    ghost var xs, ws := x[..], w[..];
    ghost var row := TapRow(geo, al, xs, ws, n, g, m, t);
    TapRowClipped(geo, al, xs, ws, n, g, m, t, o0, o1);
    var o := o0;
    while o < o1
      invariant o0 <= o && (o <= o1 || o == o0)
      invariant x[..] == xs && w[..] == ws
      invariant forall p :: 0 <= p < y.Length ==>
        y[p] == old(y[p]) + (if 0 <= p - base < geo.yLen && p - base < o then row[p - base] else 0.0)
    {
      ClipExact(geo, t, o0, o1, o);
      var v := TapDot(geo, outC, x, w, n, g, m, o, t);
      Times(al, v);
      y[base + o] := y[base + o] + al * v;
      o := o + 1;
    }
  }

  method GroupTapRow(geo: Geometry, ghost outC: nat, al: real, x: array<real>, w: array<real>, y: array<real>,
                     n: nat, g: nat, m: nat, t: nat, o0: int, o1: int, ghost y0: seq<real>)
    requires Sizes(geo, outC, x.Length, w.Length, y.Length) && y != x && y != w
    requires n < geo.batch && g < geo.groups && m < geo.outPer && t < geo.taps
    requires geo.stride == 1 && Clipped(geo, t, o0, o1)
    requires SegmentStaged(geo.Out(), al, TapRound(geo, x[..], w[..], n, g), n, g, y0, y[..], m, t)
    modifies y
    ensures SegmentStaged(geo.Out(), al, TapRound(geo, x[..], w[..], n, g), n, g, y0, y[..], m + 1, t)
  {
    ghost var xs, ws, mid := x[..], w[..], y[..];
    Below(g, geo.groups, m, geo.outPer);
    RowInside(n, geo.batch, g * geo.outPer + m, geo.yChannels, geo.yLen);
    AddTapRow(geo, outC, al, x, w, y, n, g, m, t, o0, o1, (n * geo.yChannels + (g * geo.outPer + m)) * geo.yLen);
    StageRow(geo.Out(), al, TapRound(geo, xs, ws, n, g), n, g, y0, mid, y[..], m, t, TapRow(geo, al, xs, ws, n, g, m, t));
  }

  // One tap for every output row of the group.
  method GroupTap(geo: Geometry, ghost outC: nat, al: real, x: array<real>, w: array<real>, y: array<real>,
                  n: nat, g: nat, t: nat, ghost y0: seq<real>)
    requires Sizes(geo, outC, x.Length, w.Length, y.Length) && y != x && y != w
    requires n < geo.batch && g < geo.groups && t < geo.taps && geo.stride == 1
    requires SegmentStaged(geo.Out(), al, TapRound(geo, x[..], w[..], n, g), n, g, y0, y[..], 0, t)
    modifies y
    ensures SegmentStaged(geo.Out(), al, TapRound(geo, x[..], w[..], n, g), n, g, y0, y[..], 0, t + 1)
  {
    ghost var xs, ws := x[..], w[..];
    ghost var f := TapRound(geo, xs, ws, n, g);
    var shift := t * geo.dilation - geo.pad;
    var o0 := if shift < 0 then -shift else 0;
    var o1 := geo.xLen - shift;
    if o1 > geo.yLen {
      o1 := geo.yLen;
    }
    if o1 <= o0 {
      TapClipped(geo, xs, ws, n, g, t, o0, o1);
      RoundSkipped(geo.Out(), al, f, n, g, y0, y[..], t);
      return;
    }
    var m := 0;
    while m < geo.outPer
      invariant 0 <= m <= geo.outPer
      invariant x[..] == xs && w[..] == ws
      invariant SegmentStaged(geo.Out(), al, f, n, g, y0, y[..], m, t)
    {
      GroupTapRow(geo, outC, al, x, w, y, n, g, m, t, o0, o1, y0);
      m := m + 1;
    }
    RoundDone(geo.Out(), al, f, n, g, y0, y[..], t);
  }

  method ScaleRange(be: real, y: array<real>, lo: nat, hi: nat)
    requires lo <= hi <= y.Length
    modifies y
    ensures forall p :: 0 <= p < y.Length ==> y[p] == if lo <= p < hi then Mul(be, old(y[p])) else old(y[p])
  {
    var p := lo;
    while p < hi
      invariant lo <= p <= hi
      invariant forall q :: 0 <= q < y.Length ==> y[q] == if lo <= q < p then Mul(be, old(y[q])) else old(y[q])
    {
      Times(be, y[p]);
      y[p] := if be == 0.0 then 0.0 else be * y[p];
      p := p + 1;
    }
  }

  // The direct sum, at segment offset d.
  lemma ForwardOffset(geo: Geometry, al: real, be: real, x: seq<real>, w: seq<real>, y: seq<real>, n: nat, g: nat, d: nat, p: nat)
    requires geo.Fits() && n < geo.batch && g < geo.groups
    requires geo.yLen > 0 && d / geo.yLen < geo.outPer && p == geo.Out().Lo(n, g) + d && p < |y|
    ensures ForwardSpec(geo, al, be, x, w, y)[p]
         == Mul(be, y[p]) + Mul(al, ForwardAt(geo, x, w, n, g, d / geo.yLen, d % geo.yLen))
  {
    Rebuild(d, geo.yLen);
    SegmentRow(geo.Out(), n, g, d / geo.yLen);
    ForwardEntry(geo, al, be, x, w, y, n, g, d / geo.yLen, d % geo.yLen);
  }

  lemma AllTapsAt(geo: Geometry, al: real, be: real, x: seq<real>, w: seq<real>, n: nat, g: nat, before: seq<real>, p: nat)
    requires geo.Fits() && n < geo.batch && g < geo.groups
    requires p < |before| && geo.Out().Lo(n, g) <= p < geo.Out().Hi(n, g)
    ensures Staged(geo.Out(), al, TapRound(geo, x, w, n, g), Mul(be, before[p]), p - geo.Out().Lo(n, g), geo.taps)
         == ForwardSpec(geo, al, be, x, w, before)[p]
  {
    var d := p - geo.Out().Lo(n, g);
    OffsetInside(geo.Out(), n, g, d);
    ForwardOffset(geo, al, be, x, w, before, n, g, d, p);
    var m, o := d / geo.yLen, d % geo.yLen;
    TapByTap(geo, x, w, n, g, m, o);
    Congruent(geo.taps, TapSums(geo, x, w, n, g, m, o), Rounds(TapRound(geo, x, w, n, g), m, o));
  }

  lemma AllTaps(geo: Geometry, al: real, be: real, x: seq<real>, w: seq<real>, n: nat, g: nat,
                before: seq<real>, scaled: seq<real>, after: seq<real>)
    requires geo.Fits() && n < geo.batch && g < geo.groups && |scaled| == |before|
    requires forall p :: 0 <= p < |before| ==>
      scaled[p] == if geo.Out().Lo(n, g) <= p < geo.Out().Hi(n, g) then Mul(be, before[p]) else before[p]
    requires SegmentStaged(geo.Out(), al, TapRound(geo, x, w, n, g), n, g, scaled, after, 0, geo.taps)
    ensures SegmentIs(geo.Out(), n, g, before, after, ForwardSpec(geo, al, be, x, w, before))
  {
    forall p | 0 <= p < |after| && geo.Out().Lo(n, g) <= p < geo.Out().Hi(n, g)
      ensures after[p] == ForwardSpec(geo, al, be, x, w, before)[p]
    {
      OffsetInside(geo.Out(), n, g, p - geo.Out().Lo(n, g));
      AllTapsAt(geo, al, be, x, w, n, g, before, p);
    }
  }

  method GroupByTaps(geo: Geometry, ghost outC: nat, al: real, be: real, x: array<real>, w: array<real>, y: array<real>, n: nat, g: nat)
    requires Sizes(geo, outC, x.Length, w.Length, y.Length) && y != x && y != w
    requires n < geo.batch && g < geo.groups && geo.stride == 1
    modifies y
    ensures SegmentIs(geo.Out(), n, g, old(y[..]), y[..], ForwardSpec(geo, al, be, x[..], w[..], old(y[..])))
  {
    ghost var xs, ws, y0 := x[..], w[..], y[..];
    ghost var f := TapRound(geo, xs, ws, n, g);
    SegmentInside(geo.Out(), n, g);
    var lo: nat := (n * geo.yChannels + g * geo.outPer) * geo.yLen;
    ScaleRange(be, y, lo, lo + geo.outPer * geo.yLen);
    ghost var scaled := y[..];
    Untouched(geo.Out(), al, f, n, g, scaled);
    var t := 0;
    while t < geo.taps
      invariant 0 <= t <= geo.taps
      invariant x[..] == xs && w[..] == ws
      invariant SegmentStaged(geo.Out(), al, f, n, g, scaled, y[..], 0, t)
    {
      GroupTap(geo, outC, al, x, w, y, n, g, t, scaled);
      t := t + 1;
    }
    AllTaps(geo, al, be, xs, ws, n, g, y0, scaled, y[..]);
  }

  // ---- forward, any stride: unroll the input, one product ---------------------------

  // The unrolled taps of one input channel, for one output position.
  ghost function Unrolled(geo: Geometry, x: seq<real>, n: nat, g: nat, o: int, c: nat): (row: seq<real>)
    ensures |row| == geo.taps
  {
    seq(geo.taps, t requires 0 <= t < geo.taps => At(InputRow(geo, x, n, g, c), geo.Pos(o, t)))
  }

  lemma UnrolledColumn(geo: Geometry, x: seq<real>, n: nat, g: nat, o: int, c: nat, j: nat)
    requires c * geo.taps <= j < c * geo.taps + geo.taps
    ensures ColumnAt(geo, x, n, g, o, j) == Unrolled(geo, x, n, g, o, c)[j - c * geo.taps]
  {
    Unique(j, geo.taps, c, j - c * geo.taps);
  }

  method UnrollChannel(geo: Geometry, x: array<real>, n: nat, g: nat, o: nat, c: nat, first: nat, columns: nat, col: array2<real>)
    requires geo.Fits() && n < geo.batch && g < geo.groups && o < geo.yLen && c < geo.inPer
    requires geo.batch * geo.xChannels * geo.xLen <= x.Length
    requires col.Length0 == geo.yLen && col.Length1 == columns && first + geo.taps <= columns
    modifies col
    ensures forall o', j :: 0 <= o' < geo.yLen && o' != o && 0 <= j < columns ==> col[o', j] == old(col[o', j])
    ensures forall j :: 0 <= j < first ==> col[o, j] == old(col[o, j])
    ensures forall j :: first <= j < first + geo.taps ==> col[o, j] == Unrolled(geo, x[..], n, g, o, c)[j - first]
  {
    Below(g, geo.groups, c, geo.inPer);
    RowInside(n, geo.batch, g * geo.inPer + c, geo.xChannels, geo.xLen);
    var base: nat := (n * geo.xChannels + (g * geo.inPer + c)) * geo.xLen;
    ghost var xs := x[..];
    ghost var row := Unrolled(geo, xs, n, g, o, c);
    var t := 0;
    while t < geo.taps
      invariant 0 <= t <= geo.taps
      invariant x[..] == xs
      invariant forall o', j :: 0 <= o' < geo.yLen && o' != o && 0 <= j < columns ==> col[o', j] == old(col[o', j])
      invariant forall j :: 0 <= j < first ==> col[o, j] == old(col[o, j])
      invariant forall j :: first <= j < first + t ==> col[o, j] == row[j - first]
    {
      var i := geo.Pos(o, t);
      col[o, first + t] := if i < 0 || i >= geo.xLen then 0.0 else x[base + i];
      t := t + 1;
    }
  }

  method UnrollRow(geo: Geometry, x: array<real>, n: nat, g: nat, o: nat, col: array2<real>, columns: nat)
    requires geo.Fits() && n < geo.batch && g < geo.groups && o < geo.yLen
    requires geo.batch * geo.xChannels * geo.xLen <= x.Length
    requires col.Length0 == geo.yLen && col.Length1 == columns == geo.inPer * geo.taps
    modifies col
    ensures forall o', j :: 0 <= o' < geo.yLen && o' != o && 0 <= j < columns ==> col[o', j] == old(col[o', j])
    ensures forall j :: 0 <= j < columns ==> col[o, j] == ColumnAt(geo, x[..], n, g, o, j)
  {
    ghost var xs := x[..];
    var first := 0;
    var c := 0;
    while c < geo.inPer
      invariant 0 <= c <= geo.inPer && first == c * geo.taps && 0 <= first <= columns
      invariant x[..] == xs
      invariant forall o', j :: 0 <= o' < geo.yLen && o' != o && 0 <= j < columns ==> col[o', j] == old(col[o', j])
      invariant forall j :: 0 <= j < first ==> col[o, j] == ColumnAt(geo, xs, n, g, o, j)
    {
      MulMonotone(c + 1, geo.inPer, geo.taps);
      assert (c + 1) * geo.taps == c * geo.taps + geo.taps;
      UnrollChannel(geo, x, n, g, o, c, first, columns, col);
      forall j | first <= j < first + geo.taps
        ensures col[o, j] == ColumnAt(geo, xs, n, g, o, j)
      {
        UnrolledColumn(geo, xs, n, g, o, c, j);
      }
      first := first + geo.taps;
      c := c + 1;
    }
  }

  method Im2Col(geo: Geometry, x: array<real>, n: nat, g: nat) returns (col: array2<real>)
    requires geo.Fits() && n < geo.batch && g < geo.groups
    requires geo.batch * geo.xChannels * geo.xLen <= x.Length
    ensures fresh(col) && col.Length0 == geo.yLen && col.Length1 == geo.inPer * geo.taps
    ensures forall o, j :: 0 <= o < geo.yLen && 0 <= j < geo.inPer * geo.taps ==>
      col[o, j] == ColumnAt(geo, x[..], n, g, o, j)
  {
    ghost var xs := x[..];
    var columns: nat := geo.inPer * geo.taps;
    col := new real[geo.yLen, columns];
    var o := 0;
    while o < geo.yLen
      invariant 0 <= o <= geo.yLen
      invariant x[..] == xs
      invariant forall o', j :: 0 <= o' < o && 0 <= j < columns ==> col[o', j] == ColumnAt(geo, xs, n, g, o', j)
    {
      UnrollRow(geo, x, n, g, o, col, columns);
      o := o + 1;
    }
  }

  // One row of the filter matrix times one row of the unrolled input.
  method DotRow(w: array<real>, base: nat, columns: nat, col: array2<real>, o: nat, ghost terms: nat -> real) returns (acc: real)
    requires base + columns <= w.Length && o < col.Length0 && columns == col.Length1
    requires forall j: nat :: j < columns ==> terms(j) == Mul(w[base + j], col[o, j])
    ensures acc == Sum(columns, terms)
  {
    acc := 0.0;
    var j := 0;
    while j < columns
      invariant 0 <= j <= columns
      invariant acc == Sum(j, terms)
    {
      Times(w[base + j], col[o, j]);
      acc := acc + w[base + j] * col[o, j];
      j := j + 1;
    }
  }

  lemma FilterBlock(geo: Geometry, outC: nat, g: nat, m: nat)
    requires geo.groups * geo.outPer <= outC && g < geo.groups && m < geo.outPer
    ensures 0 <= (g * geo.outPer + m) * geo.inPer * geo.taps
    ensures (g * geo.outPer + m) * geo.inPer * geo.taps + geo.inPer * geo.taps <= outC * geo.inPer * geo.taps
  {
    Below(g, geo.groups, m, geo.outPer);
    var r := g * geo.outPer + m;
    MulMonotone(r + 1, outC, geo.inPer * geo.taps);
    Regroup(r, geo.inPer, geo.taps);
    Regroup(outC, geo.inPer, geo.taps);
    assert (r + 1) * (geo.inPer * geo.taps) == r * (geo.inPer * geo.taps) + geo.inPer * geo.taps;
  }

  method ColumnDot(geo: Geometry, ghost outC: nat, ghost x: seq<real>, w: array<real>, col: array2<real>, n: nat, g: nat, m: nat, o: nat)
    returns (acc: real)
    requires g < geo.groups && m < geo.outPer && o < geo.yLen
    requires geo.groups * geo.outPer <= outC && w.Length == outC * geo.inPer * geo.taps
    requires col.Length0 == geo.yLen && col.Length1 == geo.inPer * geo.taps
    requires forall j :: 0 <= j < geo.inPer * geo.taps ==> col[o, j] == ColumnAt(geo, x, n, g, o, j)
    ensures acc == ForwardAt(geo, x, w[..], n, g, m, o)
  {
    FilterBlock(geo, outC, g, m);
    ghost var ws := w[..];
    ghost var terms := ColumnTerms(geo, x, ws, n, g, m, o);
    var columns: nat := geo.inPer * geo.taps;
    acc := DotRow(w, (g * geo.outPer + m) * geo.inPer * geo.taps, columns, col, o, terms);
    ColumnProduct(geo, x, ws, n, g, m, o);
  }

  method Multiply(geo: Geometry, ghost outC: nat, ghost x: seq<real>, w: array<real>, col: array2<real>, n: nat, g: nat) returns (product: array2<real>)
    requires g < geo.groups && geo.groups * geo.outPer <= outC && w.Length == outC * geo.inPer * geo.taps
    requires col.Length0 == geo.yLen && col.Length1 == geo.inPer * geo.taps
    requires forall o, j :: 0 <= o < geo.yLen && 0 <= j < geo.inPer * geo.taps ==> col[o, j] == ColumnAt(geo, x, n, g, o, j)
    ensures fresh(product) && product.Length0 == geo.outPer && product.Length1 == geo.yLen
    ensures forall m, o :: 0 <= m < geo.outPer && 0 <= o < geo.yLen ==>
      product[m, o] == ForwardAt(geo, x, w[..], n, g, m, o)
  {
    ghost var ws := w[..];
    product := new real[geo.outPer, geo.yLen];
    var m := 0;
    while m < geo.outPer
      invariant 0 <= m <= geo.outPer
      invariant w[..] == ws
      invariant forall m', o :: 0 <= m' < m && 0 <= o < geo.yLen ==> product[m', o] == ForwardAt(geo, x, ws, n, g, m', o)
    {
      var o := 0;
      while o < geo.yLen
        invariant 0 <= o <= geo.yLen
        invariant w[..] == ws
        invariant forall m', o' :: 0 <= m' < m && 0 <= o' < geo.yLen ==> product[m', o'] == ForwardAt(geo, x, ws, n, g, m', o')
        invariant forall o' :: 0 <= o' < o ==> product[m, o'] == ForwardAt(geo, x, ws, n, g, m, o')
      {
        var v := ColumnDot(geo, outC, x, w, col, n, g, m, o);
        product[m, o] := v;
        o := o + 1;
      }
      m := m + 1;
    }
  }

  ghost predicate LaidOut(product: array2<real>, m: nat, row: seq<real>)
    reads product
  {
    m < product.Length0 && |row| == product.Length1 && forall o :: 0 <= o < |row| ==> product[m, o] == row[o]
  }

  // beta * y + alpha * product along one row.
  method BlendRow(al: real, be: real, product: array2<real>, m: nat, y: array<real>, base: nat, ghost row: seq<real>)
    requires LaidOut(product, m, row) && base + |row| <= y.Length
    modifies y
    ensures forall p :: 0 <= p < y.Length ==>
      y[p] == if base <= p < base + |row| then Mul(be, old(y[p])) + Mul(al, row[p - base]) else old(y[p])
  {
    var i := 0;
    while i < product.Length1
      invariant 0 <= i <= product.Length1
      invariant LaidOut(product, m, row)
      invariant forall p :: 0 <= p < y.Length ==>
        y[p] == if base <= p < base + i then Mul(be, old(y[p])) + Mul(al, row[p - base]) else old(y[p])
    {
      Times(be, y[base + i]);
      Times(al, product[m, i]);
      y[base + i] := be * y[base + i] + al * product[m, i];
      i := i + 1;
    }
  }

  // after is beta * before + alpha * values from lo on, and before elsewhere.
  ghost predicate Blended(al: real, be: real, before: seq<real>, after: seq<real>, lo: int, values: seq<real>) {
    && |before| == |after|
    && forall p :: 0 <= p < |after| ==>
      after[p] == if lo <= p < lo + |values| then Mul(be, before[p]) + Mul(al, values[p - lo]) else before[p]
  }

  ghost function Segment(s: seq<real>, from: int, len: nat): seq<real> {
    if 0 <= from && from + len <= |s| then s[from..from + len] else []
  }

  // beta * y + alpha * product, the product's rows laid end to end from lo on.
  method Blend(al: real, be: real, product: array2<real>, y: array<real>, lo: nat, ghost values: seq<real>)
    requires |values| == product.Length0 * product.Length1 && lo + |values| <= y.Length
    requires forall m: nat :: m < product.Length0 ==> LaidOut(product, m, Segment(values, m * product.Length1, product.Length1))
    modifies y
    ensures Blended(al, be, old(y[..]), y[..], lo, values)
  {
    var k := 0;
    var m := 0;
    while m < product.Length0
      invariant 0 <= m <= product.Length0 && k == m * product.Length1 && 0 <= k <= |values|
      invariant forall p :: 0 <= p < y.Length ==>
        y[p] == if lo <= p < lo + k then Mul(be, old(y[p])) + Mul(al, values[p - lo]) else old(y[p])
    {
      MulMonotone(m + 1, product.Length0, product.Length1);
      assert (m + 1) * product.Length1 == m * product.Length1 + product.Length1;
      BlendRow(al, be, product, m, y, lo + k, Segment(values, k, product.Length1));
      k := k + product.Length1;
      m := m + 1;
    }
  }

  ghost function GroupValue(geo: Geometry, x: seq<real>, w: seq<real>, n: nat, g: nat, d: nat): real
  {
    if geo.yLen == 0 then 0.0 else ForwardAt(geo, x, w, n, g, d / geo.yLen, d % geo.yLen)
  }

  // The group's output, row after row, before blending.
  ghost function GroupValues(geo: Geometry, x: seq<real>, w: seq<real>, n: nat, g: nat): (values: seq<real>)
    ensures |values| == geo.outPer * geo.yLen
  {
    seq(geo.outPer * geo.yLen, d requires 0 <= d < geo.outPer * geo.yLen => GroupValue(geo, x, w, n, g, d))
  }

  lemma GroupRow(geo: Geometry, x: seq<real>, w: seq<real>, n: nat, g: nat, m: nat, k: nat)
    requires m < geo.outPer && k == m * geo.yLen
    ensures |Segment(GroupValues(geo, x, w, n, g), k, geo.yLen)| == geo.yLen
    ensures forall o :: 0 <= o < geo.yLen ==>
      Segment(GroupValues(geo, x, w, n, g), k, geo.yLen)[o] == ForwardAt(geo, x, w, n, g, m, o)
  {
    RowInSegment(geo.Out(), m);
    forall o | 0 <= o < geo.yLen
      ensures GroupValues(geo, x, w, n, g)[k + o] == ForwardAt(geo, x, w, n, g, m, o)
    {
      Unique(k + o, geo.yLen, m, o);
    }
  }

  lemma ProductLaidOut(geo: Geometry, x: seq<real>, w: seq<real>, n: nat, g: nat, product: array2<real>)
    requires product.Length0 == geo.outPer && product.Length1 == geo.yLen
    requires forall m, o :: 0 <= m < geo.outPer && 0 <= o < geo.yLen ==> product[m, o] == ForwardAt(geo, x, w, n, g, m, o)
    ensures forall m: nat :: m < geo.outPer ==>
      LaidOut(product, m, Segment(GroupValues(geo, x, w, n, g), m * geo.yLen, geo.yLen))
  {
    forall m: nat | m < geo.outPer
      ensures LaidOut(product, m, Segment(GroupValues(geo, x, w, n, g), m * geo.yLen, geo.yLen))
    {
      GroupRow(geo, x, w, n, g, m, m * geo.yLen);
    }
  }

  lemma BlendedPoint(geo: Geometry, al: real, be: real, x: seq<real>, w: seq<real>, n: nat, g: nat, before: seq<real>, p: nat)
    requires geo.Fits() && n < geo.batch && g < geo.groups
    requires p < |before| && geo.Out().Lo(n, g) <= p < geo.Out().Hi(n, g)
    ensures ForwardSpec(geo, al, be, x, w, before)[p]
         == Mul(be, before[p]) + Mul(al, GroupValues(geo, x, w, n, g)[p - geo.Out().Lo(n, g)])
  {
    OffsetInside(geo.Out(), n, g, p - geo.Out().Lo(n, g));
    ForwardOffset(geo, al, be, x, w, before, n, g, p - geo.Out().Lo(n, g), p);
  }

  lemma BlendedReaches(al: real, be: real, before: seq<real>, after: seq<real>, lo: int, values: seq<real>, target: seq<real>)
    requires Blended(al, be, before, after, lo, values) && |target| == |before|
    requires forall p :: 0 <= p < |before| && lo <= p < lo + |values| ==>
      target[p] == Mul(be, before[p]) + Mul(al, values[p - lo])
    ensures forall p :: 0 <= p < |after| ==> after[p] == if lo <= p < lo + |values| then target[p] else before[p]
  {
  }

  lemma BlendedSegment(geo: Geometry, al: real, be: real, x: seq<real>, w: seq<real>, n: nat, g: nat,
                       before: seq<real>, after: seq<real>)
    requires geo.Fits() && n < geo.batch && g < geo.groups
    requires Blended(al, be, before, after, geo.Out().Lo(n, g), GroupValues(geo, x, w, n, g))
    ensures SegmentIs(geo.Out(), n, g, before, after, ForwardSpec(geo, al, be, x, w, before))
  {
    var lo, values, target := geo.Out().Lo(n, g), GroupValues(geo, x, w, n, g), ForwardSpec(geo, al, be, x, w, before);
    forall p | 0 <= p < |before| && lo <= p < lo + |values|
      ensures target[p] == Mul(be, before[p]) + Mul(al, values[p - lo])
    {
      BlendedPoint(geo, al, be, x, w, n, g, before, p);
    }
    BlendedReaches(al, be, before, after, lo, values, target);
  }

  method GroupByColumns(geo: Geometry, ghost outC: nat, al: real, be: real, x: array<real>, w: array<real>, y: array<real>, n: nat, g: nat)
    requires Sizes(geo, outC, x.Length, w.Length, y.Length) && y != x && y != w
    requires n < geo.batch && g < geo.groups
    modifies y
    ensures SegmentIs(geo.Out(), n, g, old(y[..]), y[..], ForwardSpec(geo, al, be, x[..], w[..], old(y[..])))
  {
    ghost var xs, ws, y0 := x[..], w[..], y[..];
    var col := Im2Col(geo, x, n, g);
    var product := Multiply(geo, outC, xs, w, col, n, g);
    ghost var values := GroupValues(geo, xs, ws, n, g);
    SegmentInside(geo.Out(), n, g);
    ProductLaidOut(geo, xs, ws, n, g, product);
    Blend(al, be, product, y, (n * geo.yChannels + g * geo.outPer) * geo.yLen, values);
    BlendedSegment(geo, al, be, xs, ws, n, g, y0, y[..]);
  }

  // ---- the entry point -----------------------------------------------------------------

  // A position keeps its own target whatever happened elsewhere.
  lemma SameTarget(geo: Geometry, al: real, be: real, x: seq<real>, w: seq<real>, y0: seq<real>, y: seq<real>, lo: int)
    requires PrefixIs(lo, y0, y, ForwardSpec(geo, al, be, x, w, y0))
    ensures forall p :: 0 <= p < |y| && p >= lo ==> ForwardSpec(geo, al, be, x, w, y)[p] == ForwardSpec(geo, al, be, x, w, y0)[p]
  {
  }

  lemma SegmentTarget(geo: Geometry, al: real, be: real, x: seq<real>, w: seq<real>, y0: seq<real>, mid: seq<real>, after: seq<real>, n: nat, g: nat)
    requires geo.Fits() && n < geo.batch && g < geo.groups
    requires PrefixIs(geo.Out().Lo(n, g), y0, mid, ForwardSpec(geo, al, be, x, w, y0))
    requires SegmentIs(geo.Out(), n, g, mid, after, ForwardSpec(geo, al, be, x, w, mid))
    ensures PrefixIs(geo.Out().Lo(n, g + 1), y0, after, ForwardSpec(geo, al, be, x, w, y0))
  {
    SameTarget(geo, al, be, x, w, y0, mid, geo.Out().Lo(n, g));
    NextSegment(geo.Out(), n, g, y0, mid, after, ForwardSpec(geo, al, be, x, w, y0));
  }

  lemma ItemEnds(lay: Layout, n: nat)
    requires lay.Fits()
    ensures lay.Lo(n, lay.groups) <= lay.Lo(n + 1, 0)
  {
    assert (n + 1) * lay.channels == n * lay.channels + lay.channels;
    MulMonotone(n * lay.channels + lay.groups * lay.per, n * lay.channels + lay.channels, lay.len);
  }

  // Channels past the last group are left alone.
  lemma ItemDone(geo: Geometry, al: real, be: real, x: seq<real>, w: seq<real>, y0: seq<real>, y: seq<real>, n: nat)
    requires geo.Fits() && n < geo.batch
    requires PrefixIs(geo.Out().Lo(n, geo.groups), y0, y, ForwardSpec(geo, al, be, x, w, y0))
    ensures PrefixIs(geo.Out().Lo(n + 1, 0), y0, y, ForwardSpec(geo, al, be, x, w, y0))
  {
    var lo, hi, target := geo.Out().Lo(n, geo.groups), geo.Out().Lo(n + 1, 0), ForwardSpec(geo, al, be, x, w, y0);
    forall p | 0 <= p < |y| && p < hi
      ensures y[p] == target[p]
    {
      if p >= lo {
        Gap(geo.Out(), n, p);
      }
    }
    ItemEnds(geo.Out(), n);
  }

  lemma AllItems(geo: Geometry, al: real, be: real, x: seq<real>, w: seq<real>, y0: seq<real>, y: seq<real>)
    requires PrefixIs(geo.Out().Lo(geo.batch, 0), y0, y, ForwardSpec(geo, al, be, x, w, y0))
    ensures y == ForwardSpec(geo, al, be, x, w, y0)
  {
    var target := ForwardSpec(geo, al, be, x, w, y0);
    forall p | 0 <= p < |y|
      ensures y[p] == target[p]
    {
      if p >= geo.Out().Lo(geo.batch, 0) && geo.yLen > 0 && geo.yChannels > 0 {
        Past(geo.Out(), p);
      }
    }
  }

  method ForwardBatch(geo: Geometry, ghost outC: nat, al: real, be: real, x: array<real>, w: array<real>, y: array<real>)
    requires Sizes(geo, outC, x.Length, w.Length, y.Length) && y != x && y != w
    modifies y
    ensures y[..] == ForwardSpec(geo, al, be, x[..], w[..], old(y[..]))
  {
    ghost var xs, ws, y0 := x[..], w[..], y[..];
    ghost var target := ForwardSpec(geo, al, be, xs, ws, y0);
    var n := 0;
    while n < geo.batch
      invariant 0 <= n <= geo.batch
      invariant x[..] == xs && w[..] == ws
      invariant PrefixIs(geo.Out().Lo(n, 0), y0, y[..], target)
    {
      var g := 0;
      while g < geo.groups
        invariant 0 <= g <= geo.groups
        invariant x[..] == xs && w[..] == ws
        invariant PrefixIs(geo.Out().Lo(n, g), y0, y[..], target)
      {
        ghost var mid := y[..];
        if geo.stride == 1 {
          GroupByTaps(geo, outC, al, be, x, w, y, n, g);
        } else {
          GroupByColumns(geo, outC, al, be, x, w, y, n, g);
        }
        SegmentTarget(geo, al, be, xs, ws, y0, mid, y[..], n, g);
        g := g + 1;
      }
      ItemDone(geo, al, be, xs, ws, y0, y[..], n);
      n := n + 1;
    }
    AllItems(geo, al, be, xs, ws, y0, y[..]);
  }

  ghost predicate Supported(xDesc: TensorDesc, yDesc: TensorDesc) {
    As1D(xDesc).Shape? && As1D(yDesc).Shape?
  }

  // The descriptors are sane enough to read a geometry off.
  ghost predicate Readable(xDesc: TensorDesc, wDesc: FilterDesc, conv: ConvDesc, yDesc: TensorDesc) {
    && Supported(xDesc, yDesc)
    && As1D(xDesc).Sized() && As1D(yDesc).Sized() && FilterSized(wDesc)
    && 0 <= Slot(As1D(xDesc), conv) < 4
  }

  ghost function ForwardGeometry(xDesc: TensorDesc, wDesc: FilterDesc, conv: ConvDesc, yDesc: TensorDesc): Geometry
    requires Readable(xDesc, wDesc, conv, yDesc)
  {
    GeometryOf(As1D(xDesc).n, As1D(xDesc), As1D(yDesc), wDesc, conv)
  }

  // What a supported call leaves in y.
  ghost function ForwardResult(alpha: Scalar, xDesc: TensorDesc, x: seq<real>, wDesc: FilterDesc, w: seq<real>,
                               conv: ConvDesc, beta: Scalar, yDesc: TensorDesc, y: seq<real>): (r: seq<real>)
    requires Readable(xDesc, wDesc, conv, yDesc)
    ensures |r| == |y|
  {
    ForwardSpec(ForwardGeometry(xDesc, wDesc, conv, yDesc), alpha.Or(1.0), beta.Or(0.0), x, w, y)
  }

  // y = alpha * conv(x, w) + beta * y.  Only a supported call demands anything of its
  // buffers: that they have the sizes the descriptors say and that y is neither input.
  method ConvolutionForward(alpha: Scalar, xDesc: TensorDesc, x: array<real>, wDesc: FilterDesc, w: array<real>,
                            conv: ConvDesc, beta: Scalar, yDesc: TensorDesc, y: array<real>)
    returns (status: int)
    requires xDesc.kind == FLOAT && wDesc.kind == FLOAT && Supported(xDesc, yDesc) ==>
      && Readable(xDesc, wDesc, conv, yDesc)
      && Sizes(ForwardGeometry(xDesc, wDesc, conv, yDesc), wDesc.dim[0], x.Length, w.Length, y.Length)
      && y != x && y != w
    modifies y
    ensures status == OK <==> xDesc.kind == FLOAT && wDesc.kind == FLOAT && Supported(xDesc, yDesc)
    ensures status == OK ==>
      y[..] == ForwardResult(alpha, xDesc, x[..], wDesc, w[..], conv, beta, yDesc, old(y[..]))
    ensures status != OK ==> status == NOT_SUPPORTED && y[..] == old(y[..])
  {
    if xDesc.kind != FLOAT || wDesc.kind != FLOAT {
      return NOT_SUPPORTED;
    }
    var xs, ys := As1D(xDesc), As1D(yDesc);
    if xs.Unsupported? || ys.Unsupported? {
      return NOT_SUPPORTED;
    }
    var k := CountTaps(wDesc);
    TapsSized(wDesc, wDesc.nb);
    var groups := Groups(conv);
    var sp := Slot(xs, conv);
    var geo := Geometry(xs.n, groups, wDesc.dim[1], wDesc.dim[0] / groups, k, xs.c, xs.len, ys.c, ys.len,
                        conv.pad[sp], conv.stride[sp], conv.dilation[sp]);
    ForwardBatch(geo, wDesc.dim[0], alpha.Or(1.0), beta.Or(0.0), x, w, y);
    return OK;
  }
}
