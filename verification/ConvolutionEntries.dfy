// What the two entry points leave in their buffers, element by element and in the fields
// of the descriptors they are handed.
module ConvolutionEntries {
  import opened Division
  import opened Products
  import opened Sums
  import opened Convolution
  import opened ConvolutionForms
  import opened ConvolutionKernels
  import opened ConvolutionBackward

  // ---- the numbers of a call -----------------------------------------------------------------

  // The one spatial extent of a tensor: its third dimension, or its fourth if it has four
  // of which the last is not 1.
  predicate Extent(t: TensorDesc, len: int) {
    len == if t.nb == 4 && t.dim[3] != 1 then t.dim[3] else t.dim[2]
  }

  // The place of pad, stride and dilation in the convolution's arrays: that of x's extent,
  // if it has so many.
  predicate Place(xDesc: TensorDesc, conv: ConvDesc, sp: int) {
    sp == if xDesc.nb == 4 && xDesc.dim[3] != 1 && conv.nb >= 2 then 1 else 0
  }

  // The groups, and the channels of y in each.
  predicate Grouped(conv: ConvDesc, wDesc: FilterDesc, groups: int, per: int) {
    groups == (if conv.groups > 0 then conv.groups else 1) && per == wDesc.dim[0] / groups
  }

  // A scalar, or what it stands for when there is none.
  predicate Means(scalar: Scalar, default: real, v: real) {
    v == if scalar.Null? then default else scalar.v
  }

  // The taps of filters of the usual ranks.
  lemma TapsListed(w: FilterDesc)
    requires w.nb <= 8
    ensures w.nb <= 2 ==> Taps(w, w.nb) == 1
    ensures w.nb == 3 ==> Taps(w, w.nb) == w.dim[2]
    ensures w.nb == 4 ==> Taps(w, w.nb) == w.dim[2] * w.dim[3]
    ensures w.nb == 5 ==> Taps(w, w.nb) == w.dim[2] * w.dim[3] * w.dim[4]
  {
    assert Taps(w, 2) == 1;
    assert Taps(w, 3) == w.dim[2];
  }

  lemma GeometryFields(batch: nat, xDesc: TensorDesc, wDesc: FilterDesc, conv: ConvDesc, yDesc: TensorDesc,
                       xLen: int, yLen: int, sp: int, groups: int, per: int)
    requires Readable(xDesc, wDesc, conv, yDesc) && Extent(xDesc, xLen) && Extent(yDesc, yLen)
    requires Place(xDesc, conv, sp) && Grouped(conv, wDesc, groups, per)
    ensures Taps(wDesc, wDesc.nb) >= 0 && per >= 0
    ensures GeometryOf(batch, As1D(xDesc), As1D(yDesc), wDesc, conv)
         == Geometry(batch, groups, wDesc.dim[1], per, Taps(wDesc, wDesc.nb), xDesc.dim[1], xLen, yDesc.dim[1], yLen,
                     conv.pad[sp], conv.stride[sp], conv.dilation[sp])
  {
    TapsSized(wDesc, wDesc.nb);
  }

  lemma {:induction false} SameSums(a: nat, b: nat, f: (nat, nat) -> real, h: (nat, nat) -> real)
    requires forall i: nat, j: nat :: i < a && j < b ==> f(i, j) == h(i, j)
    ensures Sum(a, Inner(b, f)) == Sum(a, Inner(b, h))
  {
    forall i: nat | i < a ensures Inner(b, f)(i) == Inner(b, h)(i) {
      Congruent(b, Fix(f, i), Fix(h, i));
    }
    Congruent(a, Inner(b, f), Inner(b, h));
  }

  // ---- forward -------------------------------------------------------------------------------

  // Input channel c through tap t: filter element wAt + c * taps + t times the element of
  // row xRow + c at first + t * dilation, if that is inside the row.
  ghost function Reads(x: seq<real>, w: seq<real>, wRow: int, taps: int, xRow: int, xLen: int, first: int, dilation: int)
    : (nat, nat) -> real
  {
    (c: nat, t: nat) =>
      Mul(At(w, (wRow + c) * taps + t),
          if 0 <= first + t * dilation < xLen then At(x, (xRow + c) * xLen + (first + t * dilation)) else 0.0)
  }

  lemma RowElement(s: seq<real>, r: nat, len: nat, i: int)
    ensures At(Row(s, r, len), i) == if 0 <= i < len then At(s, r * len + i) else 0.0
  {
  }

  lemma ReadsTerm(geo: Geometry, x: seq<real>, w: seq<real>, n: nat, g: nat, m: nat, o: int, c: nat, t: nat,
                  wRow: int, xRow: int, first: int)
    requires t < geo.taps && wRow >= 0 && xRow >= 0 && wRow == (g * geo.outPer + m) * geo.inPer && xRow == n * geo.xChannels + g * geo.inPer
    requires first == o * geo.stride - geo.pad
    ensures Terms(geo, x, w, n, g, m, o)(c, t) == Reads(x, w, wRow, geo.taps, xRow, geo.xLen, first, geo.dilation)(c, t)
  {
    RowElement(w, wRow + c, geo.taps, t);
    RowElement(x, xRow + c, geo.xLen, first + t * geo.dilation);
  }

  lemma ForwardSums(geo: Geometry, x: seq<real>, w: seq<real>, n: nat, g: nat, m: nat, o: nat,
                    wRow: int, xRow: int, first: int, f: (nat, nat) -> real)
    requires wRow == (g * geo.outPer + m) * geo.inPer && xRow == n * geo.xChannels + g * geo.inPer
    requires first == o * geo.stride - geo.pad && f == Reads(x, w, wRow, geo.taps, xRow, geo.xLen, first, geo.dilation)
    ensures ForwardAt(geo, x, w, n, g, m, o) == Sum(geo.inPer, Inner(geo.taps, f))
  {
    ForwardByChannel(geo, x, w, n, g, m, o);
    forall c: nat, t: nat | c < geo.inPer && t < geo.taps
      ensures Terms(geo, x, w, n, g, m, o)(c, t) == f(c, t)
    {
      ReadsTerm(geo, x, w, n, g, m, o, c, t, wRow, xRow, first);
    }
    SameSums(geo.inPer, geo.taps, Terms(geo, x, w, n, g, m, o), f);
  }

  lemma ForwardElement(geo: Geometry, al: real, be: real, x: seq<real>, w: seq<real>, y: seq<real>,
                       n: nat, g: nat, m: nat, o: nat, p: nat, sum: real)
    requires geo.Fits() && n < geo.batch && g < geo.groups && m < geo.outPer && o < geo.yLen
    requires p == (n * geo.yChannels + (g * geo.outPer + m)) * geo.yLen + o && p < |y|
    requires sum == ForwardAt(geo, x, w, n, g, m, o)
    ensures ForwardSpec(geo, al, be, x, w, y)[p] == Mul(be, y[p]) + Mul(al, sum)
  {
    ForwardEntry(geo, al, be, x, w, y, n, g, m, o);
  }

  // Element o of output channel m of group g in item n of y: beta times what it was, plus
  // alpha times the sum over the input channels of the group and the taps of filter
  // element times input element, where tap t reads input position
  // o * stride - pad + t * dilation.
  lemma ForwardInFields(alpha: Scalar, xDesc: TensorDesc, x: seq<real>, wDesc: FilterDesc, w: seq<real>,
                        conv: ConvDesc, beta: Scalar, yDesc: TensorDesc, y: seq<real>,
                        al: real, be: real, xLen: int, yLen: int, sp: int, groups: int, per: int,
                        n: nat, g: nat, m: nat, o: nat, wRow: int, xRow: int, first: int, p: nat)
    requires Readable(xDesc, wDesc, conv, yDesc) && Means(alpha, 1.0, al) && Means(beta, 0.0, be)
    requires Extent(xDesc, xLen) && Extent(yDesc, yLen) && Place(xDesc, conv, sp) && Grouped(conv, wDesc, groups, per)
    requires groups * wDesc.dim[1] <= xDesc.dim[1] && groups * per <= yDesc.dim[1]
    requires n < xDesc.dim[0] && g < groups && m < per && o < yLen
    requires wRow == (g * per + m) * wDesc.dim[1] && xRow == n * xDesc.dim[1] + g * wDesc.dim[1]
    requires first == o * conv.stride[sp] - conv.pad[sp]
    requires p == (n * yDesc.dim[1] + (g * per + m)) * yLen + o && p < |y|
    ensures Taps(wDesc, wDesc.nb) >= 0
    ensures ForwardResult(alpha, xDesc, x, wDesc, w, conv, beta, yDesc, y)[p]
         == Mul(be, y[p])
          + Mul(al, Sum(wDesc.dim[1], Inner(Taps(wDesc, wDesc.nb),
                    Reads(x, w, wRow, Taps(wDesc, wDesc.nb), xRow, xLen, first, conv.dilation[sp]))))
  {
    GeometryFields(xDesc.dim[0], xDesc, wDesc, conv, yDesc, xLen, yLen, sp, groups, per);
    var geo := ForwardGeometry(xDesc, wDesc, conv, yDesc);
    var f := Reads(x, w, wRow, geo.taps, xRow, geo.xLen, first, geo.dilation);
    ForwardSums(geo, x, w, n, g, m, o, wRow, xRow, first, f);
    ForwardElement(geo, al, be, x, w, y, n, g, m, o, p, Sum(geo.inPer, Inner(geo.taps, f)));
  }

  // ---- backward ------------------------------------------------------------------------------

  // Position o of dy through tap t to position i of dx: their product if
  // first + o * stride + t * dilation is i, where first is minus the padding.
  ghost function Sends(dy: seq<real>, w: seq<real>, wRow: int, taps: int, yRow: int, yLen: int,
                       pad: int, stride: int, dilation: int, i: int): (nat, nat) -> real
  {
    (o: nat, t: nat) =>
      if o * stride - pad + t * dilation == i then Mul(At(dy, yRow * yLen + o), At(w, wRow * taps + t)) else 0.0
  }

  // ... over the channels of a group of dy, all positions and all taps.
  ghost function Sent(dy: seq<real>, w: seq<real>, wRow: int, wStep: int, taps: nat, yRow: int, yLen: nat,
                      pad: int, stride: int, dilation: int, i: int): nat -> real
  {
    (m: nat) => Sum(yLen, Inner(taps, Sends(dy, w, wRow + m * wStep, taps, yRow + m, yLen, pad, stride, dilation, i)))
  }

  lemma SendsTerm(geo: Geometry, dy: seq<real>, w: seq<real>, n: nat, g: nat, c: nat, i: int, m: nat, o: nat, t: nat,
                  wRow: int, yRow: int)
    requires t < geo.taps && o < geo.yLen
    requires wRow == (g * geo.outPer + m) * geo.inPer + c && yRow == n * geo.yChannels + (g * geo.outPer + m)
    ensures HitTerms(geo, At(OutputRow(geo, dy, n, g, m), o), FilterRow(geo, w, g * geo.outPer + m, c), o, i)(t)
         == Sends(dy, w, wRow, geo.taps, yRow, geo.yLen, geo.pad, geo.stride, geo.dilation, i)(o, t)
  {
    assert At(FilterRow(geo, w, g * geo.outPer + m, c), t) == At(w, wRow * geo.taps + t);
    assert At(OutputRow(geo, dy, n, g, m), o) == At(dy, yRow * geo.yLen + o);
  }

  lemma SentChannel(geo: Geometry, dy: seq<real>, w: seq<real>, n: nat, g: nat, c: nat, i: int, m: nat, wRow: int, yRow: int)
    requires wRow == (g * geo.outPer + m) * geo.inPer + c && yRow == n * geo.yChannels + (g * geo.outPer + m)
    ensures BackwardTerms(geo, dy, w, n, g, c, i)(m)
         == Sum(geo.yLen, Inner(geo.taps, Sends(dy, w, wRow, geo.taps, yRow, geo.yLen, geo.pad, geo.stride, geo.dilation, i)))
  {
    var row, filter := OutputRow(geo, dy, n, g, m), FilterRow(geo, w, g * geo.outPer + m, c);
    var f := Sends(dy, w, wRow, geo.taps, yRow, geo.yLen, geo.pad, geo.stride, geo.dilation, i);
    forall o: nat | o < geo.yLen ensures ScatterTerms(geo, row, filter, i)(o) == Inner(geo.taps, f)(o) {
      forall t: nat | t < geo.taps ensures HitTerms(geo, At(row, o), filter, o, i)(t) == Fix(f, o)(t) {
        SendsTerm(geo, dy, w, n, g, c, i, m, o, t, wRow, yRow);
      }
      Congruent(geo.taps, HitTerms(geo, At(row, o), filter, o, i), Fix(f, o));
    }
    Congruent(geo.yLen, ScatterTerms(geo, row, filter, i), Inner(geo.taps, f));
  }

  // Row m of the group, counted from its first.
  lemma GroupRows(g: nat, per: nat, m: nat, inPer: nat, c: nat, wRow: int)
    requires wRow == g * per * inPer + c
    ensures wRow + m * inPer == (g * per + m) * inPer + c
  {
    Spread(g * per, m, inPer);
  }

  lemma BackwardSums(geo: Geometry, w: seq<real>, dy: seq<real>, n: nat, g: nat, c: nat, i: nat, wRow: int, yRow: int, f: nat -> real)
    requires wRow == g * geo.outPer * geo.inPer + c && yRow == n * geo.yChannels + g * geo.outPer
    requires f == Sent(dy, w, wRow, geo.inPer, geo.taps, yRow, geo.yLen, geo.pad, geo.stride, geo.dilation, i)
    ensures BackwardAt(geo, dy, w, n, g, c, i) == Sum(geo.outPer, f)
  {
    forall m: nat | m < geo.outPer ensures BackwardTerms(geo, dy, w, n, g, c, i)(m) == f(m) {
      GroupRows(g, geo.outPer, m, geo.inPer, c, wRow);
      SentChannel(geo, dy, w, n, g, c, i, m, wRow + m * geo.inPer, yRow + m);
    }
    Congruent(geo.outPer, BackwardTerms(geo, dy, w, n, g, c, i), f);
  }

  lemma BackwardElement(geo: Geometry, al: real, be: real, w: seq<real>, dy: seq<real>, dx: seq<real>,
                        n: nat, g: nat, c: nat, i: nat, p: nat, sum: real)
    requires geo.Fits() && n < geo.batch && g < geo.groups && c < geo.inPer && i < geo.xLen
    requires p == (n * geo.xChannels + (g * geo.inPer + c)) * geo.xLen + i && p < |dx|
    requires sum == BackwardAt(geo, dy, w, n, g, c, i)
    ensures BackwardSpec(geo, al, be, w, dy, dx)[p] == Mul(be, dx[p]) + Mul(al, sum)
  {
    BackwardEntry(geo, al, be, w, dy, dx, n, g, c, i);
  }

  // Element i of channel c of group g in item n of dx: beta times what it was, plus alpha
  // times the sum, over the channels of the group in dy, their positions o and the taps t
  // for which o * stride - pad + t * dilation is i, of filter element times element of dy.
  lemma BackwardInFields(alpha: Scalar, wDesc: FilterDesc, w: seq<real>, dyDesc: TensorDesc, dy: seq<real>,
                         conv: ConvDesc, beta: Scalar, dxDesc: TensorDesc, dx: seq<real>,
                         al: real, be: real, xLen: int, yLen: int, sp: int, groups: int, per: int,
                         n: nat, g: nat, c: nat, i: nat, wRow: int, yRow: int, p: nat)
    requires Readable(dxDesc, wDesc, conv, dyDesc) && Means(alpha, 1.0, al) && Means(beta, 0.0, be)
    requires Extent(dxDesc, xLen) && Extent(dyDesc, yLen) && Place(dxDesc, conv, sp) && Grouped(conv, wDesc, groups, per)
    requires groups * wDesc.dim[1] <= dxDesc.dim[1] && groups * per <= dyDesc.dim[1]
    requires n < dyDesc.dim[0] && g < groups && c < wDesc.dim[1] && i < xLen
    requires wRow == g * per * wDesc.dim[1] + c && yRow == n * dyDesc.dim[1] + g * per
    requires p == (n * dxDesc.dim[1] + (g * wDesc.dim[1] + c)) * xLen + i && p < |dx|
    ensures Taps(wDesc, wDesc.nb) >= 0 && per >= 0 && yLen >= 0
    ensures BackwardResult(alpha, wDesc, w, dyDesc, dy, conv, beta, dxDesc, dx)[p]
         == Mul(be, dx[p])
          + Mul(al, Sum(per, Sent(dy, w, wRow, wDesc.dim[1], Taps(wDesc, wDesc.nb), yRow, yLen,
                                  conv.pad[sp], conv.stride[sp], conv.dilation[sp], i)))
  {
    GeometryFields(dyDesc.dim[0], dxDesc, wDesc, conv, dyDesc, xLen, yLen, sp, groups, per);
    var geo := BackwardGeometry(wDesc, dyDesc, conv, dxDesc);
    var f := Sent(dy, w, wRow, geo.inPer, geo.taps, yRow, geo.yLen, geo.pad, geo.stride, geo.dilation, i);
    BackwardSums(geo, w, dy, n, g, c, i, wRow, yRow, f);
    BackwardElement(geo, al, be, w, dy, dx, n, g, c, i, p, Sum(geo.outPer, f));
  }

  // ---- what no group covers --------------------------------------------------------------------

  lemma RowAndPosition(n: nat, channels: nat, ch: nat, len: nat, i: nat, row: int, p: int)
    requires ch < channels && i < len && row == n * channels + ch && p == row * len + i
    ensures row >= 0 && p >= 0 && p / len == row && p % len == i && row / channels == n && row % channels == ch
  {
    MulMonotone(0, n, channels);
    MulMonotone(0, row, len);
    Unique(row, channels, n, ch);
    Unique(p, len, row, i);
  }

  // Channels of y past the last group, and items that x does not have, are left alone.
  lemma ForwardElsewhere(alpha: Scalar, xDesc: TensorDesc, x: seq<real>, wDesc: FilterDesc, w: seq<real>,
                         conv: ConvDesc, beta: Scalar, yDesc: TensorDesc, y: seq<real>,
                         xLen: int, yLen: int, sp: int, groups: int, per: int, n: nat, ch: nat, o: nat, row: nat, p: nat)
    requires Readable(xDesc, wDesc, conv, yDesc) && Extent(xDesc, xLen) && Extent(yDesc, yLen)
    requires Place(xDesc, conv, sp) && Grouped(conv, wDesc, groups, per)
    requires ch < yDesc.dim[1] && o < yLen && (n >= xDesc.dim[0] || ch >= groups * per)
    requires row == n * yDesc.dim[1] + ch && p == row * yLen + o && p < |y|
    ensures ForwardResult(alpha, xDesc, x, wDesc, w, conv, beta, yDesc, y)[p] == y[p]
  {
    GeometryFields(xDesc.dim[0], xDesc, wDesc, conv, yDesc, xLen, yLen, sp, groups, per);
    RowAndPosition(n, yDesc.dim[1], ch, yLen, o, row, p);
  }

  // Those of dx are only scaled.
  lemma BackwardElsewhere(alpha: Scalar, wDesc: FilterDesc, w: seq<real>, dyDesc: TensorDesc, dy: seq<real>,
                          conv: ConvDesc, beta: Scalar, dxDesc: TensorDesc, dx: seq<real>, be: real,
                          xLen: int, yLen: int, sp: int, groups: int, per: int, n: nat, ch: nat, i: nat, row: nat, p: nat)
    requires Readable(dxDesc, wDesc, conv, dyDesc) && Extent(dxDesc, xLen) && Extent(dyDesc, yLen) && Means(beta, 0.0, be)
    requires Place(dxDesc, conv, sp) && Grouped(conv, wDesc, groups, per)
    requires ch < dxDesc.dim[1] && i < xLen && (n >= dyDesc.dim[0] || ch >= groups * wDesc.dim[1])
    requires row == n * dxDesc.dim[1] + ch && p == row * xLen + i && p < |dx|
    ensures BackwardResult(alpha, wDesc, w, dyDesc, dy, conv, beta, dxDesc, dx)[p] == Mul(be, dx[p])
  {
    GeometryFields(dyDesc.dim[0], dxDesc, wDesc, conv, dyDesc, xLen, yLen, sp, groups, per);
    RowAndPosition(n, dxDesc.dim[1], ch, xLen, i, row, p);
  }

  // ---- one element at a time -------------------------------------------------------------------

  // dy is zero but for one element.
  ghost predicate Impulse(dy: seq<real>, at: int) {
    forall q :: 0 <= q < |dy| && q != at ==> dy[q] == 0.0
  }

  lemma NothingSent(dy: seq<real>, w: seq<real>, wRow: int, taps: nat, yRow: int, yLen: nat,
                    pad: int, stride: int, dilation: int, i: int, o: nat, at: int)
    requires Impulse(dy, at) && yRow * yLen + o != at
    ensures Inner(taps, Sends(dy, w, wRow, taps, yRow, yLen, pad, stride, dilation, i))(o) == 0.0
  {
    var f := Sends(dy, w, wRow, taps, yRow, yLen, pad, stride, dilation, i);
    forall t: nat | t < taps ensures Fix(f, o)(t) == 0.0 {
      Zero(At(w, wRow * taps + t));
    }
    Vanish(taps, Fix(f, o));
  }

  // Only the channel and the position of the element send anything.
  lemma OneSends(dy: seq<real>, w: seq<real>, wRow: int, wStep: int, taps: nat, yRow: nat, yLen: nat,
                 pad: int, stride: int, dilation: int, i: int, per: nat, m: nat, o: nat, row: nat, at: int)
    requires Impulse(dy, at) && m < per && o < yLen && row == yRow + m && at == row * yLen + o
    ensures Sum(per, Sent(dy, w, wRow, wStep, taps, yRow, yLen, pad, stride, dilation, i))
         == Inner(taps, Sends(dy, w, wRow + m * wStep, taps, row, yLen, pad, stride, dilation, i))(o)
  {
    var f := Sent(dy, w, wRow, wStep, taps, yRow, yLen, pad, stride, dilation, i);
    forall k: nat | k < per && k != m ensures f(k) == 0.0 {
      var h := Sends(dy, w, wRow + k * wStep, taps, yRow + k, yLen, pad, stride, dilation, i);
      forall q: nat | q < yLen ensures Inner(taps, h)(q) == 0.0 {
        if (yRow + k) * yLen + q == at {
          Unique(at, yLen, yRow + k, q);
          Unique(at, yLen, row, o);
        }
        NothingSent(dy, w, wRow + k * wStep, taps, yRow + k, yLen, pad, stride, dilation, i, q, at);
      }
      Vanish(yLen, Inner(taps, h));
    }
    Single(per, m, f);
    var h := Sends(dy, w, wRow + m * wStep, taps, row, yLen, pad, stride, dilation, i);
    forall q: nat | q < yLen && q != o ensures Inner(taps, h)(q) == 0.0 {
      NothingSent(dy, w, wRow + m * wStep, taps, row, yLen, pad, stride, dilation, i, q, at);
    }
    Single(yLen, o, Inner(taps, h));
  }

  // One tap lands on i, or none does.
  lemma OneLands(dy: seq<real>, w: seq<real>, wRow: int, taps: nat, yRow: int, yLen: nat,
                 pad: int, stride: int, dilation: int, i: int, o: nat, t: nat)
    requires t <= taps && forall u: nat :: u < taps ==> (o * stride - pad + u * dilation == i <==> u == t)
    ensures Inner(taps, Sends(dy, w, wRow, taps, yRow, yLen, pad, stride, dilation, i))(o)
         == if t < taps then Mul(At(dy, yRow * yLen + o), At(w, wRow * taps + t)) else 0.0
  {
    var f := Fix(Sends(dy, w, wRow, taps, yRow, yLen, pad, stride, dilation, i), o);
    if t < taps {
      Single(taps, t, f);
    } else {
      Vanish(taps, f);
    }
  }

  // An element of dy, alone, is sent through tap t to position o * stride - pad +
  // t * dilation of every channel of its group; t is taps if no tap lands on i.
  lemma ImpulseLands(alpha: Scalar, wDesc: FilterDesc, w: seq<real>, dyDesc: TensorDesc, dy: seq<real>,
                     conv: ConvDesc, beta: Scalar, dxDesc: TensorDesc, dx: seq<real>,
                     al: real, be: real, xLen: int, yLen: int, sp: int, groups: int, per: int,
                     n: nat, g: nat, c: nat, i: nat, p: nat, m: nat, o: nat, t: nat, wRow: nat, yRow: nat, row: nat, at: nat)
    requires Readable(dxDesc, wDesc, conv, dyDesc) && Means(alpha, 1.0, al) && Means(beta, 0.0, be)
    requires Extent(dxDesc, xLen) && Extent(dyDesc, yLen) && Place(dxDesc, conv, sp) && Grouped(conv, wDesc, groups, per)
    requires groups * wDesc.dim[1] <= dxDesc.dim[1] && groups * per <= dyDesc.dim[1]
    requires n < dyDesc.dim[0] && g < groups && c < wDesc.dim[1] && i < xLen && m < per && o < yLen
    requires p == (n * dxDesc.dim[1] + (g * wDesc.dim[1] + c)) * xLen + i && p < |dx|
    requires wRow == g * per * wDesc.dim[1] + c && yRow == n * dyDesc.dim[1] + g * per && row == yRow + m
    requires Impulse(dy, at) && at == row * yLen + o && at < |dy| && t <= Taps(wDesc, wDesc.nb)
    requires forall u: nat :: u < Taps(wDesc, wDesc.nb) ==>
      (o * conv.stride[sp] - conv.pad[sp] + u * conv.dilation[sp] == i <==> u == t)
    ensures BackwardResult(alpha, wDesc, w, dyDesc, dy, conv, beta, dxDesc, dx)[p]
         == Mul(be, dx[p])
          + Mul(al, if t < Taps(wDesc, wDesc.nb)
                    then Mul(dy[at], At(w, (wRow + m * wDesc.dim[1]) * Taps(wDesc, wDesc.nb) + t)) else 0.0)
  {
    var taps, pad, stride, dilation := Taps(wDesc, wDesc.nb), conv.pad[sp], conv.stride[sp], conv.dilation[sp];
    BackwardInFields(alpha, wDesc, w, dyDesc, dy, conv, beta, dxDesc, dx, al, be, xLen, yLen, sp, groups, per,
                     n, g, c, i, wRow, yRow, p);
    OneSends(dy, w, wRow, wDesc.dim[1], taps, yRow, yLen, pad, stride, dilation, i, per, m, o, row, at);
    OneLands(dy, w, wRow + m * wDesc.dim[1], taps, row, yLen, pad, stride, dilation, i, o, t);
  }

  // Upsampling one element by a stride of 2: of four taps the middle two land inside.
  lemma Upsampling(wDesc: FilterDesc, dyDesc: TensorDesc, conv: ConvDesc, dxDesc: TensorDesc, dx: seq<real>)
    requires wDesc == FilterDesc(FLOAT, 3, [1, 1, 4, 0, 0, 0, 0, 0]) && dyDesc == TensorDesc(FLOAT, 3, [1, 1, 1, 0, 0, 0, 0, 0])
    requires conv == ConvDesc(1, [1, 0, 0, 0], [2, 1, 1, 1], [1, 1, 1, 1], 1)
    requires dxDesc == TensorDesc(FLOAT, 3, [1, 1, 2, 0, 0, 0, 0, 0]) && |dx| == 2
    ensures Readable(dxDesc, wDesc, conv, dyDesc)
    ensures BackwardResult(Null, wDesc, [1.0, 2.0, 3.0, 4.0], dyDesc, [1.0], conv, Null, dxDesc, dx) == [2.0, 3.0]
  {
    var w, dy := [1.0, 2.0, 3.0, 4.0], [1.0];
    TapsListed(wDesc);
    var r := BackwardResult(Null, wDesc, w, dyDesc, dy, conv, Null, dxDesc, dx);
    forall i: nat | i < 2 ensures r[i] == w[i + 1] {
      ImpulseLands(Null, wDesc, w, dyDesc, dy, conv, Null, dxDesc, dx, 1.0, 0.0, 2, 1, 0, 1, 1,
                   0, 0, 0, i, i, 0, 0, i + 1, 0, 0, 0, 0);
      Zero(dx[i]);
      One(w[i + 1]);
    }
  }
}
