// ConvTranspose: every output position scatters its taps back into the input.
module ConvolutionBackward {
  import opened Division
  import opened Products
  import opened Segments
  import opened Sums
  import opened Convolution
  import opened ConvolutionKernels

  // ---- one output row scattered into one input row ------------------------------------

  ghost function HitRow(geo: Geometry, v: real, w: seq<real>, o: int, k: nat): (row: seq<real>)
    ensures |row| == geo.xLen
  {
    seq(geo.xLen, i requires 0 <= i < geo.xLen => Sum(k, HitTerms(geo, v, w, o, i)))
  }

  // What one tap adds: u at position j, if that is inside the row.
  ghost function OneHit(len: nat, j: int, u: real): (row: seq<real>)
    ensures |row| == len
  {
    seq(len, i requires 0 <= i < len => if j == i then u else 0.0)
  }

  method AddOne(x: array<real>, base: nat, len: nat, j: int, u: real)
    requires base + len <= x.Length
    modifies x
    ensures RowAdded(old(x[..]), x[..], base, OneHit(len, j, u))
  {
    if j >= 0 && j < len {
      x[base + j] := x[base + j] + u;
    }
  }

  lemma HitStep(geo: Geometry, v: real, w: seq<real>, o: nat, t: nat, base: nat, start: seq<real>, before: seq<real>, after: seq<real>)
    requires t < |w|
    requires RowAdded(start, before, base, HitRow(geo, v, w, o, t))
    requires RowAdded(before, after, base, OneHit(geo.xLen, geo.Pos(o, t), Mul(v, w[t])))
    ensures RowAdded(start, after, base, HitRow(geo, v, w, o, t + 1))
  {
    var a, b, sum := HitRow(geo, v, w, o, t), OneHit(geo.xLen, geo.Pos(o, t), Mul(v, w[t])), HitRow(geo, v, w, o, t + 1);
    forall i | 0 <= i < geo.xLen
      ensures sum[i] == a[i] + b[i]
    {
      assert HitTerms(geo, v, w, o, i)(t) == b[i];
    }
    RowsAddUp(start, before, after, base, a, b, sum);
  }

  // x[base..] += v * the taps of w, wherever they land.
  method ScatterPoint(geo: Geometry, v: real, w: array<real>, first: nat, o: nat, x: array<real>, base: nat, ghost wrow: seq<real>)
    requires x != w && base + geo.xLen <= x.Length && first + geo.taps <= w.Length
    requires wrow == w[first..first + geo.taps]
    modifies x
    ensures RowAdded(old(x[..]), x[..], base, HitRow(geo, v, wrow, o, geo.taps))
  {
    ghost var x0 := x[..];
    var t := 0;
    while t < geo.taps
      invariant 0 <= t <= geo.taps
      invariant unchanged(w)
      invariant RowAdded(x0, x[..], base, HitRow(geo, v, wrow, o, t))
    {
      ghost var before := x[..];
      var j, u := geo.Pos(o, t), v * w[first + t];
      assert u == Mul(v, wrow[t]) by {
        assert w[first + t] == wrow[t];
        Times(v, w[first + t]);
      }
      AddOne(x, base, geo.xLen, j, u);
      HitStep(geo, v, wrow, o, t, base, x0, before, x[..]);
      t := t + 1;
    }
  }

  ghost function ScatterRow(geo: Geometry, al: real, y: seq<real>, w: seq<real>, k: nat): (row: seq<real>)
    ensures |row| == geo.xLen
  {
    seq(geo.xLen, i requires 0 <= i < geo.xLen => Mul(al, Sum(k, ScatterTerms(geo, y, w, i))))
  }

  lemma HitsScaled(geo: Geometry, al: real, v: real, u: real, w: seq<real>, o: int, i: int)
    requires u == Mul(al, v)
    ensures Hits(geo, u, w, o, i) == Mul(al, Hits(geo, v, w, o, i))
  {
    forall t: nat
      ensures HitTerms(geo, u, w, o, i)(t) == Mul(al, HitTerms(geo, v, w, o, i)(t))
    {
      Associate(al, v, At(w, t));
      Zero(al);
    }
    Scale(|w|, al, HitTerms(geo, v, w, o, i), HitTerms(geo, u, w, o, i));
  }

  lemma ScatterEntry(geo: Geometry, al: real, u: real, y: seq<real>, w: seq<real>, o: nat, i: nat)
    requires o < |y| && |w| == geo.taps && i < geo.xLen && u == Mul(al, y[o])
    ensures ScatterRow(geo, al, y, w, o + 1)[i] == ScatterRow(geo, al, y, w, o)[i] + HitRow(geo, u, w, o, geo.taps)[i]
  {
    var f := ScatterTerms(geo, y, w, i);
    calc {
      ScatterRow(geo, al, y, w, o + 1)[i];
      Mul(al, Sum(o + 1, f));
      { Distribute(al, Sum(o, f), f(o)); }
      Mul(al, Sum(o, f)) + Mul(al, f(o));
      { HitsScaled(geo, al, y[o], u, w, o, i); }
      Mul(al, Sum(o, f)) + Hits(geo, u, w, o, i);
      ScatterRow(geo, al, y, w, o)[i] + HitRow(geo, u, w, o, geo.taps)[i];
    }
  }

  // One more output position, holding u after scaling.
  lemma ScatterStep(geo: Geometry, al: real, u: real, y: seq<real>, w: seq<real>, o: nat, base: nat,
                    start: seq<real>, before: seq<real>, after: seq<real>)
    requires o < |y| && |w| == geo.taps && u == Mul(al, y[o])
    requires RowAdded(start, before, base, ScatterRow(geo, al, y, w, o))
    requires RowAdded(before, after, base, HitRow(geo, u, w, o, geo.taps))
    ensures RowAdded(start, after, base, ScatterRow(geo, al, y, w, o + 1))
  {
    var a, b, sum := ScatterRow(geo, al, y, w, o), HitRow(geo, u, w, o, geo.taps), ScatterRow(geo, al, y, w, o + 1);
    forall i | 0 <= i < geo.xLen
      ensures sum[i] == a[i] + b[i]
    {
      ScatterEntry(geo, al, u, y, w, o, i);
    }
    RowsAddUp(start, before, after, base, a, b, sum);
  }

  lemma NothingHit(geo: Geometry, w: seq<real>, o: nat, base: int, s: seq<real>)
    ensures RowAdded(s, s, base, HitRow(geo, 0.0, w, o, geo.taps))
  {
    forall i | 0 <= i < geo.xLen
      ensures HitRow(geo, 0.0, w, o, geo.taps)[i] == 0.0
    {
      forall t: nat
        ensures HitTerms(geo, 0.0, w, o, i)(t) == 0.0
      {
        Zero(At(w, t));
      }
      Vanish(geo.taps, HitTerms(geo, 0.0, w, o, i));
    }
  }

  lemma NothingScattered(geo: Geometry, al: real, y: seq<real>, w: seq<real>, base: int, s: seq<real>)
    ensures RowAdded(s, s, base, ScatterRow(geo, al, y, w, 0))
  {
    Zero(al);
  }

  // One output position; a zero value scatters nothing.
  method ScatterOne(geo: Geometry, v: real, w: array<real>, first: nat, o: nat, x: array<real>, base: nat, ghost wrow: seq<real>)
    requires x != w && base + geo.xLen <= x.Length && first + geo.taps <= w.Length
    requires wrow == w[first..first + geo.taps]
    modifies x
    ensures RowAdded(old(x[..]), x[..], base, HitRow(geo, v, wrow, o, geo.taps))
  {
    if v == 0.0 {
      NothingHit(geo, wrow, o, base, x[..]);
      return;
    }
    ScatterPoint(geo, v, w, first, o, x, base, wrow);
  }

  // One output row through one filter row into one input row.
  method ScatterInto(geo: Geometry, al: real, y: array<real>, yBase: nat, w: array<real>, first: nat, x: array<real>, base: nat,
                     ghost yrow: seq<real>, ghost wrow: seq<real>)
    requires x != w && x != y && base + geo.xLen <= x.Length
    requires first + geo.taps <= w.Length && yBase + geo.yLen <= y.Length
    requires wrow == w[first..first + geo.taps] && yrow == y[yBase..yBase + geo.yLen]
    modifies x
    ensures RowAdded(old(x[..]), x[..], base, ScatterRow(geo, al, yrow, wrow, geo.yLen))
  {
    ghost var x0 := x[..];
    NothingScattered(geo, al, yrow, wrow, base, x0);
    var o := 0;
    while o < geo.yLen
      invariant 0 <= o <= geo.yLen
      invariant unchanged(w) && unchanged(y)
      invariant RowAdded(x0, x[..], base, ScatterRow(geo, al, yrow, wrow, o))
    {
      ghost var before := x[..];
      assert y[yBase + o] == yrow[o];
      Times(al, y[yBase + o]);
      var v := al * y[yBase + o];
      ScatterOne(geo, v, w, first, o, x, base, wrow);
      ScatterStep(geo, al, v, yrow, wrow, o, base, x0, before, x[..]);
      o := o + 1;
    }
  }

  // ---- one group of one batch item ------------------------------------------------------

  // Round m adds what output channel m of the group sends back to (c, i).
  ghost function ChannelRound(geo: Geometry, dy: seq<real>, w: seq<real>, n: nat, g: nat): (nat, nat, nat) -> real
  {
    (c: nat, i: nat, m: nat) => BackwardTerms(geo, dy, w, n, g, c, i)(m)
  }

  lemma ScatterRounds(geo: Geometry, al: real, dy: seq<real>, w: seq<real>, n: nat, g: nat, m: nat, c: nat)
    ensures var row := ScatterRow(geo, al, OutputRow(geo, dy, n, g, m), FilterRow(geo, w, g * geo.outPer + m, c), geo.yLen);
      forall i :: 0 <= i < geo.xLen ==> row[i] == Mul(al, ChannelRound(geo, dy, w, n, g)(c, i, m))
  {
    var yrow, wrow := OutputRow(geo, dy, n, g, m), FilterRow(geo, w, g * geo.outPer + m, c);
    forall i | 0 <= i < geo.xLen
      ensures ScatterRow(geo, al, yrow, wrow, geo.yLen)[i] == Mul(al, ChannelRound(geo, dy, w, n, g)(c, i, m))
    {
      assert ChannelRound(geo, dy, w, n, g)(c, i, m) == BackwardTerms(geo, dy, w, n, g, c, i)(m);
    }
  }

  lemma RowIsSlice(s: seq<real>, r: nat, len: nat, k: nat)
    requires k == r * len && k + len <= |s|
    ensures Row(s, r, len) == s[k..k + len]
  {
    forall i | 0 <= i < len
      ensures Row(s, r, len)[i] == s[k..k + len][i]
    {
      assert Row(s, r, len)[i] == At(s, k + i);
    }
  }

  method ScatterChannel(geo: Geometry, ghost outC: nat, al: real, w: array<real>, dy: array<real>, x: array<real>,
                        n: nat, g: nat, m: nat, c: nat)
    requires Sizes(geo, outC, x.Length, w.Length, dy.Length) && x != w && x != dy
    requires n < geo.batch && g < geo.groups && m < geo.outPer && c < geo.inPer
    modifies x
    ensures RowAdded(old(x[..]), x[..], geo.In().RowBase(n, g, c),
              ScatterRow(geo, al, OutputRow(geo, dy[..], n, g, m), FilterRow(geo, w[..], g * geo.outPer + m, c), geo.yLen))
  {
    Below(g, geo.groups, m, geo.outPer);
    Below(g, geo.groups, c, geo.inPer);
    RowInside(n, geo.batch, g * geo.outPer + m, geo.yChannels, geo.yLen);
    RowInside(n, geo.batch, g * geo.inPer + c, geo.xChannels, geo.xLen);
    FilterInside(geo, outC, g, m, c);
    var yBase: nat := (n * geo.yChannels + (g * geo.outPer + m)) * geo.yLen;
    var first: nat := ((g * geo.outPer + m) * geo.inPer + c) * geo.taps;
    var base: nat := (n * geo.xChannels + (g * geo.inPer + c)) * geo.xLen;
    ghost var yrow, wrow := dy[yBase..yBase + geo.yLen], w[first..first + geo.taps];
    RowIsSlice(dy[..], n * geo.yChannels + (g * geo.outPer + m), geo.yLen, yBase);
    RowIsSlice(w[..], (g * geo.outPer + m) * geo.inPer + c, geo.taps, first);
    ScatterInto(geo, al, dy, yBase, w, first, x, base, yrow, wrow);
  }

  // What output channel m sends back to every input channel of the group.
  method GroupChannel(geo: Geometry, ghost outC: nat, al: real, w: array<real>, dy: array<real>, x: array<real>,
                      n: nat, g: nat, m: nat, ghost x0: seq<real>)
    requires Sizes(geo, outC, x.Length, w.Length, dy.Length) && x != w && x != dy
    requires n < geo.batch && g < geo.groups && m < geo.outPer
    requires SegmentStaged(geo.In(), al, ChannelRound(geo, dy[..], w[..], n, g), n, g, x0, x[..], 0, m)
    modifies x
    ensures SegmentStaged(geo.In(), al, ChannelRound(geo, dy[..], w[..], n, g), n, g, x0, x[..], 0, m + 1)
  {
    ghost var ys, ws := dy[..], w[..];
    ghost var f := ChannelRound(geo, ys, ws, n, g);
    var c := 0;
    while c < geo.inPer
      invariant 0 <= c <= geo.inPer
      invariant dy[..] == ys && w[..] == ws
      invariant SegmentStaged(geo.In(), al, f, n, g, x0, x[..], c, m)
    {
      ghost var mid := x[..];
      ScatterChannel(geo, outC, al, w, dy, x, n, g, m, c);
      ScatterRounds(geo, al, ys, ws, n, g, m, c);
      StageRow(geo.In(), al, f, n, g, x0, mid, x[..], c, m,
               ScatterRow(geo, al, OutputRow(geo, ys, n, g, m), FilterRow(geo, ws, g * geo.outPer + m, c), geo.yLen));
      c := c + 1;
    }
    RoundDone(geo.In(), al, f, n, g, x0, x[..], m);
  }

  // Scaling comes first, so each group adds to a tensor taken as it is.
  lemma BackwardOffset(geo: Geometry, al: real, w: seq<real>, dy: seq<real>, x: seq<real>, n: nat, g: nat, d: nat, p: nat)
    requires geo.Fits() && n < geo.batch && g < geo.groups
    requires geo.xLen > 0 && d / geo.xLen < geo.inPer && p == geo.In().Lo(n, g) + d && p < |x|
    ensures BackwardSpec(geo, al, 1.0, w, dy, x)[p]
         == x[p] + Mul(al, BackwardAt(geo, dy, w, n, g, d / geo.xLen, d % geo.xLen))
  {
    One(x[p]);
    Rebuild(d, geo.xLen);
    SegmentRow(geo.In(), n, g, d / geo.xLen);
    BackwardEntry(geo, al, 1.0, w, dy, x, n, g, d / geo.xLen, d % geo.xLen);
  }

  lemma ChannelSum(geo: Geometry, w: seq<real>, dy: seq<real>, n: nat, g: nat, c: nat, i: nat)
    ensures Sum(geo.outPer, Rounds(ChannelRound(geo, dy, w, n, g), c, i)) == BackwardAt(geo, dy, w, n, g, c, i)
  {
    Congruent(geo.outPer, BackwardTerms(geo, dy, w, n, g, c, i), Rounds(ChannelRound(geo, dy, w, n, g), c, i));
  }

  lemma StagedChannels(geo: Geometry, al: real, w: seq<real>, dy: seq<real>, n: nat, g: nat, v: real, d: nat)
    requires geo.xLen > 0
    ensures Staged(geo.In(), al, ChannelRound(geo, dy, w, n, g), v, d, geo.outPer)
         == v + Mul(al, BackwardAt(geo, dy, w, n, g, d / geo.xLen, d % geo.xLen))
  {
    ChannelSum(geo, w, dy, n, g, d / geo.xLen, d % geo.xLen);
  }

  lemma AllChannels(geo: Geometry, al: real, w: seq<real>, dy: seq<real>, n: nat, g: nat, before: seq<real>, after: seq<real>)
    requires geo.Fits() && n < geo.batch && g < geo.groups
    requires SegmentStaged(geo.In(), al, ChannelRound(geo, dy, w, n, g), n, g, before, after, 0, geo.outPer)
    ensures SegmentIs(geo.In(), n, g, before, after, BackwardSpec(geo, al, 1.0, w, dy, before))
  {
    forall p | 0 <= p < |after| && geo.In().Lo(n, g) <= p < geo.In().Hi(n, g)
      ensures after[p] == BackwardSpec(geo, al, 1.0, w, dy, before)[p]
    {
      var d := p - geo.In().Lo(n, g);
      OffsetInside(geo.In(), n, g, d);
      StagedChannels(geo, al, w, dy, n, g, before[p], d);
      BackwardOffset(geo, al, w, dy, before, n, g, d, p);
    }
  }

  method GroupBackward(geo: Geometry, ghost outC: nat, al: real, w: array<real>, dy: array<real>, x: array<real>, n: nat, g: nat)
    requires Sizes(geo, outC, x.Length, w.Length, dy.Length) && x != w && x != dy
    requires n < geo.batch && g < geo.groups
    modifies x
    ensures SegmentIs(geo.In(), n, g, old(x[..]), x[..], BackwardSpec(geo, al, 1.0, w[..], dy[..], old(x[..])))
  {
    ghost var ys, ws, x0 := dy[..], w[..], x[..];
    ghost var f := ChannelRound(geo, ys, ws, n, g);
    Untouched(geo.In(), al, f, n, g, x0);
    var m := 0;
    while m < geo.outPer
      invariant 0 <= m <= geo.outPer
      invariant dy[..] == ys && w[..] == ws
      invariant SegmentStaged(geo.In(), al, f, n, g, x0, x[..], 0, m)
    {
      GroupChannel(geo, outC, al, w, dy, x, n, g, m, x0);
      m := m + 1;
    }
    AllChannels(geo, al, ws, ys, n, g, x0, x[..]);
  }

  // ---- the entry point --------------------------------------------------------------------

  lemma SegmentTarget(geo: Geometry, al: real, w: seq<real>, dy: seq<real>, x0: seq<real>, mid: seq<real>, after: seq<real>, n: nat, g: nat)
    requires geo.Fits() && n < geo.batch && g < geo.groups
    requires PrefixIs(geo.In().Lo(n, g), x0, mid, BackwardSpec(geo, al, 1.0, w, dy, x0))
    requires SegmentIs(geo.In(), n, g, mid, after, BackwardSpec(geo, al, 1.0, w, dy, mid))
    ensures PrefixIs(geo.In().Lo(n, g + 1), x0, after, BackwardSpec(geo, al, 1.0, w, dy, x0))
  {
    var target := BackwardSpec(geo, al, 1.0, w, dy, x0);
    forall p | 0 <= p < |mid| && p >= geo.In().Lo(n, g)
      ensures BackwardSpec(geo, al, 1.0, w, dy, mid)[p] == target[p]
    {
    }
    NextSegment(geo.In(), n, g, x0, mid, after, target);
  }

  lemma ItemDone(geo: Geometry, al: real, w: seq<real>, dy: seq<real>, x0: seq<real>, x: seq<real>, n: nat)
    requires geo.Fits() && n < geo.batch
    requires PrefixIs(geo.In().Lo(n, geo.groups), x0, x, BackwardSpec(geo, al, 1.0, w, dy, x0))
    ensures PrefixIs(geo.In().Lo(n + 1, 0), x0, x, BackwardSpec(geo, al, 1.0, w, dy, x0))
  {
    var lo, hi, target := geo.In().Lo(n, geo.groups), geo.In().Lo(n + 1, 0), BackwardSpec(geo, al, 1.0, w, dy, x0);
    forall p | 0 <= p < |x| && p < hi
      ensures x[p] == target[p]
    {
      One(x0[p]);
      if p >= lo {
        Gap(geo.In(), n, p);
      }
    }
    ItemEnds(geo.In(), n);
  }

  lemma AllItems(geo: Geometry, al: real, w: seq<real>, dy: seq<real>, x0: seq<real>, x: seq<real>)
    requires PrefixIs(geo.In().Lo(geo.batch, 0), x0, x, BackwardSpec(geo, al, 1.0, w, dy, x0))
    ensures x == BackwardSpec(geo, al, 1.0, w, dy, x0)
  {
    var target := BackwardSpec(geo, al, 1.0, w, dy, x0);
    forall p | 0 <= p < |x|
      ensures x[p] == target[p]
    {
      One(x0[p]);
      if p >= geo.In().Lo(geo.batch, 0) && geo.xLen > 0 && geo.xChannels > 0 {
        Past(geo.In(), p);
      }
    }
  }

  lemma ScaledFirst(geo: Geometry, al: real, be: real, w: seq<real>, dy: seq<real>, x0: seq<real>, scaled: seq<real>)
    requires |scaled| == |x0| && forall p :: 0 <= p < |x0| ==> scaled[p] == Mul(be, x0[p])
    ensures BackwardSpec(geo, al, 1.0, w, dy, scaled) == BackwardSpec(geo, al, be, w, dy, x0)
  {
    forall p | 0 <= p < |x0|
      ensures Mul(1.0, scaled[p]) == scaled[p]
    {
      One(scaled[p]);
    }
  }

  method BackwardBatch(geo: Geometry, ghost outC: nat, al: real, be: real, w: array<real>, dy: array<real>, x: array<real>)
    requires Sizes(geo, outC, x.Length, w.Length, dy.Length) && x != w && x != dy
    modifies x
    ensures x[..] == BackwardSpec(geo, al, be, w[..], dy[..], old(x[..]))
  {
    ghost var ys, ws, x0 := dy[..], w[..], x[..];
    ScaleRange(be, x, 0, x.Length);
    ghost var scaled := x[..];
    ghost var target := BackwardSpec(geo, al, 1.0, ws, ys, scaled);
    var n := 0;
    while n < geo.batch
      invariant 0 <= n <= geo.batch
      invariant dy[..] == ys && w[..] == ws
      invariant PrefixIs(geo.In().Lo(n, 0), scaled, x[..], target)
    {
      var g := 0;
      while g < geo.groups
        invariant 0 <= g <= geo.groups
        invariant dy[..] == ys && w[..] == ws
        invariant PrefixIs(geo.In().Lo(n, g), scaled, x[..], target)
      {
        ghost var mid := x[..];
        GroupBackward(geo, outC, al, w, dy, x, n, g);
        SegmentTarget(geo, al, ws, ys, scaled, mid, x[..], n, g);
        g := g + 1;
      }
      ItemDone(geo, al, ws, ys, scaled, x[..], n);
      n := n + 1;
    }
    AllItems(geo, al, ws, ys, scaled, x[..]);
    ScaledFirst(geo, al, be, ws, ys, x0, scaled);
  }

  ghost function BackwardGeometry(wDesc: FilterDesc, dyDesc: TensorDesc, conv: ConvDesc, dxDesc: TensorDesc): Geometry
    requires Readable(dxDesc, wDesc, conv, dyDesc)
  {
    GeometryOf(As1D(dyDesc).n, As1D(dxDesc), As1D(dyDesc), wDesc, conv)
  }

  // What a supported call leaves in dx.
  ghost function BackwardResult(alpha: Scalar, wDesc: FilterDesc, w: seq<real>, dyDesc: TensorDesc, dy: seq<real>,
                                conv: ConvDesc, beta: Scalar, dxDesc: TensorDesc, dx: seq<real>): (r: seq<real>)
    requires Readable(dxDesc, wDesc, conv, dyDesc)
    ensures |r| == |dx|
  {
    BackwardSpec(BackwardGeometry(wDesc, dyDesc, conv, dxDesc), alpha.Or(1.0), beta.Or(0.0), w, dy, dx)
  }

  // dx = alpha * transpose(dy, w) + beta * dx, where dx holds exactly what its
  // descriptor says.
  method ConvolutionBackwardData(alpha: Scalar, wDesc: FilterDesc, w: array<real>, dyDesc: TensorDesc, dy: array<real>,
                                 conv: ConvDesc, beta: Scalar, dxDesc: TensorDesc, dx: array<real>)
    returns (status: int)
    requires wDesc.kind == FLOAT && Supported(dxDesc, dyDesc) ==>
      && Readable(dxDesc, wDesc, conv, dyDesc)
      && Sizes(BackwardGeometry(wDesc, dyDesc, conv, dxDesc), wDesc.dim[0], dx.Length, w.Length, dy.Length)
      && dx.Length == As1D(dxDesc).n * As1D(dxDesc).c * As1D(dxDesc).len
      && dx != dy && dx != w
    modifies dx
    ensures status == OK <==> wDesc.kind == FLOAT && Supported(dxDesc, dyDesc)
    ensures status == OK ==>
      dx[..] == BackwardResult(alpha, wDesc, w[..], dyDesc, dy[..], conv, beta, dxDesc, old(dx[..]))
    ensures status != OK ==> status == NOT_SUPPORTED && dx[..] == old(dx[..])
  {
    if wDesc.kind != FLOAT {
      return NOT_SUPPORTED;
    }
    var ys, xs := As1D(dyDesc), As1D(dxDesc);
    if ys.Unsupported? || xs.Unsupported? {
      return NOT_SUPPORTED;
    }
    var k := CountTaps(wDesc);
    TapsSized(wDesc, wDesc.nb);
    var groups := Groups(conv);
    var sp := Slot(xs, conv);
    var geo := Geometry(ys.n, groups, wDesc.dim[1], wDesc.dim[0] / groups, k, xs.c, xs.len, ys.c, ys.len,
                        conv.pad[sp], conv.stride[sp], conv.dilation[sp]);
    BackwardBatch(geo, wDesc.dim[0], alpha.Or(1.0), beta.Or(0.0), w, dy, dx);
    return OK;
  }
}
