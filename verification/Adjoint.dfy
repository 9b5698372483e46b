// The transposed convolution is the adjoint of the forward one.
module Adjoint {
  import opened Division
  import opened Products
  import opened Sums
  import opened Convolution
  import opened ConvolutionKernels
  import opened ConvolutionBackward

  // ---- one input row, one filter row, one output row ---------------------------

  ghost function Weighted(x: seq<real>, f: nat -> real): nat -> real
  {
    (i: nat) => Mul(At(x, i), f(i))
  }

  ghost function Inner1(x: seq<real>, f: nat -> real): real
  {
    Sum(|x|, Weighted(x, f))
  }

  lemma InnerPlus(x: seq<real>, f: nat -> real, g: nat -> real, h: nat -> real)
    requires forall i: nat :: i < |x| ==> h(i) == f(i) + g(i)
    ensures Inner1(x, h) == Inner1(x, f) + Inner1(x, g)
  {
    forall i: nat | i < |x|
      ensures Weighted(x, h)(i) == Weighted(x, f)(i) + Weighted(x, g)(i)
    {
      Distribute(At(x, i), f(i), g(i));
    }
    Plus(|x|, Weighted(x, f), Weighted(x, g), Weighted(x, h));
  }

  lemma InnerCongruent(x: seq<real>, f: nat -> real, g: nat -> real)
    requires forall i: nat :: i < |x| ==> f(i) == g(i)
    ensures Inner1(x, f) == Inner1(x, g)
  {
    Congruent(|x|, Weighted(x, f), Weighted(x, g));
  }

  lemma InnerVanish(x: seq<real>, f: nat -> real)
    requires forall i: nat :: i < |x| ==> f(i) == 0.0
    ensures Inner1(x, f) == 0.0
  {
    forall i: nat | i < |x|
      ensures Weighted(x, f)(i) == 0.0
    {
      Zero(At(x, i));
    }
    Vanish(|x|, Weighted(x, f));
  }

  lemma InnerSingle(x: seq<real>, j: nat, f: nat -> real)
    requires j < |x|
    requires forall i: nat :: i < |x| && i != j ==> f(i) == 0.0
    ensures Inner1(x, f) == Mul(x[j], f(j))
  {
    forall i: nat | i < |x| && i != j
      ensures Weighted(x, f)(i) == 0.0
    {
      Zero(At(x, i));
    }
    Single(|x|, j, Weighted(x, f));
  }

  ghost function HitsOver(geo: Geometry, v: real, w: seq<real>, o: int): nat -> real
  {
    (i: nat) => Hits(geo, v, w, o, i)
  }

  // The first k taps only.
  ghost function TapsOver(geo: Geometry, v: real, w: seq<real>, o: int, k: nat): nat -> real
  {
    (i: nat) => Sum(k, HitTerms(geo, v, w, o, i))
  }

  ghost function OneTap(j: int, u: real): nat -> real
  {
    (i: nat) => if j == i then u else 0.0
  }

  lemma OneTapAdjoint(x: seq<real>, j: int, u: real)
    ensures Mul(At(x, j), u) == Inner1(x, OneTap(j, u))
  {
    Zero(u);
    if 0 <= j < |x| {
      InnerSingle(x, j, OneTap(j, u));
    } else {
      InnerVanish(x, OneTap(j, u));
    }
  }

  lemma Rotated(a: real, b: real, c: real)
    ensures Mul(Mul(a, b), c) == Mul(b, Mul(c, a))
  {
    Commute(a, b);
    Associate(b, a, c);
    Commute(a, c);
  }

  lemma {:induction false} TapsAdjoint(geo: Geometry, x: seq<real>, w: seq<real>, v: real, o: int, k: nat)
    ensures Mul(Sum(k, TapTerms(geo, x, w, o)), v) == Inner1(x, TapsOver(geo, v, w, o, k))
  {
    if k == 0 {
      Zero(v);
      InnerVanish(x, TapsOver(geo, v, w, o, 0));
    } else {
      var t := k - 1;
      TapsAdjoint(geo, x, w, v, o, t);
      var j := geo.Pos(o, t);
      var u := Mul(v, At(w, t));
      OneTapAdjoint(x, j, u);
      Rotated(At(w, t), At(x, j), v);
      Distribute(v, Sum(t, TapTerms(geo, x, w, o)), TapTerms(geo, x, w, o)(t));
      InnerPlus(x, TapsOver(geo, v, w, o, t), OneTap(j, u), TapsOver(geo, v, w, o, k));
    }
  }

  ghost function CorrelateOver(geo: Geometry, x: seq<real>, w: seq<real>, y: seq<real>): nat -> real
  {
    (o: nat) => Mul(Correlate(geo, x, w, o), At(y, o))
  }

  ghost function ScatterOver(geo: Geometry, y: seq<real>, w: seq<real>): nat -> real
  {
    (i: nat) => Scatter(geo, y, w, i)
  }

  // The first k output positions only.
  ghost function FirstOutputs(geo: Geometry, y: seq<real>, w: seq<real>, k: nat): nat -> real
  {
    (i: nat) => Sum(k, ScatterTerms(geo, y, w, i))
  }

  lemma {:induction false} OutputsAdjoint(geo: Geometry, x: seq<real>, w: seq<real>, y: seq<real>, k: nat)
    ensures Sum(k, CorrelateOver(geo, x, w, y)) == Inner1(x, FirstOutputs(geo, y, w, k))
  {
    if k == 0 {
      InnerVanish(x, FirstOutputs(geo, y, w, 0));
    } else {
      var o := k - 1;
      OutputsAdjoint(geo, x, w, y, o);
      TapsAdjoint(geo, x, w, At(y, o), o, |w|);
      InnerCongruent(x, HitsOver(geo, At(y, o), w, o), TapsOver(geo, At(y, o), w, o, |w|));
      InnerPlus(x, FirstOutputs(geo, y, w, o), HitsOver(geo, At(y, o), w, o), FirstOutputs(geo, y, w, k));
    }
  }

  lemma RowAdjoint(geo: Geometry, x: seq<real>, w: seq<real>, y: seq<real>)
    ensures Sum(|y|, CorrelateOver(geo, x, w, y)) == Inner1(x, ScatterOver(geo, y, w))
  {
    OutputsAdjoint(geo, x, w, y, |y|);
    InnerCongruent(x, ScatterOver(geo, y, w), FirstOutputs(geo, y, w, |y|));
  }

  // ---- one group of one batch item ---------------------------------------------

  // f(o, c): the contribution of input channel c to output (m, o), times dy.
  ghost function ByChannel(geo: Geometry, x: seq<real>, w: seq<real>, dy: seq<real>, n: nat, g: nat, m: nat): (nat, nat) -> real
  {
    (o: nat, c: nat) => Mul(ForwardTerms(geo, x, w, n, g, m, o)(c), At(OutputRow(geo, dy, n, g, m), o))
  }

  ghost function ForwardOver(geo: Geometry, x: seq<real>, w: seq<real>, dy: seq<real>, n: nat, g: nat, m: nat): nat -> real
  {
    (o: nat) => Mul(ForwardAt(geo, x, w, n, g, m, o), At(OutputRow(geo, dy, n, g, m), o))
  }

  // f(m, c): output channel m against input channel c, summed over positions.
  ghost function Pairing(geo: Geometry, x: seq<real>, w: seq<real>, dy: seq<real>, n: nat, g: nat): (nat, nat) -> real
  {
    (m: nat, c: nat) =>
      Inner1(InputRow(geo, x, n, g, c),
             ScatterOver(geo, OutputRow(geo, dy, n, g, m), FilterRow(geo, w, g * geo.outPer + m, c)))
  }

  lemma ScaleOutput(geo: Geometry, x: seq<real>, w: seq<real>, dy: seq<real>, n: nat, g: nat, m: nat, o: nat)
    ensures ForwardOver(geo, x, w, dy, n, g, m)(o) == Inner(geo.inPer, ByChannel(geo, x, w, dy, n, g, m))(o)
  {
    var v := At(OutputRow(geo, dy, n, g, m), o);
    var f, h := ForwardTerms(geo, x, w, n, g, m, o), Fix(ByChannel(geo, x, w, dy, n, g, m), o);
    forall c: nat
      ensures h(c) == Mul(v, f(c))
    {
      Commute(v, f(c));
    }
    Scale(geo.inPer, v, f, h);
    Commute(v, Sum(geo.inPer, f));
  }

  lemma OutputColumn(geo: Geometry, x: seq<real>, w: seq<real>, dy: seq<real>, n: nat, g: nat, m: nat, c: nat)
    ensures Inner(geo.yLen, Flip(ByChannel(geo, x, w, dy, n, g, m)))(c) == Pairing(geo, x, w, dy, n, g)(m, c)
  {
    var xrow, yrow := InputRow(geo, x, n, g, c), OutputRow(geo, dy, n, g, m);
    var wrow := FilterRow(geo, w, g * geo.outPer + m, c);
    RowAdjoint(geo, xrow, wrow, yrow);
    var column := Fix(Flip(ByChannel(geo, x, w, dy, n, g, m)), c);
    forall o: nat
      ensures column(o) == CorrelateOver(geo, xrow, wrow, yrow)(o)
    {
      assert column(o) == ByChannel(geo, x, w, dy, n, g, m)(o, c);
      assert ForwardTerms(geo, x, w, n, g, m, o)(c) == Correlate(geo, xrow, wrow, o);
    }
    Congruent(geo.yLen, column, CorrelateOver(geo, xrow, wrow, yrow));
  }

  lemma OutputChannel(geo: Geometry, x: seq<real>, w: seq<real>, dy: seq<real>, n: nat, g: nat, m: nat)
    ensures Sum(geo.yLen, ForwardOver(geo, x, w, dy, n, g, m)) == Sum(geo.inPer, Fix(Pairing(geo, x, w, dy, n, g), m))
  {
    var f := ByChannel(geo, x, w, dy, n, g, m);
    forall o: nat | o < geo.yLen
      ensures ForwardOver(geo, x, w, dy, n, g, m)(o) == Inner(geo.inPer, f)(o)
    {
      ScaleOutput(geo, x, w, dy, n, g, m, o);
    }
    Congruent(geo.yLen, ForwardOver(geo, x, w, dy, n, g, m), Inner(geo.inPer, f));
    Swap(geo.yLen, geo.inPer, f);
    forall c: nat | c < geo.inPer
      ensures Inner(geo.yLen, Flip(f))(c) == Fix(Pairing(geo, x, w, dy, n, g), m)(c)
    {
      OutputColumn(geo, x, w, dy, n, g, m, c);
    }
    Congruent(geo.inPer, Inner(geo.yLen, Flip(f)), Fix(Pairing(geo, x, w, dy, n, g), m));
  }

  // f(i, m): what output channel m sends back to (c, i), times x.
  ghost function BySource(geo: Geometry, x: seq<real>, w: seq<real>, dy: seq<real>, n: nat, g: nat, c: nat): (nat, nat) -> real
  {
    (i: nat, m: nat) => Mul(At(InputRow(geo, x, n, g, c), i), BackwardTerms(geo, dy, w, n, g, c, i)(m))
  }

  ghost function BackwardOver(geo: Geometry, x: seq<real>, w: seq<real>, dy: seq<real>, n: nat, g: nat, c: nat): nat -> real
  {
    (i: nat) => Mul(At(InputRow(geo, x, n, g, c), i), BackwardAt(geo, dy, w, n, g, c, i))
  }

  lemma ScaleInput(geo: Geometry, x: seq<real>, w: seq<real>, dy: seq<real>, n: nat, g: nat, c: nat, i: nat)
    ensures BackwardOver(geo, x, w, dy, n, g, c)(i) == Inner(geo.outPer, BySource(geo, x, w, dy, n, g, c))(i)
  {
    var v := At(InputRow(geo, x, n, g, c), i);
    var f, h := BackwardTerms(geo, dy, w, n, g, c, i), Fix(BySource(geo, x, w, dy, n, g, c), i);
    assert forall m: nat :: h(m) == Mul(v, f(m));
    Scale(geo.outPer, v, f, h);
  }

  lemma InputColumn(geo: Geometry, x: seq<real>, w: seq<real>, dy: seq<real>, n: nat, g: nat, c: nat, m: nat)
    ensures Inner(geo.xLen, Flip(BySource(geo, x, w, dy, n, g, c)))(m) == Pairing(geo, x, w, dy, n, g)(m, c)
  {
    var xrow, yrow := InputRow(geo, x, n, g, c), OutputRow(geo, dy, n, g, m);
    var weighted := Weighted(xrow, ScatterOver(geo, yrow, FilterRow(geo, w, g * geo.outPer + m, c)));
    var column := Fix(Flip(BySource(geo, x, w, dy, n, g, c)), m);
    forall i: nat
      ensures column(i) == weighted(i)
    {
      assert column(i) == BySource(geo, x, w, dy, n, g, c)(i, m);
      assert BackwardTerms(geo, dy, w, n, g, c, i)(m)
          == ScatterOver(geo, yrow, FilterRow(geo, w, g * geo.outPer + m, c))(i);
    }
    Congruent(geo.xLen, column, weighted);
  }

  lemma InputChannel(geo: Geometry, x: seq<real>, w: seq<real>, dy: seq<real>, n: nat, g: nat, c: nat)
    ensures Sum(geo.xLen, BackwardOver(geo, x, w, dy, n, g, c))
         == Sum(geo.outPer, Fix(Flip(Pairing(geo, x, w, dy, n, g)), c))
  {
    var f := BySource(geo, x, w, dy, n, g, c);
    forall i: nat | i < geo.xLen
      ensures BackwardOver(geo, x, w, dy, n, g, c)(i) == Inner(geo.outPer, f)(i)
    {
      ScaleInput(geo, x, w, dy, n, g, c, i);
    }
    Congruent(geo.xLen, BackwardOver(geo, x, w, dy, n, g, c), Inner(geo.outPer, f));
    Swap(geo.xLen, geo.outPer, f);
    forall m: nat | m < geo.outPer
      ensures Inner(geo.xLen, Flip(f))(m) == Fix(Flip(Pairing(geo, x, w, dy, n, g)), c)(m)
    {
      InputColumn(geo, x, w, dy, n, g, c, m);
    }
    Congruent(geo.outPer, Inner(geo.xLen, Flip(f)), Fix(Flip(Pairing(geo, x, w, dy, n, g)), c));
  }

  ghost function OutputChannels(geo: Geometry, x: seq<real>, w: seq<real>, dy: seq<real>, n: nat): (nat, nat) -> real
  {
    (g: nat, m: nat) => Sum(geo.yLen, ForwardOver(geo, x, w, dy, n, g, m))
  }

  ghost function InputChannels(geo: Geometry, x: seq<real>, w: seq<real>, dy: seq<real>, n: nat): (nat, nat) -> real
  {
    (g: nat, c: nat) => Sum(geo.xLen, BackwardOver(geo, x, w, dy, n, g, c))
  }

  lemma GroupAdjoint(geo: Geometry, x: seq<real>, w: seq<real>, dy: seq<real>, n: nat, g: nat)
    ensures Inner(geo.outPer, OutputChannels(geo, x, w, dy, n))(g) == Inner(geo.inPer, InputChannels(geo, x, w, dy, n))(g)
  {
    var f := Pairing(geo, x, w, dy, n, g);
    forall m: nat | m < geo.outPer
      ensures Fix(OutputChannels(geo, x, w, dy, n), g)(m) == Inner(geo.inPer, f)(m)
    {
      OutputChannel(geo, x, w, dy, n, g, m);
    }
    Congruent(geo.outPer, Fix(OutputChannels(geo, x, w, dy, n), g), Inner(geo.inPer, f));
    Swap(geo.outPer, geo.inPer, f);
    forall c: nat | c < geo.inPer
      ensures Fix(InputChannels(geo, x, w, dy, n), g)(c) == Inner(geo.outPer, Flip(f))(c)
    {
      InputChannel(geo, x, w, dy, n, g, c);
    }
    Congruent(geo.inPer, Fix(InputChannels(geo, x, w, dy, n), g), Inner(geo.outPer, Flip(f)));
  }

  // ---- whole tensors -------------------------------------------------------------

  ghost function Rows(len: nat, a: seq<real>, b: seq<real>): (nat, nat) -> real
  {
    (r: nat, i: nat) => Mul(At(a, r * len + i), At(b, r * len + i))
  }

  ghost function Channels(channels: nat, f: nat -> real): (nat, nat) -> real
  {
    (n: nat, ch: nat) => f(n * channels + ch)
  }

  // The inner product of two [batch, groups * per, len] tensors, nested.
  ghost function Nested(channels: nat, per: nat, f: nat -> real, n: nat): (nat, nat) -> real
  {
    (g: nat, m: nat) => f(n * channels + (g * per + m))
  }

  ghost function Slice(s: (nat, nat, nat) -> real, n: nat): (nat, nat) -> real
  {
    (g: nat, m: nat) => s(n, g, m)
  }

  ghost function Batched(groups: nat, per: nat, s: (nat, nat, nat) -> real): nat -> real
  {
    (n: nat) => Sum(groups, Inner(per, Slice(s, n)))
  }

  lemma ItemIsNested(groups: nat, per: nat, channels: nat, f: nat -> real, n: nat, s: (nat, nat, nat) -> real)
    requires channels == groups * per
    requires forall g: nat, m: nat :: g < groups && m < per ==> s(n, g, m) == f(n * channels + (g * per + m))
    ensures Inner(channels, Channels(channels, f))(n) == Batched(groups, per, s)(n)
  {
    var nested := Nested(channels, per, f, n);
    Flatten(groups, per, Fix(Channels(channels, f), n), nested);
    forall g: nat | g < groups
      ensures Inner(per, nested)(g) == Inner(per, Slice(s, n))(g)
    {
      Congruent(per, Fix(nested, g), Fix(Slice(s, n), g));
    }
    Congruent(groups, Inner(per, nested), Inner(per, Slice(s, n)));
  }

  lemma FlatIsNested(batch: nat, groups: nat, per: nat, channels: nat, len: nat,
                     a: seq<real>, b: seq<real>, s: (nat, nat, nat) -> real)
    requires channels == groups * per && |a| == |b| == batch * channels * len
    requires forall n: nat, g: nat, m: nat :: n < batch && g < groups && m < per ==>
      s(n, g, m) == Sum(len, Fix(Rows(len, a, b), n * channels + (g * per + m)))
    ensures Dot(a, b) == Sum(batch, Batched(groups, per, s))
  {
    var byRow := Inner(len, Rows(len, a, b));
    Flatten(batch * channels, len, Pairwise(a, b), Rows(len, a, b));
    Flatten(batch, channels, byRow, Channels(channels, byRow));
    forall n: nat | n < batch
      ensures Inner(channels, Channels(channels, byRow))(n) == Batched(groups, per, s)(n)
    {
      ItemIsNested(groups, per, channels, byRow, n, s);
    }
    Congruent(batch, Inner(channels, Channels(channels, byRow)), Batched(groups, per, s));
  }

  ghost function OutputSums(geo: Geometry, x: seq<real>, w: seq<real>, dy: seq<real>): (nat, nat, nat) -> real
  {
    (n: nat, g: nat, m: nat) => OutputChannels(geo, x, w, dy, n)(g, m)
  }

  ghost function InputSums(geo: Geometry, x: seq<real>, w: seq<real>, dy: seq<real>): (nat, nat, nat) -> real
  {
    (n: nat, g: nat, c: nat) => InputChannels(geo, x, w, dy, n)(g, c)
  }

  lemma ForwardTerm(geo: Geometry, x: seq<real>, w: seq<real>, y: seq<real>, n: nat, g: nat, m: nat, o: nat)
    requires geo.Exact() && n < geo.batch && g < geo.groups && m < geo.outPer && o < geo.yLen
    requires |y| == geo.batch * geo.yChannels * geo.yLen
    ensures At(ForwardSpec(geo, 1.0, 0.0, x, w, y), (n * geo.yChannels + (g * geo.outPer + m)) * geo.yLen + o)
         == ForwardAt(geo, x, w, n, g, m, o)
  {
    Below(g, geo.groups, m, geo.outPer);
    Position(n, geo.batch, g * geo.outPer + m, geo.yChannels, o, geo.yLen);
    var p := (n * geo.yChannels + (g * geo.outPer + m)) * geo.yLen + o;
    ForwardEntry(geo, 1.0, 0.0, x, w, y, n, g, m, o);
    Zero(y[p]);
    One(ForwardAt(geo, x, w, n, g, m, o));
  }

  lemma ForwardProduct(geo: Geometry, x: seq<real>, w: seq<real>, dy: seq<real>, a: seq<real>, r: nat, n: nat, g: nat, m: nat, o: nat)
    requires o < geo.yLen && r == n * geo.yChannels + (g * geo.outPer + m)
    requires At(a, r * geo.yLen + o) == ForwardAt(geo, x, w, n, g, m, o)
    ensures Fix(Rows(geo.yLen, a, dy), r)(o) == ForwardOver(geo, x, w, dy, n, g, m)(o)
  {
    var p := r * geo.yLen + o;
  }

  lemma BackwardProduct(geo: Geometry, x: seq<real>, w: seq<real>, dy: seq<real>, a: seq<real>, r: nat, n: nat, g: nat, c: nat, i: nat)
    requires i < geo.xLen && r == n * geo.xChannels + (g * geo.inPer + c)
    requires At(a, r * geo.xLen + i) == BackwardAt(geo, dy, w, n, g, c, i)
    ensures Fix(Rows(geo.xLen, x, a), r)(i) == BackwardOver(geo, x, w, dy, n, g, c)(i)
  {
    var p := r * geo.xLen + i;
  }

  lemma ForwardRow(geo: Geometry, x: seq<real>, w: seq<real>, dy: seq<real>, a: seq<real>, r: nat, n: nat, g: nat, m: nat)
    requires r == n * geo.yChannels + (g * geo.outPer + m)
    requires forall o: nat :: o < geo.yLen ==> At(a, r * geo.yLen + o) == ForwardAt(geo, x, w, n, g, m, o)
    ensures Sum(geo.yLen, Fix(Rows(geo.yLen, a, dy), r)) == OutputSums(geo, x, w, dy)(n, g, m)
  {
    forall o: nat | o < geo.yLen
      ensures Fix(Rows(geo.yLen, a, dy), r)(o) == ForwardOver(geo, x, w, dy, n, g, m)(o)
    {
      ForwardProduct(geo, x, w, dy, a, r, n, g, m, o);
    }
    Congruent(geo.yLen, Fix(Rows(geo.yLen, a, dy), r), ForwardOver(geo, x, w, dy, n, g, m));
    assert OutputSums(geo, x, w, dy)(n, g, m) == OutputChannels(geo, x, w, dy, n)(g, m);
  }

  lemma BackwardTerm(geo: Geometry, w: seq<real>, dy: seq<real>, dx: seq<real>, n: nat, g: nat, c: nat, i: nat)
    requires geo.Exact() && n < geo.batch && g < geo.groups && c < geo.inPer && i < geo.xLen
    requires |dx| == geo.batch * geo.xChannels * geo.xLen
    ensures At(BackwardSpec(geo, 1.0, 0.0, w, dy, dx), (n * geo.xChannels + (g * geo.inPer + c)) * geo.xLen + i)
         == BackwardAt(geo, dy, w, n, g, c, i)
  {
    Below(g, geo.groups, c, geo.inPer);
    Position(n, geo.batch, g * geo.inPer + c, geo.xChannels, i, geo.xLen);
    var p := (n * geo.xChannels + (g * geo.inPer + c)) * geo.xLen + i;
    BackwardEntry(geo, 1.0, 0.0, w, dy, dx, n, g, c, i);
    Zero(dx[p]);
    One(BackwardAt(geo, dy, w, n, g, c, i));
  }

  lemma BackwardRow(geo: Geometry, x: seq<real>, w: seq<real>, dy: seq<real>, a: seq<real>, r: nat, n: nat, g: nat, c: nat)
    requires r == n * geo.xChannels + (g * geo.inPer + c)
    requires forall i: nat :: i < geo.xLen ==> At(a, r * geo.xLen + i) == BackwardAt(geo, dy, w, n, g, c, i)
    ensures Sum(geo.xLen, Fix(Rows(geo.xLen, x, a), r)) == InputSums(geo, x, w, dy)(n, g, c)
  {
    forall i: nat | i < geo.xLen
      ensures Fix(Rows(geo.xLen, x, a), r)(i) == BackwardOver(geo, x, w, dy, n, g, c)(i)
    {
      BackwardProduct(geo, x, w, dy, a, r, n, g, c, i);
    }
    Congruent(geo.xLen, Fix(Rows(geo.xLen, x, a), r), BackwardOver(geo, x, w, dy, n, g, c));
    assert InputSums(geo, x, w, dy)(n, g, c) == InputChannels(geo, x, w, dy, n)(g, c);
  }

  lemma ForwardRowSum(geo: Geometry, x: seq<real>, w: seq<real>, dy: seq<real>, y: seq<real>, n: nat, g: nat, m: nat)
    requires geo.Exact() && n < geo.batch && g < geo.groups && m < geo.outPer
    requires |y| == geo.batch * geo.yChannels * geo.yLen
    ensures OutputSums(geo, x, w, dy)(n, g, m)
         == Sum(geo.yLen, Fix(Rows(geo.yLen, ForwardSpec(geo, 1.0, 0.0, x, w, y), dy), n * geo.yChannels + (g * geo.outPer + m)))
  {
    var a, r := ForwardSpec(geo, 1.0, 0.0, x, w, y), n * geo.yChannels + (g * geo.outPer + m);
    forall o: nat | o < geo.yLen
      ensures At(a, r * geo.yLen + o) == ForwardAt(geo, x, w, n, g, m, o)
    {
      ForwardTerm(geo, x, w, y, n, g, m, o);
    }
    ForwardRow(geo, x, w, dy, a, r, n, g, m);
  }

  lemma ForwardNested(geo: Geometry, x: seq<real>, w: seq<real>, dy: seq<real>, y: seq<real>)
    requires geo.Exact()
    requires |y| == |dy| == geo.batch * geo.yChannels * geo.yLen
    ensures Dot(ForwardSpec(geo, 1.0, 0.0, x, w, y), dy)
         == Sum(geo.batch, Batched(geo.groups, geo.outPer, OutputSums(geo, x, w, dy)))
  {
    var a, s := ForwardSpec(geo, 1.0, 0.0, x, w, y), OutputSums(geo, x, w, dy);
    forall n: nat, g: nat, m: nat | n < geo.batch && g < geo.groups && m < geo.outPer
      ensures s(n, g, m) == Sum(geo.yLen, Fix(Rows(geo.yLen, a, dy), n * geo.yChannels + (g * geo.outPer + m)))
    {
      ForwardRowSum(geo, x, w, dy, y, n, g, m);
    }
    FlatIsNested(geo.batch, geo.groups, geo.outPer, geo.yChannels, geo.yLen, a, dy, s);
  }

  lemma BackwardRowSum(geo: Geometry, x: seq<real>, w: seq<real>, dy: seq<real>, dx: seq<real>, n: nat, g: nat, c: nat)
    requires geo.Exact() && n < geo.batch && g < geo.groups && c < geo.inPer
    requires |dx| == geo.batch * geo.xChannels * geo.xLen
    ensures InputSums(geo, x, w, dy)(n, g, c)
         == Sum(geo.xLen, Fix(Rows(geo.xLen, x, BackwardSpec(geo, 1.0, 0.0, w, dy, dx)), n * geo.xChannels + (g * geo.inPer + c)))
  {
    var a, r := BackwardSpec(geo, 1.0, 0.0, w, dy, dx), n * geo.xChannels + (g * geo.inPer + c);
    forall i: nat | i < geo.xLen
      ensures At(a, r * geo.xLen + i) == BackwardAt(geo, dy, w, n, g, c, i)
    {
      BackwardTerm(geo, w, dy, dx, n, g, c, i);
    }
    BackwardRow(geo, x, w, dy, a, r, n, g, c);
  }

  lemma BackwardNested(geo: Geometry, x: seq<real>, w: seq<real>, dy: seq<real>, dx: seq<real>)
    requires geo.Exact()
    requires |x| == |dx| == geo.batch * geo.xChannels * geo.xLen
    ensures Dot(x, BackwardSpec(geo, 1.0, 0.0, w, dy, dx))
         == Sum(geo.batch, Batched(geo.groups, geo.inPer, InputSums(geo, x, w, dy)))
  {
    var a, s := BackwardSpec(geo, 1.0, 0.0, w, dy, dx), InputSums(geo, x, w, dy);
    forall n: nat, g: nat, c: nat | n < geo.batch && g < geo.groups && c < geo.inPer
      ensures s(n, g, c) == Sum(geo.xLen, Fix(Rows(geo.xLen, x, a), n * geo.xChannels + (g * geo.inPer + c)))
    {
      BackwardRowSum(geo, x, w, dy, dx, n, g, c);
    }
    FlatIsNested(geo.batch, geo.groups, geo.inPer, geo.xChannels, geo.xLen, x, a, s);
  }

  lemma BatchAdjoint(geo: Geometry, x: seq<real>, w: seq<real>, dy: seq<real>, n: nat)
    ensures Batched(geo.groups, geo.outPer, OutputSums(geo, x, w, dy))(n) == Batched(geo.groups, geo.inPer, InputSums(geo, x, w, dy))(n)
  {
    var outs, ins := Slice(OutputSums(geo, x, w, dy), n), Slice(InputSums(geo, x, w, dy), n);
    forall g: nat | g < geo.groups
      ensures Inner(geo.outPer, outs)(g) == Inner(geo.inPer, ins)(g)
    {
      Congruent(geo.outPer, Fix(outs, g), Fix(OutputChannels(geo, x, w, dy, n), g));
      Congruent(geo.inPer, Fix(ins, g), Fix(InputChannels(geo, x, w, dy, n), g));
      GroupAdjoint(geo, x, w, dy, n, g);
    }
    Congruent(geo.groups, Inner(geo.outPer, outs), Inner(geo.inPer, ins));
  }

  // The main theorem: <forward(x), dy> == <x, backward(dy)>, whatever the output
  // buffers held before.
  lemma TransposeIsAdjoint(geo: Geometry, x: seq<real>, w: seq<real>, dy: seq<real>, y: seq<real>, dx: seq<real>)
    requires geo.Exact()
    requires |x| == |dx| == geo.batch * geo.xChannels * geo.xLen
    requires |y| == |dy| == geo.batch * geo.yChannels * geo.yLen
    ensures Dot(ForwardSpec(geo, 1.0, 0.0, x, w, y), dy) == Dot(x, BackwardSpec(geo, 1.0, 0.0, w, dy, dx))
  {
    ForwardNested(geo, x, w, dy, y);
    BackwardNested(geo, x, w, dy, dx);
    var outs := Batched(geo.groups, geo.outPer, OutputSums(geo, x, w, dy));
    var ins := Batched(geo.groups, geo.inPer, InputSums(geo, x, w, dy));
    forall n: nat | n < geo.batch
      ensures outs(n) == ins(n)
    {
      BatchAdjoint(geo, x, w, dy, n);
    }
    Congruent(geo.batch, outs, ins);
  }

  // The same for the two entry points: handed the same descriptors, with channel
  // counts that the groups divide, what they leave in their buffers is adjoint.
  lemma EntryPointsAreAdjoint(xDesc: TensorDesc, wDesc: FilterDesc, conv: ConvDesc, yDesc: TensorDesc,
                              x: seq<real>, w: seq<real>, dy: seq<real>, y: seq<real>, dx: seq<real>)
    requires Readable(xDesc, wDesc, conv, yDesc)
    requires var xs, ys, groups := As1D(xDesc), As1D(yDesc), Groups(conv);
      && xs.n == ys.n && xs.c == groups * wDesc.dim[1] && ys.c == wDesc.dim[0] && wDesc.dim[0] % groups == 0
      && |x| == |dx| == xs.n * xs.c * xs.len && |y| == |dy| == ys.n * ys.c * ys.len
    ensures var after := ForwardSpec(ForwardGeometry(xDesc, wDesc, conv, yDesc), 1.0, 0.0, x, w, y);
      var back := BackwardSpec(BackwardGeometry(wDesc, yDesc, conv, xDesc), 1.0, 0.0, w, dy, dx);
      Dot(after, dy) == Dot(x, back)
  {
    Rebuild(wDesc.dim[0], Groups(conv));
    TransposeIsAdjoint(ForwardGeometry(xDesc, wDesc, conv, yDesc), x, w, dy, y, dx);
  }
}
