// Three arrangements of the direct sum: tap by tap, as a product with an unrolled
// column matrix, and with the taps that fall outside the input clipped away.
module ConvolutionForms {
  import opened Division
  import opened Products
  import opened Sums
  import opened Convolution

  ghost function ChannelTerms(geo: Geometry, x: seq<real>, w: seq<real>, n: nat, g: nat, m: nat, o: int, t: nat): nat -> real
  {
    (c: nat) => TapTerms(geo, InputRow(geo, x, n, g, c), FilterRow(geo, w, g * geo.outPer + m, c), o)(t)
  }

  // Every input channel through one tap.
  ghost function TapAt(geo: Geometry, x: seq<real>, w: seq<real>, n: nat, g: nat, m: nat, o: int, t: nat): real
  {
    Sum(geo.inPer, ChannelTerms(geo, x, w, n, g, m, o, t))
  }

  ghost function TapSums(geo: Geometry, x: seq<real>, w: seq<real>, n: nat, g: nat, m: nat, o: int): nat -> real
  {
    (t: nat) => TapAt(geo, x, w, n, g, m, o, t)
  }

  // The first k taps, one after the other.
  ghost function FirstTaps(geo: Geometry, x: seq<real>, w: seq<real>, n: nat, g: nat, m: nat, o: int, k: nat): real
  {
    Sum(k, TapSums(geo, x, w, n, g, m, o))
  }

  ghost function Terms(geo: Geometry, x: seq<real>, w: seq<real>, n: nat, g: nat, m: nat, o: int): (nat, nat) -> real
  {
    (c: nat, t: nat) => TapTerms(geo, InputRow(geo, x, n, g, c), FilterRow(geo, w, g * geo.outPer + m, c), o)(t)
  }

  lemma ForwardByChannel(geo: Geometry, x: seq<real>, w: seq<real>, n: nat, g: nat, m: nat, o: int)
    ensures ForwardAt(geo, x, w, n, g, m, o) == Sum(geo.inPer, Inner(geo.taps, Terms(geo, x, w, n, g, m, o)))
  {
    forall c: nat | c < geo.inPer
      ensures ForwardTerms(geo, x, w, n, g, m, o)(c) == Inner(geo.taps, Terms(geo, x, w, n, g, m, o))(c)
    {
      Congruent(geo.taps, TapTerms(geo, InputRow(geo, x, n, g, c), FilterRow(geo, w, g * geo.outPer + m, c), o),
                Fix(Terms(geo, x, w, n, g, m, o), c));
    }
    Congruent(geo.inPer, ForwardTerms(geo, x, w, n, g, m, o), Inner(geo.taps, Terms(geo, x, w, n, g, m, o)));
  }

  // Adding one tap after the other gives the direct sum.
  lemma TapByTap(geo: Geometry, x: seq<real>, w: seq<real>, n: nat, g: nat, m: nat, o: int)
    ensures ForwardAt(geo, x, w, n, g, m, o) == FirstTaps(geo, x, w, n, g, m, o, geo.taps)
  {
    var f := Terms(geo, x, w, n, g, m, o);
    ForwardByChannel(geo, x, w, n, g, m, o);
    Swap(geo.inPer, geo.taps, f);
    forall t: nat | t < geo.taps
      ensures Inner(geo.inPer, Flip(f))(t) == TapSums(geo, x, w, n, g, m, o)(t)
    {
      Congruent(geo.inPer, Fix(Flip(f), t), ChannelTerms(geo, x, w, n, g, m, o, t));
    }
    Congruent(geo.taps, Inner(geo.inPer, Flip(f)), TapSums(geo, x, w, n, g, m, o));
  }

  // A tap whose input position is outside the input adds nothing.
  lemma OutsideTap(geo: Geometry, x: seq<real>, w: seq<real>, n: nat, g: nat, m: nat, o: int, t: nat)
    requires !(0 <= geo.Pos(o, t) < geo.xLen)
    ensures TapAt(geo, x, w, n, g, m, o, t) == 0.0
  {
    forall c: nat | c < geo.inPer
      ensures ChannelTerms(geo, x, w, n, g, m, o, t)(c) == 0.0
    {
      Zero(At(FilterRow(geo, w, g * geo.outPer + m, c), t));
    }
    Vanish(geo.inPer, ChannelTerms(geo, x, w, n, g, m, o, t));
  }

  // Entry (o, j) of the unrolled input, where j runs over (channel, tap).
  ghost function ColumnAt(geo: Geometry, x: seq<real>, n: nat, g: nat, o: int, j: nat): real
  {
    if geo.taps == 0 then 0.0 else At(InputRow(geo, x, n, g, j / geo.taps), geo.Pos(o, j % geo.taps))
  }

  ghost function ColumnTerms(geo: Geometry, x: seq<real>, w: seq<real>, n: nat, g: nat, m: nat, o: int): nat -> real
  {
    (j: nat) => Mul(At(w, (g * geo.outPer + m) * geo.inPer * geo.taps + j), ColumnAt(geo, x, n, g, o, j))
  }

  lemma FilterIndex(ch: nat, inPer: nat, c: nat, taps: nat, t: nat)
    ensures (ch * inPer + c) * taps + t == ch * inPer * taps + (c * taps + t)
  {
  }

  lemma ColumnTerm(geo: Geometry, x: seq<real>, w: seq<real>, n: nat, g: nat, m: nat, o: int, c: nat, t: nat)
    requires t < geo.taps
    ensures Terms(geo, x, w, n, g, m, o)(c, t) == ColumnTerms(geo, x, w, n, g, m, o)(c * geo.taps + t)
  {
    Unique(c * geo.taps + t, geo.taps, c, t);
    var ch := g * geo.outPer + m;
    FilterIndex(ch, geo.inPer, c, geo.taps, t);
    assert At(FilterRow(geo, w, ch, c), t) == At(w, ch * geo.inPer * geo.taps + (c * geo.taps + t));
  }

  lemma ColumnsMatch(geo: Geometry, x: seq<real>, w: seq<real>, n: nat, g: nat, m: nat, o: int)
    ensures forall c: nat, t: nat :: c < geo.inPer && t < geo.taps ==>
      Terms(geo, x, w, n, g, m, o)(c, t) == ColumnTerms(geo, x, w, n, g, m, o)(c * geo.taps + t)
  {
    forall c: nat, t: nat | c < geo.inPer && t < geo.taps
      ensures Terms(geo, x, w, n, g, m, o)(c, t) == ColumnTerms(geo, x, w, n, g, m, o)(c * geo.taps + t)
    {
      ColumnTerm(geo, x, w, n, g, m, o, c, t);
    }
  }

  // One row of the product with the unrolled input gives the direct sum.
  lemma ColumnProduct(geo: Geometry, x: seq<real>, w: seq<real>, n: nat, g: nat, m: nat, o: int)
    ensures ForwardAt(geo, x, w, n, g, m, o) == Sum(geo.inPer * geo.taps, ColumnTerms(geo, x, w, n, g, m, o))
  {
    ForwardByChannel(geo, x, w, n, g, m, o);
    ColumnsMatch(geo, x, w, n, g, m, o);
    Flatten(geo.inPer, geo.taps, ColumnTerms(geo, x, w, n, g, m, o), Terms(geo, x, w, n, g, m, o));
  }
}
