// The fused elementwise kernels, each proved to be what expanding every operand first
// and then working element by element would give.
module Broadcasts {
  import opened Division
  import opened MixedRadix
  import opened Layouts
  import opened LayoutKernels

  // How an operand is read: position for position, one value throughout, or through
  // its own strides.
  datatype Kind = Direct | Scalar | Compute

  ghost predicate Readable(kind: Kind, divisors: seq<int>, strides: seq<int>, n: nat, size: nat) {
    match kind
    case Direct => n <= size
    case Scalar => Reads([], [], n, size)
    case Compute => Reads(divisors, strides, n, size)
  }

  // The operand, expanded to n elements.
  ghost function Expanded<T>(kind: Kind, divisors: seq<int>, strides: seq<int>, s: seq<T>, n: nat): (r: seq<T>)
    requires Readable(kind, divisors, strides, n, |s|)
    ensures |r| == n
  {
    match kind
    case Direct => s[..n]
    case Scalar => Gathered([], [], s, n)
    case Compute => Gathered(divisors, strides, s, n)
  }

  ghost function Zip<A, B, C>(op: (A, B) -> C, l: seq<A>, r: seq<B>): (out: seq<C>)
    requires |l| == |r|
    ensures |out| == |l|
  {
    seq(|l|, i requires 0 <= i < |l| => op(l[i], r[i]))
  }

  ghost function Where<T>(cond: seq<bool>, x: seq<T>, y: seq<T>): (out: seq<T>)
    requires |cond| == |x| == |y|
    ensures |out| == |cond|
  {
    seq(|cond|, i requires 0 <= i < |cond| => if cond[i] then x[i] else y[i])
  }

  // A value read through strides that are all zero is one value throughout.
  lemma {:induction false} ZeroStrides(c: seq<int>, strides: seq<int>)
    requires |c| == |strides| && forall k :: 0 <= k < |strides| ==> strides[k] == 0
    ensures Dot(c, strides) == 0
  {
    if c != [] {
      ZeroStrides(c[1..], strides[1..]);
    }
  }

  lemma ScalarIsExpanded<T>(divisors: seq<int>, strides: seq<int>, s: seq<T>, n: nat)
    requires |divisors| == |strides| && (n > 0 ==> Positive(divisors) && |s| > 0)
    requires forall k :: 0 <= k < |strides| ==> strides[k] == 0
    ensures Readable(Scalar, [], [], n, |s|) && Readable(Compute, divisors, strides, n, |s|)
    ensures Expanded(Scalar, [], [], s, n) == Expanded(Compute, divisors, strides, s, n)
    ensures forall i :: 0 <= i < n ==> Expanded(Scalar, [], [], s, n)[i] == s[0]
  {
    forall i: nat | i < n
      ensures Source(divisors, strides, i) == 0 && Source([], [], i) == 0
    {
      ZeroStrides(Walk(divisors, i), strides);
    }
  }

  // Row-major strides make the walk the identity, so an operand of the full shape may
  // be read directly.
  lemma DirectIsExpanded<T>(dims: seq<int>, s: seq<T>)
    requires NonNegative(dims) && |s| == Volume(dims)
    ensures Readable(Direct, [], [], Volume(dims), |s|)
    ensures Readable(Compute, RowMajor(dims), RowMajor(dims), Volume(dims), |s|)
    ensures Expanded(Direct, [], [], s, Volume(dims)) == Expanded(Compute, RowMajor(dims), RowMajor(dims), s, Volume(dims))
  {
    VolumeIsCount(dims);
    forall i: nat | i < Volume(dims)
      ensures Source(RowMajor(dims), RowMajor(dims), i) == i
    {
      WalkFlat(dims, i);
    }
  }

  function Computed(flag: bool): Kind {
    if flag then Compute else Direct
  }

  // One walk, two accumulators.
  method LocateBoth(divisors: seq<int>, ls: seq<int>, rs: seq<int>, lhsCompute: bool, rhsCompute: bool, i: nat)
    returns (li: int, ri: int)
    requires |divisors| == |ls| == |rs| && Positive(divisors)
    ensures li == if lhsCompute then Source(divisors, ls, i) else i
    ensures ri == if rhsCompute then Source(divisors, rs, i) else i
  {
    li, ri := if lhsCompute then 0 else i, if rhsCompute then 0 else i;
    var offset := i;
    var dim := 0;
    while dim < |divisors|
      invariant 0 <= dim <= |divisors|
      invariant lhsCompute ==> li + Source(divisors[dim..], ls[dim..], offset) == Source(divisors, ls, i)
      invariant rhsCompute ==> ri + Source(divisors[dim..], rs[dim..], offset) == Source(divisors, rs, i)
      invariant (!lhsCompute ==> li == i) && (!rhsCompute ==> ri == i)
    {
      var q, r := DivMod(divisors[dim], offset);
      assert divisors[dim..][1..] == divisors[dim + 1..];
      assert ls[dim..][1..] == ls[dim + 1..] && rs[dim..][1..] == rs[dim + 1..];
      if lhsCompute {
        li := li + ls[dim] * q;
      }
      if rhsCompute {
        ri := ri + rs[dim] * q;
      }
      offset := r;
      dim := dim + 1;
    }
  }

  method BinaryGeneral<A, B, C>(op: (A, B) -> C, lhsCompute: bool, rhsCompute: bool, rank: int,
                                lhsStrides: Array8, lhs: array<A>, rhsStrides: Array8, rhs: array<B>,
                                outStrides: Array8, out: array<C>, n: int)
    returns (handled: bool)
    requires rank <= 8 ==>
      && (n > 0 ==> Positive(Used(outStrides, rank)))
      && Readable(Computed(lhsCompute), Used(outStrides, rank), Used(lhsStrides, rank), Count(n), lhs.Length)
      && Readable(Computed(rhsCompute), Used(outStrides, rank), Used(rhsStrides, rank), Count(n), rhs.Length)
      && n <= out.Length
    requires (out as object) != lhs && (out as object) != rhs
    modifies out
    ensures handled <==> rank <= 8
    ensures !handled ==> out[..] == old(out[..])
    ensures handled ==>
      Written(Zip(op, Expanded(Computed(lhsCompute), Used(outStrides, rank), Used(lhsStrides, rank), lhs[..], Count(n)),
                      Expanded(Computed(rhsCompute), Used(outStrides, rank), Used(rhsStrides, rank), rhs[..], Count(n))),
              old(out[..]), out[..])
  {
    if rank > 8 {
      return false;
    }
    var divisors, ls, rs := Used(outStrides, rank), Used(lhsStrides, rank), Used(rhsStrides, rank);
    ghost var l := Expanded(Computed(lhsCompute), divisors, ls, lhs[..], Count(n));
    ghost var r := Expanded(Computed(rhsCompute), divisors, rs, rhs[..], Count(n));
    ghost var before, target := out[..], Zip(op, l, r);
    var i := 0;
    while i < n
      invariant 0 <= i <= Count(n)
      invariant unchanged(lhs) && unchanged(rhs) && Overlaid(target, before, out[..], i)
    {
      var li, ri := LocateBoth(divisors, ls, rs, lhsCompute, rhsCompute, i);
      assert l[i] == lhs[li] && r[i] == rhs[ri];
      out[i] := op(lhs[li], rhs[ri]);
      i := i + 1;
    }
    return true;
  }

  function Indexed(flag: bool): Kind {
    if flag then Direct else Scalar
  }

  method BinarySimple<A, B, C>(op: (A, B) -> C, incL: bool, incR: bool, lhs: array<A>, rhs: array<B>, out: array<C>, n: int)
    requires Readable(Indexed(incL), [], [], Count(n), lhs.Length) && Readable(Indexed(incR), [], [], Count(n), rhs.Length)
    requires n <= out.Length && (out as object) != lhs && (out as object) != rhs
    modifies out
    ensures Written(Zip(op, Expanded(Indexed(incL), [], [], lhs[..], Count(n)), Expanded(Indexed(incR), [], [], rhs[..], Count(n))),
                    old(out[..]), out[..])
  {
    ghost var l, r := Expanded(Indexed(incL), [], [], lhs[..], Count(n)), Expanded(Indexed(incR), [], [], rhs[..], Count(n));
    ghost var before, target := out[..], Zip(op, l, r);
    var i := 0;
    while i < n
      invariant 0 <= i <= Count(n)
      invariant unchanged(lhs) && unchanged(rhs) && Overlaid(target, before, out[..], i)
    {
      assert Source([], [], i) == 0;
      var li, ri := if incL then i else 0, if incR then i else 0;
      assert l[i] == lhs[li] && r[i] == rhs[ri];
      out[i] := op(lhs[li], rhs[ri]);
      i := i + 1;
    }
  }

  // The per-channel operand of a single batch is a [channels, 1] tensor broadcast over [channels, h].
  lemma ChannelSource(h: int, i: nat)
    requires h > 0
    ensures Source([h, 1], [1, 0], i) == i / h
  {
    TwoAxes(h, 1, 0, i);
  }

  method BinaryRhsBatch1<A, B, C>(op: (A, B) -> C, lhs: array<A>, rhs: array<B>, h: int, out: array<C>, n: int)
    requires (n > 0 ==> h > 0) && n <= lhs.Length && n <= out.Length
    requires forall i: nat :: i < Count(n) ==> i / h < rhs.Length
    requires (out as object) != lhs && (out as object) != rhs
    modifies out
    ensures Readable(Compute, [h, 1], [1, 0], Count(n), rhs.Length)
    ensures Written(Zip(op, lhs[..Count(n)], Expanded(Compute, [h, 1], [1, 0], rhs[..], Count(n))), old(out[..]), out[..])
  {
    forall i: nat | i < Count(n)
      ensures 0 <= Source([h, 1], [1, 0], i) < rhs.Length
    {
      ChannelSource(h, i);
    }
    ghost var r := Expanded(Compute, [h, 1], [1, 0], rhs[..], Count(n));
    ghost var before, target := out[..], Zip(op, lhs[..Count(n)], r);
    var i := 0;
    while i < n
      invariant 0 <= i <= Count(n)
      invariant unchanged(lhs) && unchanged(rhs) && Overlaid(target, before, out[..], i)
    {
      var q, rest := DivMod(h, i);
      ChannelSource(h, i);
      assert r[i] == rhs[q];
      out[i] := op(lhs[i], rhs[q]);
      i := i + 1;
    }
  }

  lemma ChannelWraps(channels: int, h: int, i: nat)
    requires channels > 0 && h > 0
    ensures channels * h > 0
    ensures (i % (channels * h)) / h == (i / h) % channels
    ensures Source([channels * h, h, 1], [0, 1, 0], i) == (i / h) % channels
  {
    MulMonotone(1, channels, h);
    var q, rest := i / h, i % h;
    Rebuild(i, h);
    Rebuild(q, channels);
    var batch, channel := q / channels, q % channels;
    Below(channel, channels, rest, h);
    Spread(batch * channels, channel, h);
    Regroup(batch, channels, h);
    Unique(i, channels * h, batch, channel * h + rest);
    Unique(channel * h + rest, h, channel, rest);
    var c := Walk([channels * h, h, 1], i);
    assert c[1] == channel by {
      assert c[1..] == Walk([h, 1], i % (channels * h));
    }
    assert Dot(c, [0, 1, 0]) == c[1] by {
      assert Dot(c[1..][1..], [0]) == c[2] * 0 + Dot([], []);
      assert c[1..][1..] == [c[2]];
      assert [0, 1, 0][1..] == [1, 0] && [1, 0][1..] == [0];
    }
  }

  method BinaryRhsBatchN<A, B, C>(op: (A, B) -> C, lhs: array<A>, rhs: array<B>, h: int, channels: int, out: array<C>, n: int)
    requires (n > 0 ==> h > 0 && 0 < channels <= rhs.Length) && n <= lhs.Length && n <= out.Length
    requires (out as object) != lhs && (out as object) != rhs
    modifies out
    ensures Readable(Compute, [channels * h, h, 1], [0, 1, 0], Count(n), rhs.Length)
    ensures Written(Zip(op, lhs[..Count(n)], Expanded(Compute, [channels * h, h, 1], [0, 1, 0], rhs[..], Count(n))),
                    old(out[..]), out[..])
  {
    forall i: nat | i < Count(n)
      ensures 0 <= Source([channels * h, h, 1], [0, 1, 0], i) < rhs.Length
    {
      ChannelWraps(channels, h, i);
    }
    ghost var r := Expanded(Compute, [channels * h, h, 1], [0, 1, 0], rhs[..], Count(n));
    ghost var before, target := out[..], Zip(op, lhs[..Count(n)], r);
    var i := 0;
    while i < n
      invariant 0 <= i <= Count(n)
      invariant unchanged(lhs) && unchanged(rhs) && Overlaid(target, before, out[..], i)
    {
      var q, rest := DivMod(h, i);
      var batch, channel := DivMod(channels, q);
      ChannelWraps(channels, h, i);
      assert r[i] == rhs[channel];
      out[i] := op(lhs[i], rhs[channel]);
      i := i + 1;
    }
  }

  // ---- Where, over three operands ------------------------------------------------------

  ghost function Index(kind: Kind, divisors: seq<int>, strides: seq<int>, i: nat): int
    requires |divisors| == |strides| && Positive(divisors)
  {
    match kind
    case Direct => i
    case Scalar => 0
    case Compute => Source(divisors, strides, i)
  }

  // An index dim axes into its walk.
  ghost predicate Walked(kind: Kind, divisors: seq<int>, strides: seq<int>, i: nat, dim: nat, offset: nat, at: int)
    requires |divisors| == |strides| && Positive(divisors) && dim <= |divisors|
  {
    var rest := if kind.Compute? then Source(divisors[dim..], strides[dim..], offset) else 0;
    at + rest == Index(kind, divisors, strides, i)
  }

  method LocateThree(divisors: seq<int>, strides: seq<seq<int>>, kinds: seq<Kind>, i: nat) returns (idx: seq<int>)
    requires |strides| == |kinds| == 3 && forall k :: 0 <= k < 3 ==> |strides[k]| == |divisors|
    requires Positive(divisors)
    ensures |idx| == 3
    ensures forall k :: 0 <= k < 3 ==> idx[k] == Index(kinds[k], divisors, strides[k], i)
  {
    idx := seq(3, k requires 0 <= k < 3 => if kinds[k].Direct? then i else 0);
    var offset := i;
    var dim := 0;
    while dim < |divisors|
      invariant 0 <= dim <= |divisors| && |idx| == 3
      invariant forall k :: 0 <= k < 3 ==> Walked(kinds[k], divisors, strides[k], i, dim, offset, idx[k])
    {
      var q, r := DivMod(divisors[dim], offset);
      assert divisors[dim..][1..] == divisors[dim + 1..];
      assert forall k :: 0 <= k < 3 ==> strides[k][dim..][1..] == strides[k][dim + 1..];
      idx := seq(3, k requires 0 <= k < 3 => if kinds[k].Compute? then idx[k] + strides[k][dim] * q else idx[k]);
      offset := r;
      dim := dim + 1;
    }
  }

  // Every value that is chosen is there to be read; the other operand need not be.
  ghost predicate Choosable(kinds: seq<Kind>, divisors: seq<int>, strides: seq<seq<int>>, cond: seq<bool>, n: nat, xs: nat, ys: nat)
    requires |strides| == |kinds| == 3 && forall k :: 0 <= k < 3 ==> |strides[k]| == |divisors|
  {
    && (n > 0 ==> Positive(divisors))
    && forall i: nat :: i < n ==>
        && 0 <= Index(kinds[0], divisors, strides[0], i) < |cond|
        && if cond[Index(kinds[0], divisors, strides[0], i)] then 0 <= Index(kinds[1], divisors, strides[1], i) < xs
           else 0 <= Index(kinds[2], divisors, strides[2], i) < ys
  }

  // The choice, element by element.
  ghost function Chosen<T>(kinds: seq<Kind>, divisors: seq<int>, strides: seq<seq<int>>, cond: seq<bool>, x: seq<T>, y: seq<T>, n: nat)
    : (out: seq<T>)
    requires |strides| == |kinds| == 3 && forall k :: 0 <= k < 3 ==> |strides[k]| == |divisors|
    requires Choosable(kinds, divisors, strides, cond, n, |x|, |y|)
    ensures |out| == n
  {
    seq(n, i requires 0 <= i < n =>
      if cond[Index(kinds[0], divisors, strides[0], i)] then x[Index(kinds[1], divisors, strides[1], i)]
      else y[Index(kinds[2], divisors, strides[2], i)])
  }

  lemma ExpandedAt<T>(kind: Kind, divisors: seq<int>, strides: seq<int>, s: seq<T>, n: nat, i: nat)
    requires |divisors| == |strides| && Positive(divisors) && Readable(kind, divisors, strides, n, |s|) && i < n
    ensures var at := Index(kind, divisors, strides, i); 0 <= at < |s| && Expanded(kind, divisors, strides, s, n)[i] == s[at]
  {
    assert Source([], [], i) == 0;
  }

  // When all three operands can be read throughout, that is Where over their expansions.
  lemma ChosenIsWhere<T>(kinds: seq<Kind>, divisors: seq<int>, strides: seq<seq<int>>, cond: seq<bool>, x: seq<T>, y: seq<T>, n: nat)
    requires |strides| == |kinds| == 3 && forall k :: 0 <= k < 3 ==> |strides[k]| == |divisors|
    requires n > 0 ==> Positive(divisors)
    requires Readable(kinds[0], divisors, strides[0], n, |cond|)
    requires Readable(kinds[1], divisors, strides[1], n, |x|) && Readable(kinds[2], divisors, strides[2], n, |y|)
    ensures Choosable(kinds, divisors, strides, cond, n, |x|, |y|)
    ensures Chosen(kinds, divisors, strides, cond, x, y, n)
         == Where(Expanded(kinds[0], divisors, strides[0], cond, n), Expanded(kinds[1], divisors, strides[1], x, n),
                  Expanded(kinds[2], divisors, strides[2], y, n))
  {
    forall i: nat | i < n
      ensures 0 <= Index(kinds[0], divisors, strides[0], i) < |cond|
      ensures 0 <= Index(kinds[1], divisors, strides[1], i) < |x| && 0 <= Index(kinds[2], divisors, strides[2], i) < |y|
      ensures Expanded(kinds[0], divisors, strides[0], cond, n)[i] == cond[Index(kinds[0], divisors, strides[0], i)]
      ensures Expanded(kinds[1], divisors, strides[1], x, n)[i] == x[Index(kinds[1], divisors, strides[1], i)]
      ensures Expanded(kinds[2], divisors, strides[2], y, n)[i] == y[Index(kinds[2], divisors, strides[2], i)]
    {
      ExpandedAt(kinds[0], divisors, strides[0], cond, n, i);
      ExpandedAt(kinds[1], divisors, strides[1], x, n, i);
      ExpandedAt(kinds[2], divisors, strides[2], y, n, i);
    }
  }

  method Tenary<T>(kinds: seq<Kind>, rank: int, condStrides: Array8, cond: array<bool>, xStrides: Array8, x: array<T>,
                   yStrides: Array8, y: array<T>, outStrides: Array8, out: array<T>, n: int)
    returns (handled: bool)
    requires |kinds| == 3 && x != out && y != out && (out as object) != cond
    requires rank <= 8 ==>
      && n <= out.Length
      && Choosable(kinds, Used(outStrides, rank), [Used(condStrides, rank), Used(xStrides, rank), Used(yStrides, rank)],
                   cond[..], Count(n), x.Length, y.Length)
    modifies out
    ensures handled <==> rank <= 8
    ensures !handled ==> out[..] == old(out[..])
    ensures handled ==>
      Written(Chosen(kinds, Used(outStrides, rank), [Used(condStrides, rank), Used(xStrides, rank), Used(yStrides, rank)],
                     cond[..], x[..], y[..], Count(n)),
              old(out[..]), out[..])
  {
    if rank > 8 {
      return false;
    }
    var divisors, strides := Used(outStrides, rank), [Used(condStrides, rank), Used(xStrides, rank), Used(yStrides, rank)];
    ghost var before, target := out[..], Chosen(kinds, divisors, strides, cond[..], x[..], y[..], Count(n));
    var i := 0;
    while i < n
      invariant 0 <= i <= Count(n)
      invariant unchanged(cond) && unchanged(x) && unchanged(y) && Overlaid(target, before, out[..], i)
    {
      var idx := LocateThree(divisors, strides, kinds, i);
      out[i] := if cond[idx[0]] then x[idx[1]] else y[idx[2]];
      i := i + 1;
    }
    return true;
  }
}
