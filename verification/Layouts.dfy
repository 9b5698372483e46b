// What the stride-driven kernels compute, and the laws a graph relies on: transposes
// undo each other, slices compose, broadcasts fuse.
module Layouts {
  import opened MixedRadix

  // The input position that output position i reads.
  function Source(divisors: seq<int>, strides: seq<int>, i: nat): int
    requires |divisors| == |strides| && Positive(divisors)
  {
    Dot(Walk(divisors, i), strides)
  }

  predicate Reads(divisors: seq<int>, strides: seq<int>, n: nat, size: nat) {
    && |divisors| == |strides| && (n > 0 ==> Positive(divisors))
    && forall i: nat :: i < n ==> 0 <= Source(divisors, strides, i) < size
  }

  // n output positions, each read through the strides.
  function Gathered<T>(divisors: seq<int>, strides: seq<int>, input: seq<T>, n: nat): (out: seq<T>)
    requires Reads(divisors, strides, n, |input|)
    ensures |out| == n
    ensures forall i: nat :: i < n ==> out[i] == input[Source(divisors, strides, i)]
  {
    seq(n, i requires 0 <= i < n => input[Source(divisors, strides, i)])
  }

  lemma Exchange(a: int, b: int, c: int)
    ensures a * (b * c) == b * (a * c)
  {
    assert a * (b * c) == (a * b) * c == (b * a) * c == b * (a * c);
  }

  // ---- transpose -------------------------------------------------------------------------

  lemma {:induction false} VolumeFrom(dims: seq<int>, k: nat)
    requires k < |dims|
    ensures Volume(dims) == dims[k] * Volume(dims[..k] + dims[k + 1..])
  {
    if k == 0 {
      assert dims[..0] + dims[1..] == dims[1..];
    } else {
      VolumeFrom(dims[1..], k - 1);
      var rest := dims[..k] + dims[k + 1..];
      assert rest[1..] == dims[1..][..k - 1] + dims[1..][k..];
      Exchange(dims[0], dims[k], Volume(rest[1..]));
    }
  }

  lemma {:induction false} VolumePermuted(dims: seq<int>, perm: seq<int>)
    requires |dims| == |perm| && Permutation(perm)
    ensures Volume(Pick(dims, perm)) == Volume(dims)
    decreases |perm|
  {
    var n := |perm|;
    if n > 0 {
      var k := Reaches(perm);
      var moved, start, rest := Pick(dims, perm), dims[..n - 1], perm[..k] + perm[k + 1..];
      PickWithout(dims, perm, k);
      assert Volume(moved) == moved[k] * Volume(Pick(start, rest)) by {
        VolumeFrom(moved, k);
      }
      assert Volume(dims) == dims[n - 1] * Volume(start) by {
        VolumeFrom(dims, n - 1);
        assert start + dims[n..] == start;
      }
      VolumePermuted(start, rest);
    }
  }

  lemma Inverted(perm: seq<int>) returns (inv: seq<int>)
    requires Permutation(perm)
    ensures Inverse(perm, inv)
  {
    inv := [];
    while |inv| < |perm|
      invariant |inv| <= |perm|
      invariant forall j :: 0 <= j < |inv| ==> 0 <= inv[j] < |perm| && perm[inv[j]] == j
    {
      var k := Finds(perm, |inv|);
      inv := inv + [k];
    }
    forall k | 0 <= k < |perm|
      ensures inv[perm[k]] == k
    {
      assert perm[inv[perm[k]]] == perm[k];
    }
  }

  // A coordinate of the transposed tensor is a permuted coordinate of the input.
  lemma Unpermuted(dims: seq<int>, perm: seq<int>, c: seq<int>) returns (inv: seq<int>)
    requires |perm| == |dims| && Permutation(perm) && InShape(Pick(dims, perm), c)
    ensures Inverse(perm, inv) && Permutation(inv) && |inv| == |perm|
    ensures InShape(dims, Pick(c, inv)) && Pick(Pick(c, inv), perm) == c
  {
    inv := Inverted(perm);
    InverseIsPermutation(perm, inv);
    PickInverse(c, inv, perm);
    forall k | 0 <= k < |dims|
      ensures 0 <= Pick(c, inv)[k] < dims[k]
    {
      assert perm[inv[k]] == k;
    }
  }

  lemma TransposeSource(dims: seq<int>, perm: seq<int>, c: seq<int>)
    requires Positive(dims) && |perm| == |dims| && Permutation(perm) && InShape(dims, c)
    ensures Positive(Pick(dims, perm)) && InShape(Pick(dims, perm), Pick(c, perm))
    ensures 0 <= Flat(Pick(dims, perm), Pick(c, perm)) < Volume(Pick(dims, perm))
    ensures Source(RowMajor(Pick(dims, perm)), Pick(RowMajor(dims), perm), Flat(Pick(dims, perm), Pick(c, perm))) == Flat(dims, c)
  {
    FlatWalk(Pick(dims, perm), Pick(c, perm));
    FlatBelow(Pick(dims, perm), Pick(c, perm));
    DotPermuted(c, RowMajor(dims), perm);
  }

  lemma ExtentsPermuted(dims: seq<int>, perm: seq<int>)
    requires NonNegative(dims) && |perm| == |dims| && Permutation(perm)
    ensures NonNegative(Pick(dims, perm)) && Volume(Pick(dims, perm)) == Volume(dims) >= 0
    ensures Volume(dims) > 0 ==> Positive(dims) && Positive(Pick(dims, perm))
  {
    var moved := Pick(dims, perm);
    VolumePermuted(dims, perm);
    VolumeIsCount(dims);
    assert NonNegative(moved) by {
      forall k | 0 <= k < |moved| ensures moved[k] >= 0 {
        assert moved[k] == dims[perm[k]];
      }
    }
    VolumeIsCount(moved);
  }

  lemma TransposeReads(dims: seq<int>, perm: seq<int>)
    requires NonNegative(dims) && |perm| == |dims| && Permutation(perm)
    ensures Volume(Pick(dims, perm)) >= 0 && Volume(dims) >= 0
    ensures Reads(RowMajor(Pick(dims, perm)), Pick(RowMajor(dims), perm), Volume(Pick(dims, perm)), Volume(dims))
  {
    var moved := Pick(dims, perm);
    ExtentsPermuted(dims, perm);
    forall i: nat | i < Volume(moved)
      ensures 0 <= Source(RowMajor(moved), Pick(RowMajor(dims), perm), i) < Volume(dims)
    {
      var c := Walk(RowMajor(moved), i);
      WalkFlat(moved, i);
      var inv := Unpermuted(dims, perm, c);
      TransposeSource(dims, perm, Pick(c, inv));
      FlatBelow(dims, Pick(c, inv));
    }
  }

  // TransposeKernel, set up for an input of the given shape.
  function Transposed<T>(dims: seq<int>, perm: seq<int>, input: seq<T>): (out: seq<T>)
    requires NonNegative(dims) && |perm| == |dims| && Permutation(perm) && |input| == Volume(dims)
    ensures |out| == Volume(dims)
  {
    TransposeReads(dims, perm);
    VolumePermuted(dims, perm);
    Gathered(RowMajor(Pick(dims, perm)), Pick(RowMajor(dims), perm), input, Volume(Pick(dims, perm)))
  }

  // Where each element goes.
  lemma TransposeMoves<T>(dims: seq<int>, perm: seq<int>, input: seq<T>, c: seq<int>)
    requires NonNegative(dims) && |perm| == |dims| && Permutation(perm) && |input| == Volume(dims) && InShape(dims, c)
    ensures 0 <= Flat(Pick(dims, perm), Pick(c, perm)) < Volume(dims) && 0 <= Flat(dims, c) < Volume(dims)
    ensures Transposed(dims, perm, input)[Flat(Pick(dims, perm), Pick(c, perm))] == input[Flat(dims, c)]
  {
    TransposeSource(dims, perm, c);
    FlatBelow(dims, c);
    VolumePermuted(dims, perm);
    TransposeReads(dims, perm);
  }

  // Transposing by a permutation and then by its inverse changes nothing.
  lemma TransposeUndone<T>(dims: seq<int>, perm: seq<int>, inv: seq<int>, input: seq<T>)
    requires NonNegative(dims) && |perm| == |dims| && Permutation(perm) && Inverse(perm, inv) && |input| == Volume(dims)
    ensures NonNegative(Pick(dims, perm)) && Permutation(inv) && Volume(Pick(dims, perm)) == Volume(dims)
    ensures Transposed(Pick(dims, perm), inv, Transposed(dims, perm, input)) == input
  {
    var moved, once := Pick(dims, perm), Transposed(dims, perm, input);
    PickInverse(dims, perm, inv);
    ExtentsPermuted(dims, perm);
    var twice := Transposed(moved, inv, once);
    forall i | 0 <= i < |input|
      ensures twice[i] == input[i]
    {
      var c := Walk(RowMajor(dims), i);
      WalkFlat(dims, i);
      TransposeMoves(dims, perm, input, c);
      TransposeSource(dims, perm, c);
      TransposeMoves(moved, inv, once, Pick(c, perm));
      PickInverse(c, perm, inv);
    }
  }

  // ---- slice -----------------------------------------------------------------------------

  // start + step * coordinate, axis by axis.
  function Affine(starts: seq<int>, steps: seq<int>, c: seq<int>): (r: seq<int>)
    requires |starts| == |steps| == |c|
    ensures |r| == |c| && forall k :: 0 <= k < |c| ==> r[k] == starts[k] + steps[k] * c[k]
  {
    seq(|c|, k requires 0 <= k < |c| => starts[k] + steps[k] * c[k])
  }

  function SliceSource(divisors: seq<int>, starts: seq<int>, steps: seq<int>, strides: seq<int>, i: nat): int
    requires |divisors| == |strides| == |starts| == |steps| && Positive(divisors)
  {
    Dot(Affine(starts, steps, Walk(divisors, i)), strides)
  }

  predicate SliceReads(divisors: seq<int>, starts: seq<int>, steps: seq<int>, strides: seq<int>, n: nat, size: nat) {
    && |divisors| == |strides| == |starts| == |steps| && (n > 0 ==> Positive(divisors))
    && forall i: nat :: i < n ==> 0 <= SliceSource(divisors, starts, steps, strides, i) < size
  }

  function Sliced<T>(divisors: seq<int>, starts: seq<int>, steps: seq<int>, strides: seq<int>, input: seq<T>, n: nat): (out: seq<T>)
    requires SliceReads(divisors, starts, steps, strides, n, |input|)
    ensures |out| == n
    ensures forall i: nat :: i < n ==> out[i] == input[SliceSource(divisors, starts, steps, strides, i)]
  {
    seq(n, i requires 0 <= i < n => input[SliceSource(divisors, starts, steps, strides, i)])
  }

  // Every coordinate of the outer shape lands in the inner one.
  ghost predicate Lands(outer: seq<int>, starts: seq<int>, steps: seq<int>, inner: seq<int>) {
    && |outer| == |starts| == |steps| == |inner|
    && forall c: seq<int> :: InShape(outer, c) ==> InShape(inner, Affine(starts, steps, c))
  }

  lemma SliceInRange(outer: seq<int>, starts: seq<int>, steps: seq<int>, inner: seq<int>)
    requires NonNegative(outer) && NonNegative(inner) && Lands(outer, starts, steps, inner)
    ensures Volume(outer) >= 0 && Volume(inner) >= 0
    ensures SliceReads(RowMajor(outer), starts, steps, RowMajor(inner), Volume(outer), Volume(inner))
  {
    VolumeIsCount(outer);
    VolumeIsCount(inner);
    forall i: nat | i < Volume(outer)
      ensures 0 <= SliceSource(RowMajor(outer), starts, steps, RowMajor(inner), i) < Volume(inner)
    {
      WalkFlat(outer, i);
      FlatBelow(inner, Affine(starts, steps, Walk(RowMajor(outer), i)));
    }
  }

  // SliceKernel on an input of shape inner, giving a tensor of shape outer.
  function SliceOf<T>(outer: seq<int>, starts: seq<int>, steps: seq<int>, inner: seq<int>, input: seq<T>): (out: seq<T>)
    requires NonNegative(outer) && NonNegative(inner) && Lands(outer, starts, steps, inner) && |input| == Volume(inner)
    ensures |out| == Volume(outer)
  {
    SliceInRange(outer, starts, steps, inner);
    Sliced(RowMajor(outer), starts, steps, RowMajor(inner), input, Volume(outer))
  }

  // The element at coordinates c of the slice is the input's at start + step * c.
  lemma SliceMoves<T>(outer: seq<int>, starts: seq<int>, steps: seq<int>, inner: seq<int>, input: seq<T>, c: seq<int>)
    requires NonNegative(outer) && NonNegative(inner) && Lands(outer, starts, steps, inner) && |input| == Volume(inner) && InShape(outer, c)
    ensures 0 <= Flat(outer, c) < Volume(outer) && 0 <= Flat(inner, Affine(starts, steps, c)) < Volume(inner)
    ensures SliceOf(outer, starts, steps, inner, input)[Flat(outer, c)] == input[Flat(inner, Affine(starts, steps, c))]
  {
    SliceInRange(outer, starts, steps, inner);
    FlatBelow(outer, c);
    FlatWalk(outer, c);
    FlatBelow(inner, Affine(starts, steps, c));
  }

  function ComposedSteps(t1: seq<int>, t2: seq<int>): (t: seq<int>)
    requires |t1| == |t2|
    ensures |t| == |t1| && forall k :: 0 <= k < |t| ==> t[k] == t1[k] * t2[k]
  {
    seq(|t1|, k requires 0 <= k < |t1| => t1[k] * t2[k])
  }

  lemma Nested(s1: int, t1: int, s2: int, t2: int, q: int)
    ensures (s1 + t1 * s2) + (t1 * t2) * q == s1 + t1 * (s2 + t2 * q)
  {
    assert t1 * (s2 + t2 * q) == t1 * s2 + t1 * (t2 * q);
    assert (t1 * t2) * q == t1 * (t2 * q);
  }

  lemma AffineTwice(s1: seq<int>, t1: seq<int>, s2: seq<int>, t2: seq<int>, c: seq<int>)
    requires |s1| == |t1| == |s2| == |t2| == |c|
    ensures Affine(Affine(s1, t1, s2), ComposedSteps(t1, t2), c) == Affine(s1, t1, Affine(s2, t2, c))
  {
    forall k | 0 <= k < |c|
      ensures Affine(Affine(s1, t1, s2), ComposedSteps(t1, t2), c)[k] == Affine(s1, t1, Affine(s2, t2, c))[k]
    {
      Nested(s1[k], t1[k], s2[k], t2[k], c[k]);
    }
  }

  // A slice of a slice is one slice, with start s1 + t1 * s2 and step t1 * t2.
  lemma SlicesCompose<T>(d2: seq<int>, s2: seq<int>, t2: seq<int>, d1: seq<int>, s1: seq<int>, t1: seq<int>, d0: seq<int>, input: seq<T>)
    requires NonNegative(d0) && NonNegative(d1) && NonNegative(d2) && |input| == Volume(d0)
    requires Lands(d1, s1, t1, d0) && Lands(d2, s2, t2, d1)
    ensures Lands(d2, Affine(s1, t1, s2), ComposedSteps(t1, t2), d0)
    ensures SliceOf(d2, s2, t2, d1, SliceOf(d1, s1, t1, d0, input))
         == SliceOf(d2, Affine(s1, t1, s2), ComposedSteps(t1, t2), d0, input)
  {
    var s, t := Affine(s1, t1, s2), ComposedSteps(t1, t2);
    forall c: seq<int> | InShape(d2, c)
      ensures InShape(d0, Affine(s, t, c))
    {
      AffineTwice(s1, t1, s2, t2, c);
    }
    var once := SliceOf(d1, s1, t1, d0, input);
    var twice, direct := SliceOf(d2, s2, t2, d1, once), SliceOf(d2, s, t, d0, input);
    VolumeIsCount(d2);
    forall i | 0 <= i < |direct|
      ensures twice[i] == direct[i]
    {
      var c := Walk(RowMajor(d2), i);
      WalkFlat(d2, i);
      SliceMoves(d2, s, t, d0, input, c);
      SliceMoves(d2, s2, t2, d1, once, c);
      SliceMoves(d1, s1, t1, d0, input, Affine(s2, t2, c));
      AffineTwice(s1, t1, s2, t2, c);
    }
  }

  // ---- broadcasts ----------------------------------------------------------------------------

  // Strides of a tensor padded to a larger rank: zero along the axes it repeats on.
  function Padded(from: seq<int>): (strides: seq<int>)
    ensures |strides| == |from|
  {
    seq(|from|, k requires 0 <= k < |from| => if from[k] == 1 then 0 else RowMajor(from)[k])
  }

  // The coordinate of a repeated tensor that an output coordinate reads.
  function Folded(from: seq<int>, c: seq<int>): (r: seq<int>)
    requires |from| == |c|
    ensures |r| == |c|
  {
    seq(|c|, k requires 0 <= k < |c| => if from[k] == 1 then 0 else c[k])
  }

  predicate Broadcasts(from: seq<int>, dims: seq<int>) {
    |from| == |dims| && forall k :: 0 <= k < |dims| ==> from[k] == 1 || from[k] == dims[k]
  }

  lemma {:induction false} DotMasked(from: seq<int>, c: seq<int>, s: seq<int>, masked: seq<int>)
    requires |from| == |c| == |s| == |masked|
    requires forall k :: 0 <= k < |s| ==> masked[k] == if from[k] == 1 then 0 else s[k]
    ensures Dot(c, masked) == Dot(Folded(from, c), s)
  {
    if c != [] {
      DotMasked(from[1..], c[1..], s[1..], masked[1..]);
      assert Folded(from, c)[1..] == Folded(from[1..], c[1..]);
    }
  }

  lemma ExpandReads(from: seq<int>, dims: seq<int>)
    requires NonNegative(from) && NonNegative(dims) && Broadcasts(from, dims)
    ensures Volume(dims) >= 0 && Volume(from) >= 0
    ensures Reads(RowMajor(dims), Padded(from), Volume(dims), Volume(from))
  {
    VolumeIsCount(dims);
    VolumeIsCount(from);
    forall i: nat | i < Volume(dims)
      ensures 0 <= Source(RowMajor(dims), Padded(from), i) < Volume(from)
    {
      var c := Walk(RowMajor(dims), i);
      WalkFlat(dims, i);
      DotMasked(from, c, RowMajor(from), Padded(from));
      FlatBelow(from, Folded(from, c));
    }
  }

  // ExpandKernel is broadcasting: position c of the result is position c of the input,
  // with zero on every axis the input repeats on.
  lemma ExpandBroadcasts<T>(from: seq<int>, dims: seq<int>, input: seq<T>, c: seq<int>)
    requires NonNegative(from) && NonNegative(dims) && Broadcasts(from, dims) && |input| == Volume(from) && InShape(dims, c)
    ensures Volume(dims) >= 0 && Reads(RowMajor(dims), Padded(from), Volume(dims), Volume(from))
    ensures 0 <= Flat(dims, c) < Volume(dims) && 0 <= Flat(from, Folded(from, c)) < Volume(from)
    ensures Gathered(RowMajor(dims), Padded(from), input, Volume(dims))[Flat(dims, c)] == input[Flat(from, Folded(from, c))]
  {
    ExpandReads(from, dims);
    FlatBelow(dims, c);
    FlatWalk(dims, c);
    DotMasked(from, c, RowMajor(from), Padded(from));
    FlatBelow(from, Folded(from, c));
  }
}
