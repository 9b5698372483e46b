// Flat positions and coordinates of a row-major tensor, and the walk over divisors
// that every layout kernel uses to get from one to the other.
module MixedRadix {
  import opened Division

  predicate Positive(dims: seq<int>) {
    forall k :: 0 <= k < |dims| ==> dims[k] > 0
  }

  // Extents of a tensor, empty ones among them.
  predicate NonNegative(dims: seq<int>) {
    forall k :: 0 <= k < |dims| ==> dims[k] >= 0
  }

  function Volume(dims: seq<int>): (v: int)
    ensures Positive(dims) ==> v > 0
  {
    if dims == [] then 1 else
    var rest := Volume(dims[1..]);
    assert Positive(dims) ==> Positive(dims[1..]) && dims[0] > 0;
    dims[0] * rest
  }

  // A tensor has elements exactly if no extent is zero.
  lemma {:induction false} VolumeIsCount(dims: seq<int>)
    requires NonNegative(dims)
    ensures Volume(dims) >= 0 && (Volume(dims) > 0 <==> Positive(dims))
  {
    if dims != [] {
      var rest := dims[1..];
      VolumeIsCount(rest);
      assert Positive(dims) <==> dims[0] > 0 && Positive(rest) by {
        assert dims == [dims[0]] + rest;
      }
      ProductIsCount(dims[0], Volume(rest));
    }
  }

  // The distance between neighbours along each axis.
  function RowMajor(dims: seq<int>): (strides: seq<int>)
    ensures |strides| == |dims|
    ensures Positive(dims) ==> Positive(strides)
  {
    if dims == [] then [] else
    assert Positive(dims) ==> Positive(dims[1..]);
    [Volume(dims[1..])] + RowMajor(dims[1..])
  }

  predicate InShape(dims: seq<int>, c: seq<int>) {
    |c| == |dims| && forall k :: 0 <= k < |dims| ==> 0 <= c[k] < dims[k]
  }

  function Dot(c: seq<int>, strides: seq<int>): int
    requires |c| == |strides|
  {
    if c == [] then 0 else c[0] * strides[0] + Dot(c[1..], strides[1..])
  }

  // The flat position of a coordinate.
  function Flat(dims: seq<int>, c: seq<int>): int
    requires |c| == |dims|
  {
    Dot(c, RowMajor(dims))
  }

  // One quotient per divisor, each taken of what the one before left over.
  function Walk(divisors: seq<int>, offset: nat): (c: seq<int>)
    requires Positive(divisors)
    ensures |c| == |divisors|
    ensures forall k :: 0 <= k < |c| ==> c[k] >= 0
  {
    if divisors == [] then [] else
    [offset / divisors[0]] + Walk(divisors[1..], offset % divisors[0])
  }

  lemma {:induction false} FlatBelow(dims: seq<int>, c: seq<int>)
    requires Positive(dims) && InShape(dims, c)
    ensures 0 <= Flat(dims, c) < Volume(dims)
  {
    if dims != [] {
      FlatBelow(dims[1..], c[1..]);
      Below(c[0], dims[0], Flat(dims[1..], c[1..]), Volume(dims[1..]));
    }
  }

  // The walk recovers coordinates that are in range and recompose to the position.
  lemma {:induction false} WalkFlat(dims: seq<int>, i: nat)
    requires Positive(dims) && i < Volume(dims)
    ensures InShape(dims, Walk(RowMajor(dims), i))
    ensures Flat(dims, Walk(RowMajor(dims), i)) == i
  {
    if dims != [] {
      var rest := Volume(dims[1..]);
      Rebuild(i, rest);
      Leading(i, dims[0], rest);
      WalkFlat(dims[1..], i % rest);
    }
  }

  // ... and no other coordinates do.
  lemma {:induction false} FlatWalk(dims: seq<int>, c: seq<int>)
    requires Positive(dims) && InShape(dims, c)
    ensures 0 <= Flat(dims, c)
    ensures Walk(RowMajor(dims), Flat(dims, c)) == c
  {
    FlatBelow(dims, c);
    if dims != [] {
      FlatBelow(dims[1..], c[1..]);
      FlatWalk(dims[1..], c[1..]);
      Unique(Flat(dims, c), Volume(dims[1..]), c[0], Flat(dims[1..], c[1..]));
    }
  }

  // ---- permuting axes ------------------------------------------------------------------

  predicate Permutation(perm: seq<int>) {
    && (forall k :: 0 <= k < |perm| ==> 0 <= perm[k] < |perm|)
    && (forall j, k :: 0 <= j < k < |perm| ==> perm[j] != perm[k])
  }

  // s in the order perm names.
  function Pick(s: seq<int>, perm: seq<int>): (r: seq<int>)
    requires forall k :: 0 <= k < |perm| ==> 0 <= perm[k] < |s|
    ensures |r| == |perm| && forall k :: 0 <= k < |perm| ==> r[k] == s[perm[k]]
  {
    seq(|perm|, k requires 0 <= k < |perm| => s[perm[k]])
  }

  predicate Inverse(perm: seq<int>, inv: seq<int>) {
    |inv| == |perm| && forall k :: 0 <= k < |perm| ==> 0 <= perm[k] < |inv| && inv[perm[k]] == k
  }

  lemma {:induction false} DotFrom(c: seq<int>, s: seq<int>, k: nat)
    requires |c| == |s| && k < |c|
    ensures Dot(c, s) == Dot(c[..k] + c[k + 1..], s[..k] + s[k + 1..]) + c[k] * s[k]
  {
    if k == 0 {
      assert c[..0] + c[1..] == c[1..] && s[..0] + s[1..] == s[1..];
    } else {
      DotFrom(c[1..], s[1..], k - 1);
      assert (c[..k] + c[k + 1..])[1..] == c[1..][..k - 1] + c[1..][k..];
      assert (s[..k] + s[k + 1..])[1..] == s[1..][..k - 1] + s[1..][k..];
    }
  }

  lemma {:induction false} Pigeonhole(perm: seq<int>, n: nat)
    requires forall k :: 0 <= k < |perm| ==> 0 <= perm[k] < n
    requires forall j, k :: 0 <= j < k < |perm| ==> perm[j] != perm[k]
    ensures |perm| <= n
  {
    if perm != [] {
      assert 0 <= perm[0] < n;
      if k :| 0 <= k < |perm| && perm[k] == n - 1 {
        Pigeonhole(perm[..k] + perm[k + 1..], n - 1);
      } else {
        Pigeonhole(perm, n - 1);
      }
    }
  }

  // A permutation reaches its largest value.
  lemma Reaches(perm: seq<int>) returns (k: nat)
    requires Permutation(perm) && |perm| > 0
    ensures k < |perm| && perm[k] == |perm| - 1
  {
    if !exists k :: 0 <= k < |perm| && perm[k] == |perm| - 1 {
      Pigeonhole(perm, |perm| - 1);
    }
    k :| 0 <= k < |perm| && perm[k] == |perm| - 1;
  }

  // Dropping the place of the largest value leaves a permutation of the rest.
  lemma PickWithout(c: seq<int>, perm: seq<int>, k: nat)
    requires |c| == |perm| && Permutation(perm) && k < |perm| && perm[k] == |perm| - 1
    ensures Permutation(perm[..k] + perm[k + 1..])
    ensures Pick(c, perm)[..k] + Pick(c, perm)[k + 1..] == Pick(c[..|c| - 1], perm[..k] + perm[k + 1..])
  {
    var n, rest := |perm|, perm[..k] + perm[k + 1..];
    forall j | 0 <= j < |rest|
      ensures 0 <= rest[j] < n - 1
    {
      var at := if j < k then j else j + 1;
      assert rest[j] == perm[at];
    }
  }

  lemma DotWithoutLast(c: seq<int>, s: seq<int>)
    requires |c| == |s| > 0
    ensures Dot(c, s) == Dot(c[..|c| - 1], s[..|s| - 1]) + c[|c| - 1] * s[|s| - 1]
  {
    var n := |c|;
    DotFrom(c, s, n - 1);
    assert c[..n - 1] + c[n..] == c[..n - 1] && s[..n - 1] + s[n..] == s[..n - 1];
  }

  // Taking the terms of a dot product in another order.
  lemma {:induction false} DotPermuted(c: seq<int>, s: seq<int>, perm: seq<int>)
    requires |c| == |s| == |perm| && Permutation(perm)
    ensures Dot(Pick(c, perm), Pick(s, perm)) == Dot(c, s)
    decreases |perm|
  {
    var n := |perm|;
    if n > 0 {
      var k := Reaches(perm);
      var rest := perm[..k] + perm[k + 1..];
      PickWithout(c, perm, k);
      PickWithout(s, perm, k);
      DotPermuted(c[..n - 1], s[..n - 1], rest);
      DotFrom(Pick(c, perm), Pick(s, perm), k);
      DotWithoutLast(c, s);
    }
  }

  lemma {:induction false} Finds(perm: seq<int>, j: nat) returns (k: nat)
    requires Permutation(perm) && j < |perm|
    ensures k < |perm| && perm[k] == j
  {
    if !exists k :: 0 <= k < |perm| && perm[k] == j {
      var shifted := seq(|perm|, i requires 0 <= i < |perm| => if perm[i] > j then perm[i] - 1 else perm[i]);
      Pigeonhole(shifted, |perm| - 1);
    }
    k :| 0 <= k < |perm| && perm[k] == j;
  }

  lemma InverseIsPermutation(perm: seq<int>, inv: seq<int>)
    requires Permutation(perm) && Inverse(perm, inv)
    ensures Permutation(inv) && Inverse(inv, perm)
  {
    forall j | 0 <= j < |inv|
      ensures 0 <= inv[j] < |perm| && perm[inv[j]] == j
    {
      var k := Finds(perm, j);
    }
  }

  lemma PickInverse(s: seq<int>, perm: seq<int>, inv: seq<int>)
    requires |s| == |perm| && Permutation(perm) && Inverse(perm, inv)
    ensures Permutation(inv)
    ensures Pick(Pick(s, perm), inv) == s
  {
    InverseIsPermutation(perm, inv);
  }
}
