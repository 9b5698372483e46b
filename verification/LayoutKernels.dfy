// The kernels that walk an output's strides: expand, transpose, slice, and the
// elementwise families that read their operands through a broadcast.
module LayoutKernels {
  import opened Division
  import opened MixedRadix
  import opened Layouts

  // A TArray by value: room for eight, of which the rank says how many count.
  type Array8 = s: seq<int> | |s| == 8 witness [0, 0, 0, 0, 0, 0, 0, 0]

  // A count that may be negative, as a loop bound.
  function Count(n: int): nat {
    if n < 0 then 0 else n
  }

  function Used(a: Array8, rank: int): (s: seq<int>)
    requires rank <= 8
    ensures |s| == Count(rank)
  {
    a[..Count(rank)]
  }

  // The first k positions of after hold the target; the rest is as it was.
  ghost predicate Overlaid<T>(target: seq<T>, before: seq<T>, after: seq<T>, k: nat) {
    && |after| == |before| && k <= |target|
    && forall p :: 0 <= p < |after| ==> after[p] == if p < k then target[p] else before[p]
  }

  // All of the target is written, and nothing past it.
  ghost predicate Written<T>(target: seq<T>, before: seq<T>, after: seq<T>) {
    |target| <= |after| && Overlaid(target, before, after, |target|)
  }

  method DivMod(d: int, n: nat) returns (q: nat, r: nat)
    requires d > 0
    ensures q == n / d && r == n % d && n == q * d + r && r < d
  {
    q := n / d;
    r := n - q * d;
    Rebuild(n, d);
  }

  // The walk: peel a coordinate per divisor and step that far along its stride.
  method Locate(divisors: seq<int>, strides: seq<int>, i: nat) returns (src: int)
    requires |divisors| == |strides| && Positive(divisors)
    ensures src == Source(divisors, strides, i)
  {
    src := 0;
    var offset := i;
    var dim := 0;
    while dim < |divisors|
      invariant 0 <= dim <= |divisors|
      invariant src + Dot(Walk(divisors[dim..], offset), strides[dim..]) == Source(divisors, strides, i)
    {
      var q, r := DivMod(divisors[dim], offset);
      assert divisors[dim..][1..] == divisors[dim + 1..] && strides[dim..][1..] == strides[dim + 1..];
      src := src + strides[dim] * q;
      offset := r;
      dim := dim + 1;
    }
  }

  method Gather<T>(divisors: seq<int>, strides: seq<int>, input: array<T>, out: array<T>, n: int)
    requires Reads(divisors, strides, Count(n), input.Length) && n <= out.Length && input != out
    modifies out
    ensures Written(Gathered(divisors, strides, input[..], Count(n)), old(out[..]), out[..])
  {
    ghost var before, target := out[..], Gathered(divisors, strides, input[..], Count(n));
    var i := 0;
    while i < n
      invariant 0 <= i <= Count(n)
      invariant unchanged(input) && Overlaid(target, before, out[..], i)
    {
      var src := Locate(divisors, strides, i);
      out[i] := input[src];
      i := i + 1;
    }
  }

  method Expand<T>(rank: int, n: int, input: array<T>, out: array<T>, outStrides: Array8, inStrides: Array8) returns (handled: bool)
    requires rank <= 8 ==>
      Reads(Used(outStrides, rank), Used(inStrides, rank), Count(n), input.Length) && n <= out.Length && input != out
    modifies out
    ensures handled <==> rank <= 8
    ensures !handled ==> out[..] == old(out[..])
    ensures handled ==>
      Written(Gathered(Used(outStrides, rank), Used(inStrides, rank), input[..], Count(n)), old(out[..]), out[..])
  {
    if rank > 8 {
      return false;
    }
    Gather(Used(outStrides, rank), Used(inStrides, rank), input, out, n);
    return true;
  }

  method Transpose<T>(rank: int, inStrides: Array8, input: array<T>, outStrides: Array8, out: array<T>, n: int) returns (handled: bool)
    requires rank <= 8 ==>
      Reads(Used(outStrides, rank), Used(inStrides, rank), Count(n), input.Length) && n <= out.Length && input != out
    modifies out
    ensures handled <==> rank <= 8
    ensures !handled ==> out[..] == old(out[..])
    ensures handled ==>
      Written(Gathered(Used(outStrides, rank), Used(inStrides, rank), input[..], Count(n)), old(out[..]), out[..])
  {
    if rank > 8 {
      return false;
    }
    Gather(Used(outStrides, rank), Used(inStrides, rank), input, out, n);
    return true;
  }

  // Expanding two axes is the rank-2 case of the walk.
  lemma TwoAxes(d: int, s0: int, s1: int, i: nat)
    requires d > 0
    ensures Source([d, 1], [s0, s1], i) == (i / d) * s0 + (i % d) * s1
  {
    var r := i % d;
    assert Walk([1], r) == [r];
    assert Walk([d, 1], i) == [i / d, r];
    assert Dot([i / d, r][1..], [s0, s1][1..]) == r * s1 + Dot([], []);
  }

  method Expand2D<T>(n: int, input: array<T>, out: array<T>, stride0: int, s0: int, s1: int)
    requires (n > 0 ==> stride0 > 0) && n <= out.Length && input != out
    requires forall i: nat :: i < Count(n) ==> 0 <= (i / stride0) * s0 + (i % stride0) * s1 < input.Length
    modifies out
    ensures Reads([stride0, 1], [s0, s1], Count(n), input.Length)
    ensures Written(Gathered([stride0, 1], [s0, s1], input[..], Count(n)), old(out[..]), out[..])
  {
    forall i: nat | i < Count(n)
      ensures 0 <= Source([stride0, 1], [s0, s1], i) < input.Length
    {
      TwoAxes(stride0, s0, s1, i);
    }
    ghost var before, target := out[..], Gathered([stride0, 1], [s0, s1], input[..], Count(n));
    var i := 0;
    while i < n
      invariant 0 <= i <= Count(n)
      invariant unchanged(input) && Overlaid(target, before, out[..], i)
    {
      var r, c := DivMod(stride0, i);
      TwoAxes(stride0, s0, s1, i);
      out[i] := input[r * s0 + c * s1];
      i := i + 1;
    }
  }

  // The first axis of the walk, and the rest.
  lemma SliceAxis(divisors: seq<int>, starts: seq<int>, steps: seq<int>, strides: seq<int>, i: nat)
    requires |divisors| == |strides| == |starts| == |steps| > 0 && Positive(divisors)
    ensures SliceSource(divisors, starts, steps, strides, i)
         == (starts[0] + steps[0] * (i / divisors[0])) * strides[0]
          + SliceSource(divisors[1..], starts[1..], steps[1..], strides[1..], i % divisors[0])
  {
    var c := Walk(divisors, i);
    assert Affine(starts, steps, c)[1..] == Affine(starts[1..], steps[1..], c[1..]);
  }

  method LocateSlice(divisors: seq<int>, starts: seq<int>, steps: seq<int>, strides: seq<int>, i: nat) returns (src: int)
    requires |divisors| == |strides| == |starts| == |steps| && Positive(divisors)
    ensures src == SliceSource(divisors, starts, steps, strides, i)
  {
    src := 0;
    var offset := i;
    var dim := 0;
    while dim < |divisors|
      invariant 0 <= dim <= |divisors|
      invariant src + SliceSource(divisors[dim..], starts[dim..], steps[dim..], strides[dim..], offset)
             == SliceSource(divisors, starts, steps, strides, i)
    {
      var q, r := DivMod(divisors[dim], offset);
      SliceAxis(divisors[dim..], starts[dim..], steps[dim..], strides[dim..], offset);
      assert divisors[dim..][1..] == divisors[dim + 1..] && strides[dim..][1..] == strides[dim + 1..];
      assert starts[dim..][1..] == starts[dim + 1..] && steps[dim..][1..] == steps[dim + 1..];
      src := src + (starts[dim] + steps[dim] * q) * strides[dim];
      offset := r;
      dim := dim + 1;
    }
  }

  method SliceInto<T>(divisors: seq<int>, starts: seq<int>, steps: seq<int>, strides: seq<int>, input: array<T>, out: array<T>, n: int)
    requires SliceReads(divisors, starts, steps, strides, Count(n), input.Length) && n <= out.Length && input != out
    modifies out
    ensures Written(Sliced(divisors, starts, steps, strides, input[..], Count(n)), old(out[..]), out[..])
  {
    ghost var before, target := out[..], Sliced(divisors, starts, steps, strides, input[..], Count(n));
    var i := 0;
    while i < n
      invariant 0 <= i <= Count(n)
      invariant unchanged(input) && Overlaid(target, before, out[..], i)
    {
      var src := LocateSlice(divisors, starts, steps, strides, i);
      out[i] := input[src];
      i := i + 1;
    }
  }

  // SliceKernel.  The rank is part of the kernel's name, and one that is not 1..8 is refused.
  method Slice<T>(dims: int, starts: Array8, steps: Array8, inStrides: Array8, outStrides: Array8, input: array<T>, out: array<T>, n: int)
    returns (handled: bool)
    requires 0 < dims <= 8 ==>
      && SliceReads(Used(outStrides, dims), Used(starts, dims), Used(steps, dims), Used(inStrides, dims), Count(n), input.Length)
      && n <= out.Length && input != out
    modifies out
    ensures handled <==> 0 < dims <= 8
    ensures !handled ==> out[..] == old(out[..])
    ensures handled ==>
      Written(Sliced(Used(outStrides, dims), Used(starts, dims), Used(steps, dims), Used(inStrides, dims), input[..], Count(n)),
              old(out[..]), out[..])
  {
    if dims <= 0 || dims > 8 {
      return false;
    }
    SliceInto(Used(outStrides, dims), Used(starts, dims), Used(steps, dims), Used(inStrides, dims), input, out, n);
    return true;
  }
}
