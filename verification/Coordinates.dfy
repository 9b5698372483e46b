// What the layout kernels and the fused elementwise ones do, by coordinates: which element
// of which operand every element of the result is.
module Coordinates {
  import opened Division
  import opened MixedRadix
  import opened Layouts
  import opened LayoutKernels
  import opened Broadcasts

  // ---- flat positions ------------------------------------------------------------------------

  lemma {:induction false} VolumeAppend(dims: seq<int>, d: int)
    ensures Volume(dims + [d]) == Volume(dims) * d
  {
    if dims == [] {
      assert [] + [d] == [d] && [d][1..] == [];
      assert Volume([d]) == d * Volume([]) == d;
    } else {
      assert (dims + [d])[1..] == dims[1..] + [d];
      VolumeAppend(dims[1..], d);
      Regroup(dims[0], Volume(dims[1..]), d);
    }
  }

  // One more axis at the end: neighbours along it are neighbours.
  lemma {:induction false} FlatAppend(dims: seq<int>, d: int, c: seq<int>, x: int)
    requires |c| == |dims|
    ensures Flat(dims + [d], c + [x]) == Flat(dims, c) * d + x
  {
    if dims == [] {
      assert [] + [d] == [d] && [] + [x] == [x];
      assert [d][1..] == [] && [x][1..] == [];
      assert RowMajor([d]) == [Volume([])] + RowMajor([]);
      assert Dot([x], [1]) == x * 1 + Dot([x][1..], [1][1..]);
    } else {
      var rest, more := dims[1..], c[1..];
      assert (dims + [d])[1..] == rest + [d] && (c + [x])[1..] == more + [x];
      VolumeAppend(rest, d);
      FlatAppend(rest, d, more, x);
      assert RowMajor(dims + [d]) == [Volume(rest + [d])] + RowMajor(rest + [d]);
      assert Flat(dims + [d], c + [x]) == c[0] * (Volume(rest) * d) + Flat(rest + [d], more + [x]);
      assert Flat(dims, c) == c[0] * Volume(rest) + Flat(rest, more);
      Regroup(c[0], Volume(rest), d);
      Spread(c[0] * Volume(rest), Flat(rest, more), d);
    }
  }

  // ---- one operand -----------------------------------------------------------------------------

  // Coordinates in a tensor that is repeated along its axes of extent 1.
  predicate Repeats(from: seq<int>, c: seq<int>, d: seq<int>) {
    |from| == |c| == |d| && forall k :: 0 <= k < |c| ==> d[k] == if from[k] == 1 then 0 else c[k]
  }

  lemma ExpandMeans<T>(from: seq<int>, dims: seq<int>, input: seq<T>, c: seq<int>, d: seq<int>)
    requires NonNegative(from) && NonNegative(dims) && Layouts.Broadcasts(from, dims) && |input| == Volume(from) && InShape(dims, c)
    requires Repeats(from, c, d)
    ensures Volume(dims) >= 0 && Reads(RowMajor(dims), Padded(from), Volume(dims), Volume(from))
    ensures 0 <= Flat(dims, c) < Volume(dims) && 0 <= Flat(from, d) < Volume(from)
    ensures Gathered(RowMajor(dims), Padded(from), input, Volume(dims))[Flat(dims, c)] == input[Flat(from, d)]
  {
    ExpandBroadcasts(from, dims, input, c);
    assert Folded(from, c) == d;
  }

  // The element at c of a tensor is at d of its transpose, where axis k of the transpose is
  // axis perm[k] of the tensor.
  lemma TransposeMeans<T>(dims: seq<int>, perm: seq<int>, input: seq<T>, c: seq<int>, moved: seq<int>, d: seq<int>)
    requires NonNegative(dims) && |perm| == |dims| && Permutation(perm) && |input| == Volume(dims) && InShape(dims, c)
    requires |moved| == |d| == |perm| && forall k :: 0 <= k < |perm| ==> moved[k] == dims[perm[k]] && d[k] == c[perm[k]]
    ensures 0 <= Flat(moved, d) < Volume(dims) && 0 <= Flat(dims, c) < Volume(dims)
    ensures Transposed(dims, perm, input)[Flat(moved, d)] == input[Flat(dims, c)]
  {
    TransposeMoves(dims, perm, input, c);
    assert Pick(dims, perm) == moved && Pick(c, perm) == d;
  }

  lemma SliceMeans<T>(outer: seq<int>, starts: seq<int>, steps: seq<int>, inner: seq<int>, input: seq<T>, c: seq<int>, d: seq<int>)
    requires NonNegative(outer) && NonNegative(inner) && Lands(outer, starts, steps, inner) && |input| == Volume(inner)
    requires InShape(outer, c) && |d| == |c| && forall k :: 0 <= k < |c| ==> d[k] == starts[k] + steps[k] * c[k]
    ensures 0 <= Flat(outer, c) < Volume(outer) && 0 <= Flat(inner, d) < Volume(inner)
    ensures SliceOf(outer, starts, steps, inner, input)[Flat(outer, c)] == input[Flat(inner, d)]
  {
    SliceMoves(outer, starts, steps, inner, input, c);
    assert Affine(starts, steps, c) == d;
  }

  // ---- two and three operands --------------------------------------------------------------------

  // A fused binary kernel, of which both operands are repeated as their shapes need.
  lemma BinaryMeans<A, B, C>(op: (A, B) -> C, ls: seq<int>, rs: seq<int>, dims: seq<int>, l: seq<A>, r: seq<B>,
                             c: seq<int>, lc: seq<int>, rc: seq<int>)
    requires NonNegative(ls) && NonNegative(rs) && NonNegative(dims) && Layouts.Broadcasts(ls, dims) && Layouts.Broadcasts(rs, dims)
    requires |l| == Volume(ls) && |r| == Volume(rs) && InShape(dims, c) && Repeats(ls, c, lc) && Repeats(rs, c, rc)
    ensures Volume(dims) >= 0 && Readable(Compute, RowMajor(dims), Padded(ls), Volume(dims), |l|)
    ensures Readable(Compute, RowMajor(dims), Padded(rs), Volume(dims), |r|)
    ensures 0 <= Flat(dims, c) < Volume(dims) && 0 <= Flat(ls, lc) < |l| && 0 <= Flat(rs, rc) < |r|
    ensures Zip(op, Expanded(Compute, RowMajor(dims), Padded(ls), l, Volume(dims)),
                    Expanded(Compute, RowMajor(dims), Padded(rs), r, Volume(dims)))[Flat(dims, c)]
         == op(l[Flat(ls, lc)], r[Flat(rs, rc)])
  {
    ExpandMeans(ls, dims, l, c, lc);
    ExpandMeans(rs, dims, r, c, rc);
  }

  // Operands read position for position, or as one value throughout.
  lemma BinaryPlain<A, B, C>(op: (A, B) -> C, l: seq<A>, r: seq<B>, n: nat, i: nat)
    requires i < n && Source([], [], i) == 0
    ensures n <= |l| && n <= |r| ==> Zip(op, Expanded(Direct, [], [], l, n), Expanded(Direct, [], [], r, n))[i] == op(l[i], r[i])
    ensures n <= |l| && Readable(Scalar, [], [], n, |r|) ==>
      |r| > 0 && Zip(op, Expanded(Direct, [], [], l, n), Expanded(Scalar, [], [], r, n))[i] == op(l[i], r[0])
    ensures Readable(Scalar, [], [], n, |l|) && n <= |r| ==>
      |l| > 0 && Zip(op, Expanded(Scalar, [], [], l, n), Expanded(Direct, [], [], r, n))[i] == op(l[0], r[i])
  {
  }

  // The element of a right operand per channel: that of the channel the position is in.
  lemma ChannelMeans<T>(channels: nat, h: nat, rhs: seq<T>, n: nat, b: nat, ch: nat, x: nat, i: nat)
    requires ch < channels && x < h && i == (b * channels + ch) * h + x && i < n
    requires Readable(Compute, [channels * h, h, 1], [0, 1, 0], n, |rhs|)
    ensures ch < |rhs| && Expanded(Compute, [channels * h, h, 1], [0, 1, 0], rhs, n)[i] == rhs[ch]
  {
    ChannelWraps(channels, h, i);
    MulMonotone(0, b, channels);
    Unique(i, h, b * channels + ch, x);
    Unique(b * channels + ch, channels, b, ch);
  }

  // A fused select, of which all three operands are repeated as their shapes need.
  lemma WhereMeans<T>(cs: seq<int>, xs: seq<int>, ys: seq<int>, dims: seq<int>, cond: seq<bool>, x: seq<T>, y: seq<T>,
                      c: seq<int>, cc: seq<int>, xc: seq<int>, yc: seq<int>, kinds: seq<Kind>, strides: seq<seq<int>>)
    requires NonNegative(cs) && NonNegative(xs) && NonNegative(ys) && NonNegative(dims)
    requires Layouts.Broadcasts(cs, dims) && Layouts.Broadcasts(xs, dims) && Layouts.Broadcasts(ys, dims)
    requires |cond| == Volume(cs) && |x| == Volume(xs) && |y| == Volume(ys)
    requires InShape(dims, c) && Repeats(cs, c, cc) && Repeats(xs, c, xc) && Repeats(ys, c, yc)
    requires kinds == [Compute, Compute, Compute] && strides == [Padded(cs), Padded(xs), Padded(ys)]
    ensures Volume(dims) >= 0 && Choosable(kinds, RowMajor(dims), strides, cond, Volume(dims), |x|, |y|)
    ensures 0 <= Flat(dims, c) < Volume(dims)
    ensures 0 <= Flat(cs, cc) < |cond| && 0 <= Flat(xs, xc) < |x| && 0 <= Flat(ys, yc) < |y|
    ensures Chosen(kinds, RowMajor(dims), strides, cond, x, y, Volume(dims))[Flat(dims, c)]
         == if cond[Flat(cs, cc)] then x[Flat(xs, xc)] else y[Flat(ys, yc)]
  {
    ExpandMeans(cs, dims, cond, c, cc);
    ExpandMeans(xs, dims, x, c, xc);
    ExpandMeans(ys, dims, y, c, yc);
    VolumeIsCount(dims);
    ChosenIsWhere(kinds, RowMajor(dims), strides, cond, x, y, Volume(dims));
  }
}
