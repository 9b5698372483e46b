// The concat and split kernels, over pieces held in separate buffers.
module JoinKernels {
  import opened Division
  import opened MixedRadix
  import opened LayoutKernels
  import opened Joins

  ghost predicate PiecesFit<T>(sizes: seq<int>, inside: nat, outers: nat, pieces: seq<seq<T>>) {
    NonNegative(sizes) && |pieces| == |sizes| && forall j :: 0 <= j < |sizes| ==> |pieces[j]| == outers * sizes[j] * inside
  }

  ghost function Contents<T>(arrays: seq<array<T>>): (r: seq<seq<T>>)
    reads arrays
    ensures |r| == |arrays| && forall j :: 0 <= j < |r| ==> r[j] == arrays[j][..]
  {
    seq(|arrays|, j requires 0 <= j < |arrays| reads arrays => arrays[j][..])
  }

  ghost function JoinedAt<T>(sizes: seq<int>, range: seq<int>, mapping: seq<int>, inside: nat, outers: nat, pieces: seq<seq<T>>, id: nat): T
    requires Tables(sizes, range, mapping) && PiecesFit(sizes, inside, outers, pieces) && id < outers * |mapping| * inside
  {
    SourceThenTarget(outers, sizes, range, mapping, inside, id);
    var p := JoinSource(sizes, mapping, inside, id);
    pieces[p.piece][p.at]
  }

  // The joined tensor's first n elements.
  ghost function Joined<T>(sizes: seq<int>, range: seq<int>, mapping: seq<int>, inside: nat, outers: nat, pieces: seq<seq<T>>, n: nat): (out: seq<T>)
    requires Tables(sizes, range, mapping) && PiecesFit(sizes, inside, outers, pieces) && n <= outers * |mapping| * inside
    ensures |out| == n
  {
    seq(n, id requires 0 <= id < n => JoinedAt(sizes, range, mapping, inside, outers, pieces, id))
  }

  lemma SplitTarget(outers: nat, e: nat, count: nat, inside: nat, k: nat, at: nat)
    requires k < count && at < outers * e * inside
    ensures e * inside > 0
    ensures 0 <= JoinTarget(Repeat(e, count), inside, k, at) < outers * (count * e) * inside
    ensures count * e * inside > 0
    ensures SameSource(e, count, inside, JoinTarget(Repeat(e, count), inside, k, at)) == Place(k, at)
  {
    RepeatTables(e, count);
    TargetThenSource(outers, Repeat(e, count), RepeatRange(e, count), RepeatMapping(e, count), inside, k, at);
    SameIsJoin(outers, e, count, RepeatRange(e, count), RepeatMapping(e, count), inside, JoinTarget(Repeat(e, count), inside, k, at));
  }

  ghost function PieceAt<T>(e: nat, count: nat, inside: nat, outers: nat, input: seq<T>, k: nat, at: nat): T
    requires k < count && |input| == outers * (count * e) * inside && at < outers * e * inside
  {
    SplitTarget(outers, e, count, inside, k, at);
    input[JoinTarget(Repeat(e, count), inside, k, at)]
  }

  // One piece of a tensor cut into count pieces of extent e.
  ghost function Piece<T>(e: nat, count: nat, inside: nat, outers: nat, input: seq<T>, k: nat): (piece: seq<T>)
    requires k < count && |input| == outers * (count * e) * inside
    ensures |piece| == outers * e * inside
  {
    seq(outers * e * inside, at requires 0 <= at < outers * e * inside => PieceAt(e, count, inside, outers, input, k, at))
  }

  ghost function Split<T>(e: nat, count: nat, inside: nat, outers: nat, input: seq<T>): (pieces: seq<seq<T>>)
    requires |input| == outers * (count * e) * inside
    ensures |pieces| == count && PiecesFit(Repeat(e, count), inside, outers, pieces)
  {
    seq(count, k requires 0 <= k < count => Piece(e, count, inside, outers, input, k))
  }

  lemma SplitSource(outers: nat, e: nat, count: nat, inside: nat, id: nat)
    requires id < outers * (count * e) * inside
    ensures count * e * inside > 0 && e * inside > 0
    ensures var p := SameSource(e, count, inside, id);
      0 <= p.piece < count && 0 <= p.at < outers * e * inside && JoinTarget(Repeat(e, count), inside, p.piece, p.at) == id
  {
    RepeatTables(e, count);
    SameIsJoin(outers, e, count, RepeatRange(e, count), RepeatMapping(e, count), inside, id);
    SourceThenTarget(outers, Repeat(e, count), RepeatRange(e, count), RepeatMapping(e, count), inside, id);
  }

  // Joined with equal extents, whatever tables were handed over.
  ghost function JoinedSame<T>(e: nat, count: nat, inside: nat, outers: nat, pieces: seq<seq<T>>, n: nat): (out: seq<T>)
    requires PiecesFit(Repeat(e, count), inside, outers, pieces) && n <= outers * (count * e) * inside
    ensures |out| == n
  {
    RepeatTables(e, count);
    Joined(Repeat(e, count), RepeatRange(e, count), RepeatMapping(e, count), inside, outers, pieces, n)
  }

  // The general kernel with equal extents gives what the same-extent kernel gives.
  lemma JoinedWithTables<T>(e: nat, count: nat, range: seq<int>, mapping: seq<int>, inside: nat, outers: nat, pieces: seq<seq<T>>, n: nat)
    requires PiecesFit(Repeat(e, count), inside, outers, pieces)
    requires Tables(Repeat(e, count), range, mapping) && n <= outers * |mapping| * inside
    ensures |mapping| == count * e
    ensures Joined(Repeat(e, count), range, mapping, inside, outers, pieces, n) == JoinedSame(e, count, inside, outers, pieces, n)
  {
    RepeatTables(e, count);
    RepeatStart(e, count, count);
    var sizes := Repeat(e, count);
    forall id | 0 <= id < n
      ensures JoinedAt(sizes, range, mapping, inside, outers, pieces, id)
           == JoinedAt(sizes, RepeatRange(e, count), RepeatMapping(e, count), inside, outers, pieces, id)
    {
      SameIsJoin(outers, e, count, range, mapping, inside, id);
      SameIsJoin(outers, e, count, RepeatRange(e, count), RepeatMapping(e, count), inside, id);
    }
  }

  lemma SplitThenJoin<T>(e: nat, count: nat, inside: nat, outers: nat, input: seq<T>)
    requires |input| == outers * (count * e) * inside
    ensures JoinedSame(e, count, inside, outers, Split(e, count, inside, outers, input), |input|) == input
  {
    RepeatTables(e, count);
    var pieces := Split(e, count, inside, outers, input);
    forall id | 0 <= id < |input|
      ensures JoinedSame(e, count, inside, outers, pieces, |input|)[id] == input[id]
    {
      SameIsJoin(outers, e, count, RepeatRange(e, count), RepeatMapping(e, count), inside, id);
      SplitSource(outers, e, count, inside, id);
      var p := SameSource(e, count, inside, id);
      assert pieces[p.piece][p.at] == PieceAt(e, count, inside, outers, input, p.piece, p.at);
    }
  }

  lemma NonNegativeProduct(a: nat, b: nat, c: nat, d: nat)
    ensures 0 <= b * c && 0 <= a * (b * c) && 0 <= a * (b * c) * d
  {
    MulMonotone(0, b, c);
    MulMonotone(0, a, b * c);
    MulMonotone(0, a * (b * c), d);
  }

  lemma JoinThenSplit<T>(e: nat, count: nat, inside: nat, outers: nat, pieces: seq<seq<T>>)
    requires PiecesFit(Repeat(e, count), inside, outers, pieces)
    ensures outers * (count * e) * inside >= 0
    ensures Split(e, count, inside, outers, JoinedSame(e, count, inside, outers, pieces, outers * (count * e) * inside)) == pieces
  {
    NonNegativeProduct(outers, count, e, inside);
    var n: nat := outers * (count * e) * inside;
    var joined := JoinedSame(e, count, inside, outers, pieces, n);
    forall k | 0 <= k < count
      ensures Piece(e, count, inside, outers, joined, k) == pieces[k]
    {
      forall at | 0 <= at < outers * e * inside
        ensures PieceAt(e, count, inside, outers, joined, k, at) == pieces[k][at]
      {
        SplitTarget(outers, e, count, inside, k, at);
        RepeatTables(e, count);
        SameIsJoin(outers, e, count, RepeatRange(e, count), RepeatMapping(e, count), inside, JoinTarget(Repeat(e, count), inside, k, at));
      }
    }
  }

  lemma ConcatIndex(outer: int, blocks: int, block: int, inside: int, x: int)
    ensures outer * blocks * inside + block * inside + x == Compose(outer, blocks, block, inside, x)
  {
    Spread(outer * blocks, block, inside);
  }

  // ---- the kernels ---------------------------------------------------------------------------

  method Concat<T>(outer: int, inside: int, sizes: seq<int>, range: seq<int>, mapping: seq<int>, out: array<T>, inputs: seq<array<T>>, n: int,
                   ghost outers: nat)
    requires inside >= 0 && outer == |mapping| * inside
    requires Tables(sizes, range, mapping) && PiecesFit(sizes, inside, outers, Contents(inputs))
    requires Count(n) <= outers * |mapping| * inside && n <= out.Length && out !in inputs
    modifies out
    ensures Written(Joined(sizes, range, mapping, inside, outers, Contents(inputs), Count(n)), old(out[..]), out[..])
  {
    ghost var pieces := Contents(inputs);
    ghost var before, target := out[..], Joined(sizes, range, mapping, inside, outers, pieces, Count(n));
    var id := 0;
    while id < n
      invariant 0 <= id <= Count(n)
      invariant (forall j :: 0 <= j < |inputs| ==> inputs[j][..] == pieces[j]) && Overlaid(target, before, out[..], id)
    {
      SourceThenTarget(outers, sizes, range, mapping, inside, id);
      ghost var p := JoinSource(sizes, mapping, inside, id);
      var outerBlock, rest := DivMod(outer, id);
      var block, offset := DivMod(inside, rest);
      var input := mapping[block];
      var left := if input == 0 then 0 else range[input - 1];
      assert left == Start(sizes, input);
      var blockOffset := block - left;
      ConcatIndex(outerBlock, sizes[input], blockOffset, inside, offset);
      var src := outerBlock * sizes[input] * inside + blockOffset * inside + offset;
      assert target[id] == pieces[p.piece][p.at];
      out[id] := inputs[input][src];
      id := id + 1;
    }
  }

  lemma JoinedSameAt<T>(e: nat, count: nat, inside: nat, outers: nat, pieces: seq<seq<T>>, n: nat, id: nat)
    requires PiecesFit(Repeat(e, count), inside, outers, pieces)
    requires id < n <= outers * (count * e) * inside
    ensures count * e * inside > 0
    ensures var p := SameSource(e, count, inside, id);
      && 0 <= p.piece < count && 0 <= p.at < |pieces[p.piece]|
      && JoinedSame(e, count, inside, outers, pieces, n)[id] == pieces[p.piece][p.at]
  {
    RepeatTables(e, count);
    SplitSource(outers, e, count, inside, id);
    SameIsJoin(outers, e, count, RepeatRange(e, count), RepeatMapping(e, count), inside, id);
  }

  method ConcatSame<T>(outer: int, inside: int, concat: int, out: array<T>, inputs: seq<array<T>>, n: int, ghost outers: nat)
    requires inside >= 0 && concat >= 0 && outer == |inputs| * concat * inside
    requires PiecesFit(Repeat(concat, |inputs|), inside, outers, Contents(inputs))
    requires Count(n) <= outers * (|inputs| * concat) * inside && n <= out.Length && out !in inputs
    modifies out
    ensures Written(JoinedSame(concat, |inputs|, inside, outers, Contents(inputs), Count(n)), old(out[..]), out[..])
  {
    ghost var pieces := Contents(inputs);
    ghost var before, target := out[..], JoinedSame(concat, |inputs|, inside, outers, pieces, Count(n));
    var id := 0;
    while id < n
      invariant 0 <= id <= Count(n)
      invariant (forall j :: 0 <= j < |inputs| ==> inputs[j][..] == pieces[j]) && Overlaid(target, before, out[..], id)
    {
      JoinedSameAt(concat, |inputs|, inside, outers, pieces, Count(n), id);
      var outerBlock, rest := DivMod(outer, id);
      var block, offset := DivMod(inside, rest);
      var input, blockOffset := DivMod(concat, block);
      ConcatIndex(outerBlock, concat, blockOffset, inside, offset);
      var src := outerBlock * concat * inside + blockOffset * inside + offset;
      assert SameSource(concat, |inputs|, inside, id) == Place(input, src);
      out[id] := inputs[input][src];
      id := id + 1;
    }
  }

  method Store<T>(outputs: seq<array<T>>, k: nat, at: nat, v: T)
    requires k < |outputs| && at < outputs[k].Length
    requires forall i, j :: 0 <= i < j < |outputs| ==> outputs[i] != outputs[j]
    modifies outputs[k]
    ensures Contents(outputs) == old(Contents(outputs))[k := old(Contents(outputs))[k][at := v]]
  {
    outputs[k][at] := v;
    assert outputs[k][..] == old(outputs[k][..])[at := v];
  }

  ghost function SplitIndex(e: nat, count: nat, inside: nat, k: nat, at: nat): int
    requires k < count
  {
    if e * inside > 0 && inside > 0 then JoinTarget(Repeat(e, count), inside, k, at) else 0
  }

  // The pieces once the first id input positions are written.
  ghost predicate SplitUpTo<T>(e: nat, inside: nat, pieces: seq<seq<T>>, before: seq<seq<T>>, now: seq<seq<T>>, id: int) {
    && |pieces| == |before| == |now|
    && (forall k :: 0 <= k < |now| ==> |now[k]| == |before[k]| == |pieces[k]|)
    && forall k, at :: 0 <= k < |now| && 0 <= at < |now[k]| ==>
      now[k][at] == if SplitIndex(e, |now|, inside, k, at) < id then pieces[k][at] else before[k][at]
  }

  // Only one place is written for one input position.
  lemma SplitOnly(outers: nat, e: nat, count: nat, inside: nat, id: nat, output: nat, dst: nat)
    requires e > 0 && inside > 0 && id < outers * (count * e) * inside && count * e * inside > 0
    requires SameSource(e, count, inside, id) == Place(output, dst)
    ensures forall k, at :: 0 <= k < count && 0 <= at < outers * e * inside ==>
      (SplitIndex(e, count, inside, k, at) == id <==> k == output && at == dst)
  {
    SplitSource(outers, e, count, inside, id);
    forall k, at | 0 <= k < count && 0 <= at < outers * e * inside
      ensures SplitIndex(e, count, inside, k, at) == id <==> k == output && at == dst
    {
      SplitTarget(outers, e, count, inside, k, at);
    }
  }

  lemma PieceHolds<T>(e: nat, count: nat, inside: nat, outers: nat, input: seq<T>, output: nat, dst: nat, id: nat)
    requires e > 0 && inside > 0 && |input| == outers * (count * e) * inside && id < |input| && count * e * inside > 0
    requires SameSource(e, count, inside, id) == Place(output, dst)
    ensures output < count && dst < outers * e * inside
    ensures Split(e, count, inside, outers, input)[output][dst] == input[id]
  {
    SplitSource(outers, e, count, inside, id);
    assert Piece(e, count, inside, outers, input, output)[dst] == PieceAt(e, count, inside, outers, input, output, dst);
  }

  lemma SplitStep<T>(e: nat, count: nat, inside: nat, outers: nat, input: seq<T>, before: seq<seq<T>>, now: seq<seq<T>>, after: seq<seq<T>>,
                     id: nat, output: nat, dst: nat)
    requires e > 0 && inside > 0 && |input| == outers * (count * e) * inside && id < |input| && count * e * inside > 0
    requires SplitUpTo(e, inside, Split(e, count, inside, outers, input), before, now, id)
    requires SameSource(e, count, inside, id) == Place(output, dst)
    requires output < count && dst < |now[output]| && after == now[output := now[output][dst := input[id]]]
    ensures SplitUpTo(e, inside, Split(e, count, inside, outers, input), before, after, id + 1)
  {
    SplitOnly(outers, e, count, inside, id, output, dst);
    PieceHolds(e, count, inside, outers, input, output, dst, id);
  }

  lemma StartsUntouched<T>(e: nat, count: nat, inside: nat, outers: nat, input: seq<T>, before: seq<seq<T>>)
    requires |input| == outers * (count * e) * inside
    requires |before| == count && forall k :: 0 <= k < count ==> |before[k]| == outers * e * inside
    ensures SplitUpTo(e, inside, Split(e, count, inside, outers, input), before, before, 0)
  {
    forall k, at | 0 <= k < count && 0 <= at < outers * e * inside
      ensures SplitIndex(e, count, inside, k, at) >= 0
    {
      SplitTarget(outers, e, count, inside, k, at);
    }
  }

  // Scatters the input's first n elements into equal pieces; the rest of each piece is
  // left as it was.
  method SplitSame<T>(outer: int, inside: int, split: int, input: array<T>, outputs: seq<array<T>>, n: int, ghost outers: nat)
    requires inside >= 0 && split >= 0 && outer == |outputs| * split * inside
    requires input.Length == outers * (|outputs| * split) * inside && n <= input.Length
    requires forall k :: 0 <= k < |outputs| ==> outputs[k].Length == outers * split * inside && outputs[k] != input
    requires forall j, k :: 0 <= j < k < |outputs| ==> outputs[j] != outputs[k]
    modifies outputs
    ensures SplitUpTo(split, inside, Split(split, |outputs|, inside, outers, input[..]), old(Contents(outputs)), Contents(outputs), Count(n))
  {
    ghost var before, source := Contents(outputs), input[..];
    ghost var pieces := Split(split, |outputs|, inside, outers, source);
    StartsUntouched(split, |outputs|, inside, outers, source, before);
    var id := 0;
    while id < n
      invariant 0 <= id <= Count(n)
      invariant input[..] == source
      invariant SplitUpTo(split, inside, pieces, before, Contents(outputs), id)
    {
      SplitSource(outers, split, |outputs|, inside, id);
      var outerBlock, rest := DivMod(outer, id);
      var block, offset := DivMod(inside, rest);
      var output, blockOffset := DivMod(split, block);
      ConcatIndex(outerBlock, split, blockOffset, inside, offset);
      var dst := outerBlock * split * inside + blockOffset * inside + offset;
      ghost var now := Contents(outputs);
      Store(outputs, output, dst, input[id]);
      SplitStep(split, |outputs|, inside, outers, source, before, now, Contents(outputs), id, output, dst);
      id := id + 1;
    }
  }

  // Once every position is written the pieces are the split.
  lemma SplitComplete<T>(e: nat, count: nat, inside: nat, outers: nat, input: seq<T>, before: seq<seq<T>>, now: seq<seq<T>>)
    requires |input| == outers * (count * e) * inside && |now| == count
    requires SplitUpTo(e, inside, Split(e, count, inside, outers, input), before, now, |input|)
    ensures now == Split(e, count, inside, outers, input)
  {
    var pieces := Split(e, count, inside, outers, input);
    forall k | 0 <= k < count
      ensures now[k] == pieces[k]
    {
      forall at | 0 <= at < |now[k]|
        ensures now[k][at] == pieces[k][at]
      {
        SplitTarget(outers, e, count, inside, k, at);
      }
    }
  }
}
