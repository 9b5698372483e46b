// Concatenation and splitting along one axis, as a bijection between the positions of
// the joined tensor and the (piece, position) pairs.
module Joins {
  import opened Division
  import opened MixedRadix

  datatype Place = Place(piece: int, at: int)

  // Where piece j starts along the axis.
  function Start(sizes: seq<int>, j: nat): (s: int)
    requires j <= |sizes|
    ensures NonNegative(sizes) ==> s >= 0
  {
    if j == 0 then 0 else Start(sizes, j - 1) + sizes[j - 1]
  }

  function Extent(sizes: seq<int>): int {
    Start(sizes, |sizes|)
  }

  lemma {:induction false} StartMonotone(sizes: seq<int>, i: nat, j: nat)
    requires NonNegative(sizes) && i <= j <= |sizes|
    ensures Start(sizes, i) <= Start(sizes, j)
    decreases j
  {
    if i < j {
      StartMonotone(sizes, i, j - 1);
    }
  }

  predicate InPiece(sizes: seq<int>, j: int, b: int) {
    0 <= j < |sizes| && Start(sizes, j) <= b < Start(sizes, j) + sizes[j]
  }

  // The tables the kernel is handed: running totals, and the piece of every block.
  predicate Tables(sizes: seq<int>, range: seq<int>, mapping: seq<int>) {
    && NonNegative(sizes) && |range| == |sizes| && |mapping| == Extent(sizes)
    && (forall j :: 0 <= j < |sizes| ==> range[j] == Start(sizes, j + 1))
    && (forall b :: 0 <= b < |mapping| ==> InPiece(sizes, mapping[b], b))
  }

  // A block lies in one piece only.
  lemma PieceUnique(sizes: seq<int>, i: int, j: int, b: int)
    requires NonNegative(sizes) && InPiece(sizes, i, b) && InPiece(sizes, j, b)
    ensures i == j
  {
    if i < j {
      StartMonotone(sizes, i + 1, j);
    } else if j < i {
      StartMonotone(sizes, j + 1, i);
    }
  }

  // A position of a [outers, blocks, inside] tensor.
  function Compose(outer: int, blocks: int, block: int, inside: int, x: int): int {
    (outer * blocks + block) * inside + x
  }

  lemma Composed(outers: nat, outer: nat, blocks: nat, block: nat, inside: nat, x: nat)
    requires outer < outers && block < blocks && x < inside
    ensures 0 <= Compose(outer, blocks, block, inside, x) < outers * blocks * inside
    ensures blocks * inside > 0
    ensures Compose(outer, blocks, block, inside, x) / (blocks * inside) == outer
    ensures Compose(outer, blocks, block, inside, x) % (blocks * inside) == block * inside + x
    ensures (block * inside + x) / inside == block && (block * inside + x) % inside == x
  {
    var row := outer * blocks + block;
    Below(outer, outers, block, blocks);
    Below(row, outers * blocks, x, inside);
    Below(block, blocks, x, inside);
    Unique(block * inside + x, inside, block, x);
    Spread(outer * blocks, block, inside);
    Regroup(outer, blocks, inside);
    Unique(row * inside + x, blocks * inside, outer, block * inside + x);
  }

  lemma Decomposed(outers: nat, blocks: nat, inside: nat, id: nat)
    requires id < outers * blocks * inside
    ensures blocks * inside > 0 && inside > 0
    ensures id / (blocks * inside) < outers && (id % (blocks * inside)) / inside < blocks
    ensures Compose(id / (blocks * inside), blocks, (id % (blocks * inside)) / inside, inside, (id % (blocks * inside)) % inside) == id
  {
    Regroup(outers, blocks, inside);
    Leading(id, outers, blocks * inside);
    Rebuild(id, blocks * inside);
    var outer, rest := id / (blocks * inside), id % (blocks * inside);
    Leading(rest, blocks, inside);
    Rebuild(rest, inside);
    Spread(outer * blocks, rest / inside, inside);
    Regroup(outer, blocks, inside);
  }

  // Which piece joined position id comes from, and where in it.
  function JoinSource(sizes: seq<int>, mapping: seq<int>, inside: nat, id: nat): Place
    requires NonNegative(sizes) && |mapping| == Extent(sizes)
    requires forall b :: 0 <= b < |mapping| ==> InPiece(sizes, mapping[b], b)
    requires |mapping| * inside > 0 && inside > 0 && (id % (|mapping| * inside)) / inside < |mapping|
  {
    var rest := id % (|mapping| * inside);
    var j := mapping[rest / inside];
    assert InPiece(sizes, j, rest / inside);
    Place(j, Compose(id / (|mapping| * inside), sizes[j], rest / inside - Start(sizes, j), inside, rest % inside))
  }

  // Where position at of piece j ends up.
  function JoinTarget(sizes: seq<int>, inside: nat, j: nat, at: nat): int
    requires NonNegative(sizes) && j < |sizes| && sizes[j] * inside > 0 && inside > 0
  {
    var rest := at % (sizes[j] * inside);
    Compose(at / (sizes[j] * inside), Extent(sizes), Start(sizes, j) + rest / inside, inside, rest % inside)
  }

  // The source of a joined position given by its coordinates.
  lemma SourceOf(outers: nat, sizes: seq<int>, range: seq<int>, mapping: seq<int>, inside: nat, outer: nat, block: nat, x: nat)
    requires Tables(sizes, range, mapping) && outer < outers && block < |mapping| && x < inside
    ensures var id := Compose(outer, |mapping|, block, inside, x);
      && 0 <= id < outers * |mapping| * inside
      && |mapping| * inside > 0 && (id % (|mapping| * inside)) / inside < |mapping|
      && InPiece(sizes, mapping[block], block)
      && JoinSource(sizes, mapping, inside, id)
         == Place(mapping[block], Compose(outer, sizes[mapping[block]], block - Start(sizes, mapping[block]), inside, x))
  {
    Composed(outers, outer, |mapping|, block, inside, x);
    assert InPiece(sizes, mapping[block], block);
  }

  // The target of a place given by its coordinates.
  lemma TargetOf(outers: nat, sizes: seq<int>, inside: nat, j: nat, outer: nat, block: nat, x: nat)
    requires NonNegative(sizes) && j < |sizes| && outer < outers && block < sizes[j] && x < inside
    ensures var at := Compose(outer, sizes[j], block, inside, x);
      && 0 <= at < outers * sizes[j] * inside && sizes[j] * inside > 0
      && JoinTarget(sizes, inside, j, at) == Compose(outer, Extent(sizes), Start(sizes, j) + block, inside, x)
  {
    Composed(outers, outer, sizes[j], block, inside, x);
  }

  // Every joined position comes from one place, and goes back to itself.
  lemma SourceThenTarget(outers: nat, sizes: seq<int>, range: seq<int>, mapping: seq<int>, inside: nat, id: nat)
    requires Tables(sizes, range, mapping) && id < outers * |mapping| * inside
    ensures |mapping| * inside > 0 && inside > 0 && (id % (|mapping| * inside)) / inside < |mapping|
    ensures var p := JoinSource(sizes, mapping, inside, id);
      && 0 <= p.piece < |sizes| && 0 <= p.at < outers * sizes[p.piece] * inside
      && sizes[p.piece] * inside > 0
      && JoinTarget(sizes, inside, p.piece, p.at) == id
  {
    Decomposed(outers, |mapping|, inside, id);
    var outer, rest := id / (|mapping| * inside), id % (|mapping| * inside);
    var block, x := rest / inside, rest % inside;
    SourceOf(outers, sizes, range, mapping, inside, outer, block, x);
    TargetOf(outers, sizes, inside, mapping[block], outer, block - Start(sizes, mapping[block]), x);
  }

  lemma PlaceOf(outers: nat, sizes: seq<int>, range: seq<int>, mapping: seq<int>, inside: nat, j: nat, outer: nat, b: nat, x: nat)
    requires Tables(sizes, range, mapping) && j < |sizes| && outer < outers && b < sizes[j] && x < inside
    ensures var id := Compose(outer, Extent(sizes), Start(sizes, j) + b, inside, x);
      && 0 <= id < outers * |mapping| * inside
      && |mapping| * inside > 0 && (id % (|mapping| * inside)) / inside < |mapping|
      && JoinSource(sizes, mapping, inside, id) == Place(j, Compose(outer, sizes[j], b, inside, x))
  {
    StartMonotone(sizes, j + 1, |sizes|);
    var block := Start(sizes, j) + b;
    SourceOf(outers, sizes, range, mapping, inside, outer, block, x);
    PieceUnique(sizes, mapping[block], j, block);
  }

  // Every place is reached by one joined position, and by no other.
  lemma TargetThenSource(outers: nat, sizes: seq<int>, range: seq<int>, mapping: seq<int>, inside: nat, j: nat, at: nat)
    requires Tables(sizes, range, mapping) && j < |sizes| && at < outers * sizes[j] * inside
    ensures sizes[j] * inside > 0 && inside > 0
    ensures var id := JoinTarget(sizes, inside, j, at);
      && 0 <= id < outers * |mapping| * inside
      && |mapping| * inside > 0 && (id % (|mapping| * inside)) / inside < |mapping|
      && JoinSource(sizes, mapping, inside, id) == Place(j, at)
  {
    Decomposed(outers, sizes[j], inside, at);
    var outer, rest := at / (sizes[j] * inside), at % (sizes[j] * inside);
    PlaceOf(outers, sizes, range, mapping, inside, j, outer, rest / inside, rest % inside);
  }

  // ---- pieces of equal extent --------------------------------------------------------------

  function Repeat(e: nat, count: nat): (sizes: seq<int>)
    ensures |sizes| == count && NonNegative(sizes)
  {
    seq(count, j requires 0 <= j < count => e)
  }

  lemma {:induction false} RepeatStart(e: nat, count: nat, j: nat)
    requires j <= count
    ensures Start(Repeat(e, count), j) == j * e
  {
    if j > 0 {
      RepeatStart(e, count, j - 1);
      Spread(j - 1, 1, e);
    }
  }

  // With equal extents the tables are a division.
  function SameSource(e: nat, count: nat, inside: nat, id: nat): Place
    requires e > 0 && inside > 0 && count * e * inside > 0
  {
    var rest := id % (count * e * inside);
    var block := rest / inside;
    Place(block / e, Compose(id / (count * e * inside), e, block % e, inside, rest % inside))
  }

  lemma SameIsJoin(outers: nat, e: nat, count: nat, range: seq<int>, mapping: seq<int>, inside: nat, id: nat)
    requires Tables(Repeat(e, count), range, mapping) && id < outers * (count * e) * inside
    ensures |mapping| == count * e && e > 0 && inside > 0 && count * e * inside > 0
    ensures (id % (|mapping| * inside)) / inside < |mapping|
    ensures JoinSource(Repeat(e, count), mapping, inside, id) == SameSource(e, count, inside, id)
  {
    RepeatStart(e, count, count);
    Decomposed(outers, count * e, inside, id);
    var block := (id % (count * e * inside)) / inside;
    Leading(block, count, e);
    Rebuild(block, e);
    RepeatStart(e, count, block / e);
    PieceUnique(Repeat(e, count), mapping[block], block / e, block);
  }

  // The tables for equal extents exist.
  function RepeatMapping(e: nat, count: nat): (mapping: seq<int>)
    ensures |mapping| == count * e
  {
    seq(count * e, b requires 0 <= b < count * e => Quot(b, e))
  }

  function RepeatRange(e: nat, count: nat): (range: seq<int>)
    ensures |range| == count
  {
    seq(count, j requires 0 <= j < count => (j + 1) * e)
  }

  lemma RepeatTables(e: nat, count: nat)
    ensures Tables(Repeat(e, count), RepeatRange(e, count), RepeatMapping(e, count))
  {
    var sizes := Repeat(e, count);
    forall j | 0 <= j < count
      ensures RepeatRange(e, count)[j] == Start(sizes, j + 1)
    {
      RepeatStart(e, count, j + 1);
    }
    RepeatStart(e, count, count);
    forall b | 0 <= b < count * e
      ensures InPiece(sizes, b / e, b)
    {
      Leading(b, count, e);
      Rebuild(b, e);
      RepeatStart(e, count, b / e);
    }
  }
}
