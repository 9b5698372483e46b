// What joining along an axis does to rows: every row of the result is the rows of the
// pieces, one behind the other.
module JoinedRows {
  import opened Division
  import opened MixedRadix
  import opened Joins
  import opened JoinKernels

  function Concatenated<T>(rows: seq<seq<T>>): seq<T> {
    if rows == [] then [] else rows[0] + Concatenated(rows[1..])
  }

  // The lengths of the first j rows.
  function LengthOf<T>(rows: seq<seq<T>>, j: nat): nat
    requires j <= |rows|
  {
    if j == 0 then 0 else LengthOf(rows, j - 1) + |rows[j - 1]|
  }

  lemma {:induction false} LengthShifts<T>(rows: seq<seq<T>>, j: nat)
    requires 0 < j <= |rows|
    ensures LengthOf(rows, j) == |rows[0]| + LengthOf(rows[1..], j - 1)
  {
    if j > 1 {
      LengthShifts(rows, j - 1);
    }
  }

  lemma {:induction false} ConcatenatedAt<T>(rows: seq<seq<T>>, j: nat, k: nat, at: nat)
    requires j < |rows| && k < |rows[j]| && at == LengthOf(rows, j) + k
    ensures at < |Concatenated(rows)| && Concatenated(rows)[at] == rows[j][k]
  {
    if j > 0 {
      LengthShifts(rows, j);
      ConcatenatedAt(rows[1..], j - 1, k, at - |rows[0]|);
    }
  }

  lemma {:induction false} ConcatenatedLength<T>(rows: seq<seq<T>>)
    ensures |Concatenated(rows)| == LengthOf(rows, |rows|)
  {
    if rows != [] {
      ConcatenatedLength(rows[1..]);
      LengthShifts(rows, |rows|);
    }
  }

  ghost predicate IsRow<T>(row: seq<T>, len: int, whole: seq<T>, o: nat) {
    && |row| == len && 0 <= o * len && o * len + len <= |whole| && row == whole[o * len..o * len + len]
  }

  // Row o of every piece, a row of piece j being sizes[j] * inside elements.
  ghost predicate AreRows<T>(rows: seq<seq<T>>, sizes: seq<int>, inside: nat, pieces: seq<seq<T>>, o: nat) {
    && |rows| == |sizes| == |pieces|
    && forall j :: 0 <= j < |rows| ==> IsRow(rows[j], sizes[j] * inside, pieces[j], o)
  }

  lemma {:induction false} RowLengths<T>(rows: seq<seq<T>>, sizes: seq<int>, inside: nat, j: nat)
    requires |rows| == |sizes| && j <= |rows| && forall i :: 0 <= i < |rows| ==> |rows[i]| == sizes[i] * inside
    ensures LengthOf(rows, j) == Start(sizes, j) * inside
  {
    if j > 0 {
      RowLengths(rows, sizes, inside, j - 1);
      Spread(Start(sizes, j - 1), sizes[j - 1], inside);
    }
  }

  // Element (b, x) of row o of a piece.
  lemma RowElement<T>(row: seq<T>, size: nat, inside: nat, whole: seq<T>, o: nat, b: nat, x: nat, k: nat, at: nat)
    requires IsRow(row, size * inside, whole, o) && b < size && x < inside
    requires k == b * inside + x && at == (o * size + b) * inside + x
    ensures k < |row| && at < |whole| && row[k] == whole[at]
  {
    Below(b, size, x, inside);
    Spread(o * size, b, inside);
    Regroup(o, size, inside);
  }

  lemma JoinedElement<T>(sizes: seq<int>, range: seq<int>, mapping: seq<int>, inside: nat, outers: nat, pieces: seq<seq<T>>,
                         o: nat, block: nat, x: nat, id: nat, n: nat)
    requires Tables(sizes, range, mapping) && PiecesFit(sizes, inside, outers, pieces)
    requires o < outers && block < |mapping| && x < inside && id == Compose(o, |mapping|, block, inside, x)
    requires id < n <= outers * |mapping| * inside
    ensures InPiece(sizes, mapping[block], block)
    ensures var j := mapping[block];
      var at := Compose(o, sizes[j], block - Start(sizes, j), inside, x);
      0 <= at < |pieces[j]| && Joined(sizes, range, mapping, inside, outers, pieces, n)[id] == pieces[j][at]
  {
    SourceOf(outers, sizes, range, mapping, inside, o, block, x);
    SourceThenTarget(outers, sizes, range, mapping, inside, id);
  }

  lemma JoinedIsConcatenated<T>(sizes: seq<int>, range: seq<int>, mapping: seq<int>, inside: nat, outers: nat, pieces: seq<seq<T>>,
                                o: nat, rows: seq<seq<T>>, block: nat, x: nat, id: nat, n: nat, k: nat)
    requires Tables(sizes, range, mapping) && PiecesFit(sizes, inside, outers, pieces) && AreRows(rows, sizes, inside, pieces, o)
    requires o < outers && block < |mapping| && x < inside && id == Compose(o, |mapping|, block, inside, x)
    requires id < n <= outers * |mapping| * inside && k == block * inside + x
    ensures k < |Concatenated(rows)| && Joined(sizes, range, mapping, inside, outers, pieces, n)[id] == Concatenated(rows)[k]
  {
    JoinedElement(sizes, range, mapping, inside, outers, pieces, o, block, x, id, n);
    var j := mapping[block];
    var b := block - Start(sizes, j);
    RowElement(rows[j], sizes[j], inside, pieces[j], o, b, x, b * inside + x, Compose(o, sizes[j], b, inside, x));
    RowLengths(rows, sizes, inside, j);
    Spread(Start(sizes, j), b, inside);
    ConcatenatedAt(rows, j, b * inside + x, k);
  }

  // Row o of the joined tensor is row o of every piece, in order.
  lemma JoinedRow<T>(sizes: seq<int>, range: seq<int>, mapping: seq<int>, inside: nat, outers: nat, pieces: seq<seq<T>>,
                     o: nat, rows: seq<seq<T>>, n: nat, len: nat)
    requires Tables(sizes, range, mapping) && PiecesFit(sizes, inside, outers, pieces) && AreRows(rows, sizes, inside, pieces, o)
    requires o < outers && n == outers * |mapping| * inside && len == |mapping| * inside
    ensures IsRow(Concatenated(rows), len, Joined(sizes, range, mapping, inside, outers, pieces, n), o)
  {
    var joined, row := Joined(sizes, range, mapping, inside, outers, pieces, n), Concatenated(rows);
    ConcatenatedLength(rows);
    RowLengths(rows, sizes, inside, |rows|);
    Regroup(outers, |mapping|, inside);
    MulMonotone(o + 1, outers, len);
    Spread(o, 1, len);
    MulMonotone(0, o, len);
    forall k: nat | k < len ensures row[k] == joined[o * len + k] {
      Leading(k, |mapping|, inside);
      Rebuild(k, inside);
      var block, x := k / inside, k % inside;
      Spread(o * |mapping|, block, inside);
      Regroup(o, |mapping|, inside);
      JoinedIsConcatenated(sizes, range, mapping, inside, outers, pieces, o, rows, block, x, o * len + k, n, k);
    }
  }
}
