// A [batch, channels, len] tensor cut into groups: each group of each batch item is
// one contiguous segment of the flat buffer, filled row by row in several rounds.
module Segments {
  import opened Division
  import opened Products
  import opened Sums

  // per channels in each of groups groups; channels past the last group belong to none.
  datatype Layout = Layout(batch: nat, groups: nat, per: nat, channels: nat, len: nat)
  {
    ghost predicate Fits() {
      groups * per <= channels
    }

    ghost function Total(): int {
      batch * channels * len
    }

    // The segment of group g in batch item n.
    ghost function Lo(n: nat, g: nat): int {
      (n * channels + g * per) * len
    }

    ghost function Hi(n: nat, g: nat): int {
      Lo(n, g) + per * len
    }

    // Row ch of that group.
    ghost function RowBase(n: nat, g: nat, ch: nat): int {
      (n * channels + (g * per + ch)) * len
    }
  }

  // Row ch of an item lies inside the buffer.
  lemma RowInside(n: nat, batch: nat, ch: nat, channels: nat, len: nat)
    requires n < batch && ch < channels
    ensures 0 <= n * channels + ch < batch * channels
    ensures 0 <= (n * channels + ch) * len && (n * channels + ch) * len + len <= batch * channels * len
  {
    Below(n, batch, ch, channels);
    MulMonotone(n * channels + ch + 1, batch * channels, len);
    assert (n * channels + ch + 1) * len == (n * channels + ch) * len + len;
  }

  // The rows of a group are among those of the tensor.
  lemma RowsInside(lay: Layout, n: nat, g: nat)
    requires lay.Fits() && n < lay.batch && g < lay.groups
    ensures 0 <= n * lay.channels + g * lay.per
    ensures n * lay.channels + g * lay.per + lay.per <= lay.batch * lay.channels
  {
    Spread(g, 1, lay.per);
    Spread(n, 1, lay.channels);
    MulMonotone(g + 1, lay.groups, lay.per);
    MulMonotone(n + 1, lay.batch, lay.channels);
    MulMonotone(0, n, lay.channels);
    MulMonotone(0, g, lay.per);
  }

  lemma SpanInside(a: int, per: nat, all: int, len: nat)
    requires 0 <= a && a + per <= all
    ensures 0 <= a * len <= a * len + per * len <= all * len
    ensures (a + per) * len == a * len + per * len
  {
    Spread(a, per, len);
    MulMonotone(a + per, all, len);
    MulMonotone(0, a, len);
    MulMonotone(0, per, len);
  }

  lemma SegmentInside(lay: Layout, n: nat, g: nat)
    requires lay.Fits() && n < lay.batch && g < lay.groups
    ensures 0 <= lay.Lo(n, g) <= lay.Hi(n, g) <= lay.Total()
    ensures lay.Hi(n, g) == lay.Lo(n, g + 1)
  {
    var a, all := n * lay.channels + g * lay.per, lay.batch * lay.channels;
    RowsInside(lay, n, g);
    SpanInside(a, lay.per, all, lay.len);
    assert n * lay.channels + (g + 1) * lay.per == a + lay.per by { Spread(g, 1, lay.per); }
  }

  lemma SegmentRow(lay: Layout, n: nat, g: nat, ch: nat)
    ensures lay.RowBase(n, g, ch) == lay.Lo(n, g) + ch * lay.len
  {
    var a := n * lay.channels + g * lay.per;
    assert (a + ch) * lay.len == a * lay.len + ch * lay.len;
  }

  lemma RowInSegment(lay: Layout, ch: nat)
    requires ch < lay.per
    ensures 0 <= ch * lay.len && ch * lay.len + lay.len <= lay.per * lay.len
  {
    MulMonotone(ch + 1, lay.per, lay.len);
    assert (ch + 1) * lay.len == ch * lay.len + lay.len;
  }

  // Where segment offset d falls.
  lemma SegmentOffset(lay: Layout, d: nat, ch: nat)
    requires lay.len > 0
    ensures d / lay.len == ch <==> 0 <= d - ch * lay.len < lay.len
    ensures d / lay.len == ch ==> d % lay.len == d - ch * lay.len
  {
    Rebuild(d, lay.len);
    if 0 <= d - ch * lay.len < lay.len {
      Unique(d, lay.len, ch, d - ch * lay.len);
    }
  }

  lemma OffsetInside(lay: Layout, n: nat, g: nat, d: nat)
    requires lay.Fits() && n < lay.batch && g < lay.groups && d < lay.per * lay.len
    ensures lay.len > 0 && d / lay.len < lay.per
    ensures 0 <= lay.Lo(n, g) + d < lay.Total()
  {
    SegmentInside(lay, n, g);
    Leading(d, lay.per, lay.len);
  }

  // after is before plus a row of values from base on.
  ghost predicate RowAdded(before: seq<real>, after: seq<real>, base: int, row: seq<real>) {
    && |before| == |after|
    && forall p :: 0 <= p < |after| ==>
      after[p] == before[p] + (if 0 <= p - base < |row| then row[p - base] else 0.0)
  }

  lemma RowsAddUp(start: seq<real>, before: seq<real>, after: seq<real>, base: int, a: seq<real>, b: seq<real>, sum: seq<real>)
    requires RowAdded(start, before, base, a) && RowAdded(before, after, base, b)
    requires |a| == |b| == |sum| && forall i :: 0 <= i < |sum| ==> sum[i] == a[i] + b[i]
    ensures RowAdded(start, after, base, sum)
  {
  }

  // f(ch, i, t): what round t adds at position i of row ch.
  ghost function Rounds(f: (nat, nat, nat) -> real, ch: nat, i: nat): nat -> real
  {
    (t: nat) => f(ch, i, t)
  }

  // Segment offset d after k rounds.
  ghost function Staged(lay: Layout, al: real, f: (nat, nat, nat) -> real, v: real, d: nat, k: nat): real
  {
    if lay.len == 0 then v else v + Mul(al, Sum(k, Rounds(f, d / lay.len, d % lay.len)))
  }

  // The segment of (n, g) is t rounds in, and its rows before ch one more.
  ghost predicate SegmentStaged(lay: Layout, al: real, f: (nat, nat, nat) -> real, n: nat, g: nat,
                                before: seq<real>, after: seq<real>, ch: nat, t: nat)
  {
    var lo := lay.Lo(n, g);
    && |before| == |after|
    && forall p :: 0 <= p < |after| ==>
      after[p] == if lo <= p < lay.Hi(n, g) then
                    Staged(lay, al, f, before[p], p - lo, if lay.len > 0 && (p - lo) / lay.len < ch then t + 1 else t)
                  else before[p]
  }

  lemma NextStage(lay: Layout, al: real, f: (nat, nat, nat) -> real, v: real, d: nat, t: nat)
    requires lay.len > 0
    ensures Staged(lay, al, f, v, d, t + 1) == Staged(lay, al, f, v, d, t) + Mul(al, f(d / lay.len, d % lay.len, t))
  {
    Distribute(al, Sum(t, Rounds(f, d / lay.len, d % lay.len)), f(d / lay.len, d % lay.len, t));
  }

  lemma StagedZero(lay: Layout, al: real, f: (nat, nat, nat) -> real, v: real, d: nat)
    ensures Staged(lay, al, f, v, d, 0) == v
  {
    if lay.len > 0 {
      Rebuild(d, lay.len);
    }
    Zero(al);
  }

  lemma Untouched(lay: Layout, al: real, f: (nat, nat, nat) -> real, n: nat, g: nat, s: seq<real>)
    ensures SegmentStaged(lay, al, f, n, g, s, s, 0, 0)
  {
    forall p | 0 <= p < |s| && lay.Lo(n, g) <= p < lay.Hi(n, g)
      ensures s[p] == Staged(lay, al, f, s[p], p - lay.Lo(n, g), 0)
    {
      StagedZero(lay, al, f, s[p], p - lay.Lo(n, g));
    }
  }

  // Adding round t to row ch.
  lemma StageRow(lay: Layout, al: real, f: (nat, nat, nat) -> real, n: nat, g: nat,
                 before: seq<real>, mid: seq<real>, after: seq<real>, ch: nat, t: nat, row: seq<real>)
    requires lay.Fits() && n < lay.batch && g < lay.groups && ch < lay.per
    requires SegmentStaged(lay, al, f, n, g, before, mid, ch, t)
    requires |row| == lay.len && forall i :: 0 <= i < lay.len ==> row[i] == Mul(al, f(ch, i, t))
    requires RowAdded(mid, after, lay.RowBase(n, g, ch), row)
    ensures SegmentStaged(lay, al, f, n, g, before, after, ch + 1, t)
  {
    var lo := lay.Lo(n, g);
    SegmentRow(lay, n, g, ch);
    RowInSegment(lay, ch);
    forall p | 0 <= p < |after|
      ensures after[p] == if lo <= p < lay.Hi(n, g) then
                    Staged(lay, al, f, before[p], p - lo, if lay.len > 0 && (p - lo) / lay.len < ch + 1 then t + 1 else t)
                  else before[p]
    {
      if lo <= p < lay.Hi(n, g) && lay.len > 0 {
        SegmentOffset(lay, p - lo, ch);
        NextStage(lay, al, f, before[p], p - lo, t);
      }
    }
  }

  lemma RoundDone(lay: Layout, al: real, f: (nat, nat, nat) -> real, n: nat, g: nat, before: seq<real>, after: seq<real>, t: nat)
    requires SegmentStaged(lay, al, f, n, g, before, after, lay.per, t)
    ensures SegmentStaged(lay, al, f, n, g, before, after, 0, t + 1)
  {
    forall p | 0 <= p < |after| && lay.Lo(n, g) <= p < lay.Hi(n, g)
      ensures after[p] == Staged(lay, al, f, before[p], p - lay.Lo(n, g), t + 1)
    {
      Leading(p - lay.Lo(n, g), lay.per, lay.len);
    }
  }

  // A round that adds nothing anywhere need not be run.
  lemma RoundSkipped(lay: Layout, al: real, f: (nat, nat, nat) -> real, n: nat, g: nat, before: seq<real>, after: seq<real>, t: nat)
    requires SegmentStaged(lay, al, f, n, g, before, after, 0, t)
    requires forall ch: nat, i: nat :: ch < lay.per && i < lay.len ==> f(ch, i, t) == 0.0
    ensures SegmentStaged(lay, al, f, n, g, before, after, 0, t + 1)
  {
    forall p | 0 <= p < |after| && lay.Lo(n, g) <= p < lay.Hi(n, g)
      ensures after[p] == Staged(lay, al, f, before[p], p - lay.Lo(n, g), t + 1)
    {
      var d := p - lay.Lo(n, g);
      Leading(d, lay.per, lay.len);
      NextStage(lay, al, f, before[p], d, t);
      Zero(al);
    }
  }

  // The segment of (n, g) holds the target; the rest is as it was.
  ghost predicate SegmentIs(lay: Layout, n: nat, g: nat, before: seq<real>, after: seq<real>, target: seq<real>)
  {
    && |before| == |after| == |target|
    && forall p :: 0 <= p < |after| ==>
      after[p] == if lay.Lo(n, g) <= p < lay.Hi(n, g) then target[p] else before[p]
  }

  // Everything before position lo holds the target; the rest is as it was.
  ghost predicate PrefixIs(lo: int, before: seq<real>, after: seq<real>, target: seq<real>)
  {
    && |before| == |after| == |target|
    && forall p :: 0 <= p < |after| ==> after[p] == if p < lo then target[p] else before[p]
  }

  lemma NextSegment(lay: Layout, n: nat, g: nat, before: seq<real>, mid: seq<real>, after: seq<real>, target: seq<real>)
    requires lay.Fits() && n < lay.batch && g < lay.groups
    requires PrefixIs(lay.Lo(n, g), before, mid, target)
    requires SegmentIs(lay, n, g, mid, after, target)
    ensures PrefixIs(lay.Lo(n, g + 1), before, after, target)
  {
    SegmentInside(lay, n, g);
  }

  // A flat position past the last group of item n.
  lemma Gap(lay: Layout, n: nat, p: nat)
    requires lay.Fits() && lay.Lo(n, lay.groups) <= p < lay.Lo(n + 1, 0)
    ensures lay.len > 0 && lay.channels > 0
    ensures p / lay.len / lay.channels == n
    ensures p / lay.len % lay.channels >= lay.groups * lay.per
  {
    var c := n * lay.channels;
    assert (n + 1) * lay.channels == c + lay.channels;
    Leading(p, c + lay.channels, lay.len);
    Rebuild(p, lay.len);
    var row := p / lay.len;
    assert (row + 1) * lay.len == row * lay.len + lay.len;
    if row < c + lay.groups * lay.per {
      MulMonotone(row + 1, c + lay.groups * lay.per, lay.len);
    }
    Unique(row, lay.channels, n, row - c);
  }

  // A flat position past the last item.
  lemma Past(lay: Layout, p: nat)
    requires p >= lay.Total() && lay.len > 0 && lay.channels > 0
    ensures p / lay.len / lay.channels >= lay.batch
  {
    if p / lay.len / lay.channels < lay.batch {
      var row := p / lay.len;
      Rebuild(p, lay.len);
      Rebuild(row, lay.channels);
      Below(row / lay.channels, lay.batch, row % lay.channels, lay.channels);
      Below(row, lay.batch * lay.channels, p % lay.len, lay.len);
    }
  }
}
