// The kernels that follow an index tensor: gather along one axis, and ScatterND.
module IndexKernels {
  import opened Division
  import opened MixedRadix
  import opened LayoutKernels
  import opened Joins

  // A negative index counts from the end.
  function Normal(index: int, max: int): int {
    if index < 0 then index + max else index
  }

  // ---- gather ---------------------------------------------------------------------------------

  // [outers, max, inner] gathered along the middle axis by the given indices.
  datatype GatherShape = GatherShape(inputBlock: int, max: int, inner: int, count: int)

  function IndexPlace(sh: GatherShape, id: nat): (k: int)
    requires sh.inner > 0 && sh.count * sh.inner > 0
    ensures 0 <= k < sh.count
  {
    Rebuild(id, sh.count * sh.inner);
    Leading(id % (sh.count * sh.inner), sh.count, sh.inner);
    (id % (sh.count * sh.inner)) / sh.inner
  }

  function GatherIndex(sh: GatherShape, indices: seq<int>, id: nat): int
    requires sh.inner > 0 && sh.count * sh.inner > 0 && |indices| == sh.count
  {
    Normal(indices[IndexPlace(sh, id)], sh.max)
  }

  function GatherSource(sh: GatherShape, indices: seq<int>, id: nat): int
    requires sh.inner > 0 && sh.count * sh.inner > 0 && |indices| == sh.count
  {
    (id / (sh.count * sh.inner)) * sh.inputBlock + GatherIndex(sh, indices, id) * sh.inner + (id % (sh.count * sh.inner)) % sh.inner
  }

  ghost predicate GatherReads(sh: GatherShape, indices: seq<int>, n: nat, size: nat) {
    n > 0 ==>
    && sh.inner > 0 && sh.count * sh.inner > 0 && |indices| == sh.count
    && forall id: nat :: id < n && 0 <= GatherIndex(sh, indices, id) < sh.max ==> 0 <= GatherSource(sh, indices, id) < size
  }

  // The first n gathered elements; an index out of range either way gives a zero.
  ghost function GatheredAxis<T>(sh: GatherShape, indices: seq<int>, input: seq<T>, zero: T, n: nat): (out: seq<T>)
    requires GatherReads(sh, indices, n, |input|)
    ensures |out| == n
  {
    seq(n, id requires 0 <= id < n =>
      if 0 <= GatherIndex(sh, indices, id) < sh.max then input[GatherSource(sh, indices, id)] else zero)
  }

  lemma RowIndex(o: int, rows: int, r: int, inner: int, x: int)
    ensures Compose(o, rows, r, inner, x) == o * (rows * inner) + r * inner + x
  {
    Spread(o * rows, r, inner);
    Regroup(o, rows, inner);
  }

  lemma SourceInside(outers: nat, sh: GatherShape, indices: seq<int>, id: nat, size: nat, block: nat)
    requires sh.inner > 0 && block == sh.count * sh.inner && block > 0 && |indices| == sh.count && sh.max >= 0
    requires sh.inputBlock == sh.max * sh.inner && size == outers * sh.max * sh.inner
    requires id / block < outers && IndexPlace(sh, id) < sh.count && 0 <= GatherIndex(sh, indices, id) < sh.max
    ensures 0 <= GatherSource(sh, indices, id) < size
  {
    var o, index, x := id / block, GatherIndex(sh, indices, id), id % block % sh.inner;
    Composed(outers, o, sh.max, index, sh.inner, x);
    RowIndex(o, sh.max, index, sh.inner, x);
  }

  lemma GatherInside(outers: nat, sh: GatherShape, indices: seq<int>, size: nat, n: nat)
    requires sh.inner >= 0 && |indices| == sh.count && sh.max >= 0 && n == outers * sh.count * sh.inner
    requires sh.inputBlock == sh.max * sh.inner && size == outers * sh.max * sh.inner
    ensures n > 0 ==> sh.inner > 0 && sh.count * sh.inner > 0
    ensures GatherReads(sh, indices, n, size)
  {
    Regroup(outers, sh.count, sh.inner);
    if n > 0 {
      MulMonotone(0, sh.count, sh.inner);
      assert sh.count * sh.inner > 0;
      assert sh.inner > 0;
      forall id: nat | id < n && 0 <= GatherIndex(sh, indices, id) < sh.max
        ensures 0 <= GatherSource(sh, indices, id) < size
      {
        Decomposed(outers, sh.count, sh.inner, id);
        SourceInside(outers, sh, indices, id, size, sh.count * sh.inner);
      }
    }
  }

  // What that says by coordinates: row k of item o is row indices[k] of the input's item o.
  lemma GatherMeans<T>(outers: nat, sh: GatherShape, indices: seq<int>, input: seq<T>, zero: T, o: nat, k: nat, x: nat, n: nat)
    requires |indices| == sh.count && sh.max >= 0 && n == outers * sh.count * sh.inner
    requires sh.inputBlock == sh.max * sh.inner && |input| == outers * sh.max * sh.inner
    requires o < outers && k < sh.count && x < sh.inner
    ensures GatherReads(sh, indices, n, |input|) && 0 <= Compose(o, sh.count, k, sh.inner, x) < n
    ensures var index := Normal(indices[k], sh.max);
      && (0 <= index < sh.max ==> 0 <= Compose(o, sh.max, index, sh.inner, x) < |input|)
      && GatheredAxis(sh, indices, input, zero, n)[Compose(o, sh.count, k, sh.inner, x)]
         == if 0 <= index < sh.max then input[Compose(o, sh.max, index, sh.inner, x)] else zero
  {
    Composed(outers, o, sh.count, k, sh.inner, x);
    GatherInside(outers, sh, indices, |input|, n);
    var index := Normal(indices[k], sh.max);
    var id := Compose(o, sh.count, k, sh.inner, x);
    assert IndexPlace(sh, id) == k;
    if 0 <= index < sh.max {
      Composed(outers, o, sh.max, index, sh.inner, x);
      RowIndex(o, sh.max, index, sh.inner, x);
    }
  }

  // In integers: a row from the front, a row counted back from the end, or zeros.
  lemma GatherReadsRow<T>(outers: nat, sh: GatherShape, indices: seq<int>, input: seq<T>, zero: T, o: nat, k: nat, x: nat, n: nat)
    requires |indices| == sh.count && sh.max >= 0 && n == outers * sh.count * sh.inner
    requires sh.inputBlock == sh.max * sh.inner && |input| == outers * sh.max * sh.inner
    requires o < outers && k < sh.count && x < sh.inner
    ensures GatherReads(sh, indices, n, |input|) && 0 <= (o * sh.count + k) * sh.inner + x < n
    ensures 0 <= indices[k] < sh.max ==>
      && 0 <= (o * sh.max + indices[k]) * sh.inner + x < |input|
      && GatheredAxis(sh, indices, input, zero, n)[(o * sh.count + k) * sh.inner + x] == input[(o * sh.max + indices[k]) * sh.inner + x]
    ensures -sh.max <= indices[k] < 0 ==>
      && 0 <= (o * sh.max + (sh.max + indices[k])) * sh.inner + x < |input|
      && GatheredAxis(sh, indices, input, zero, n)[(o * sh.count + k) * sh.inner + x]
         == input[(o * sh.max + (sh.max + indices[k])) * sh.inner + x]
    ensures !(-sh.max <= indices[k] < sh.max) ==> GatheredAxis(sh, indices, input, zero, n)[(o * sh.count + k) * sh.inner + x] == zero
  {
    GatherMeans(outers, sh, indices, input, zero, o, k, x, n);
  }

  method Gather<T>(sh: GatherShape, indices: seq<int>, input: array<T>, out: array<T>, n: int, zero: T)
    requires GatherReads(sh, indices, Count(n), input.Length) && n <= out.Length && input != out
    modifies out
    ensures Written(GatheredAxis(sh, indices, input[..], zero, Count(n)), old(out[..]), out[..])
  {
    ghost var before, target := out[..], GatheredAxis(sh, indices, input[..], zero, Count(n));
    var id := 0;
    while id < n
      invariant 0 <= id <= Count(n)
      invariant unchanged(input) && Overlaid(target, before, out[..], id)
    {
      var block, blockOffset := DivMod(sh.count * sh.inner, id);
      var place, offset := DivMod(sh.inner, blockOffset);
      assert place == IndexPlace(sh, id);
      var index := indices[place];
      if index < 0 {
        index := index + sh.max;
      }
      if index < 0 || index >= sh.max {
        out[id] := zero;
        id := id + 1;
        continue;
      }
      var src := block * sh.inputBlock + index * sh.inner + offset;
      assert src == GatherSource(sh, indices, id);
      out[id] := input[src];
      id := id + 1;
    }
  }

  // ---- ScatterND ------------------------------------------------------------------------------

  // An index out of range is brought to the nearest end it fell off.
  function Clamp(index: int, extent: int): int {
    if index >= 0 then
      if index >= extent then extent - 1 else index
    else if index < -extent then 0 else index + extent
  }

  // Clamping lands inside the axis exactly when the axis is not empty.
  lemma ClampInside(index: int, extent: int)
    ensures 0 <= Clamp(index, extent) < extent <==> extent >= 1
  {
  }

  function Clamped(index: seq<int>, extents: seq<int>): (c: seq<int>)
    requires |index| == |extents|
    ensures |c| == |index| && forall k :: 0 <= k < |c| ==> c[k] == Clamp(index[k], extents[k])
  {
    seq(|index|, k requires 0 <= k < |index| => Clamp(index[k], extents[k]))
  }

  // Where one update's slice goes.
  function SliceOffset(index: seq<int>, strides: seq<int>, extents: seq<int>): int
    requires |index| == |strides| == |extents|
  {
    Dot(Clamped(index, extents), strides)
  }

  function Scaled(strides: seq<int>, slice: int): (r: seq<int>)
    ensures |r| == |strides| && forall k :: 0 <= k < |r| ==> r[k] == strides[k] * slice
  {
    seq(|strides|, k requires 0 <= k < |strides| => strides[k] * slice)
  }

  lemma {:induction false} DotScaled(c: seq<int>, strides: seq<int>, slice: int)
    requires |c| == |strides|
    ensures Dot(c, Scaled(strides, slice)) == Dot(c, strides) * slice
  {
    if c != [] {
      DotScaled(c[1..], strides[1..], slice);
      assert Scaled(strides, slice)[1..] == Scaled(strides[1..], slice);
      Regroup(c[0], strides[0], slice);
      Spread(c[0] * strides[0], Dot(c[1..], strides[1..]), slice);
    }
  }

  lemma RowMajorOffset(index: seq<int>, extents: seq<int>, slice: nat)
    requires |index| == |extents|
    ensures SliceOffset(index, Scaled(RowMajor(extents), slice), extents) == Flat(extents, Clamped(index, extents)) * slice
  {
    DotScaled(Clamped(index, extents), RowMajor(extents), slice);
  }

  lemma FlatInside(index: seq<int>, extents: seq<int>)
    requires |index| == |extents| && NonNegative(extents)
    ensures 0 <= Flat(extents, Clamped(index, extents)) < Volume(extents) <==> Positive(extents)
  {
    VolumeIsCount(extents);
    if Positive(extents) {
      FlatBelow(extents, Clamped(index, extents));
    }
  }

  lemma BlockInside(f: int, v: int, slice: nat)
    requires slice > 0
    ensures 0 <= f * slice && f * slice + slice <= v * slice <==> 0 <= f < v
  {
    Spread(f, 1, slice);
    if 0 <= f < v {
      MulMonotone(f + 1, v, slice);
      MulMonotone(0, f, slice);
    } else if f < 0 {
      MulMonotone(f, -1, slice);
    } else {
      MulMonotone(v, f, slice);
    }
  }

  // In a row-major output a slice lands inside whatever the index says, exactly when no
  // indexed axis is empty.
  lemma SliceInside(index: seq<int>, extents: seq<int>, slice: nat)
    requires |index| == |extents| && slice > 0 && NonNegative(extents)
    ensures var at := SliceOffset(index, Scaled(RowMajor(extents), slice), extents);
      0 <= at && at + slice <= Volume(extents) * slice <==> Positive(extents)
  {
    RowMajorOffset(index, extents, slice);
    BlockInside(Flat(extents, Clamped(index, extents)), Volume(extents), slice);
    FlatInside(index, extents);
  }

  ghost function Put<T>(s: seq<T>, at: int, piece: seq<T>): (r: seq<T>)
    requires 0 <= at && at + |piece| <= |s|
    ensures |r| == |s|
    ensures forall p :: 0 <= p < |s| ==> r[p] == if at <= p < at + |piece| then piece[p - at] else s[p]
  {
    s[..at] + piece + s[at + |piece|..]
  }

  ghost predicate Fits(offsets: seq<int>, slice: nat, size: nat) {
    forall k :: 0 <= k < |offsets| ==> 0 <= offsets[k] && offsets[k] + slice <= size
  }

  ghost function Update<T>(updates: seq<T>, slice: nat, k: nat): (piece: seq<T>)
    requires (k + 1) * slice <= |updates|
    ensures |piece| == slice
  {
    Spread(k, 1, slice);
    MulMonotone(0, k, slice);
    updates[k * slice..k * slice + slice]
  }

  lemma UpdateInside(size: nat, slice: nat, count: nat, k: nat)
    requires k < count && count * slice <= size
    ensures 0 <= k * slice && (k + 1) * slice <= size && k * slice + slice == (k + 1) * slice
  {
    MulMonotone(k + 1, count, slice);
    MulMonotone(0, k, slice);
    Spread(k, 1, slice);
  }

  // The output once the first k updates are in, a later one over an earlier one.
  ghost function Scattered<T>(out: seq<T>, offsets: seq<int>, updates: seq<T>, slice: nat, k: nat): (r: seq<T>)
    requires k <= |offsets| && Fits(offsets, slice, |out|) && |offsets| * slice <= |updates|
    ensures |r| == |out|
  {
    if k == 0 then out else
    UpdateInside(|updates|, slice, |offsets|, k - 1);
    Put(Scattered(out, offsets, updates, slice, k - 1), offsets[k - 1], Update(updates, slice, k - 1))
  }

  // Positions no slice covers are left alone.
  lemma {:induction false} ScatterLeaves<T>(out: seq<T>, offsets: seq<int>, updates: seq<T>, slice: nat, k: nat, p: nat)
    requires k <= |offsets| && Fits(offsets, slice, |out|) && |offsets| * slice <= |updates| && p < |out|
    requires forall j :: 0 <= j < k ==> !(offsets[j] <= p < offsets[j] + slice)
    ensures Scattered(out, offsets, updates, slice, k)[p] == out[p]
  {
    if k > 0 {
      ScatterLeaves(out, offsets, updates, slice, k - 1, p);
      UpdateInside(|updates|, slice, |offsets|, k - 1);
    }
  }

  // A slice that no later one overlaps holds its update.
  lemma {:induction false} ScatterHolds<T>(out: seq<T>, offsets: seq<int>, updates: seq<T>, slice: nat, k: nat, j: nat, x: nat, p: nat, at: int)
    requires j < k <= |offsets| && Fits(offsets, slice, |out|) && |offsets| * slice <= |updates| && x < slice
    requires p == j * slice + x && at == offsets[j] + x
    requires forall i :: j < i < k ==> !(offsets[i] <= at < offsets[i] + slice)
    ensures p < |updates| && 0 <= at < |out|
    ensures Scattered(out, offsets, updates, slice, k)[at] == updates[p]
  {
    UpdateInside(|updates|, slice, |offsets|, j);
    UpdateInside(|updates|, slice, |offsets|, k - 1);
    if j < k - 1 {
      ScatterHolds(out, offsets, updates, slice, k - 1, j, x, p, at);
    }
  }

  // Row id of the index tensor.
  function IndexRow(indices: seq<int>, width: nat, count: nat, id: nat): (row: seq<int>)
    requires count * width <= |indices| && id < count
    ensures |row| == width
    ensures forall k :: 0 <= k < width ==> 0 <= id * width + k < |indices| && row[k] == indices[id * width + k]
  {
    UpdateInside(|indices|, width, count, id);
    indices[id * width..id * width + width]
  }

  function OffsetOf(indices: seq<int>, strides: seq<int>, extents: seq<int>, count: nat, id: nat): int
    requires |strides| == |extents| && count * |strides| <= |indices| && id < count
  {
    SliceOffset(IndexRow(indices, |strides|, count, id), strides, extents)
  }

  // The offsets of all updates, from the flat index tensor.
  function Offsets(indices: seq<int>, strides: seq<int>, extents: seq<int>, count: nat): (offsets: seq<int>)
    requires |strides| == |extents| && count * |strides| <= |indices|
    ensures |offsets| == count
  {
    seq(count, id requires 0 <= id < count => OffsetOf(indices, strides, extents, count, id))
  }

  lemma OneSliceFits(indices: seq<int>, extents: seq<int>, strides: seq<int>, slice: nat, count: nat, size: nat, id: nat)
    requires id < count && slice > 0 && count * |extents| <= |indices| && size == Volume(extents) * slice
    requires strides == Scaled(RowMajor(extents), slice) && NonNegative(extents)
    ensures var at := OffsetOf(indices, strides, extents, count, id); 0 <= at && at + slice <= size <==> Positive(extents)
  {
    SliceInside(IndexRow(indices, |extents|, count, id), extents, slice);
  }

  // Where an index leads along an axis: from the front, counted back from the end, or to
  // the end it fell off.
  predicate LeadsTo(index: int, extent: int, c: int) {
    && (0 <= index < extent ==> c == index)
    && (-extent <= index < 0 ==> c == extent + index)
    && (index >= extent && index >= 0 ==> c == extent - 1)
    && (index < -extent && index < 0 ==> c == 0)
  }

  // An update goes to the coordinates its indices lead to.
  lemma UpdateGoesTo(indices: seq<int>, strides: seq<int>, extents: seq<int>, count: nat, id: nat, c: seq<int>)
    requires |strides| == |extents| == |c| && count * |strides| <= |indices| && id < count
    requires forall k :: 0 <= k < |c| ==> LeadsTo(IndexRow(indices, |strides|, count, id)[k], extents[k], c[k])
    ensures Offsets(indices, strides, extents, count)[id] == Dot(c, strides)
  {
    assert Clamped(IndexRow(indices, |strides|, count, id), extents) == c;
  }

  // Element x of that slice of the output is element x of the update, unless a later one
  // goes over it.
  lemma ScatterReaches<T>(out: seq<T>, indices: seq<int>, strides: seq<int>, extents: seq<int>, updates: seq<T>,
                          slice: nat, count: nat, id: nat, c: seq<int>, x: nat, at: nat, p: nat, offsets: seq<int>)
    requires |strides| == |extents| == |c| && count * |strides| <= |indices| && id < count && x < slice
    requires forall k :: 0 <= k < |c| ==> LeadsTo(IndexRow(indices, |strides|, count, id)[k], extents[k], c[k])
    requires offsets == Offsets(indices, strides, extents, count) && Fits(offsets, slice, |out|) && count * slice <= |updates|
    requires at == Dot(c, strides) + x && p == id * slice + x
    requires forall j :: id < j < count ==> !(offsets[j] <= at < offsets[j] + slice)
    ensures at < |out| && p < |updates| && Scattered(out, offsets, updates, slice, count)[at] == updates[p]
  {
    UpdateGoesTo(indices, strides, extents, count, id, c);
    ScatterHolds(out, offsets, updates, slice, count, id, x, p, at);
  }

  // In a row-major output every index tensor's slices land inside, or none's do: it turns
  // on whether an indexed axis is empty.
  lemma EverySliceFits(indices: seq<int>, extents: seq<int>, strides: seq<int>, slice: nat, count: nat, size: nat)
    requires count > 0 && slice > 0 && count * |extents| <= |indices| && size == Volume(extents) * slice
    requires strides == Scaled(RowMajor(extents), slice) && NonNegative(extents)
    ensures Fits(Offsets(indices, strides, extents, count), slice, size) <==> Positive(extents)
  {
    var offsets := Offsets(indices, strides, extents, count);
    forall id | 0 <= id < count ensures 0 <= offsets[id] && offsets[id] + slice <= size <==> Positive(extents) {
      OneSliceFits(indices, extents, strides, slice, count, size, id);
    }
    if Fits(offsets, slice, size) {
      assert 0 <= offsets[0] && offsets[0] + slice <= size;
    }
  }

  // One update into an axis of extent 0 would go in front of the output.
  lemma EmptyAxisMisses()
    ensures Offsets([0], [1], [0], 1) == [-1] && !Fits(Offsets([0], [1], [0], 1), 1, 0)
  {
    UpdateInside(1, 1, 1, 0);
    assert [0][0..1] == [0];
    assert Clamped([0], [0]) == [-1];
    assert Dot([-1], [1]) == -1 * 1 + Dot([], []);
  }

  method LocateSlice(index: seq<int>, strides: seq<int>, extents: seq<int>) returns (offset: int)
    requires |index| == |strides| == |extents|
    ensures offset == SliceOffset(index, strides, extents)
  {
    offset := 0;
    var k := 0;
    while k < |index|
      invariant 0 <= k <= |index|
      invariant offset + SliceOffset(index[k..], strides[k..], extents[k..]) == SliceOffset(index, strides, extents)
    {
      var at := index[k];
      if at >= 0 {
        if at >= extents[k] {
          at := extents[k] - 1;
        }
      } else {
        at := if at < -extents[k] then 0 else at + extents[k];
      }
      assert Clamped(index[k..], extents[k..])[1..] == Clamped(index[k + 1..], extents[k + 1..]);
      assert strides[k..][1..] == strides[k + 1..];
      offset := offset + at * strides[k];
      k := k + 1;
    }
  }

  method CopySlice<T>(out: array<T>, at: nat, updates: array<T>, from: nat, slice: nat)
    requires at + slice <= out.Length && from + slice <= updates.Length && out != updates
    modifies out
    ensures out[..] == Put(old(out[..]), at, updates[from..from + slice])
  {
    var x := 0;
    while x < slice
      invariant 0 <= x <= slice
      invariant unchanged(updates)
      invariant forall p :: 0 <= p < out.Length ==>
        out[p] == if at <= p < at + x then updates[from + (p - at)] else old(out[p])
    {
      out[at + x] := updates[from + x];
      x := x + 1;
    }
  }

  method ScatterSlice<T>(out: array<T>, count: nat, indices: seq<int>, strides: seq<int>, extents: seq<int>, updates: array<T>, slice: nat, id: nat)
    requires |strides| == |extents| && count * |strides| <= |indices| && count * slice <= updates.Length && out != updates
    requires id < count && Fits(Offsets(indices, strides, extents, count), slice, out.Length)
    modifies out
    ensures (id + 1) * slice <= updates.Length
    ensures out[..] == Put(old(out[..]), Offsets(indices, strides, extents, count)[id], Update(updates[..], slice, id))
  {
    UpdateInside(|indices|, |strides|, count, id);
    UpdateInside(updates.Length, slice, count, id);
    var offset := LocateSlice(indices[id * |strides|..id * |strides| + |strides|], strides, extents);
    assert offset == Offsets(indices, strides, extents, count)[id];
    assert updates[id * slice..id * slice + slice] == Update(updates[..], slice, id);
    CopySlice(out, offset, updates, id * slice, slice);
  }

  method ScatterSlices<T>(out: array<T>, count: nat, indices: seq<int>, strides: seq<int>, extents: seq<int>, updates: array<T>, slice: nat)
    requires |strides| == |extents| && count * |strides| <= |indices| && count * slice <= updates.Length && out != updates
    requires Fits(Offsets(indices, strides, extents, count), slice, out.Length)
    modifies out
    ensures out[..] == Scattered(old(out[..]), Offsets(indices, strides, extents, count), updates[..], slice, count)
  {
    ghost var offsets, before, ups := Offsets(indices, strides, extents, count), out[..], updates[..];
    var id := 0;
    while id < count
      invariant 0 <= id <= count
      invariant unchanged(updates)
      invariant out[..] == Scattered(before, offsets, ups, slice, id)
    {
      ScatterSlice(out, count, indices, strides, extents, updates, slice, id);
      id := id + 1;
    }
  }

  method ScatterND<T>(out: array<T>, count: nat, indices: seq<int>, lastDim: int, countsAndDims: seq<int>, updates: array<T>, slice: nat)
    returns (handled: bool)
    requires 0 < lastDim <= 8 ==>
      && |countsAndDims| == 2 * lastDim && count * lastDim <= |indices| && count * slice <= updates.Length && out != updates
      && Fits(Offsets(indices, countsAndDims[..lastDim], countsAndDims[lastDim..], count), slice, out.Length)
    modifies out
    ensures handled <==> 0 < lastDim <= 8
    ensures !handled ==> out[..] == old(out[..])
    ensures handled ==>
      out[..] == Scattered(old(out[..]), Offsets(indices, countsAndDims[..lastDim], countsAndDims[lastDim..], count), updates[..], slice, count)
  {
    if lastDim <= 0 || lastDim > 8 {
      return false;
    }
    ScatterSlices(out, count, indices, countsAndDims[..lastDim], countsAndDims[lastDim..], updates, slice);
    return true;
  }

  // ---- scatter, then gather --------------------------------------------------------------------

  // The indices name different rows, all of which exist.
  ghost predicate DistinctRows(indices: seq<int>, extent: int) {
    && (forall k :: 0 <= k < |indices| ==> -extent <= indices[k] < extent)
    && forall j, k :: 0 <= j < k < |indices| ==> Normal(indices[j], extent) != Normal(indices[k], extent)
  }

  lemma RowOffset(indices: seq<int>, extent: int, slice: nat, k: nat)
    requires k < |indices| && DistinctRows(indices, extent)
    ensures Offsets(indices, [slice], [extent], |indices|)[k] == Normal(indices[k], extent) * slice
  {
    var index := indices[k..k + 1];
    assert index == [indices[k]];
    assert Clamped(index, [extent]) == [Normal(indices[k], extent)];
    assert Dot([Normal(indices[k], extent)], [slice]) == Normal(indices[k], extent) * slice + Dot([], []);
  }

  // Each row's slice starts at a whole number of slices.
  ghost predicate RowOffsets(offsets: seq<int>, indices: seq<int>, extent: int, slice: nat) {
    |offsets| == |indices| && forall k :: 0 <= k < |offsets| ==> offsets[k] == Normal(indices[k], extent) * slice
  }

  lemma RowsFit(indices: seq<int>, extent: nat, slice: nat, size: nat, offsets: seq<int>)
    requires DistinctRows(indices, extent) && size == extent * slice && offsets == Offsets(indices, [slice], [extent], |indices|)
    ensures RowOffsets(offsets, indices, extent, slice) && Fits(offsets, slice, size)
  {
    forall k | 0 <= k < |indices|
      ensures offsets[k] == Normal(indices[k], extent) * slice && 0 <= offsets[k] && offsets[k] + slice <= size
    {
      RowOffset(indices, extent, slice, k);
      UpdateInside(size, slice, extent, Normal(indices[k], extent));
    }
  }

  lemma RowsApart(i: nat, j: nat, slice: nat, x: nat)
    requires i != j && x < slice
    ensures !(i * slice <= j * slice + x < i * slice + slice)
  {
    if i * slice <= j * slice + x < i * slice + slice {
      Unique(j * slice + x, slice, j, x);
      Unique(j * slice + x, slice, i, j * slice + x - i * slice);
    }
  }

  lemma OffsetsApart(indices: seq<int>, extent: int, slice: nat, offsets: seq<int>, i: nat, k: nat, x: nat)
    requires DistinctRows(indices, extent) && k < i < |indices| && x < slice
    requires RowOffsets(offsets, indices, extent, slice)
    ensures !(offsets[i] <= offsets[k] + x < offsets[i] + slice)
  {
    RowsApart(Normal(indices[i], extent), Normal(indices[k], extent), slice, x);
  }

  // Scattering rows puts row k of the updates at the row its index names.
  lemma RowHolds<T>(out: seq<T>, indices: seq<int>, updates: seq<T>, extent: nat, slice: nat, offsets: seq<int>,
                    k: nat, x: nat, p: nat, at: int)
    requires DistinctRows(indices, extent) && |updates| == |indices| * slice && k < |indices| && x < slice
    requires RowOffsets(offsets, indices, extent, slice) && Fits(offsets, slice, |out|)
    requires p == k * slice + x && at == offsets[k] + x
    ensures p < |updates| && 0 <= at < |out|
    ensures Scattered(out, offsets, updates, slice, |indices|)[at] == updates[p]
  {
    forall i | k < i < |indices|
      ensures !(offsets[i] <= at < offsets[i] + slice)
    {
      OffsetsApart(indices, extent, slice, offsets, i, k, x);
    }
    ScatterHolds(out, offsets, updates, slice, |indices|, k, x, p, at);
  }

  function RowShape(size: nat, extent: nat, slice: nat, count: nat): GatherShape {
    GatherShape(size, extent, slice, count)
  }

  lemma FirstItem(rows: int, r: int, inner: int, x: int)
    ensures Compose(0, rows, r, inner, x) == r * inner + x
  {
  }

  lemma RowsReadable(indices: seq<int>, size: nat, extent: nat, slice: nat, n: nat)
    requires size == extent * slice && n == |indices| * slice
    ensures GatherReads(RowShape(size, extent, slice, |indices|), indices, n, size)
  {
    GatherInside(1, RowShape(size, extent, slice, |indices|), indices, size, n);
  }

  // Gathering from a single item.
  lemma GatherRow<T>(indices: seq<int>, input: seq<T>, extent: nat, slice: nat, zero: T, n: nat, k: nat, x: nat, p: nat, at: nat)
    requires |input| == extent * slice && n == |indices| * slice && k < |indices| && x < slice
    requires 0 <= Normal(indices[k], extent) < extent
    requires p == k * slice + x && at == Normal(indices[k], extent) * slice + x && p < n && at < |input|
    requires GatherReads(RowShape(|input|, extent, slice, |indices|), indices, n, |input|)
    ensures GatheredAxis(RowShape(|input|, extent, slice, |indices|), indices, input, zero, n)[p] == input[at]
  {
    FirstItem(|indices|, k, slice, x);
    FirstItem(extent, Normal(indices[k], extent), slice, x);
    GatherMeans(1, RowShape(|input|, extent, slice, |indices|), indices, input, zero, 0, k, x, n);
  }

  lemma ReadBack<T>(out: seq<T>, indices: seq<int>, updates: seq<T>, extent: nat, slice: nat, zero: T, offsets: seq<int>, scattered: seq<T>,
                    k: nat, x: nat, p: nat)
    requires DistinctRows(indices, extent) && k < |indices| && x < slice && p == k * slice + x
    requires |out| == extent * slice && |updates| == |indices| * slice
    requires RowOffsets(offsets, indices, extent, slice) && Fits(offsets, slice, |out|)
    requires scattered == Scattered(out, offsets, updates, slice, |indices|)
    requires GatherReads(RowShape(|out|, extent, slice, |indices|), indices, |updates|, |out|)
    ensures p < |updates|
    ensures GatheredAxis(RowShape(|out|, extent, slice, |indices|), indices, scattered, zero, |updates|)[p] == updates[p]
  {
    var at := offsets[k] + x;
    RowHolds(out, indices, updates, extent, slice, offsets, k, x, p, at);
    GatherRow(indices, scattered, extent, slice, zero, |updates|, k, x, p, at);
  }

  lemma RowsReadBack<T>(out: seq<T>, indices: seq<int>, updates: seq<T>, extent: nat, slice: nat, zero: T, offsets: seq<int>)
    requires DistinctRows(indices, extent) && |out| == extent * slice && |updates| == |indices| * slice
    requires RowOffsets(offsets, indices, extent, slice) && Fits(offsets, slice, |out|)
    ensures GatherReads(RowShape(|out|, extent, slice, |indices|), indices, |updates|, |out|)
    ensures GatheredAxis(RowShape(|out|, extent, slice, |indices|), indices,
                         Scattered(out, offsets, updates, slice, |indices|), zero, |updates|) == updates
  {
    RowsReadable(indices, |out|, extent, slice, |updates|);
    var scattered := Scattered(out, offsets, updates, slice, |indices|);
    var read := GatheredAxis(RowShape(|out|, extent, slice, |indices|), indices, scattered, zero, |updates|);
    forall p | 0 <= p < |updates|
      ensures read[p] == updates[p]
    {
      assert slice > 0;
      Leading(p, |indices|, slice);
      Rebuild(p, slice);
      ReadBack(out, indices, updates, extent, slice, zero, offsets, scattered, p / slice, p % slice, p);
    }
  }

  // Scattering rows and gathering them by the same indices reads back the updates.
  lemma ScatterThenGather<T>(out: seq<T>, indices: seq<int>, updates: seq<T>, extent: nat, slice: nat, zero: T, offsets: seq<int>)
    requires DistinctRows(indices, extent) && |out| == extent * slice && |updates| == |indices| * slice
    requires offsets == Offsets(indices, [slice], [extent], |indices|)
    ensures Fits(offsets, slice, |out|) && GatherReads(RowShape(|out|, extent, slice, |indices|), indices, |updates|, |out|)
    ensures GatheredAxis(RowShape(|out|, extent, slice, |indices|), indices,
                         Scattered(out, offsets, updates, slice, |indices|), zero, |updates|) == updates
  {
    RowsFit(indices, extent, slice, |out|, offsets);
    RowsReadBack(out, indices, updates, extent, slice, zero, offsets);
  }

  // ---- ... along any number of axes ----

  function NormalRow(index: seq<int>, extents: seq<int>): (c: seq<int>)
    requires |index| == |extents|
    ensures |c| == |index| && forall k :: 0 <= k < |c| ==> c[k] == Normal(index[k], extents[k])
  {
    seq(|index|, k requires 0 <= k < |index| => Normal(index[k], extents[k]))
  }

  // The coordinates that update id goes to.
  function Target(indices: seq<int>, extents: seq<int>, count: nat, id: nat): (c: seq<int>)
    requires count * |extents| <= |indices| && id < count
    ensures |c| == |extents|
  {
    NormalRow(IndexRow(indices, |extents|, count, id), extents)
  }

  // The updates go to different coordinates, all of which exist.
  ghost predicate DistinctTargets(indices: seq<int>, extents: seq<int>, count: nat)
    requires count * |extents| <= |indices|
  {
    && (forall id :: 0 <= id < count ==> InShape(extents, Target(indices, extents, count, id)))
    && forall j, k :: 0 <= j < k < count ==> Target(indices, extents, count, j) != Target(indices, extents, count, k)
  }

  // The same as rows of the axes taken together.
  function Rows(indices: seq<int>, extents: seq<int>, count: nat): (rows: seq<int>)
    requires count * |extents| <= |indices|
    ensures |rows| == count
  {
    seq(count, id requires 0 <= id < count => Flat(extents, Target(indices, extents, count, id)))
  }

  // Different coordinates have different flat positions.
  lemma FlatApart(dims: seq<int>, c: seq<int>, d: seq<int>)
    requires InShape(dims, c) && InShape(dims, d) && c != d
    ensures Flat(dims, c) != Flat(dims, d)
  {
    FlatWalk(dims, c);
    FlatWalk(dims, d);
  }

  lemma TargetsAreRows(indices: seq<int>, extents: seq<int>, count: nat, volume: nat)
    requires count * |extents| <= |indices| && DistinctTargets(indices, extents, count) && volume == Volume(extents)
    ensures DistinctRows(Rows(indices, extents, count), volume)
  {
    var rows := Rows(indices, extents, count);
    forall k | 0 <= k < count ensures 0 <= rows[k] < volume {
      FlatBelow(extents, Target(indices, extents, count, k));
    }
    forall j, k | 0 <= j < k < count ensures rows[j] != rows[k] {
      FlatApart(extents, Target(indices, extents, count, j), Target(indices, extents, count, k));
    }
  }

  // No clamping is needed.
  lemma RowOffsetOf(index: seq<int>, extents: seq<int>, slice: nat)
    requires |index| == |extents| && InShape(extents, NormalRow(index, extents))
    ensures SliceOffset(index, Scaled(RowMajor(extents), slice), extents) == Flat(extents, NormalRow(index, extents)) * slice
  {
    var c := NormalRow(index, extents);
    forall k | 0 <= k < |index| ensures Clamp(index[k], extents[k]) == c[k] {
      assert 0 <= c[k] < extents[k];
    }
    assert Clamped(index, extents) == c;
    RowMajorOffset(index, extents, slice);
  }

  // An update's slice starts at its row.
  lemma TargetOffset(indices: seq<int>, extents: seq<int>, strides: seq<int>, slice: nat, count: nat, id: nat)
    requires count * |extents| <= |indices| && id < count && strides == Scaled(RowMajor(extents), slice)
    requires InShape(extents, Target(indices, extents, count, id))
    ensures OffsetOf(indices, strides, extents, count, id) == Flat(extents, Target(indices, extents, count, id)) * slice
  {
    RowOffsetOf(IndexRow(indices, |extents|, count, id), extents, slice);
  }

  lemma TargetsFit(indices: seq<int>, extents: seq<int>, strides: seq<int>, slice: nat, count: nat, volume: nat, size: nat)
    requires count * |extents| <= |indices| && DistinctTargets(indices, extents, count)
    requires strides == Scaled(RowMajor(extents), slice) && volume == Volume(extents) && size == volume * slice
    ensures RowOffsets(Offsets(indices, strides, extents, count), Rows(indices, extents, count), volume, slice)
    ensures Fits(Offsets(indices, strides, extents, count), slice, size)
  {
    var offsets, rows := Offsets(indices, strides, extents, count), Rows(indices, extents, count);
    TargetsAreRows(indices, extents, count, volume);
    forall k | 0 <= k < count
      ensures offsets[k] == Normal(rows[k], volume) * slice && 0 <= offsets[k] && offsets[k] + slice <= size
    {
      TargetOffset(indices, extents, strides, slice, count, k);
      FlatBelow(extents, Target(indices, extents, count, k));
      UpdateInside(size, slice, volume, rows[k]);
    }
  }

  // Scattering along any number of axes of a row-major output, and gathering the rows
  // that the index tensor names, reads back the updates.
  lemma ScatterThenGatherRows<T>(out: seq<T>, indices: seq<int>, extents: seq<int>, strides: seq<int>, updates: seq<T>,
                                 slice: nat, count: nat, volume: nat, zero: T, offsets: seq<int>, rows: seq<int>)
    requires count * |extents| <= |indices| && DistinctTargets(indices, extents, count)
    requires strides == Scaled(RowMajor(extents), slice) && volume == Volume(extents)
    requires |out| == volume * slice && |updates| == count * slice
    requires offsets == Offsets(indices, strides, extents, count) && rows == Rows(indices, extents, count)
    ensures Fits(offsets, slice, |out|) && GatherReads(RowShape(|out|, volume, slice, count), rows, |updates|, |out|)
    ensures GatheredAxis(RowShape(|out|, volume, slice, count), rows,
                         Scattered(out, offsets, updates, slice, count), zero, |updates|) == updates
  {
    TargetsAreRows(indices, extents, count, volume);
    TargetsFit(indices, extents, strides, slice, count, volume, |out|);
    RowsReadBack(out, rows, updates, volume, slice, zero, offsets);
  }
}
