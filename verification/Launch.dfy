// Launching a kernel: its arguments are copied out of guest memory, and the words its
// signature says are device addresses become host addresses on the way.
module Launch {
  import opened Bytes
  import opened GuestMemory
  import opened Arena

  // ---- the table of kernels ----

  // What a kernel's signature says: how many arguments, which of them are device
  // addresses, and which are arrays of them passed by value.
  datatype Row = Row(key: string, nargs: nat, ptrs: set<nat>, arrays: set<nat>)
  {
    predicate Sane() {
      && 0 < nargs <= 10 && ptrs !! arrays
      && (forall i :: i in ptrs + arrays ==> i < nargs)
    }
  }

  const KERNELS: seq<Row> := [
    Row("_UnaryElementWiseI", 4, {0, 1}, {}),
    Row("_BinaryElementWiseSimpleI", 5, {0, 1, 2}, {}),
    Row("_BinaryElementWiseRhsPerChannelBatch1I", 6, {0, 1, 3}, {}),
    Row("_BinaryElementWiseRhsPerChannelBatchNI", 7, {0, 1, 4}, {}),
    Row("_BinaryElementWiseI", 9, {2, 4, 6, 7}, {}),
    Row("_TenaryElementWiseI", 10, {2, 4, 6, 8}, {}),
    Row("ExpandKernel2DI", 6, {1, 2}, {}),
    Row("ExpandKernelI", 6, {2, 3}, {}),
    Row("_GatherKernelI", 9, {4, 6, 7}, {}),
    Row("_ConcatKernelSameConcatDimI", 6, {3}, {4}),
    Row("_ConcatKernelI", 8, {2, 3, 4, 5, 6}, {}),
    Row("_SplitKernelSameSplitDimI", 7, {4}, {5}),
    Row("_SliceKernelI", 7, {4, 5}, {}),
    Row("TransposeKernelI", 6, {2, 4}, {}),
    Row("_ScatterNDKernelI", 7, {0, 2, 4, 5}, {}),
    Row("_FillFromDataPtrKernelI", 3, {0, 1}, {}),
    Row("_FillI", 3, {0}, {}),
    Row("RangeKernelI", 4, {3}, {}),
    Row("reduce_matrix_columns_kernelI", 6, {2, 3, 4, 5}, {}),
    Row("softmax_warp_forwardI", 5, {0, 1}, {})
  ]

  lemma TableIsSane(i: nat)
    requires i < |KERNELS|
    ensures KERNELS[i].Sane()
  {
  }

  predicate OccursAt(key: string, name: string, i: nat) {
    i + |key| <= |name| && name[i..i + |key|] == key
  }

  predicate Occurs(key: string, name: string) {
    exists i :: 0 <= i <= |name| && OccursAt(key, name, i)
  }

  // The row a name is served by: the first whose key is somewhere in it.
  ghost predicate Serves(name: string, i: int) {
    && 0 <= i < |KERNELS| && Occurs(KERNELS[i].key, name)
    && forall j :: 0 <= j < i ==> !Occurs(KERNELS[j].key, name)
  }

  method KernelLayout(name: string) returns (nargs: nat, ptrs: set<nat>, arrays: set<nat>, ghost row: int)
    ensures nargs == 0 ==> ptrs == {} && arrays == {} && forall i :: !Serves(name, i)
    ensures nargs > 0 ==> Serves(name, row) && KERNELS[row] == Row(KERNELS[row].key, nargs, ptrs, arrays)
    ensures nargs > 0 ==> KERNELS[row].Sane()
  {
    for i := 0 to |KERNELS|
      invariant forall j :: 0 <= j < i ==> !Occurs(KERNELS[j].key, name)
    {
      if Occurs(KERNELS[i].key, name) {
        TableIsSane(i);
        return KERNELS[i].nargs, KERNELS[i].ptrs, KERNELS[i].arrays, i;
      }
    }
    return 0, {}, {}, -1;
  }

  // ---- reading as much as is there ----

  // How many of the bytes from addr on are mapped, up to want, until the first that is
  // not.
  function MappedFor(m: Memory, addr: nat, want: nat): (n: nat)
    requires addr < U64
    ensures n <= want
    decreases want
  {
    if want == 0 || !m.Mapped(addr) then 0 else 1 + MappedFor(m, Plus(addr, 1), want - 1)
  }

  // The mapped stretch is exactly what can be read.
  lemma {:induction false} MappedIsReadable(m: Memory, addr: nat, want: nat, n: nat)
    requires addr < U64 && n <= want
    ensures m.Bytes(addr, n).Some? <==> n <= MappedFor(m, addr, want)
    decreases want
  {
    if n > 0 && m.Mapped(addr) {
      MappedIsReadable(m, Plus(addr, 1), want - 1, n - 1);
    }
  }

  lemma {:induction false} MappedSplits(m: Memory, addr: nat, a: nat, b: nat)
    requires addr < U64 && a <= U64 && m.Bytes(addr, a).Some?
    ensures MappedFor(m, addr, a + b) == a + MappedFor(m, Plus(addr, a), b)
    decreases a
  {
    if a > 0 {
      MappedSplits(m, Plus(addr, 1), a - 1, b);
      assert Plus(Plus(addr, 1), a - 1) == Plus(addr, a);
    }
  }

  // memcpy into dst from offset at on.
  method Store(dst: array<byte>, at: nat, bytes: seq<byte>)
    requires at + |bytes| <= dst.Length
    modifies dst
    ensures dst[at..at + |bytes|] == bytes
    ensures forall j :: 0 <= j < |bytes| ==> dst[at + j] == bytes[j]
    ensures forall j :: 0 <= j < dst.Length && !(at <= j < at + |bytes|) ==> dst[j] == old(dst[j])
  {
    forall j | 0 <= j < |bytes| {
      dst[at + j] := bytes[j];
    }
  }

  // One page's worth more.
  lemma PageAdds(m: Memory, addr: nat, done: nat, n: nat, got: seq<byte>) returns (more: seq<byte>)
    requires addr < U64 && done + n <= U64 && m.Bytes(addr, done) == Some(got) && n > 0
    requires Plus(addr, done) % PAGE + n <= PAGE && m.Mapped(Plus(addr, done))
    ensures var from := Plus(addr, done);
      more == m.PageAt(from / PAGE)[from % PAGE..from % PAGE + n]
    ensures |more| == n && m.Bytes(addr, done + n) == Some(got + more)
  {
    var from := Plus(addr, done);
    OnePage(m, from, n);
    BytesSplit(m, addr, done, n);
    more := m.PageAt(from / PAGE)[from % PAGE..from % PAGE + n];
  }

  // The n bytes of a page that come next.
  method ReadPage(m: Memory, addr: nat, dst: array<byte>, at: nat, done: nat, n: nat, ghost got: seq<byte>)
    returns (ghost all: seq<byte>)
    requires addr < U64 && done + n <= U64 && n > 0 && at + done + n <= dst.Length
    requires Plus(addr, done) % PAGE + n <= PAGE && m.Mapped(Plus(addr, done))
    requires got == dst[at..at + done] && m.Bytes(addr, done) == Some(got)
    modifies dst
    ensures all == dst[at..at + (done + n)] && m.Bytes(addr, done + n) == Some(all)
    ensures forall j :: 0 <= j < dst.Length && !(at + done <= j < at + (done + n)) ==> dst[j] == old(dst[j])
  {
    var from := Plus(addr, done);
    var off := from % PAGE;
    ghost var more := PageAdds(m, addr, done, n, got);
    Store(dst, at + done, m.PageAt(from / PAGE)[off..off + n]);
    all := got + more;
    assert forall j :: 0 <= j < done ==> dst[at + j] == got[j];
    assert all == dst[at..at + (done + n)];
  }

  // Copies guest bytes into dst from offset at on, as many as are mapped.
  method GuestReadTolerant(m: Memory, addr: nat, dst: array<byte>, at: nat, want: nat) returns (done: nat)
    requires addr < U64 && want <= U64 && at + want <= dst.Length
    modifies dst
    ensures done == MappedFor(m, addr, want)
    ensures m.Bytes(addr, done) == Some(dst[at..at + done])
    ensures forall j :: 0 <= j < dst.Length && !(at <= j < at + done) ==> dst[j] == old(dst[j])
  {
    done := 0;
    ghost var got: seq<byte> := [];
    while done < want
      invariant done <= want
      invariant got == dst[at..at + done] && m.Bytes(addr, done) == Some(got)
      invariant forall j :: 0 <= j < dst.Length && !(at <= j < at + done) ==> dst[j] == old(dst[j])
    {
      var from := Plus(addr, done);
      if !m.Mapped(from) {
        MappedSplits(m, addr, done, want - done);
        return;
      }
      var n := PageLeft(from);
      if n > want - done {
        n := want - done;
      }
      got := ReadPage(m, addr, dst, at, done, n, got);
      done := done + n;
    }
    MappedSplits(m, addr, done, 0);
  }

  // ---- what an argument's copy must hold ----

  const SLOT: int := 288
  const WORDS: int := 36

  // The guest's bytes as far as they are mapped, and zeros after; nothing for a null.
  function Got(m: Memory, p: nat): (n: nat)
    requires p < U64
    ensures n <= SLOT
  {
    if p == 0 then 0 else MappedFor(m, p, SLOT)
  }

  function RawByte(m: Memory, p: nat, j: nat): byte
    requires p < U64
  {
    if j < Got(m, p) then
      MappedIsReadable(m, p, SLOT, Got(m, p));
      m.Bytes(p, Got(m, p)).value[j]
    else
      0
  }

  function RawWord(m: Memory, p: nat, w: nat): (r: seq<byte>)
    requires p < U64
    ensures |r| == 8
  {
    var b := 8 * w;
    [RawByte(m, p, b), RawByte(m, p, b + 1), RawByte(m, p, b + 2), RawByte(m, p, b + 3),
     RawByte(m, p, b + 4), RawByte(m, p, b + 5), RawByte(m, p, b + 6), RawByte(m, p, b + 7)]
  }

  // The element count at the head of an array argument: a signed 32-bit integer, which
  // is taken to be between 0 and 32.
  function Count(head: seq<byte>): (n: nat)
    requires |head| == 8
    ensures n <= 32
  {
    var v := Value(head[..4]);
    if v >= U32 / 2 then 0 else if v > 32 then 32 else v
  }

  // Which words of a slot carry an address: the first of a pointer argument, and the
  // elements of an array argument, where all eight bytes came over.
  predicate Marked(m: Memory, p: nat, isPtr: bool, isArray: bool, w: nat)
    requires p < U64
  {
    && 8 * w + 8 <= Got(m, p)
    && ((isPtr && w == 0) || (isArray && 0 < w <= Count(RawWord(m, p, 0))))
  }

  // A device address becomes where the arena is on the host; anything else stays.
  function Translated(a: Arena, host: nat, word: seq<byte>): (r: seq<byte>)
    requires |word| == 8
    ensures |r| == 8
    ensures IsDevice(a, Value(word)) && host + a.size <= U64 ==> Value(r) == host + (Value(word) - BASE)
    ensures !IsDevice(a, Value(word)) ==> r == word
  {
    if IsDevice(a, Value(word)) then
      var v := host + (Value(word) - BASE);
      Widths();
      assert v < U64 ==> Value(Little(v, 8)) == v by { if v < U64 { LittleValue(v, 8); } }
      Little(v, 8)
    else word
  }

  function SlotWord(m: Memory, a: Arena, host: nat, p: nat, isPtr: bool, isArray: bool, w: nat): (r: seq<byte>)
    requires p < U64
    ensures |r| == 8
  {
    if Marked(m, p, isPtr, isArray, w) then Translated(a, host, RawWord(m, p, w)) else RawWord(m, p, w)
  }

  // ---- marshalling ----

  method Translate(a: Arena, host: nat, storage: array<byte>, at: nat, avail: nat)
    requires at + 8 <= storage.Length
    modifies storage
    ensures storage[..][at..at + 8] ==
      if avail < 8 then old(storage[..])[at..at + 8] else Translated(a, host, old(storage[..])[at..at + 8])
    ensures forall j :: 0 <= j < storage.Length && !(at <= j < at + 8) ==> storage[j] == old(storage[j])
  {
    if avail < 8 {
      return;
    }
    var word := Value(storage[..][at..at + 8]);
    if !IsDevice(a, word) {
      return;
    }
    var bytes := Little(host + (word - BASE), 8);
    Store(storage, at, bytes);
  }

  // The slot at an offset of the argument storage.
  ghost function Slot(storage: seq<byte>, base: nat): (r: seq<byte>)
    requires base + SLOT <= |storage|
    ensures |r| == SLOT
  {
    storage[base..base + SLOT]
  }

  // Word w of a slot: as the kernel gets it if it is before upTo, else as the guest left it.
  ghost predicate WordIs(slot: seq<byte>, m: Memory, a: Arena, host: nat, p: nat, isPtr: bool, isArray: bool, w: nat,
                         upTo: nat)
    requires p < U64
  {
    && 8 * w + 8 <= |slot|
    && slot[8 * w..8 * w + 8] == if w < upTo then SlotWord(m, a, host, p, isPtr, isArray, w) else RawWord(m, p, w)
  }

  // A slot whose words before upTo are done.
  ghost predicate SlotIs(slot: seq<byte>, m: Memory, a: Arena, host: nat, p: nat, isPtr: bool, isArray: bool, upTo: nat)
    requires p < U64
  {
    |slot| == SLOT && forall w :: 0 <= w < WORDS ==> WordIs(slot, m, a, host, p, isPtr, isArray, w, upTo)
  }

  lemma CopiedByte(slot: seq<byte>, m: Memory, p: nat, j: nat)
    requires p < U64 && |slot| == SLOT && j < SLOT
    requires Got(m, p) > 0 ==> m.Bytes(p, Got(m, p)) == Some(slot[..Got(m, p)])
    requires forall j :: Got(m, p) <= j < SLOT ==> slot[j] == 0
    ensures slot[j] == RawByte(m, p, j)
  {
  }

  lemma EightBytes(s: seq<byte>, b: nat)
    requires b + 8 <= |s|
    ensures s[b..b + 8] == [s[b], s[b + 1], s[b + 2], s[b + 3], s[b + 4], s[b + 5], s[b + 6], s[b + 7]]
  {
  }

  // A freshly copied argument.
  lemma CopiedIn(slot: seq<byte>, m: Memory, a: Arena, host: nat, p: nat, isPtr: bool, isArray: bool)
    requires p < U64 && |slot| == SLOT
    requires Got(m, p) > 0 ==> m.Bytes(p, Got(m, p)) == Some(slot[..Got(m, p)])
    requires forall j :: Got(m, p) <= j < SLOT ==> slot[j] == 0
    ensures SlotIs(slot, m, a, host, p, isPtr, isArray, 0)
  {
    forall j | 0 <= j < SLOT ensures slot[j] == RawByte(m, p, j) {
      CopiedByte(slot, m, p, j);
    }
    forall w | 0 <= w < WORDS ensures WordIs(slot, m, a, host, p, isPtr, isArray, w, 0) {
      EightBytes(slot, 8 * w);
    }
  }

  // Changes to a word of a slot, seen from the slot.
  lemma WithinSlot(was: seq<byte>, now: seq<byte>, base: nat, x: nat, at: nat)
    returns (slot: seq<byte>, next: seq<byte>)
    requires |was| == |now| && base + SLOT <= |was| && x + 8 <= SLOT && at == base + x
    requires forall j :: 0 <= j < |was| && !(at <= j < at + 8) ==> now[j] == was[j]
    ensures slot == Slot(was, base) && next == Slot(now, base)
    ensures forall j :: 0 <= j < SLOT && !(x <= j < x + 8) ==> next[j] == slot[j]
    ensures slot[x..x + 8] == was[at..at + 8] && next[x..x + 8] == now[at..at + 8]
  {
    slot, next := Slot(was, base), Slot(now, base);
    EightBytes(slot, x);
    EightBytes(was, at);
    EightBytes(next, x);
    EightBytes(now, at);
  }

  // Changing one word leaves the others.
  lemma OtherWords(slot: seq<byte>, next: seq<byte>, w: nat, x: nat)
    requires w < WORDS && |slot| == |next| == SLOT && x == 8 * w
    requires forall j :: 0 <= j < SLOT && !(x <= j < x + 8) ==> next[j] == slot[j]
    ensures forall v :: 0 <= v < WORDS && v != w ==> next[8 * v..8 * v + 8] == slot[8 * v..8 * v + 8]
  {
  }

  // Word w has been seen to.
  lemma OneMore(slot: seq<byte>, next: seq<byte>, m: Memory, a: Arena, host: nat, p: nat,
                isPtr: bool, isArray: bool, w: nat)
    requires p < U64 && w < WORDS && SlotIs(slot, m, a, host, p, isPtr, isArray, w) && |next| == SLOT
    requires forall j :: 0 <= j < SLOT && !(8 * w <= j < 8 * w + 8) ==> next[j] == slot[j]
    requires next[8 * w..8 * w + 8] ==
      if Marked(m, p, isPtr, isArray, w) then Translated(a, host, slot[8 * w..8 * w + 8]) else slot[8 * w..8 * w + 8]
    ensures SlotIs(next, m, a, host, p, isPtr, isArray, w + 1)
  {
    assert WordIs(slot, m, a, host, p, isPtr, isArray, w, w);
    OtherWords(slot, next, w, 8 * w);
    var done := w + 1;
    forall v | 0 <= v < WORDS ensures WordIs(next, m, a, host, p, isPtr, isArray, v, done) {
      assert WordIs(slot, m, a, host, p, isPtr, isArray, v, w);
    }
  }

  // What is left unmarked needs no more work.
  lemma NoneLeft(slot: seq<byte>, m: Memory, a: Arena, host: nat, p: nat, isPtr: bool, isArray: bool, upTo: nat, all: nat)
    requires p < U64 && upTo <= all && SlotIs(slot, m, a, host, p, isPtr, isArray, upTo)
    requires forall w :: upTo <= w < all ==> !Marked(m, p, isPtr, isArray, w)
    ensures SlotIs(slot, m, a, host, p, isPtr, isArray, all)
  {
    forall w | 0 <= w < WORDS ensures WordIs(slot, m, a, host, p, isPtr, isArray, w, all) {
      assert WordIs(slot, m, a, host, p, isPtr, isArray, w, upTo);
    }
  }

  // The same, in the storage.
  lemma OneMoreIn(was: seq<byte>, now: seq<byte>, base: nat, m: Memory, a: Arena, host: nat, p: nat,
                  isPtr: bool, isArray: bool, w: nat, at: nat)
    requires p < U64 && w < WORDS && base + SLOT <= |was| == |now| && at == base + 8 * w
    requires SlotIs(Slot(was, base), m, a, host, p, isPtr, isArray, w)
    requires forall j :: 0 <= j < |was| && !(at <= j < at + 8) ==> now[j] == was[j]
    requires
      now[at..at + 8] == if Marked(m, p, isPtr, isArray, w) then Translated(a, host, was[at..at + 8]) else was[at..at + 8]
    ensures SlotIs(Slot(now, base), m, a, host, p, isPtr, isArray, w + 1)
  {
    var slot, next := WithinSlot(was, now, base, 8 * w, at);
    OneMore(slot, next, m, a, host, p, isPtr, isArray, w);
  }

  // The first word of the pointer argument in the slot at base, of which got bytes came
  // over.
  method TranslatePointer(m: Memory, a: Arena, host: nat, storage: array<byte>, base: nat, p: nat, got: nat)
    requires p < U64 && base + SLOT <= storage.Length && got == Got(m, p)
    requires SlotIs(Slot(storage[..], base), m, a, host, p, true, false, 0)
    modifies storage
    ensures SlotIs(Slot(storage[..], base), m, a, host, p, true, false, WORDS)
    ensures forall j :: 0 <= j < storage.Length && !(base <= j < base + SLOT) ==> storage[j] == old(storage[j])
  {
    ghost var was := storage[..];
    Translate(a, host, storage, base, got);
    OneMoreIn(was, storage[..], base, m, a, host, p, true, false, 0, base);
    NoneLeft(Slot(storage[..], base), m, a, host, p, true, false, 1, WORDS);
  }

  method TranslateElement(m: Memory, a: Arena, host: nat, storage: array<byte>, base: nat, p: nat, got: nat, off: nat,
                          ghost k: nat)
    requires p < U64 && base + SLOT <= storage.Length && off == 8 + 8 * k && off + 8 <= got <= SLOT
    requires SlotIs(Slot(storage[..], base), m, a, host, p, false, true, k + 1) && Marked(m, p, false, true, k + 1)
    modifies storage
    ensures SlotIs(Slot(storage[..], base), m, a, host, p, false, true, k + 2)
    ensures forall j :: 0 <= j < storage.Length && !(base <= j < base + SLOT) ==> storage[j] == old(storage[j])
  {
    ghost var was := storage[..];
    var at := base + off;
    Translate(a, host, storage, at, got - off);
    OneMoreIn(was, storage[..], base, m, a, host, p, false, true, k + 1, at);
  }

  lemma HeadWord(storage: seq<byte>, base: nat, m: Memory, a: Arena, host: nat, p: nat)
    requires p < U64 && base + SLOT <= |storage| && SlotIs(Slot(storage, base), m, a, host, p, false, true, 0)
    ensures storage[base..base + 8] == RawWord(m, p, 0)
  {
    var slot, _ := WithinSlot(storage, storage, base, 0, base);
    assert WordIs(slot, m, a, host, p, false, true, 0, 0);
  }

  // The elements of the array argument in the slot at base.
  method TranslateArray(m: Memory, a: Arena, host: nat, storage: array<byte>, base: nat, p: nat, got: nat)
    requires p < U64 && base + SLOT <= storage.Length && got == Got(m, p)
    requires SlotIs(Slot(storage[..], base), m, a, host, p, false, true, 0)
    modifies storage
    ensures SlotIs(Slot(storage[..], base), m, a, host, p, false, true, WORDS)
    ensures forall j :: 0 <= j < storage.Length && !(base <= j < base + SLOT) ==> storage[j] == old(storage[j])
  {
    var count := 0;
    if got >= 4 {
      HeadWord(storage[..], base, m, a, host, p);
      count := Count(storage[base..base + 8]);
    }
    NoneLeft(Slot(storage[..], base), m, a, host, p, false, true, 0, 1);
    var k := 0;
    while k < count
      invariant 0 <= k <= count && SlotIs(Slot(storage[..], base), m, a, host, p, false, true, k + 1)
      invariant forall j :: 0 <= j < storage.Length && !(base <= j < base + SLOT) ==> storage[j] == old(storage[j])
    {
      var off := 8 + 8 * k;
      if off + 8 > got {
        break;
      }
      TranslateElement(m, a, host, storage, base, p, got, off, k);
      k := k + 1;
    }
    NoneLeft(Slot(storage[..], base), m, a, host, p, false, true, k + 1, WORDS);
  }

  lemma CopiedInto(storage: seq<byte>, base: nat, m: Memory, a: Arena, host: nat, p: nat, isPtr: bool, isArray: bool)
    requires p < U64 && base + SLOT <= |storage|
    requires Got(m, p) > 0 ==> m.Bytes(p, Got(m, p)) == Some(storage[base..base + Got(m, p)])
    requires forall j :: base + Got(m, p) <= j < base + SLOT ==> storage[j] == 0
    ensures SlotIs(Slot(storage, base), m, a, host, p, isPtr, isArray, 0)
  {
    var slot, got := Slot(storage, base), Got(m, p);
    assert slot[..got] == storage[base..base + got];
    CopiedIn(slot, m, a, host, p, isPtr, isArray);
  }

  // Fills the zeroed slot at base with the argument at p.
  method FillSlot(m: Memory, a: Arena, host: nat, storage: array<byte>, base: nat, p: nat, isPtr: bool, isArray: bool)
    requires p < U64 && base + SLOT <= storage.Length && !(isPtr && isArray)
    requires forall j :: base <= j < base + SLOT ==> storage[j] == 0
    modifies storage
    ensures SlotIs(Slot(storage[..], base), m, a, host, p, isPtr, isArray, WORDS)
    ensures forall j :: 0 <= j < storage.Length && !(base <= j < base + SLOT) ==> storage[j] == old(storage[j])
  {
    var got := 0;
    if p != 0 {
      got := GuestReadTolerant(m, p, storage, base, SLOT);
    }
    CopiedInto(storage[..], base, m, a, host, p, isPtr, isArray);
    if isPtr {
      TranslatePointer(m, a, host, storage, base, p, got);
    }
    if isArray {
      TranslateArray(m, a, host, storage, base, p, got);
    }
    if !isPtr && !isArray {
      NoneLeft(Slot(storage[..], base), m, a, host, p, isPtr, isArray, 0, WORDS);
    }
  }

  // The pointer to argument i's value; nothing when the argument list itself is not
  // mapped there.
  function ArgumentAt(m: Memory, args: nat, i: nat): (p: Option<nat>)
    requires args < U64 && i < 10
    ensures p.Some? ==> p.value < U64
  {
    match m.Bytes(Plus(args, 8 * i), 8)
    case None => None
    case Some(bs) =>
      ValueBound(bs);
      Widths();
      Some(Value(bs))
  }

  // What became of a launch: the kernel is not known, reading the argument list faulted,
  // or the kernel runs on the copied arguments.
  datatype Outcome = Unknown | Fault | Ready

  // Argument i's copy as the kernel's row says it must be.
  ghost predicate ArgumentIs(storage: seq<byte>, m: Memory, a: Arena, host: nat, args: nat, ptrs: set<nat>, arrays: set<nat>, i: nat)
    requires args < U64 && i < 10
  {
    var p := ArgumentAt(m, args, i);
    && p.Some? && SLOT * i + SLOT <= |storage|
    && SlotIs(Slot(storage, SLOT * i), m, a, host, p.value, i in ptrs, i in arrays, WORDS)
  }

  ghost predicate Marshalled(storage: seq<byte>, m: Memory, a: Arena, host: nat, args: nat, ptrs: set<nat>, arrays: set<nat>, n: nat)
    requires args < U64 && n <= 10
  {
    forall i :: 0 <= i < n ==> ArgumentIs(storage, m, a, host, args, ptrs, arrays, i)
  }

  // An argument stays as it is while later ones are filled in.
  lemma ArgumentStays(was: seq<byte>, now: seq<byte>, m: Memory, a: Arena, host: nat, args: nat, ptrs: set<nat>, arrays: set<nat>, i: nat, base: nat)
    requires args < U64 && i < 10 && ArgumentIs(was, m, a, host, args, ptrs, arrays, i) && |was| == |now|
    requires SLOT * i + SLOT <= base && forall j :: 0 <= j < base && j < |was| ==> now[j] == was[j]
    ensures ArgumentIs(now, m, a, host, args, ptrs, arrays, i)
  {
    assert Slot(now, SLOT * i) == Slot(was, SLOT * i);
  }

  lemma ArgumentFilled(now: seq<byte>, m: Memory, a: Arena, host: nat, args: nat,
                       ptrs: set<nat>, arrays: set<nat>, i: nat, base: nat)
    requires args < U64 && i < 10 && base == SLOT * i && base + SLOT <= |now| && ArgumentAt(m, args, i).Some?
    requires SlotIs(Slot(now, base), m, a, host, ArgumentAt(m, args, i).value, i in ptrs, i in arrays, WORDS)
    ensures ArgumentIs(now, m, a, host, args, ptrs, arrays, i)
  {
  }

  // One argument more.
  lemma OneArgument(was: seq<byte>, now: seq<byte>, m: Memory, a: Arena, host: nat, args: nat,
                    ptrs: set<nat>, arrays: set<nat>, i: nat, next: nat, base: nat)
    requires args < U64 && i < 10 && next == i + 1 && Marshalled(was, m, a, host, args, ptrs, arrays, i) && |was| == |now|
    requires base == SLOT * i && base + SLOT <= |was| && forall j :: 0 <= j < base ==> now[j] == was[j]
    requires ArgumentIs(now, m, a, host, args, ptrs, arrays, i)
    ensures Marshalled(now, m, a, host, args, ptrs, arrays, next)
  {
    forall k | 0 <= k < next ensures ArgumentIs(now, m, a, host, args, ptrs, arrays, k) {
      if k < i {
        assert ArgumentIs(was, m, a, host, args, ptrs, arrays, k);
        ArgumentStays(was, now, m, a, host, args, ptrs, arrays, k, base);
      }
    }
  }

  method MarshalOne(m: Memory, a: Arena, host: nat, args: nat, ptrs: set<nat>, arrays: set<nat>,
                    storage: array<byte>, i: nat, base: nat)
    requires args < U64 && ptrs !! arrays && i < 10 && base == SLOT * i && base + SLOT <= storage.Length
    requires Marshalled(storage[..], m, a, host, args, ptrs, arrays, i) && ArgumentAt(m, args, i).Some?
    requires forall j :: base <= j < storage.Length ==> storage[j] == 0
    modifies storage
    ensures Marshalled(storage[..], m, a, host, args, ptrs, arrays, i + 1)
    ensures forall j :: base + SLOT <= j < storage.Length ==> storage[j] == 0
  {
    ghost var was := storage[..];
    FillSlot(m, a, host, storage, base, ArgumentAt(m, args, i).value, i in ptrs, i in arrays);
    ArgumentFilled(storage[..], m, a, host, args, ptrs, arrays, i, base);
    OneArgument(was, storage[..], m, a, host, args, ptrs, arrays, i, i + 1, base);
  }

  // Copies the arguments the list at args points to, for the kernel of the given row.
  method Marshal(m: Memory, a: Arena, host: nat, args: nat, nargs: nat, ptrs: set<nat>, arrays: set<nat>)
    returns (ok: bool, storage: array<byte>)
    requires args < U64 && nargs <= 10 && ptrs !! arrays
    ensures storage.Length == SLOT * nargs
    ensures ok <==> forall i :: 0 <= i < nargs ==> ArgumentAt(m, args, i).Some?
    ensures ok ==> Marshalled(storage[..], m, a, host, args, ptrs, arrays, nargs)
  {
    storage := new byte[SLOT * nargs](_ => 0);
    var i := 0;
    while i < nargs
      invariant 0 <= i <= nargs && Marshalled(storage[..], m, a, host, args, ptrs, arrays, i)
      invariant forall j :: SLOT * i <= j < storage.Length ==> storage[j] == 0
    {
      var p := ReadInt(m, Plus(args, 8 * i), 8);
      if p.None? {
        assert ArgumentAt(m, args, i).None?;
        return false, storage;
      }
      MarshalOne(m, a, host, args, ptrs, arrays, storage, i, SLOT * i);
      i := i + 1;
    }
    forall k | 0 <= k < nargs ensures ArgumentAt(m, args, k).Some? {
      assert ArgumentIs(storage[..], m, a, host, args, ptrs, arrays, k);
    }
    return true, storage;
  }

  // What a kernel is handed: every argument its row says it takes.
  ghost predicate Handed(storage: seq<byte>, m: Memory, a: Arena, host: nat, args: nat, row: Row)
    requires args < U64
  {
    row.Sane() && |storage| == SLOT * row.nargs && Marshalled(storage, m, a, host, args, row.ptrs, row.arrays, row.nargs)
  }

  // cudaLaunchKernel: what the kernel is handed, if it is known.
  method Launch(m: Memory, a: Arena, host: nat, name: string, args: nat)
    returns (outcome: Outcome, storage: array<byte>, ghost row: int)
    requires args < U64
    ensures outcome == Unknown <==> forall i :: !Serves(name, i)
    ensures outcome != Unknown ==>
      && Serves(name, row)
      && (outcome == Fault <==> exists k :: 0 <= k < KERNELS[row].nargs && ArgumentAt(m, args, k).None?)
      && (outcome == Ready ==> Handed(storage[..], m, a, host, args, KERNELS[row]))
  {
    var nargs, ptrs, arrays;
    nargs, ptrs, arrays, row := KernelLayout(name);
    if nargs == 0 {
      return Unknown, new byte[0], row;
    }
    var ok;
    ok, storage := Marshal(m, a, host, args, nargs, ptrs, arrays);
    outcome := if ok then Ready else Fault;
  }

  lemma RawByteIsGuest(m: Memory, p: nat, n: nat, j: nat)
    requires 0 < p < U64 && j < n <= Got(m, p) && m.Bytes(p, n).Some?
    ensures RawByte(m, p, j) == m.Bytes(p, n).value[j]
  {
    var got := Got(m, p);
    MappedIsReadable(m, p, SLOT, got);
    var part, all := m.Bytes(p, n).value, m.Bytes(p, got).value;
    PrefixRead(m, p, n, got - n, part, all);
    assert RawByte(m, p, j) == all[j];
  }

  // The first word of an argument is what the guest reads there.
  lemma RawWordIsGuest(m: Memory, p: nat)
    requires 0 < p < U64 && m.Bytes(p, 8).Some?
    ensures Got(m, p) >= 8 && RawWord(m, p, 0) == m.Bytes(p, 8).value
  {
    MappedIsReadable(m, p, SLOT, 8);
    var first := m.Bytes(p, 8).value;
    EightBytes(first, 0);
    forall j | 0 <= j < 8 ensures RawByte(m, p, j) == first[j] {
      RawByteIsGuest(m, p, 8, j);
    }
  }

  // ---- what the kernel sees ----

  // A pointer the guest passed leads to the same byte of the arena on the host.
  lemma PointerReachesArena(slot: seq<byte>, m: Memory, a: Arena, host: nat, p: nat, v: nat)
    requires 0 < p < U64 && SlotIs(slot, m, a, host, p, true, false, WORDS)
    requires m.Bytes(p, 8).Some? && v == Value(m.Bytes(p, 8).value)
    requires IsDevice(a, v) && host + a.size <= U64
    ensures Value(slot[0..8]) == host + (v - BASE)
  {
    assert WordIs(slot, m, a, host, p, true, false, 0, WORDS);
    RawWordIsGuest(m, p);
  }

  // An element of an array argument likewise, if it is one the count covers.
  lemma ElementReachesArena(slot: seq<byte>, m: Memory, a: Arena, host: nat, p: nat, k: nat, v: nat)
    requires 0 < p < U64 && SlotIs(slot, m, a, host, p, false, true, WORDS)
    requires 8 + 8 * k + 8 <= Got(m, p) && k < Count(RawWord(m, p, 0)) && v == Value(RawWord(m, p, k + 1))
    requires IsDevice(a, v) && host + a.size <= U64
    ensures Value(slot[8 + 8 * k..8 + 8 * k + 8]) == host + (v - BASE)
  {
    assert WordIs(slot, m, a, host, p, false, true, k + 1, WORDS);
  }

  lemma RawWordAt(m: Memory, p: nat, w: nat, x: nat, j: nat)
    requires p < U64 && x < 8 && j == 8 * w + x
    ensures RawWord(m, p, w)[x] == RawByte(m, p, j)
  {
  }

  // Counts and other scalars arrive as they were, whatever they look like.
  lemma ScalarsStay(slot: seq<byte>, m: Memory, a: Arena, host: nat, p: nat, j: nat)
    requires p < U64 && SlotIs(slot, m, a, host, p, false, false, WORDS) && j < SLOT
    ensures slot[j] == RawByte(m, p, j)
  {
    var w, x := j / 8, j % 8;
    assert WordIs(slot, m, a, host, p, false, false, w, WORDS);
    RawWordAt(m, p, w, x, j);
    assert slot[j] == slot[8 * w..8 * w + 8][x];
  }
}
