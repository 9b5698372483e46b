// What a kernel finds in its arguments, in terms of the bytes the guest can read there.
module Arguments {
  import opened Bytes
  import opened GuestMemory
  import opened Arena
  import opened Launch

  // A byte of an argument is the guest's, if the guest can read up to it, and else zero.
  lemma RawByteIs(m: Memory, p: nat, j: nat)
    requires 0 < p < U64 && j < SLOT
    ensures RawByte(m, p, j) == if m.Bytes(p, j + 1).Some? then m.Bytes(p, j + 1).value[j] else 0
  {
    MappedIsReadable(m, p, SLOT, j + 1);
    if m.Bytes(p, j + 1).Some? {
      RawByteIsGuest(m, p, j + 1, j);
    }
  }

  lemma RawWordIs(m: Memory, p: nat, w: nat, n: nat, bytes: seq<byte>)
    requires 0 < p < U64 && w < WORDS && 8 * w + 8 <= n <= SLOT && m.Bytes(p, n) == Some(bytes)
    ensures n <= Got(m, p) && RawWord(m, p, w) == bytes[8 * w..8 * w + 8]
  {
    MappedIsReadable(m, p, SLOT, n);
    EightBytes(bytes, 8 * w);
    var b := 8 * w;
    forall j | b <= j < b + 8 ensures RawByte(m, p, j) == bytes[j] {
      RawByteIsGuest(m, p, n, j);
    }
  }

  // The count of an array argument, as the signed integer its first four bytes are.
  predicate Counts(bytes: seq<byte>, c: int)
    requires |bytes| >= 4
  {
    var v := (bytes[0] as int) + 0x100 * (bytes[1] as int) + 0x1_0000 * (bytes[2] as int) + 0x100_0000 * (bytes[3] as int);
    c == if v < 0x8000_0000 then v else v - 0x1_0000_0000
  }

  lemma CountIs(head: seq<byte>, c: int)
    requires |head| == 8 && Counts(head, c)
    ensures Count(head) == if c < 0 then 0 else if c > 32 then 32 else c
  {
    ValueOfFour(head[..4]);
  }

  // Word w of a slot, at byte `at`.
  lemma WordArrives(slot: seq<byte>, m: Memory, a: Arena, host: nat, p: nat, w: nat, at: nat, raw: seq<byte>)
    requires 0 < p < U64 && SlotIs(slot, m, a, host, p, false, true, WORDS) && w < WORDS && at == 8 * w && raw == RawWord(m, p, w)
    ensures slot[at..at + 8] == if Marked(m, p, false, true, w) then Translated(a, host, raw) else raw
  {
    assert WordIs(slot, m, a, host, p, false, true, w, WORDS);
  }

  // Which elements are marked, in terms of the count.
  lemma MarkedIs(m: Memory, p: nat, c: int, k: nat, n: nat, bytes: seq<byte>)
    requires 0 < p < U64 && n == 8 + 8 * k + 8 && n <= SLOT && m.Bytes(p, n) == Some(bytes) && Counts(bytes, c)
    ensures Marked(m, p, false, true, k + 1) <==> k < c && k < 32
  {
    RawWordIs(m, p, 0, n, bytes);
    CountIs(bytes[0..8], c);
    MappedIsReadable(m, p, SLOT, n);
  }

  // Element k of an array argument that came over whole: a device address becomes that of
  // the same byte on the host if k is below the count, and below 32; anything else is what
  // the guest left.
  lemma ElementArrives(slot: seq<byte>, m: Memory, a: Arena, host: nat, p: nat, c: int, k: nat, at: nat, n: nat,
                       bytes: seq<byte>, v: nat)
    requires 0 < p < U64 && SlotIs(slot, m, a, host, p, false, true, WORDS) && host + a.size <= U64
    requires at == 8 + 8 * k && n == at + 8 && n <= SLOT && m.Bytes(p, n) == Some(bytes)
    requires Counts(bytes, c) && v == Value(bytes[at..n])
    ensures k < c && k < 32 && a.size != 0 && BASE <= v < BASE + a.size ==> Value(slot[at..n]) == host + (v - BASE)
    ensures !(k < c && k < 32 && a.size != 0 && BASE <= v < BASE + a.size) ==> slot[at..n] == bytes[at..n]
  {
    RawWordIs(m, p, k + 1, n, bytes);
    MarkedIs(m, p, c, k, n, bytes);
    WordArrives(slot, m, a, host, p, k + 1, at, bytes[at..n]);
  }

  // The count itself arrives as it was.
  lemma CountArrives(slot: seq<byte>, m: Memory, a: Arena, host: nat, p: nat, bytes: seq<byte>)
    requires 0 < p < U64 && SlotIs(slot, m, a, host, p, false, true, WORDS) && m.Bytes(p, 8) == Some(bytes)
    ensures slot[0..8] == bytes
  {
    RawWordIs(m, p, 0, 8, bytes);
    WordArrives(slot, m, a, host, p, 0, 0, RawWord(m, p, 0));
  }

  // A word that did not come over whole is as much of it as did.
  lemma BrokenWordArrives(slot: seq<byte>, m: Memory, a: Arena, host: nat, p: nat, w: nat, at: nat, j: nat)
    requires 0 < p < U64 && SlotIs(slot, m, a, host, p, false, true, WORDS) && w < WORDS && at == 8 * w
    requires m.Bytes(p, at + 8).None? && at <= j < at + 8
    ensures slot[j] == if m.Bytes(p, j + 1).Some? then m.Bytes(p, j + 1).value[j] else 0
  {
    MappedIsReadable(m, p, SLOT, at + 8);
    var raw := RawWord(m, p, w);
    WordArrives(slot, m, a, host, p, w, at, raw);
    assert slot[j] == raw[j - at] by {
      assert slot[j] == slot[at..at + 8][j - at];
    }
    RawWordAt(m, p, w, j - at, j);
    RawByteIs(m, p, j);
  }

  // ---- where arguments are ----

  lemma LaterBytes(m: Memory, addr: nat, from: nat, a: nat, b: nat, bytes: seq<byte>)
    requires addr < U64 && a + b <= U64 && from == Plus(addr, a) && m.Bytes(addr, a + b) == Some(bytes)
    ensures |bytes| == a + b && m.Bytes(from, b) == Some(bytes[a..a + b])
  {
    BytesSplit(m, addr, a, b);
    var first, second := m.Bytes(addr, a).value, m.Bytes(from, b).value;
    assert bytes == first + second;
    assert bytes[a..a + b] == second;
  }

  // The list of arguments is one of eight-byte addresses.
  lemma ArgumentIsPointedTo(m: Memory, args: nat, i: nat, n: nat, list: seq<byte>)
    requires args < U64 && i < 10 && n == 8 * i && m.Bytes(args, n + 8) == Some(list)
    ensures ArgumentAt(m, args, i) == Some(Value(list[n..n + 8]))
  {
    LaterBytes(m, args, Plus(args, n), n, 8, list);
  }

  // What a kernel is handed is one argument after the other, 288 bytes each.
  lemma ArgumentsAreApart(storage: seq<byte>, m: Memory, a: Arena, host: nat, args: nat, row: Row, i: nat, at: nat)
    requires args < U64 && Handed(storage, m, a, host, args, row) && i < row.nargs && at == 288 * i
    ensures |storage| == 288 * row.nargs && at + 288 <= |storage| && ArgumentAt(m, args, i).Some?
    ensures SlotIs(storage[at..at + 288], m, a, host, ArgumentAt(m, args, i).value, i in row.ptrs, i in row.arrays, WORDS)
  {
    assert ArgumentIs(storage, m, a, host, args, row.ptrs, row.arrays, i);
  }
}
