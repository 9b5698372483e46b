// The file a session's bookkeeping is saved in: how it is written, how it is read, and
// that reading undoes writing.
module ShimFile {
  import opened Bytes
  import opened Arena

  // A descriptor is its kind and the bytes of its fields.
  datatype Descriptor = Descriptor(kind: int, fields: seq<byte>)

  datatype Shim = Shim(arena: Arena, next: nat, descriptors: map<nat, Descriptor>)

  const MAGIC: seq<byte> := [0x56, 0x56, 0x53, 0x48, 0x49, 0x4D, 0x30, 0x31]

  const TENSOR := 1
  const FILTER := 2
  const CONV := 3

  // The bytes of a kind's fields: all 32-bit integers, 18, 11 or 15 of them.
  function DescriptorSize(kind: int): nat {
    if kind == TENSOR then 72 else if kind == FILTER then 44 else if kind == CONV then 60 else 0
  }

  // The low 32 bits of a word, as a signed integer.
  function ToInt(v: nat): int {
    var low := v % U32;
    if low >= 0x8000_0000 then low - U32 else low
  }

  function Word(v: nat): seq<byte> {
    Little(v, 8)
  }

  lemma {:induction false} LeastOf(keys: set<nat>) returns (k: nat)
    requires keys != {}
    ensures k in keys && forall j :: j in keys ==> k <= j
  {
    k :| k in keys;
    var rest := keys - {k};
    if rest != {} {
      var m := LeastOf(rest);
      assert forall j :: j in keys ==> j == k || j in rest;
      k := if k < m then k else m;
    } else {
      assert forall j :: j in keys ==> j == k || j in rest;
    }
  }

  lemma LeastExists(keys: set<nat>)
    requires keys != {}
    ensures exists k :: k in keys && forall j :: j in keys ==> k <= j
  {
    var k := LeastOf(keys);
  }

  // ---- writing ----------------------------------------------------------------------------------

  // The keys of a map in ascending order, which is how an ordered map is walked.
  ghost function Least(keys: set<nat>): (k: nat)
    requires keys != {}
    ensures k in keys && forall j :: j in keys ==> k <= j
  {
    LeastExists(keys);
    var k :| k in keys && forall j :: j in keys ==> k <= j;
    k
  }

  function FreeBytes(free: seq<Block>): seq<byte> {
    if free == [] then [] else Word(free[0].size) + Word(free[0].off) + FreeBytes(free[1..])
  }

  ghost function LiveBytes(live: map<nat, nat>, keys: set<nat>): seq<byte>
    requires keys <= live.Keys
  {
    if keys == {} then [] else
    var off := Least(keys);
    Word(off) + Word(live[off]) + LiveBytes(live, keys - {off})
  }

  function OneDescriptor(handle: nat, d: Descriptor): seq<byte> {
    Word(handle) + Word(d.kind % U64) + (Word(DescriptorSize(d.kind)) + d.fields)
  }

  ghost function DescriptorBytes(descriptors: map<nat, Descriptor>, keys: set<nat>): seq<byte>
    requires keys <= descriptors.Keys
  {
    if keys == {} then [] else
    var h := Least(keys);
    OneDescriptor(h, descriptors[h]) + DescriptorBytes(descriptors, keys - {h})
  }

  ghost function ArenaBytes(a: Arena): seq<byte> {
    MAGIC + (Word(a.size) + Word(a.used)
    + (Word(|a.free|) + (FreeBytes(a.free) + (Word(|a.live|) + LiveBytes(a.live, a.live.Keys)))))
  }

  ghost function Saved(s: Shim): seq<byte> {
    ArenaBytes(s.arena)
    + (Word(s.next) + Word(|s.descriptors|) + DescriptorBytes(s.descriptors, s.descriptors.Keys))
  }

  // ---- reading ----------------------------------------------------------------------------------

  type Parsed<T> = Option<(T, seq<byte>)>

  function ReadPair(bs: seq<byte>): Parsed<(nat, nat)> {
    match TakeInt(bs, 8)
    case None => None
    case Some((a, rest)) =>
      match TakeInt(rest, 8)
      case None => None
      case Some((b, rest')) => Some(((a, b), rest'))
  }

  function ReadFree(bs: seq<byte>, count: nat, free: seq<Block>): Parsed<seq<Block>>
  {
    if count == 0 then Some((free, bs)) else
    match ReadPair(bs)
    case None => None
    case Some((p, rest)) => ReadFree(rest, count - 1, Emplace(free, Block(p.0, p.1)))
  }

  function ReadLive(bs: seq<byte>, count: nat, live: map<nat, nat>): Parsed<map<nat, nat>>
  {
    if count == 0 then Some((live, bs)) else
    match ReadPair(bs)
    case None => None
    case Some((p, rest)) => ReadLive(rest, count - 1, live[p.0 := p.1])
  }

  function ReadFields(handle: nat, kind: int, bs: seq<byte>): Parsed<(nat, Descriptor)>
  {
    match TakeInt(bs, 8)
    case None => None
    case Some((n, rest)) =>
      if DescriptorSize(kind) == 0 || ToInt(n) != DescriptorSize(kind) then None else
      match Take(rest, n)
      case None => None
      case Some((fields, rest)) => Some(((handle, Descriptor(kind, fields)), rest))
  }

  // A descriptor whose kind this build has, with the length that kind has.
  function ReadDescriptor(bs: seq<byte>): Parsed<(nat, Descriptor)>
  {
    match ReadPair(bs)
    case None => None
    case Some((p, rest)) => ReadFields(p.0, ToInt(p.1), rest)
  }

  function ReadDescriptors(bs: seq<byte>, count: nat, descriptors: map<nat, Descriptor>): Parsed<map<nat, Descriptor>>
  {
    if count == 0 then Some((descriptors, bs)) else
    match ReadDescriptor(bs)
    case None => None
    case Some((d, rest)) => ReadDescriptors(rest, count - 1, descriptors[d.0 := d.1])
  }

  function ReadHead(bs: seq<byte>): Parsed<(nat, nat)> {
    match Take(bs, 8)
    case None => None
    case Some((magic, rest)) => if magic != MAGIC then None else ReadPair(rest)
  }

  function ReadArena(bs: seq<byte>): Parsed<Arena> {
    match ReadHead(bs)
    case None => None
    case Some((head, rest)) =>
      match TakeInt(rest, 8)
      case None => None
      case Some((count, rest)) =>
        match ReadFree(rest, count, [])
        case None => None
        case Some((free, rest)) =>
          match TakeInt(rest, 8)
          case None => None
          case Some((count, rest)) =>
            match ReadLive(rest, count, map[])
            case None => None
            case Some((live, rest)) => Some((Arena(head.0, head.1, free, live), rest))
  }

  function Read(bs: seq<byte>): Parsed<Shim> {
    match ReadArena(bs)
    case None => None
    case Some((arena, rest)) =>
      match ReadPair(rest)
      case None => None
      case Some((p, rest)) =>
        match ReadDescriptors(rest, p.1, map[])
        case None => None
        case Some((descriptors, rest)) => Some((Shim(arena, p.0, descriptors), rest))
  }

  predicate KnownDescriptor(d: Descriptor) {
    TENSOR <= d.kind <= CONV && |d.fields| == DescriptorSize(d.kind)
  }

  // ---- what can be saved ----------------------------------------------------------------------------

  ghost predicate Storable(s: Shim) {
    && s.arena.size < U64 && s.arena.used < U64 && s.next < U64
    && |s.arena.free| < U64 && |s.arena.live| < U64 && |s.descriptors| < U64
    && (forall x :: x in s.arena.free ==> x.size < U64 && x.off < U64)
    && (forall off :: off in s.arena.live ==> off < U64 && s.arena.live[off] < U64)
    && (forall h :: h in s.descriptors ==> h < U64 && KnownDescriptor(s.descriptors[h]))
    && SortedFree(s.arena.free)
  }

  // ---- reading what was written -----------------------------------------------------------------------

  lemma WordRead(v: nat, rest: seq<byte>)
    requires v < U64
    ensures TakeInt(Word(v) + rest, 8) == Some((v, rest))
  {
    Widths();
    TakeWritten(v, 8, rest);
  }

  lemma PairRead(a: nat, b: nat, rest: seq<byte>)
    requires a < U64 && b < U64
    ensures ReadPair(Word(a) + Word(b) + rest) == Some(((a, b), rest))
  {
    assert Word(a) + Word(b) + rest == Word(a) + (Word(b) + rest);
    WordRead(a, Word(b) + rest);
    WordRead(b, rest);
  }

  lemma EmplaceLast(free: seq<Block>, b: Block)
    requires forall i :: 0 <= i < |free| ==> free[i].size <= b.size
    ensures Emplace(free, b) == free + [b]
  {
    assert UpperBound(free, b.size) == |free|;
  }

  lemma FreeStep(bs: seq<byte>, count: nat, free: seq<Block>, b: Block, rest: seq<byte>)
    requires count > 0 && ReadPair(bs) == Some(((b.size, b.off), rest))
    ensures ReadFree(bs, count, free) == ReadFree(rest, count - 1, Emplace(free, b))
  {
  }

  lemma LastIn(done: seq<Block>, free: seq<Block>)
    requires free != [] && SortedFree(done + free)
    ensures forall i :: 0 <= i < |done| ==> done[i].size <= free[0].size
    ensures done + free == done + [free[0]] + free[1..]
    ensures forall x :: x in free[1..] ==> x in free
  {
    assert (done + free)[|done|] == free[0];
    forall i | 0 <= i < |done|
      ensures done[i].size <= free[0].size
    {
      assert (done + free)[i] == done[i];
    }
  }

  // Blocks written in order go back in the same order, equal sizes included.
  lemma {:induction false} FreeRead(done: seq<Block>, free: seq<Block>, rest: seq<byte>, bs: seq<byte>)
    requires SortedFree(done + free) && forall x :: x in free ==> x.size < U64 && x.off < U64
    requires bs == FreeBytes(free) + rest
    ensures ReadFree(bs, |free|, done) == Some((done + free, rest))
    decreases |free|
  {
    if free == [] {
      assert bs == rest && done + free == done;
    } else {
      var b := free[0];
      var tail := FreeBytes(free[1..]) + rest;
      Regrouped(Word(b.size) + Word(b.off), FreeBytes(free[1..]), rest);
      PairRead(b.size, b.off, tail);
      FreeStep(bs, |free|, done, b, tail);
      LastIn(done, free);
      EmplaceLast(done, b);
      FreeRead(done + [b], free[1..], rest, tail);
    }
  }

  // done holds what is not in keys.
  ghost predicate AllBut<T>(whole: map<nat, T>, keys: set<nat>, done: map<nat, T>) {
    && keys <= whole.Keys && done.Keys == whole.Keys - keys
    && forall k :: k in done ==> done[k] == whole[k]
  }

  lemma LiveStep(bs: seq<byte>, count: nat, live: map<nat, nat>, off: nat, size: nat, rest: seq<byte>)
    requires count > 0 && ReadPair(bs) == Some(((off, size), rest))
    ensures ReadLive(bs, count, live) == ReadLive(rest, count - 1, live[off := size])
  {
  }

  lemma {:induction false} LiveRead(live: map<nat, nat>, keys: set<nat>, done: map<nat, nat>, rest: seq<byte>, bs: seq<byte>)
    requires forall off :: off in live ==> off < U64 && live[off] < U64
    requires AllBut(live, keys, done) && bs == LiveBytes(live, keys) + rest
    ensures ReadLive(bs, |keys|, done) == Some((live, rest))
    decreases |keys|
  {
    if keys == {} {
      assert bs == rest && done == live;
    } else {
      var off := Least(keys);
      var tail := LiveBytes(live, keys - {off}) + rest;
      Regrouped(Word(off) + Word(live[off]), LiveBytes(live, keys - {off}), rest);
      PairRead(off, live[off], tail);
      LiveStep(bs, |keys|, done, off, live[off], tail);
      assert |keys - {off}| == |keys| - 1;
      LiveRead(live, keys - {off}, done[off := live[off]], rest, tail);
    }
  }

  lemma FieldsRead(h: nat, d: Descriptor, rest: seq<byte>)
    requires KnownDescriptor(d)
    ensures ReadFields(h, d.kind, Word(DescriptorSize(d.kind)) + d.fields + rest) == Some(((h, d), rest))
  {
    Regrouped(Word(DescriptorSize(d.kind)), d.fields, rest);
    WordRead(DescriptorSize(d.kind), d.fields + rest);
    TakeBytesWritten(d.fields, rest);
  }

  lemma DescriptorStep(bs: seq<byte>, h: nat, kind: nat, rest: seq<byte>)
    requires ReadPair(bs) == Some(((h, kind), rest))
    ensures ReadDescriptor(bs) == ReadFields(h, ToInt(kind), rest)
  {
  }

  lemma KindKept(kind: int)
    requires TENSOR <= kind <= CONV
    ensures kind % U64 == kind && ToInt(kind) == kind
  {
  }

  lemma DescriptorRead(h: nat, d: Descriptor, rest: seq<byte>, bs: seq<byte>)
    requires h < U64 && KnownDescriptor(d) && bs == OneDescriptor(h, d) + rest
    ensures ReadDescriptor(bs) == Some(((h, d), rest))
  {
    var fields := Word(DescriptorSize(d.kind)) + d.fields;
    KindKept(d.kind);
    Regrouped(Word(h) + Word(d.kind), fields, rest);
    PairRead(h, d.kind, fields + rest);
    DescriptorStep(bs, h, d.kind, fields + rest);
    FieldsRead(h, d, rest);
  }

  lemma DescriptorsStep(bs: seq<byte>, count: nat, ds: map<nat, Descriptor>, h: nat, d: Descriptor, rest: seq<byte>)
    requires count > 0 && ReadDescriptor(bs) == Some(((h, d), rest))
    ensures ReadDescriptors(bs, count, ds) == ReadDescriptors(rest, count - 1, ds[h := d])
  {
  }

  lemma {:induction false} DescriptorsRead(ds: map<nat, Descriptor>, keys: set<nat>, done: map<nat, Descriptor>, rest: seq<byte>, bs: seq<byte>)
    requires forall h :: h in ds ==> h < U64 && KnownDescriptor(ds[h])
    requires AllBut(ds, keys, done) && bs == DescriptorBytes(ds, keys) + rest
    ensures ReadDescriptors(bs, |keys|, done) == Some((ds, rest))
    decreases |keys|
  {
    if keys == {} {
      assert bs == rest && done == ds;
    } else {
      var h := Least(keys);
      var tail := DescriptorBytes(ds, keys - {h}) + rest;
      Regrouped(OneDescriptor(h, ds[h]), DescriptorBytes(ds, keys - {h}), rest);
      DescriptorRead(h, ds[h], tail, bs);
      DescriptorsStep(bs, |keys|, done, h, ds[h], tail);
      assert |keys - {h}| == |keys| - 1;
      DescriptorsRead(ds, keys - {h}, done[h := ds[h]], rest, tail);
    }
  }

  lemma ArenaThenRest(head: seq<byte>, frees: seq<byte>, free: seq<byte>, lives: seq<byte>, live: seq<byte>, rest: seq<byte>)
    ensures MAGIC + (head + (frees + (free + (lives + live)))) + rest
         == MAGIC + (head + (frees + (free + (lives + (live + rest)))))
  {
    Regrouped(MAGIC, head + (frees + (free + (lives + live))), rest);
    Regrouped(head, frees + (free + (lives + live)), rest);
    Regrouped(frees, free + (lives + live), rest);
    Regrouped(free, lives + live, rest);
    Regrouped(lives, live, rest);
  }

  // The parts of an arena, each read where the one before left off.
  lemma ArenaParts(a: Arena, bs: seq<byte>, counts: seq<byte>, free: seq<byte>, lives: seq<byte>, live: seq<byte>, rest: seq<byte>)
    requires ReadHead(bs) == Some(((a.size, a.used), counts))
    requires TakeInt(counts, 8) == Some((|a.free|, free)) && ReadFree(free, |a.free|, []) == Some((a.free, lives))
    requires TakeInt(lives, 8) == Some((|a.live|, live)) && ReadLive(live, |a.live|, map[]) == Some((a.live, rest))
    ensures ReadArena(bs) == Some((a, rest))
  {
  }

  lemma HeadRead(a: nat, b: nat, rest: seq<byte>)
    requires a < U64 && b < U64
    ensures ReadHead(MAGIC + (Word(a) + Word(b) + rest)) == Some(((a, b), rest))
  {
    TakeBytesWritten(MAGIC, Word(a) + Word(b) + rest);
    PairRead(a, b, rest);
  }

  lemma ArenaRead(s: Shim, rest: seq<byte>)
    requires Storable(s)
    ensures ReadArena(ArenaBytes(s.arena) + rest) == Some((s.arena, rest))
  {
    var a := s.arena;
    var live := LiveBytes(a.live, a.live.Keys) + rest;
    var lives := Word(|a.live|) + live;
    var free := FreeBytes(a.free) + lives;
    var counts := Word(|a.free|) + free;
    ArenaThenRest(Word(a.size) + Word(a.used), Word(|a.free|), FreeBytes(a.free), Word(|a.live|), LiveBytes(a.live, a.live.Keys), rest);
    HeadRead(a.size, a.used, counts);
    WordRead(|a.free|, free);
    assert [] + a.free == a.free;
    FreeRead([], a.free, lives, free);
    WordRead(|a.live|, live);
    assert |a.live| == |a.live.Keys|;
    LiveRead(a.live, a.live.Keys, map[], rest, live);
    ArenaParts(a, ArenaBytes(a) + rest, counts, free, lives, live, rest);
  }

  // Reading back a saved shim gives that shim, to the last field.
  lemma SavedIsRead(s: Shim)
    requires Storable(s)
    ensures Read(Saved(s)) == Some((s, []))
  {
    var ds := DescriptorBytes(s.descriptors, s.descriptors.Keys);
    ArenaRead(s, Word(s.next) + Word(|s.descriptors|) + ds);
    PairRead(s.next, |s.descriptors|, ds);
    assert |s.descriptors| == |s.descriptors.Keys| && ds + [] == ds;
    DescriptorsRead(s.descriptors, s.descriptors.Keys, map[], [], ds);
  }

  // ---- truncated files -----------------------------------------------------------------------------------

  ghost function Extended<T>(p: Parsed<T>, more: seq<byte>): Parsed<T> {
    match p
    case None => None
    case Some((v, rest)) => Some((v, rest + more))
  }

  lemma PairExtends(bs: seq<byte>, more: seq<byte>)
    requires ReadPair(bs).Some?
    ensures ReadPair(bs + more) == Extended(ReadPair(bs), more)
  {
    TakeIntExtends(bs, 8, more);
    TakeIntExtends(TakeInt(bs, 8).value.1, 8, more);
  }

  lemma {:induction false} FreeExtends(bs: seq<byte>, count: nat, free: seq<Block>, more: seq<byte>)
    requires ReadFree(bs, count, free).Some?
    ensures ReadFree(bs + more, count, free) == Extended(ReadFree(bs, count, free), more)
    decreases count
  {
    if count > 0 {
      PairExtends(bs, more);
      var (p, rest) := ReadPair(bs).value;
      FreeExtends(rest, count - 1, Emplace(free, Block(p.0, p.1)), more);
    }
  }

  lemma {:induction false} LiveExtends(bs: seq<byte>, count: nat, live: map<nat, nat>, more: seq<byte>)
    requires ReadLive(bs, count, live).Some?
    ensures ReadLive(bs + more, count, live) == Extended(ReadLive(bs, count, live), more)
    decreases count
  {
    if count > 0 {
      PairExtends(bs, more);
      var (p, rest) := ReadPair(bs).value;
      LiveExtends(rest, count - 1, live[p.0 := p.1], more);
    }
  }

  lemma DescriptorExtends(bs: seq<byte>, more: seq<byte>)
    requires ReadDescriptor(bs).Some?
    ensures ReadDescriptor(bs + more) == Extended(ReadDescriptor(bs), more)
  {
    PairExtends(bs, more);
    var rest := ReadPair(bs).value.1;
    TakeIntExtends(rest, 8, more);
    TakeExtends(TakeInt(rest, 8).value.1, TakeInt(rest, 8).value.0, more);
  }

  lemma {:induction false} DescriptorsExtend(bs: seq<byte>, count: nat, ds: map<nat, Descriptor>, more: seq<byte>)
    requires ReadDescriptors(bs, count, ds).Some?
    ensures ReadDescriptors(bs + more, count, ds) == Extended(ReadDescriptors(bs, count, ds), more)
    decreases count
  {
    if count > 0 {
      DescriptorExtends(bs, more);
      var (d, rest) := ReadDescriptor(bs).value;
      DescriptorsExtend(rest, count - 1, ds[d.0 := d.1], more);
    }
  }

  lemma ArenaExtends(bs: seq<byte>, more: seq<byte>)
    requires ReadArena(bs).Some?
    ensures ReadArena(bs + more) == Extended(ReadArena(bs), more)
  {
    TakeExtends(bs, 8, more);
    PairExtends(Take(bs, 8).value.1, more);
    var (head, r1) := ReadHead(bs).value;
    TakeIntExtends(r1, 8, more);
    var (count, r2) := TakeInt(r1, 8).value;
    FreeExtends(r2, count, [], more);
    var (free, r3) := ReadFree(r2, count, []).value;
    TakeIntExtends(r3, 8, more);
    var (lives, r4) := TakeInt(r3, 8).value;
    LiveExtends(r4, lives, map[], more);
  }

  // What reads from a file reads from any longer one, and leaves the difference.
  lemma ReadExtends(bs: seq<byte>, more: seq<byte>)
    requires Read(bs).Some?
    ensures Read(bs + more) == Extended(Read(bs), more)
  {
    ArenaExtends(bs, more);
    var (arena, rest) := ReadArena(bs).value;
    PairExtends(rest, more);
    var (p, rest') := ReadPair(rest).value;
    DescriptorsExtend(rest', p.1, map[], more);
  }

  // Every strict prefix of a saved file is refused.
  lemma TruncatedIsRefused(s: Shim, k: nat)
    requires Storable(s) && k < |Saved(s)|
    ensures Read(Saved(s)[..k]).None?
  {
    SavedIsRead(s);
    var front, back := Saved(s)[..k], Saved(s)[k..];
    assert Saved(s) == front + back && |back| > 0;
    if Read(front).Some? {
      ReadExtends(front, back);
    }
  }
}
