// A writer of ZIP archives, and reading back what it wrote.
module ZipWriter {
  import opened Bytes
  import opened ZipReader
  import opened ZipArchives

  lemma Same16(a: seq<byte>, at: nat, b: seq<byte>, off: nat)
    requires at + 2 <= |a| && off + 2 <= |b| && a[at] == b[off] && a[at + 1] == b[off + 1]
    ensures Rd16(a, at) == Rd16(b, off)
  {
  }

  function Two(v: nat): (b: seq<byte>)
    requires v < 0x1_0000
    ensures |b| == 2 && Rd16(b, 0) == v
  {
    [v % 256, v / 256]
  }

  function Four(v: nat): (b: seq<byte>)
    requires v < U32
    ensures |b| == 4 && Rd32(b, 0) == v
  {
    var b := Two(v % 0x1_0000) + Two(v / 0x1_0000);
    Same16(b, 0, Two(v % 0x1_0000), 0);
    Same16(b, 2, Two(v / 0x1_0000), 0);
    b
  }

  function Blank(n: nat): (b: seq<byte>)
    ensures |b| == n
  {
    seq(n, i => 0)
  }

  // A field reads the same wherever it stands.
  lemma Piece(whole: seq<byte>, x: seq<byte>, field: seq<byte>, y: seq<byte>)
    requires whole == x + field + y
    ensures |field| >= 2 ==> Rd16(whole, |x|) == Rd16(field, 0)
    ensures |field| >= 4 ==> Rd32(whole, |x|) == Rd32(field, 0)
  {
  }

  // A file, with its checksum, at which the reader does not look.
  datatype Stowed = Stowed(name: seq<byte>, body: seq<byte>, crc: nat)
  {
    predicate Fits() {
      |name| < 0x1_0000 && |body| < U32 && crc < U32
    }
  }

  // Both headers have the checksum, and the size, which is also the compressed size.
  function Sizes(f: Stowed): (b: seq<byte>)
    requires f.Fits()
    ensures |b| == 12
  {
    Four(f.crc) + Four(|f.body|) + Four(|f.body|)
  }

  function LocalHead(f: Stowed): (h: seq<byte>)
    requires f.Fits()
    ensures |h| == 30
  {
    Four(LOCAL_SIG) + Two(10) + Blank(8) + Sizes(f) + (Two(|f.name|) + Two(0))
  }

  lemma LocalHeadIsRead(f: Stowed)
    requires f.Fits()
    ensures var h := LocalHead(f);
      && Rd32(h, 0) == LOCAL_SIG && Rd16(h, 26) == |f.name| && Rd16(h, 28) == 0 && h[14..26] == Sizes(f)
  {
    var h, at := LocalHead(f), Four(LOCAL_SIG) + Two(10) + Blank(8) + Sizes(f);
    Piece(h, [], Four(LOCAL_SIG), Two(10) + Blank(8) + Sizes(f) + (Two(|f.name|) + Two(0)));
    Piece(h, at, Two(|f.name|), Two(0));
    Piece(h, at + Two(|f.name|), Two(0), []);
  }

  function CentralHead(f: Stowed, local: nat): (h: seq<byte>)
    requires f.Fits() && local < U32
    ensures |h| == 46
  {
    Four(CENTRAL_SIG) + Two(10) + Two(10) + Blank(8) + Sizes(f)
    + (Two(|f.name|) + Two(0) + Two(0)) + (Blank(8) + Four(local))
  }

  lemma CentralHeadIsRead(f: Stowed, local: nat)
    requires f.Fits() && local < U32
    ensures var h := CentralHead(f, local);
      && Rd32(h, 0) == CENTRAL_SIG && Rd16(h, 8) == 0 && Rd16(h, 10) == 0 && h[16..28] == Sizes(f)
      && Rd32(h, 20) == |f.body| && Rd32(h, 24) == |f.body|
      && Rd16(h, 28) == |f.name| && Rd16(h, 30) == 0 && Rd16(h, 32) == 0 && Rd32(h, 42) == local
  {
    var h, start := CentralHead(f, local), Four(CENTRAL_SIG) + Two(10) + Two(10) + Blank(8);
    var lengths, end := Two(|f.name|) + Two(0) + Two(0), Blank(8) + Four(local);
    Piece(h, [], Four(CENTRAL_SIG), Two(10) + Two(10) + Blank(8) + Sizes(f) + lengths + end);
    Piece(h, start + Four(f.crc), Four(|f.body|), Four(|f.body|) + lengths + end);
    Piece(h, start + Four(f.crc) + Four(|f.body|), Four(|f.body|), lengths + end);
    var at := start + Sizes(f);
    Piece(h, at, Two(|f.name|), Two(0) + Two(0) + end);
    Piece(h, at + Two(|f.name|), Two(0), Two(0) + end);
    Piece(h, at + Two(|f.name|) + Two(0), Two(0), end);
    Piece(h, at + lengths + Blank(8), Four(local), []);
    assert h[8] == 0 && h[9] == 0 && h[10] == 0 && h[11] == 0;
  }

  // A stored file's entry, for a local header that will stand at an offset.
  function Stored(f: Stowed, local: nat): Entry
    requires f.Fits() && local < U32
  {
    Entry(LocalHead(f), f.name, [], f.body, CentralHead(f, local), f.name, [], [])
  }

  // An entry that is a file's, stored, and points at an offset; its two headers agree.
  predicate Facts(e: Entry, f: Stowed, local: nat) {
    && e.Proper() && e.Compression() == 0 && !e.Encrypted() && e.Offset() == local
    && e.name == e.localName == f.name && e.body == f.body && e.extra == e.localExtra == e.comment == []
    && e.localHead[14..26] == e.centralHead[16..28]
  }

  // Closed, as in ZipArchives.
  ghost predicate Describes(e: Entry, f: Stowed, local: nat) {
    forall u {:trigger Look(u)} :: Look(u) ==> Facts(e, f, local)
  }

  lemma StoredDescribes(f: Stowed, local: nat)
    requires f.Fits() && local < U32
    ensures Describes(Stored(f, local), f, local)
  {
    LocalHeadIsRead(f);
    CentralHeadIsRead(f, local);
  }

  // Local headers, names and contents take up so much.
  function LocalSize(f: Stowed): nat {
    30 + |f.name| + |f.body|
  }

  function LocalSizes(fs: seq<Stowed>): nat {
    if fs == [] then 0 else LocalSize(fs[0]) + LocalSizes(fs[1..])
  }

  function CentralSize(f: Stowed): nat {
    46 + |f.name|
  }

  function CentralSizes(fs: seq<Stowed>): nat {
    if fs == [] then 0 else CentralSize(fs[0]) + CentralSizes(fs[1..])
  }

  // Where the end record goes.
  function EndAt(fs: seq<Stowed>): nat {
    LocalSizes(fs) + CentralSizes(fs)
  }

  ghost predicate Writable(fs: seq<Stowed>, base: nat) {
    base + LocalSizes(fs) < U32 && forall i :: 0 <= i < |fs| ==> fs[i].Fits()
  }

  // The entries of files written one behind the other from base on, and their members.
  function Entries(fs: seq<Stowed>, base: nat): (es: seq<Entry>)
    requires Writable(fs, base)
    ensures |es| == |fs|
  {
    if fs == [] then []
    else
      [Stored(fs[0], base)] + Entries(fs[1..], base + LocalSize(fs[0]))
  }

  function Locals(es: seq<Entry>): (r: seq<byte>) {
    if es == [] then [] else es[0].Local() + Locals(es[1..])
  }

  // Entries that are those of files written one behind the other.
  ghost predicate Lists(es: seq<Entry>, fs: seq<Stowed>, base: nat)
    decreases |fs|
  {
    && |es| == |fs|
    && (fs == [] || (Describes(es[0], fs[0], base) && Lists(es[1..], fs[1..], base + LocalSize(fs[0]))))
  }

  lemma WritableRest(fs: seq<Stowed>, base: nat, next: nat)
    requires Writable(fs, base) && fs != [] && next == base + LocalSize(fs[0])
    ensures fs[0].Fits() && base < U32 && Writable(fs[1..], next)
  {
  }

  lemma ListsBehind(es: seq<Entry>, e: Entry, more: seq<Entry>, fs: seq<Stowed>, base: nat, next: nat)
    requires fs != [] && next == base + LocalSize(fs[0]) && es == [e] + more
    requires Describes(e, fs[0], base) && Lists(more, fs[1..], next)
    ensures Lists(es, fs, base)
  {
    assert es[1..] == more;
  }

  lemma {:induction false} EntriesList(fs: seq<Stowed>, base: nat)
    requires Writable(fs, base)
    ensures Lists(Entries(fs, base), fs, base)
    decreases |fs|
  {
    if fs != [] {
      var next := base + LocalSize(fs[0]);
      WritableRest(fs, base, next);
      StoredDescribes(fs[0], base);
      EntriesList(fs[1..], next);
      ListsBehind(Entries(fs, base), Stored(fs[0], base), Entries(fs[1..], next), fs, base, next);
    }
  }

  lemma OneMeasured(es: seq<Entry>)
    requires es != []
    ensures |Locals(es)| == |es[0].Local()| + |Locals(es[1..])|
    ensures |Centrals(es)| == |es[0].Central()| + |Centrals(es[1..])|
  {
  }

  lemma {:induction false} EntriesMeasure(es: seq<Entry>, fs: seq<Stowed>, base: nat)
    requires Lists(es, fs, base)
    ensures |Locals(es)| == LocalSizes(fs) && |Centrals(es)| == CentralSizes(fs)
    decreases |fs|
  {
    if fs != [] {
      assert Look(0);
      EntriesMeasure(es[1..], fs[1..], base + LocalSize(fs[0]));
      OneMeasured(es);
    }
  }

  lemma {:induction false} EntriesHold(es: seq<Entry>, fs: seq<Stowed>, base: nat, i: nat)
    requires Lists(es, fs, base) && i < |fs|
    ensures es[i].Proper() && es[i].Compression() == 0 && !es[i].Encrypted()
    ensures es[i].name == fs[i].name && es[i].body == fs[i].body
    decreases |fs|
  {
    if i == 0 {
      assert Look(0);
    } else {
      EntriesHold(es[1..], fs[1..], base + LocalSize(fs[0]), i - 1);
    }
  }

  lemma StandsNext(zip: seq<byte>, at: nat, next: nat, x: seq<byte>, y: seq<byte>)
    requires Stands(zip, at, x + y) && next == at + |x|
    ensures Stands(zip, at, x) && Stands(zip, next, y)
  {
    StandsSplit(zip, at, x, y);
  }

  // Files written from base on stand where their entries say.
  lemma {:induction false} EntriesStand(zip: seq<byte>, es: seq<Entry>, fs: seq<Stowed>, base: nat, i: nat)
    requires Lists(es, fs, base) && i < |fs| && Stands(zip, base, Locals(es))
    ensures MemberStands(zip, es[i])
    decreases |fs|
  {
    var next := base + LocalSize(fs[0]);
    assert Look(0);
    StandsNext(zip, base, next, es[0].Local(), Locals(es[1..]));
    if i > 0 {
      EntriesStand(zip, es[1..], fs[1..], next, i - 1);
    }
  }

  function EndHead(count: nat, size: nat, at: nat, comment: nat): (h: seq<byte>)
    requires count < 0x1_0000 && size < U32 && at < U32 && comment < 0x1_0000
    ensures |h| == 22
  {
    Four(END_SIG) + Blank(4) + (Two(count) + Two(count) + Four(size)) + (Four(at) + Two(comment))
  }

  lemma EndHeadIsRead(count: nat, size: nat, at: nat, comment: nat)
    requires count < 0x1_0000 && size < U32 && at < U32 && comment < 0x1_0000
    ensures EndSays(EndHead(count, size, at, comment), count, at, comment)
  {
    var h, start, counts := EndHead(count, size, at, comment), Four(END_SIG) + Blank(4), Two(count) + Two(count) + Four(size);
    Piece(h, [], Four(END_SIG), Blank(4) + counts + (Four(at) + Two(comment)));
    Piece(h, start + Two(count), Two(count), Four(size) + (Four(at) + Two(comment)));
    Piece(h, start + counts, Four(at), Two(comment));
    Piece(h, start + counts + Four(at), Two(comment), []);
  }

  ghost predicate Fitting(fs: seq<Stowed>, comment: seq<byte>) {
    && Writable(fs, 0) && |fs| < 0x1_0000 && |comment| < 0x1_0000
    && EndAt(fs) + 22 + |comment| < U32
  }

  function EndOf(fs: seq<Stowed>, comment: seq<byte>): (h: seq<byte>)
    requires Fitting(fs, comment)
    ensures |h| == 22
  {
    EndHead(|fs|, CentralSizes(fs), LocalSizes(fs), |comment|)
  }

  // An archive of stored files, with a comment.
  function Written(fs: seq<Stowed>, comment: seq<byte>): seq<byte>
    requires Fitting(fs, comment)
  {
    Locals(Entries(fs, 0)) + Centrals(Entries(fs, 0)) + (EndOf(fs, comment) + comment)
  }

  lemma PartsStand(a: seq<byte>, b: seq<byte>, c: seq<byte>)
    ensures var zip := a + b + c;
      Stands(zip, 0, a) && Stands(zip, |a|, b) && Stands(zip, |a| + |b|, c)
  {
    var zip := a + b + c;
    assert zip[0..|zip|] == zip;
    assert Stands(zip, 0, a + b + c);
    StandsSplit(zip, 0, a + b, c);
    StandsSplit(zip, 0, a, b);
  }

  // Any entries that are those of the files, their directory and an end record make a
  // well-formed archive.
  lemma {:induction false} ListedIsWellFormed(zip: seq<byte>, es: seq<Entry>, fs: seq<Stowed>, endHead: seq<byte>, comment: seq<byte>)
    requires Lists(es, fs, 0) && zip == Locals(es) + Centrals(es) + (endHead + comment)
    requires EndAt(fs) + 22 + |comment| < U32
    requires |endHead| == 22 && EndSays(endHead, |fs|, LocalSizes(fs), |comment|)
    ensures WellFormed(zip, es, LocalSizes(fs), EndAt(fs), endHead, comment)
  {
    EntriesMeasure(es, fs, 0);
    PartsStand(Locals(es), Centrals(es), endHead + comment);
    forall i | 0 <= i < |es| ensures MemberStands(zip, es[i]) {
      EntriesStand(zip, es, fs, 0, i);
    }
  }

  // What is written is well formed.
  lemma {:induction false} WrittenIsWellFormed(fs: seq<Stowed>, comment: seq<byte>)
    requires Fitting(fs, comment)
    ensures WellFormed(Written(fs, comment), Entries(fs, 0), LocalSizes(fs), EndAt(fs), EndOf(fs, comment), comment)
  {
    EntriesList(fs, 0);
    EndHeadIsRead(|fs|, CentralSizes(fs), LocalSizes(fs), |comment|);
    ListedIsWellFormed(Written(fs, comment), Entries(fs, 0), fs, EndOf(fs, comment), comment);
  }

  lemma {:induction false} DueIsFirst(es: seq<Entry>, fs: seq<Stowed>, want: seq<byte>)
    requires Lists(es, fs, 0)
    ensures forall i :: 0 <= i < |fs| && fs[i].name == want && (forall j :: 0 <= j < i ==> fs[j].name != want) ==>
      Due(es, want) == Found(fs[i].body)
    ensures (forall i :: 0 <= i < |fs| ==> fs[i].name != want) ==> Due(es, want) == Refused
  {
    forall i | 0 <= i < |fs| ensures es[i].name == fs[i].name {
      EntriesHold(es, fs, 0, i);
    }
    forall i | 0 <= i < |fs| && fs[i].name == want && (forall j :: 0 <= j < i ==> fs[j].name != want)
      ensures Due(es, want) == Found(fs[i].body)
    {
      EntriesHold(es, fs, 0, i);
      DueIsBody(es, want, i);
    }
    if forall i :: 0 <= i < |fs| ==> fs[i].name != want {
      NamedIsNone(es, want);
    }
  }

  // What was written is read back: the first file of a name, byte for byte, and nothing
  // for a name no file has; if the comment looks like no end record.
  lemma {:induction false} WrittenIsRead(fs: seq<Stowed>, comment: seq<byte>, want: seq<byte>)
    requires Fitting(fs, comment)
    requires var zip := Written(fs, comment);
      forall k :: |zip| - 22 - |comment| < k <= |zip| - 22 ==> Rd32(zip, k) != END_SIG
    ensures forall i :: 0 <= i < |fs| && fs[i].name == want && (forall j :: 0 <= j < i ==> fs[j].name != want) ==>
      Member(Written(fs, comment), want) == Found(fs[i].body)
    ensures (forall i :: 0 <= i < |fs| ==> fs[i].name != want) ==> Member(Written(fs, comment), want) == Refused
  {
    var es, zip := Entries(fs, 0), Written(fs, comment);
    WrittenIsWellFormed(fs, comment);
    MemberIsRead(zip, es, LocalSizes(fs), EndAt(fs), EndOf(fs, comment), comment, want);
    EntriesList(fs, 0);
    DueIsFirst(es, fs, want);
  }

  // An end record that ends the file is the one that is found.
  lemma CommentTaken(zip: seq<byte>, at: nat, end: seq<byte>, want: seq<byte>)
    requires EndSays(end, 0, 0, 0) && |end| == 22 && Stands(zip, at, end) && at > 0 && at + 22 == |zip|
    ensures Member(zip, want) == Refused
  {
    assert Look(0);
    Field32(zip, at, end, 0);
    Field16(zip, at, end, 10);
  }

  // A comment that is itself an empty archive hides the archive it is in.
  lemma CommentHides(zip: seq<byte>, es: seq<Entry>, at: nat, eocd: nat, endHead: seq<byte>, comment: seq<byte>, want: seq<byte>)
    requires WellFormed(zip, es, at, eocd, endHead, comment) && |comment| == 22 && EndSays(comment, 0, 0, 0)
    ensures Member(zip, want) == Refused
  {
    var next := eocd + 22;
    StandsNext(zip, eocd, next, endHead, comment);
    CommentTaken(zip, next, comment, want);
  }

  // Such archives are written: well-formed ones, of which the reader owes a file's
  // contents and gives nothing.
  lemma {:induction false} HiddenByComment(fs: seq<Stowed>, comment: seq<byte>)
    requires Fitting(fs, comment) && fs != [] && comment == EndHead(0, 0, 0, 0)
    ensures WellFormed(Written(fs, comment), Entries(fs, 0), LocalSizes(fs), EndAt(fs), EndOf(fs, comment), comment)
    ensures Due(Entries(fs, 0), fs[0].name) == Found(fs[0].body) && Member(Written(fs, comment), fs[0].name) == Refused
  {
    var es := Entries(fs, 0);
    WrittenIsWellFormed(fs, comment);
    EntriesList(fs, 0);
    DueIsFirst(es, fs, fs[0].name);
    EndHeadIsRead(0, 0, 0, 0);
    CommentHides(Written(fs, comment), es, LocalSizes(fs), EndAt(fs), EndOf(fs, comment), comment, fs[0].name);
  }

  // An archive of one file can be such a one.
  lemma OneFileFits(f: Stowed)
    requires f.Fits() && LocalSize(f) + CentralSize(f) + 44 < U32
    ensures Fitting([f], EndHead(0, 0, 0, 0))
  {
    assert [f][1..] == [];
    assert LocalSizes([f]) == LocalSize(f) + LocalSizes([]) && CentralSizes([f]) == CentralSize(f) + CentralSizes([]);
  }
}
