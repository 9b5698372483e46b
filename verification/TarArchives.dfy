// Tar archives in the ustar format, and what unpacking makes of them.
module TarArchives {
  import opened Bytes
  import opened TarReader

  // Links, devices, directories and FIFOs have no contents in the archive.  For a
  // directory the size field is a limit, and for devices and FIFOs it means nothing.
  predicate Stores(kind: byte) {
    !('1' as int <= kind <= '6' as int)
  }

  predicate Text(s: seq<byte>) {
    forall i :: 0 <= i < |s| ==> s[i] != 0
  }

  predicate Blank(s: seq<byte>) {
    forall i :: 0 <= i < |s| ==> s[i] == 0 || s[i] == 32
  }

  function Eights(k: nat): (p: nat)
    ensures p > 0
  {
    if k == 0 then 1 else 8 * Eights(k - 1)
  }

  // A member: its name, in two parts, its kind, what its size field says and in how many
  // digits, what fills the field up, its contents, and what fills their last block; and the
  // parts of the header that are not looked at.
  datatype Entry = Entry(prefix: seq<byte>, name: seq<byte>, kind: byte, size: nat, digits: nat, blanks: seq<byte>,
                         contents: seq<byte>, pad: seq<byte>, owner: seq<byte>, times: seq<byte>, linkAndOwner: seq<byte>, spare: seq<byte>)
  {
    predicate Proper() {
      && 0 < |name| <= 100 && Text(name) && |prefix| <= 155 && Text(prefix)
      && 0 < digits < 12 && size < Eights(digits) && |blanks| == 12 - digits && Blank(blanks)
      && |contents| == (if Stores(kind) then size else 0) && |contents| + |pad| == Padded(|contents|)
      && |owner| == 24 && |times| == 20 && |linkAndOwner| == 188 && |spare| == 12
    }

    // The size field is the size of what is in the archive.
    predicate Plain() {
      Stores(kind) || size == 0
    }

    predicate Regular() {
      kind == '0' as int || kind == 0
    }
  }

  function Zeros(n: nat): (z: seq<byte>)
    ensures |z| == n
  {
    seq(n, i => 0)
  }

  // A text field: what is not used of it is filled with zeros.
  function Filled(s: seq<byte>, len: nat): (f: seq<byte>)
    requires |s| <= len
    ensures |f| == len
  {
    s + Zeros(len - |s|)
  }

  // A number in that many octal digits.
  function Octal(n: nat, width: nat): (s: seq<byte>)
    ensures |s| == width
  {
    if width == 0 then [] else Octal(n / 8, width - 1) + ['0' as int + n % 8]
  }

  function Header(e: Entry): (h: seq<byte>)
    requires e.Proper()
    ensures |h| == BLOCK
  {
    Filled(e.name, 100) + e.owner + (Octal(e.size, e.digits) + e.blanks) + e.times + [e.kind] + e.linkAndOwner
    + Filled(e.prefix, 155) + e.spare
  }

  function Member(e: Entry): (m: seq<byte>)
    requires e.Proper()
    ensures |m| == BLOCK + Padded(|e.contents|)
  {
    Header(e) + e.contents + e.pad
  }

  // The members, and whatever zeros make up the end.
  function Archive(es: seq<Entry>, zeros: nat): seq<byte>
    requires forall i :: 0 <= i < |es| ==> es[i].Proper()
  {
    if es == [] then Zeros(zeros) else Member(es[0]) + Archive(es[1..], zeros)
  }

  function Reported(e: Entry): seq<File> {
    if e.Regular() then [File(FullName(e.prefix, e.name), e.contents)] else []
  }

  // The regular files among them, under their full names.
  function Files(es: seq<Entry>): seq<File> {
    if es == [] then [] else Reported(es[0]) + Files(es[1..])
  }

  lemma {:induction false} TextThen(s: seq<byte>, t: seq<byte>)
    requires Text(s)
    ensures UpToNul(s + t) == s + UpToNul(t)
  {
    if s == [] {
      assert s + t == t && s + UpToNul(t) == UpToNul(t);
    } else {
      assert (s + t)[1..] == s[1..] + t;
      TextThen(s[1..], t);
      assert [s[0]] + (s[1..] + UpToNul(t)) == s + UpToNul(t);
    }
  }

  // ---- fields ----

  lemma {:induction false} TextIsRead(s: seq<byte>, n: nat)
    requires Text(s)
    ensures UpToNul(s + Zeros(n)) == s
  {
    TextThen(s, Zeros(n));
    assert s + [] == s;
  }

  lemma {:induction false} BlanksRead(t: seq<byte>)
    requires Blank(t)
    ensures forall i :: 0 <= i < |UpToNul(t)| ==> UpToNul(t)[i] == 32
  {
    if t != [] {
      BlanksRead(t[1..]);
    }
  }

  lemma {:induction false} SpacesTrimmed(s: seq<byte>, t: seq<byte>)
    requires s != [] && !Space(s[|s| - 1]) && forall i :: 0 <= i < |t| ==> t[i] == 32
    ensures TrimRight(s + t) == s
    decreases |t|
  {
    if t == [] {
      assert s + t == s;
    } else {
      assert (s + t)[..|s + t| - 1] == s + t[..|t| - 1];
      SpacesTrimmed(s, t[..|t| - 1]);
    }
  }

  lemma StopsHere(rest: seq<byte>, sofar: nat)
    requires rest == [] || !OctalDigit(rest[0])
    ensures Digits(rest, sofar) == sofar
  {
  }

  lemma Carried(s: nat, p: nat, n: nat)
    ensures 8 * (s * p + n / 8) + n % 8 == s * (8 * p) + n
  {
    assert s * (8 * p) == 8 * (s * p);
  }

  lemma {:induction false} DigitsContinue(n: nat, width: nat, rest: seq<byte>, sofar: nat)
    requires n < Eights(width)
    ensures Digits(Octal(n, width) + rest, sofar) == Digits(rest, sofar * Eights(width) + n)
    decreases width
  {
    if width == 0 {
      assert [] + rest == rest;
    } else {
      var d: byte := '0' as int + n % 8;
      var high := Octal(n / 8, width - 1);
      Regrouped(high, [d], rest);
      DigitsContinue(n / 8, width - 1, [d] + rest, sofar);
      var v := sofar * Eights(width - 1) + n / 8;
      assert ([d] + rest)[1..] == rest;
      assert Digits([d] + rest, v) == Digits(rest, 8 * v + n % 8);
      Carried(sofar, Eights(width - 1), n);
    }
  }

  // Reading digits one after the other.
  lemma {:induction false} DigitsRead(n: nat, width: nat, rest: seq<byte>)
    requires n < Eights(width) && (rest == [] || !OctalDigit(rest[0]))
    ensures Digits(Octal(n, width) + rest, 0) == n
  {
    DigitsContinue(n, width, rest, 0);
    assert 0 * Eights(width) == 0;
    StopsHere(rest, n);
  }

  lemma {:induction false} OctalIsDigits(n: nat, width: nat)
    ensures forall i :: 0 <= i < width ==> OctalDigit(Octal(n, width)[i])
  {
    if width > 0 {
      OctalIsDigits(n / 8, width - 1);
    }
  }

  // A size field is read as the size it was made from, in any number of digits, whatever
  // blanks and zeros end it.
  lemma SizeIsRead(n: nat, width: nat, blanks: seq<byte>)
    requires width > 0 && n < Eights(width) && Blank(blanks)
    ensures SizeOf(UpToNul(Octal(n, width) + blanks)) == Some(n)
  {
    var s := Octal(n, width);
    OctalIsDigits(n, width);
    assert OctalDigit(s[0]) && OctalDigit(s[width - 1]);
    TextThen(s, blanks);
    BlanksRead(blanks);
    var t := s + UpToNul(blanks);
    assert t[0] == s[0] && TrimLeft(t) == t;
    SpacesTrimmed(s, UpToNul(blanks));
    DigitsRead(n, width, []);
    assert s + [] == s;
  }

  // ---- headers ----

  lemma HeaderFields(e: Entry)
    requires e.Proper()
    ensures var h := Header(e);
      && h[0..100] == Filled(e.name, 100) && h[124..136] == Octal(e.size, e.digits) + e.blanks
      && h[156] == e.kind && h[345..500] == Filled(e.prefix, 155)
  {
  }

  ghost predicate HeaderFacts(bs: seq<byte>, e: Entry) {
    && |bs| >= BLOCK
    && Field(bs, 0, 100) == e.name && Field(bs, 345, 155) == e.prefix && bs[156] == e.kind
    && SizeOf(Field(bs, 124, 12)) == Some(e.size)
  }

  // What the reader finds in a member's header; closed, as in TarReader.
  ghost predicate HeadedBy(bs: seq<byte>, e: Entry) {
    forall u {:trigger Look(u)} :: Look(u) ==> HeaderFacts(bs, e)
  }

  lemma HeaderIsRead(e: Entry, bs: seq<byte>)
    requires e.Proper() && |bs| >= BLOCK && bs[..BLOCK] == Header(e)
    ensures HeadedBy(bs, e)
  {
    var h := bs[..BLOCK];
    HeaderFields(e);
    assert bs[0..100] == h[0..100] && bs[124..136] == h[124..136] && bs[345..500] == h[345..500];
    TextIsRead(e.name, 100 - |e.name|);
    TextIsRead(e.prefix, 155 - |e.prefix|);
    SizeIsRead(e.size, e.digits, e.blanks);
  }

  // ---- members ----

  // A member's header sends the reader to the next member if and only if its size is that
  // of what is in the archive.
  lemma LeadsToNext(e: Entry, off: nat)
    requires e.Proper()
    ensures NextHeader(off, e.size) == off + |Member(e)| <==> e.Plain()
  {
  }

  lemma WhatIsWritten(e: Entry, bs: seq<byte>, contents: seq<byte>)
    requires HeadedBy(bs, e) && e.name != [] && |bs| >= BLOCK && (e.Regular() ==> contents == e.contents)
    ensures Written(bs, contents) == Reported(e)
    ensures Field(bs, 0, 100) != [] && SizeOf(Field(bs, 124, 12)) == Some(e.size)
  {
    assert Look(0);
  }

  // The reader reports a member if it is regular and goes on where its size says.
  lemma StepsOver(e: Entry, bs: seq<byte>, gone: nat, rest: seq<byte>, next: nat, r: (seq<File>, Outcome))
    requires HeadedBy(bs, e) && e.name != [] && |bs| >= BLOCK
    requires (e.Regular() ==> Contents(bs, gone, Some(e.size)) == e.contents) && Drop(bs, Skip(e.size)) == rest
    requires next == gone + Skip(e.size) && Gives(rest, next, r)
    ensures Gives(bs, gone, Behind(Reported(e), r))
  {
    WhatIsWritten(e, bs, Contents(bs, gone, Some(e.size)));
    Follows(bs, gone, e.size, rest, next, r);
  }

  // A member whole, its header told by what the reader finds in it.
  lemma MemberPieces(e: Entry) returns (head: seq<byte>)
    requires e.Proper()
    ensures Member(e) == head + e.contents + e.pad && |head| == BLOCK
    ensures forall bs :: |bs| >= BLOCK && bs[..BLOCK] == head ==> HeadedBy(bs, e)
  {
    head := Header(e);
    forall bs | |bs| >= BLOCK && bs[..BLOCK] == head ensures HeadedBy(bs, e) {
      HeaderIsRead(e, bs);
    }
  }

  lemma PiecesGive(e: Entry, m: seq<byte>, head: seq<byte>, rest: seq<byte>, gone: nat, next: nat,
                   r: (seq<File>, Outcome))
    requires m == head + e.contents + e.pad && |head| == BLOCK && |e.contents| + |e.pad| == Padded(|e.contents|)
    requires e.name != [] && e.size == |e.contents| && HeadedBy(m + rest, e)
    requires next == gone + |m| && Gives(rest, next, r)
    ensures Gives(m + rest, gone, Behind(Reported(e), r))
  {
    PiecesRead(head, e.contents, e.pad, rest, gone);
    StepsOver(e, m + rest, gone, rest, next, r);
  }

  lemma MemberGives(e: Entry, rest: seq<byte>, gone: nat, next: nat, r: (seq<File>, Outcome))
    requires e.Proper() && e.Plain() && next == gone + |Member(e)| && Gives(rest, next, r)
    ensures Gives(Member(e) + rest, gone, Behind(Reported(e), r))
  {
    var head := MemberPieces(e);
    var m := Member(e);
    assert HeadedBy(m + rest, e) by {
      assert (m + rest)[..BLOCK] == head;
    }
    PiecesGive(e, m, head, rest, gone, next, r);
  }

  lemma Given(bs: seq<byte>, gone: nat, r: (seq<File>, Outcome))
    requires Gives(bs, gone, r)
    ensures Unpacked(bs, gone) == r
  {
    assert Look(0);
  }

  // One member is unpacked, and the rest after it.
  lemma MemberIsUnpacked(e: Entry, rest: seq<byte>, gone: nat, next: nat)
    requires e.Proper() && e.Plain() && next == gone + |Member(e)|
    ensures Unpacked(Member(e) + rest, gone) == Behind(Reported(e), Unpacked(rest, next))
  {
    var r := Unpacked(rest, next);
    assert Gives(rest, next, r);
    MemberGives(e, rest, gone, next, r);
    Given(Member(e) + rest, gone, Behind(Reported(e), r));
  }

  // The zeros at the end hold nothing.
  lemma {:induction false} ZerosAreEmpty(n: nat, gone: nat)
    ensures Unpacked(Zeros(n), gone) == ([], Ended)
    decreases n
  {
    if n >= BLOCK {
      assert Zeros(n)[0..100] == [] + Zeros(100);
      TextIsRead([], 100);
      assert Drop(Zeros(n), BLOCK) == Zeros(n - BLOCK);
      ZerosAreEmpty(n - BLOCK, gone + BLOCK);
    }
  }

  lemma {:induction false} ArchiveGives(es: seq<Entry>, zeros: nat, gone: nat)
    requires forall i :: 0 <= i < |es| ==> es[i].Proper() && es[i].Plain()
    ensures Gives(Archive(es, zeros), gone, (Files(es), Ended))
    decreases |es|
  {
    if es == [] {
      ZerosAreEmpty(zeros, gone);
    } else {
      var e := es[0];
      var next := gone + |Member(e)|;
      ArchiveGives(es[1..], zeros, next);
      MemberGives(e, Archive(es[1..], zeros), gone, next, (Files(es[1..]), Ended));
    }
  }

  // An archive is unpacked into its regular files, each under its full name and with its
  // contents, in order, whatever those contents are, if the members without contents
  // have a size of 0.
  lemma ArchiveIsUnpacked(es: seq<Entry>, zeros: nat)
    requires forall i :: 0 <= i < |es| ==> es[i].Proper() && es[i].Plain()
    ensures Unpacked(Archive(es, zeros), 0) == (Files(es), Ended)
  {
    ArchiveGives(es, zeros, 0);
    Given(Archive(es, zeros), 0, (Files(es), Ended));
  }

  // ---- when the size is not that of the contents ----

  function Simple(kind: byte, size: nat): (e: Entry)
    requires size < Eights(11)
    ensures e.Proper() <==> !Stores(kind) || size == 0
  {
    Entry([], ['x' as int], kind, size, 11, [0], [], [], Zeros(24), Zeros(20), Zeros(188), Zeros(12))
  }

  // A directory whose limit is up to a block's worth hides the empty file behind it.
  lemma LimitHides(dir: Entry, file: Entry, gone: nat)
    requires dir.Proper() && file.Proper() && !dir.Plain() && dir.size <= BLOCK && !dir.Regular() && file.contents == []
    ensures Unpacked(Member(dir) + Member(file), gone) == ([], Ended)
  {
    var head := MemberPieces(dir);
    var bs := Member(dir) + Member(file);
    assert dir.contents == [] && Padded(0) == 0 && Padded(dir.size) == BLOCK;
    assert bs[..BLOCK] == head && |bs| == 2 * BLOCK;
    assert Drop(bs, Skip(dir.size)) == [];
    var next := gone + Skip(dir.size);
    assert Gives([], next, ([], Ended));
    StepsOver(dir, bs, gone, [], next, ([], Ended));
    assert Look(0);
    BehindNothing(([], Ended));
  }

  lemma TwoMembers(a: Entry, b: Entry)
    requires a.Proper() && b.Proper()
    ensures Archive([a, b], 0) == Member(a) + Member(b) && Files([a, b]) == Reported(a) + Reported(b)
  {
    assert [a, b][1..] == [b] && [b][1..] == [];
    assert Archive([b], 0) == Member(b) + Archive([], 0);
    assert Member(b) + Zeros(0) == Member(b);
    assert Files([b]) == Reported(b) + Files([]);
  }

  lemma LimitHidesFile() returns (dir: Entry, file: Entry)
    ensures dir.Proper() && file.Proper() && !dir.Plain() && file.Regular()
    ensures Unpacked(Archive([dir, file], 0), 0) == ([], Ended) && |Files([dir, file])| == 1
  {
    assert Eights(4) == 4096 && Eights(11) >= 4096;
    dir, file := Simple('5' as int, 512), Simple('0' as int, 0);
    LimitHides(dir, file, 0);
    TwoMembers(dir, file);
  }

  // A header whose size reads "-1000" is read over and over: its file is reported, and
  // the next header is the same one.
  lemma StaysForEver(bs: seq<byte>, gone: nat)
    requires |bs| >= BLOCK && Field(bs, 0, 100) != []
    requires Field(bs, 124, 12) == ['-' as int, '1' as int, '0' as int, '0' as int, '0' as int]
    ensures Unpacked(bs, gone) == (Written(bs, []), SentBack)
    ensures SizeOf(Field(bs, 124, 12)) == Some(-512) && NextHeader(gone, -512) == gone
  {
    var t: seq<byte> := ['-' as int, '1' as int, '0' as int, '0' as int, '0' as int];
    var d: seq<byte> := ['1' as int, '0' as int, '0' as int, '0' as int];
    assert TrimLeft(t) == t && TrimRight(t) == t && t[1..] == d;
    assert Eights(3) == 512 && Eights(4) == 4096;
    assert Octal(512, 1) == ['0' as int] && Octal(1, 1) == ['1' as int];
    assert Octal(8, 2) == ['1' as int, '0' as int];
    assert Octal(64, 3) == ['1' as int, '0' as int, '0' as int];
    assert Octal(512, 4) == d;
    DigitsRead(512, 4, []);
    assert d + [] == d;
  }

  // An archive that begins so.
  lemma StuckArchive() returns (bs: seq<byte>)
    ensures |bs| == BLOCK && Unpacked(bs, 0) == ([], SentBack)
  {
    var size: seq<byte> := ['-' as int, '1' as int, '0' as int, '0' as int, '0' as int];
    bs := Filled(['x' as int], 100) + Zeros(24) + Filled(size, 12) + Zeros(20) + ['5' as int] + Zeros(355);
    assert bs[0..100] == Filled(['x' as int], 100) && bs[124..136] == Filled(size, 12) && bs[156] == '5' as int;
    TextIsRead(['x' as int], 99);
    TextIsRead(size, 7);
    StaysForEver(bs, 0);
  }
}
