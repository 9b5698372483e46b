// ZIP archives as section 4.3 of PKWARE's APPNOTE lays them out, and what the reader makes
// of them.
module ZipArchives {
  import opened Bytes
  import opened ZipReader

  // A member, piece by piece as the archive has it: its local header, name, extra field
  // and data, compressed or not; and in the directory its entry, name, extra field and
  // comment.
  datatype Entry = Entry(localHead: seq<byte>, localName: seq<byte>, localExtra: seq<byte>, body: seq<byte>,
                         centralHead: seq<byte>, name: seq<byte>, extra: seq<byte>, comment: seq<byte>)
  {
    // The fields of the two headers that describe the other pieces do describe them.  The
    // data are as long as they are compressed; of a stored member that is its size, unless
    // encryption put something in front.
    predicate Proper() {
      && |localHead| == 30 && Rd32(localHead, 0) == LOCAL_SIG
      && Rd16(localHead, 26) == |localName| && Rd16(localHead, 28) == |localExtra|
      && |centralHead| == 46 && Rd32(centralHead, 0) == CENTRAL_SIG && Rd32(centralHead, 20) == |body|
      && (Rd16(centralHead, 10) == 0 ==>
            Rd32(centralHead, 24) <= |body| && (Rd16(centralHead, 8) % 2 == 0 ==> Rd32(centralHead, 24) == |body|))
      && Rd16(centralHead, 28) == |name| && Rd16(centralHead, 30) == |extra| && Rd16(centralHead, 32) == |comment|
    }

    function Compression(): nat
      requires Proper()
    {
      Rd16(centralHead, 10)
    }

    predicate Encrypted()
      requires Proper()
    {
      Rd16(centralHead, 8) % 2 == 1
    }

    // The size of the member when it is not compressed.
    function Size(): nat
      requires Proper()
    {
      Rd32(centralHead, 24)
    }

    // The local header the entry points at.
    function Offset(): nat {
      if |centralHead| == 46 then Rd32(centralHead, 42) else 0
    }

    function Local(): (r: seq<byte>)
      ensures |r| == |localHead| + |localName| + |localExtra| + |body|
    {
      localHead + (localName + localExtra) + body
    }

    // How much of the directory it takes.
    function Length(): nat {
      46 + |name| + |extra| + |comment|
    }

    function Central(): (r: seq<byte>)
      ensures |r| == |centralHead| + |name| + |extra| + |comment|
    {
      centralHead + name + (extra + comment)
    }
  }

  // The directory.
  function Centrals(es: seq<Entry>): (r: seq<byte>) {
    if es == [] then [] else es[0].Central() + Centrals(es[1..])
  }

  // The first member of a name.
  function Named(es: seq<Entry>, want: seq<byte>): Option<Entry> {
    if es == [] then None
    else if es[0].name == want then Some(es[0])
    else Named(es[1..], want)
  }

  lemma {:induction false} NamedIsFirst(es: seq<Entry>, want: seq<byte>, i: nat)
    requires i < |es| && es[i].name == want && forall j :: 0 <= j < i ==> es[j].name != want
    ensures Named(es, want) == Some(es[i])
  {
    if i > 0 {
      NamedIsFirst(es[1..], want, i - 1);
    }
  }

  lemma {:induction false} NamedIsNone(es: seq<Entry>, want: seq<byte>)
    requires forall i :: 0 <= i < |es| ==> es[i].name != want
    ensures Named(es, want) == None
  {
    if es != [] {
      NamedIsNone(es[1..], want);
    }
  }

  // What the reader gives: of the first member of the name, if that is stored, as many of
  // its data as it is long.
  function Due(es: seq<Entry>, want: seq<byte>): Outcome {
    match Named(es, want)
    case None => Refused
    case Some(e) => if e.Proper() && e.Compression() == 0 then Found(e.body[..e.Size()]) else Refused
  }

  // That is all of them unless it is encrypted; and a compressed one is refused.
  lemma DueIsBody(es: seq<Entry>, want: seq<byte>, i: nat)
    requires i < |es| && es[i].name == want && es[i].Proper() && forall j :: 0 <= j < i ==> es[j].name != want
    ensures es[i].Compression() != 0 ==> Due(es, want) == Refused
    ensures es[i].Compression() == 0 ==> Due(es, want) == Found(es[i].body[..es[i].Size()])
    ensures es[i].Compression() == 0 && !es[i].Encrypted() ==> Due(es, want) == Found(es[i].body)
  {
    NamedIsFirst(es, want, i);
  }

  // ---- pieces ----

  // The predicates below are closed: what they say is seen only where Look is mentioned.
  ghost predicate Look(u: int) {
    true
  }

  // b stands in a from offset at on.
  ghost predicate Stands(a: seq<byte>, at: nat, b: seq<byte>) {
    forall u {:trigger Look(u)} :: Look(u) ==> at + |b| <= |a| && a[at..at + |b|] == b
  }

  // Two pieces stand in order.
  lemma StandsSplit(a: seq<byte>, at: nat, x: seq<byte>, y: seq<byte>)
    requires Stands(a, at, x + y)
    ensures Stands(a, at, x) && Stands(a, at + |x|, y)
  {
    assert Look(0);
    var b, n := x + y, at + |x|;
    assert b[..|x|] == x && b[|x|..] == y;
    assert a[at..n] == a[at..at + |b|][..|x|];
    assert a[n..n + |y|] == a[at..at + |b|][|x|..];
  }

  lemma StandsInside(a: seq<byte>, at: nat, b: seq<byte>)
    requires Stands(a, at, b)
    ensures at + |b| <= |a| && a[at..at + |b|] == b
    ensures forall k :: 0 <= k < |b| ==> a[at + k] == b[k]
  {
    assert Look(0);
    forall k | 0 <= k < |b| ensures a[at + k] == b[k] {
      assert a[at..at + |b|][k] == a[at + k];
    }
  }

  lemma Field16(a: seq<byte>, at: nat, head: seq<byte>, off: nat)
    requires Stands(a, at, head) && off + 2 <= |head|
    ensures at + off + 2 <= |a| && Rd16(a, at + off) == Rd16(head, off)
  {
    StandsInside(a, at, head);
    assert a[at + off] == head[off] && a[at + (off + 1)] == head[off + 1];
  }

  lemma Field32(a: seq<byte>, at: nat, head: seq<byte>, off: nat)
    requires Stands(a, at, head) && off + 4 <= |head|
    ensures at + off + 4 <= |a| && Rd32(a, at + off) == Rd32(head, off)
  {
    Field16(a, at, head, off);
    Field16(a, at, head, off + 2);
  }

  // ---- the layout ----

  ghost predicate MemberStands(zip: seq<byte>, e: Entry) {
    e.Proper() && Stands(zip, e.Offset(), e.Local())
  }

  ghost predicate EndFacts(h: seq<byte>, count: nat, at: nat, comment: nat) {
    && |h| == 22 && Rd32(h, 0) == END_SIG && Rd16(h, 10) == count
    && Rd32(h, 16) == at && Rd16(h, 20) == comment
  }

  // An end record tells the number of entries, where the directory is and how long the
  // comment is.
  ghost predicate EndSays(h: seq<byte>, count: nat, at: nat, comment: nat) {
    forall u {:trigger Look(u)} :: Look(u) ==> EndFacts(h, count, at, comment)
  }

  // An archive: its members anywhere and in any order, each where its entry says; the
  // directory, where the end record says; and after it, with or without something
  // between, the end record, with a comment up to the end of the file.
  ghost predicate WellFormed(zip: seq<byte>, es: seq<Entry>, at: nat, eocd: nat, endHead: seq<byte>, comment: seq<byte>) {
    && |zip| < U32 && (forall i :: 0 <= i < |es| ==> MemberStands(zip, es[i]))
    && Stands(zip, at, Centrals(es)) && at + |Centrals(es)| <= eocd
    && Stands(zip, eocd, endHead + comment) && eocd + 22 + |comment| == |zip|
    && |endHead| == 22 && EndSays(endHead, |es|, at, |comment|)
  }

  // ---- what is read ----

  // What the reader sees of a directory entry.
  ghost predicate EntryFacts(zip: seq<byte>, at: nat, e: Entry) {
    && e.Proper() && at + 46 + |e.name| <= |zip|
    && Rd32(zip, at) == CENTRAL_SIG && Rd16(zip, at + 10) == e.Compression() && Rd32(zip, at + 24) == e.Size()
    && Rd16(zip, at + 28) == |e.name| && Rd16(zip, at + 30) == |e.extra| && Rd16(zip, at + 32) == |e.comment|
    && Rd32(zip, at + 42) == e.Offset() && zip[at + 46..at + 46 + |e.name|] == e.name
  }

  ghost predicate EntryRead(zip: seq<byte>, at: nat, e: Entry) {
    forall u {:trigger Look(u)} :: Look(u) ==> EntryFacts(zip, at, e)
  }

  lemma CentralRead(zip: seq<byte>, at: nat, e: Entry)
    requires e.Proper() && Stands(zip, at, e.Central())
    ensures EntryRead(zip, at, e)
  {
    var head := e.centralHead;
    StandsSplit(zip, at, head + e.name, e.extra + e.comment);
    StandsSplit(zip, at, head, e.name);
    Field32(zip, at, head, 0);
    Field16(zip, at, head, 10);
    Field32(zip, at, head, 24);
    Field16(zip, at, head, 28);
    Field16(zip, at, head, 30);
    Field16(zip, at, head, 32);
    Field32(zip, at, head, 42);
    StandsInside(zip, at + 46, e.name);
  }

  // What it sees of a local header.
  ghost predicate LocalFacts(zip: seq<byte>, local: nat, e: Entry) {
    && local + 30 <= |zip| && Rd32(zip, local) == LOCAL_SIG
    && Rd16(zip, local + 26) == |e.localName| && Rd16(zip, local + 28) == |e.localExtra|
    && Stands(zip, local + 30 + |e.localName| + |e.localExtra|, e.body)
  }

  ghost predicate LocalRead(zip: seq<byte>, local: nat, e: Entry) {
    forall u {:trigger Look(u)} :: Look(u) ==> LocalFacts(zip, local, e)
  }

  lemma HeaderRead(zip: seq<byte>, e: Entry, local: nat)
    requires e.Proper() && Stands(zip, local, e.Local())
    ensures LocalRead(zip, local, e)
  {
    var head, names := e.localHead, e.localName + e.localExtra;
    StandsSplit(zip, local, head + names, e.body);
    StandsSplit(zip, local, head, names);
    Field32(zip, local, head, 0);
    Field16(zip, local, head, 26);
    Field16(zip, local, head, 28);
  }

  lemma Fits(n: nat)
    requires n < U32
    ensures n % U32 == n
  {
  }

  // A stored member's contents, wherever its local header is.
  lemma ExtractFinds(zip: seq<byte>, local: nat, e: Entry, size: nat)
    requires LocalRead(zip, local, e) && |zip| < U32 && size <= |e.body|
    ensures Extract(zip, 0, size, local) == Found(e.body[..size])
  {
    assert Look(0);
    var body := local + 30 + |e.localName| + |e.localExtra|;
    StandsInside(zip, body, e.body);
    assert zip[body..body + size] == e.body[..size];
    Fits(local + 30);
    Fits(body);
  }

  // An entry of another name is passed over.
  lemma EntryPassed(zip: seq<byte>, e: Entry, at: nat, next: nat, left: nat, want: seq<byte>)
    requires EntryRead(zip, at, e) && left > 0 && e.name != want && next == at + e.Length()
    ensures Directory(zip, want, at, left) == Directory(zip, want, next, left - 1)
  {
    assert Look(0);
  }

  // An entry of the name decides.
  lemma EntryDecides(zip: seq<byte>, e: Entry, at: nat, left: nat, want: seq<byte>)
    requires EntryRead(zip, at, e) && left > 0 && e.name == want
    ensures e.Proper() && Directory(zip, want, at, left) == Extract(zip, e.Compression(), e.Size(), e.Offset())
  {
    assert Look(0);
  }

  ghost predicate Leads(zip: seq<byte>, es: seq<Entry>, at: nat, want: seq<byte>) {
    forall u {:trigger Look(u)} :: Look(u) ==> Directory(zip, want, at, |es|) == Due(es, want)
  }

  lemma Led(zip: seq<byte>, es: seq<Entry>, at: nat, want: seq<byte>)
    requires Leads(zip, es, at, want)
    ensures Directory(zip, want, at, |es|) == Due(es, want)
  {
    assert Look(0);
  }

  lemma DueFromNext(es: seq<Entry>, want: seq<byte>)
    requires es != [] && es[0].name != want
    ensures Due(es, want) == Due(es[1..], want)
  {
  }

  lemma PassedLeads(zip: seq<byte>, es: seq<Entry>, at: nat, next: nat, want: seq<byte>)
    requires es != [] && EntryRead(zip, at, es[0]) && es[0].name != want && next == at + es[0].Length()
    requires Leads(zip, es[1..], next, want)
    ensures Leads(zip, es, at, want)
  {
    EntryPassed(zip, es[0], at, next, |es|, want);
    DueFromNext(es, want);
    Led(zip, es[1..], next, want);
  }

  lemma DecidedLeads(zip: seq<byte>, es: seq<Entry>, at: nat, want: seq<byte>)
    requires es != [] && EntryRead(zip, at, es[0]) && LocalRead(zip, es[0].Offset(), es[0]) && |zip| < U32
    requires es[0].name == want
    ensures Leads(zip, es, at, want)
  {
    var e := es[0];
    EntryDecides(zip, e, at, |es|, want);
    if e.Compression() == 0 {
      ExtractFinds(zip, e.Offset(), e, e.Size());
    }
  }

  // An entry, and what comes after it.
  lemma CentralPart(zip: seq<byte>, e: Entry, at: nat, next: nat, whole: seq<byte>, rest: seq<byte>)
    requires e.Proper() && Stands(zip, at, whole) && whole == e.Central() + rest && next == at + e.Length()
    ensures EntryRead(zip, at, e) && Stands(zip, next, rest)
  {
    StandsSplit(zip, at, e.Central(), rest);
    CentralRead(zip, at, e);
  }

  // A directory whose members are where it says leads to what is due.
  lemma {:induction false} DirectoryFinds(zip: seq<byte>, es: seq<Entry>, at: nat, want: seq<byte>)
    requires |zip| < U32 && Stands(zip, at, Centrals(es))
    requires forall i :: 0 <= i < |es| ==> MemberStands(zip, es[i])
    ensures Leads(zip, es, at, want)
    decreases |es|
  {
    if es != [] {
      var e, more := es[0], es[1..];
      var next := at + e.Length();
      CentralPart(zip, e, at, next, Centrals(es), Centrals(more));
      if e.name == want {
        HeaderRead(zip, e, e.Offset());
        DecidedLeads(zip, es, at, want);
      } else {
        DirectoryFinds(zip, more, next, want);
        PassedLeads(zip, es, at, next, want);
      }
    }
  }

  // ---- the end record ----

  // The last signature of an end record is found, whichever it is.
  lemma {:induction false} EndRecordIsLast(zip: seq<byte>, eocd: nat, i: nat)
    requires |zip| >= 22 && eocd <= i <= |zip| - 22 && Rd32(zip, eocd) == END_SIG
    ensures EndRecord(zip, i) == eocd <==> forall k :: eocd < k <= i ==> Rd32(zip, k) != END_SIG
    decreases i
  {
    if eocd < i && Rd32(zip, i) != END_SIG {
      EndRecordIsLast(zip, eocd, i - 1);
    }
  }

  lemma LeadsToMember(zip: seq<byte>, count: nat, eocd: nat, at: nat, want: seq<byte>)
    requires |zip| >= 22 && EndRecord(zip, |zip| - 22) == eocd && (eocd == 0 ==> count == 0) && eocd + 22 <= |zip|
    requires eocd > 0 ==> Rd16(zip, eocd + 10) == count && Rd32(zip, eocd + 16) == at
    ensures Member(zip, want) == Directory(zip, want, at, count)
  {
  }

  // ---- the whole archive ----

  lemma EndIsRead(zip: seq<byte>, count: nat, at: nat, eocd: nat, endHead: seq<byte>, comment: seq<byte>)
    requires Stands(zip, eocd, endHead + comment) && EndSays(endHead, count, at, |comment|)
    ensures eocd + 22 <= |zip| && Rd32(zip, eocd) == END_SIG && Rd16(zip, eocd + 10) == count && Rd32(zip, eocd + 16) == at
  {
    assert Look(0);
    StandsSplit(zip, eocd, endHead, comment);
    Field32(zip, eocd, endHead, 0);
    Field16(zip, eocd, endHead, 10);
    Field32(zip, eocd, endHead, 16);
  }

  // Reading a member of a well-formed archive gives what is due, whatever its members
  // hold, unless its comment holds what looks like another end record.
  lemma MemberIsRead(zip: seq<byte>, es: seq<Entry>, at: nat, eocd: nat, endHead: seq<byte>, comment: seq<byte>, want: seq<byte>)
    requires WellFormed(zip, es, at, eocd, endHead, comment)
    requires forall k :: eocd < k <= |zip| - 22 ==> Rd32(zip, k) != END_SIG
    ensures Member(zip, want) == Due(es, want)
  {
    EndIsRead(zip, |es|, at, eocd, endHead, comment);
    EndRecordIsLast(zip, eocd, |zip| - 22);
    DirectoryFinds(zip, es, at, want);
    LeadsToMember(zip, |es|, eocd, at, want);
    Led(zip, es, at, want);
  }

  // So of a member that is the first of its name one gets the exact contents if it is
  // stored, and nothing if it is compressed, whatever the other members are.  One that is
  // stored and encrypted is given as it stands, up to its size.
  lemma MemberIsGiven(zip: seq<byte>, es: seq<Entry>, at: nat, eocd: nat, endHead: seq<byte>, comment: seq<byte>, i: nat)
    requires WellFormed(zip, es, at, eocd, endHead, comment)
    requires forall k :: eocd < k <= |zip| - 22 ==> Rd32(zip, k) != END_SIG
    requires i < |es| && forall j :: 0 <= j < i ==> es[j].name != es[i].name
    ensures es[i].Proper()
    ensures es[i].Compression() != 0 ==> Member(zip, es[i].name) == Refused
    ensures es[i].Compression() == 0 ==> Member(zip, es[i].name) == Found(es[i].body[..es[i].Size()])
    ensures es[i].Compression() == 0 && !es[i].Encrypted() ==> Member(zip, es[i].name) == Found(es[i].body)
  {
    MemberIsRead(zip, es, at, eocd, endHead, comment, es[i].name);
    DueIsBody(es, es[i].name, i);
  }
}
