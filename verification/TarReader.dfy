// Unpacking a tar archive.
module TarReader {
  import opened Bytes

  const BLOCK: int := 512

  datatype File = File(name: seq<byte>, contents: seq<byte>)

  // The reader ends, or a header's size sends it back to where it has been.
  datatype Outcome = Ended | SentBack

  // ---- text fields ----

  function UpToNul(s: seq<byte>): (t: seq<byte>) {
    if s == [] || s[0] == 0 then [] else [s[0]] + UpToNul(s[1..])
  }

  predicate Space(b: byte) {
    9 <= b <= 13 || b == 32
  }

  function TrimLeft(s: seq<byte>): seq<byte> {
    if s != [] && Space(s[0]) then TrimLeft(s[1..]) else s
  }

  function TrimRight(s: seq<byte>): seq<byte> {
    if s != [] && Space(s[|s| - 1]) then TrimRight(s[..|s| - 1]) else s
  }

  function Trim(s: seq<byte>): seq<byte> {
    TrimRight(TrimLeft(s))
  }

  predicate OctalDigit(b: byte) {
    '0' as int <= b <= '7' as int
  }

  // The octal digits a text starts with, behind those already taken.
  function Digits(s: seq<byte>, sofar: nat): nat
    decreases |s|
  {
    if s != [] && OctalDigit(s[0]) then Digits(s[1..], 8 * sofar + (s[0] - '0' as int)) else sofar
  }

  // parseInt(s, 8): an optional sign and the digits there are; nothing if there are none.
  function ParseInt(s: seq<byte>): Option<int> {
    var minus := s != [] && s[0] == '-' as int;
    var rest := if s != [] && (minus || s[0] == '+' as int) then s[1..] else s;
    if rest == [] || !OctalDigit(rest[0]) then None
    else
      var v: int := Digits(rest, 0);
      Some(if minus then -v else v)
  }

  function SizeOf(text: seq<byte>): Option<int> {
    var t := Trim(text);
    if t == [] then Some(0) else ParseInt(t)
  }

  // ---- blocks ----

  function Field(head: seq<byte>, start: nat, len: nat): seq<byte>
    requires start + len <= BLOCK <= |head|
  {
    UpToNul(head[start..start + len])
  }

  function FullName(prefix: seq<byte>, name: seq<byte>): seq<byte> {
    if prefix == [] then name else prefix + ['/' as int] + name
  }

  // What is left of a stream after n bytes of it.
  function Drop(bs: seq<byte>, n: nat): (r: seq<byte>)
    ensures |r| == if n <= |bs| then |bs| - n else 0
  {
    if n <= |bs| then bs[n..] else []
  }

  // The blocks that contents of a size take up.
  function Padded(size: nat): (n: nat)
    ensures n % BLOCK == 0 && size <= n < size + BLOCK
  {
    (size + 511) / BLOCK * BLOCK
  }

  // How far the next header is.
  function Skip(size: int): nat {
    BLOCK + if size > 0 then Padded(size) else 0
  }

  // Where the reader goes from the header at off: rounding to whole blocks is upwards, so
  // for a negative size it is towards zero.
  function NextHeader(off: nat, size: int): int {
    off + BLOCK + if size >= 0 then Padded(size) else -(-size / BLOCK * BLOCK)
  }

  // It gets further unless the size is a block's worth below zero.
  lemma AdvancesIf(off: nat, size: int)
    ensures NextHeader(off, size) > off <==> size > -BLOCK
    ensures size > -BLOCK ==> NextHeader(off, size) == off + Skip(size)
  {
    if size < 0 {
      var blocks := -size / BLOCK;
      assert blocks == 0 <==> -size < BLOCK;
    }
  }

  // What an end of subarray comes to: counted back from the end if it is negative, and
  // never past it.
  function Clip(end: int, total: nat): (stop: nat)
    ensures stop <= total
  {
    if end >= 0 then (if end < total then end else total)
    else if total + end > 0 then total + end
    else 0
  }

  // Where contents that begin at `at` end; a size that is no number counts as ending at 0.
  function EndOf(at: nat, size: Option<int>): int {
    if size.None? then 0 else at + size.value
  }

  // bytes.subarray(at, at + size)
  function Subarray(bytes: seq<byte>, at: nat, size: Option<int>): seq<byte>
    requires at <= |bytes|
  {
    var stop := Clip(EndOf(at, size), |bytes|);
    if stop > at then bytes[at..stop] else []
  }

  // The contents behind the header that what is left of an archive starts with, when
  // `gone` bytes of it are behind.
  function Contents(bs: seq<byte>, gone: nat, size: Option<int>): seq<byte>
    requires |bs| >= BLOCK
  {
    var stop := Clip(EndOf(gone + BLOCK, size), gone + |bs|);
    if stop > gone + BLOCK then bs[BLOCK..stop - gone] else []
  }

  // A regular file is reported; anything else is not.
  function Written(head: seq<byte>, contents: seq<byte>): seq<File>
    requires |head| >= BLOCK
  {
    if head[156] == '0' as int || head[156] == 0 then [File(FullName(Field(head, 345, 155), Field(head, 0, 100)), contents)]
    else []
  }

  function Behind(files: seq<File>, r: (seq<File>, Outcome)): (seq<File>, Outcome) {
    (files + r.0, r.1)
  }

  // The files of what is left of an archive, in order.
  function Unpacked(bs: seq<byte>, gone: nat): (r: (seq<File>, Outcome))
    decreases |bs|
  {
    if |bs| < BLOCK then ([], Ended)
    else if Field(bs, 0, 100) == [] then Unpacked(Drop(bs, BLOCK), gone + BLOCK)
    else
      var size := SizeOf(Field(bs, 124, 12));
      var files := Written(bs, Contents(bs, gone, size));
      if size.None? then (files, Ended)
      else if size.value <= -BLOCK then (files, SentBack)
      else Behind(files, Unpacked(Drop(bs, Skip(size.value)), gone + Skip(size.value)))
  }

  // The pieces of a member: what the reader takes for contents, and where it goes on.
  lemma PiecesRead(head: seq<byte>, contents: seq<byte>, pad: seq<byte>, rest: seq<byte>, gone: nat)
    requires |head| == BLOCK && |contents| + |pad| == Padded(|contents|)
    ensures var bs := head + contents + pad + rest;
      && bs[..BLOCK] == head && Contents(bs, gone, Some(|contents|)) == contents
      && Drop(bs, Skip(|contents|)) == rest
  {
    var bs := head + contents + pad + rest;
    assert bs[BLOCK..BLOCK + |contents|] == contents;
    assert bs[BLOCK + Padded(|contents|)..] == rest;
  }

  // The text of a field of the header at off.
  function FieldAt(bytes: seq<byte>, off: nat, start: nat, len: nat): seq<byte>
    requires start + len <= BLOCK && off + BLOCK <= |bytes|
  {
    UpToNul(bytes[off + start..off + start + len])
  }

  // A header, seen from what is left of the archive there.
  lemma FieldFromHere(bytes: seq<byte>, off: nat, start: nat, len: nat)
    requires start + len <= BLOCK && off + BLOCK <= |bytes|
    ensures Field(Drop(bytes, off), start, len) == FieldAt(bytes, off, start, len)
  {
    assert bytes[off..][start..start + len] == bytes[off + start..off + start + len];
  }

  lemma ContentsFromHere(bytes: seq<byte>, off: nat, size: Option<int>)
    requires off + BLOCK <= |bytes|
    ensures Contents(Drop(bytes, off), off, size) == Subarray(bytes, off + BLOCK, size)
  {
  }

  lemma DropDrop(bytes: seq<byte>, off: nat, n: nat)
    ensures Drop(Drop(bytes, off), n) == Drop(bytes, off + n)
  {
  }

  // What the header at off has the caller write.
  method Report(bytes: seq<byte>, off: nat, name: seq<byte>, size: Option<int>) returns (files: seq<File>)
    requires off + BLOCK <= |bytes| && name == Field(Drop(bytes, off), 0, 100)
    ensures files == Written(Drop(bytes, off), Contents(Drop(bytes, off), off, size))
  {
    var kind := bytes[off + 156];
    var prefix := FieldAt(bytes, off, 345, 155);
    FieldFromHere(bytes, off, 345, 155);
    ContentsFromHere(bytes, off, size);
    assert kind == Drop(bytes, off)[156];
    files := [];
    if kind == '0' as int || kind == 0 {
      files := [File(FullName(prefix, name), Subarray(bytes, off + BLOCK, size))];
    }
  }

  // ---- the loop ----

  // The two predicates below are closed: what they say is seen only where Look is
  // mentioned.
  ghost predicate Look(u: int) {
    true
  }

  ghost predicate Gives(bs: seq<byte>, gone: nat, r: (seq<File>, Outcome)) {
    forall u {:trigger Look(u)} :: Look(u) ==> Unpacked(bs, gone) == r
  }

  lemma StepsOn(bs: seq<byte>, gone: nat, size: nat, next: nat)
    requires |bs| >= BLOCK && Field(bs, 0, 100) != [] && SizeOf(Field(bs, 124, 12)) == Some(size)
    requires next == gone + Skip(size)
    ensures Unpacked(bs, gone) == Behind(Written(bs, Contents(bs, gone, Some(size))), Unpacked(Drop(bs, Skip(size)), next))
  {
  }

  // From a header with a name and a size the reader goes on behind its contents.
  lemma Follows(bs: seq<byte>, gone: nat, size: nat, rest: seq<byte>, next: nat, r: (seq<File>, Outcome))
    requires |bs| >= BLOCK && Field(bs, 0, 100) != [] && SizeOf(Field(bs, 124, 12)) == Some(size)
    requires rest == Drop(bs, Skip(size)) && next == gone + Skip(size) && Gives(rest, next, r)
    ensures Gives(bs, gone, Behind(Written(bs, Contents(bs, gone, Some(size))), r))
  {
    StepsOn(bs, gone, size, next);
    assert Unpacked(rest, next) == r by {
      assert Look(0);
    }
  }

  // Of all the files of an archive those got so far, and those of what is left of it.
  ghost predicate Going(bytes: seq<byte>, files: seq<File>, left: seq<byte>, off: nat) {
    forall u {:trigger Look(u)} :: Look(u) ==> Unpacked(bytes, 0) == Behind(files, Unpacked(left, off))
  }

  lemma BehindNothing(r: (seq<File>, Outcome))
    ensures Behind([], r) == r
  {
    assert [] + r.0 == r.0;
  }

  lemma Begins(bytes: seq<byte>)
    ensures Going(bytes, [], bytes, 0)
  {
    BehindNothing(Unpacked(bytes, 0));
  }

  lemma SkipsBlank(bytes: seq<byte>, files: seq<File>, left: seq<byte>, off: nat, rest: seq<byte>, next: nat)
    requires Going(bytes, files, left, off) && |left| >= BLOCK && Field(left, 0, 100) == []
    requires rest == Drop(left, BLOCK) && next == off + BLOCK
    ensures Going(bytes, files, rest, next)
  {
    assert Look(0);
  }

  lemma BehindBoth(a: seq<File>, b: seq<File>, r: (seq<File>, Outcome))
    ensures Behind(a, Behind(b, r)) == Behind(a + b, r)
  {
    assert a + (b + r.0) == a + b + r.0;
  }

  lemma GoesOn(bytes: seq<byte>, files: seq<File>, left: seq<byte>, off: nat, size: int, more: seq<File>,
               rest: seq<byte>, next: nat)
    requires Going(bytes, files, left, off) && |left| >= BLOCK && Field(left, 0, 100) != []
    requires SizeOf(Field(left, 124, 12)) == Some(size) && size > -BLOCK
    requires more == Written(left, Contents(left, off, Some(size)))
    requires rest == Drop(left, Skip(size)) && next == off + Skip(size)
    ensures Going(bytes, files + more, rest, next)
  {
    assert Look(0);
    BehindBoth(files, more, Unpacked(rest, next));
  }

  lemma Stops(bytes: seq<byte>, files: seq<File>, left: seq<byte>, off: nat, size: Option<int>, more: seq<File>)
    requires Going(bytes, files, left, off) && |left| >= BLOCK && Field(left, 0, 100) != []
    requires size == SizeOf(Field(left, 124, 12)) && (size.Some? ==> size.value <= -BLOCK)
    requires more == Written(left, Contents(left, off, size))
    ensures Unpacked(bytes, 0) == (files + more, if size.None? then Ended else SentBack)
  {
    assert Look(0);
  }

  lemma Ends(bytes: seq<byte>, files: seq<File>, left: seq<byte>, off: nat)
    requires Going(bytes, files, left, off) && |left| < BLOCK
    ensures Unpacked(bytes, 0) == (files, Ended)
  {
    assert Look(0);
    assert files + [] == files;
  }

  method Untar(bytes: seq<byte>) returns (files: seq<File>, outcome: Outcome)
    ensures (files, outcome) == Unpacked(bytes, 0)
  {
    files := [];
    var off: nat := 0;
    ghost var left := bytes;
    Begins(bytes);
    while off + BLOCK <= |bytes|
      invariant left == Drop(bytes, off) && Going(bytes, files, left, off)
      decreases |bytes| - off
    {
      var name := FieldAt(bytes, off, 0, 100);
      FieldFromHere(bytes, off, 0, 100);
      var next := off + BLOCK;
      ghost var rest := Drop(left, BLOCK);
      DropDrop(bytes, off, BLOCK);
      if name == [] {
        SkipsBlank(bytes, files, left, off, rest, next);
      } else {
        var size := SizeOf(FieldAt(bytes, off, 124, 12));
        FieldFromHere(bytes, off, 124, 12);
        var more := Report(bytes, off, name, size);
        if size.None? || size.value <= -BLOCK {
          Stops(bytes, files, left, off, size, more);
          return files + more, if size.None? then Ended else SentBack;
        }
        next, rest := off + Skip(size.value), Drop(left, Skip(size.value));
        DropDrop(bytes, off, Skip(size.value));
        GoesOn(bytes, files, left, off, size.value, more, rest, next);
        files := files + more;
      }
      left, off := rest, next;
    }
    Ends(bytes, files, left, off);
    outcome := Ended;
  }
}
