// Reading one stored member out of a ZIP archive, and the archives it is read from.
module ZipReader {
  import opened Bytes

  const LOCAL_SIG: int := 0x04034b50
  const CENTRAL_SIG: int := 0x02014b50
  const END_SIG: int := 0x06054b50

  // What reading a member comes to; past the end is a read outside the file.
  datatype Outcome = Found(body: seq<byte>) | Refused | PastTheEnd

  // ---- the reader ----

  // Little-endian integers of the file.
  function Rd16(zip: seq<byte>, at: nat): nat
    requires at + 2 <= |zip|
  {
    var a: int, b: int := zip[at], zip[at + 1];
    a + 0x100 * b
  }

  function Rd32(zip: seq<byte>, at: nat): nat
    requires at + 4 <= |zip|
  {
    Rd16(zip, at) + 0x1_0000 * Rd16(zip, at + 2)
  }

  // They are the values of those bytes, the first counting least.
  lemma ReadsValues(zip: seq<byte>, at: nat)
    ensures at + 2 <= |zip| ==> Rd16(zip, at) == Value(zip[at..at + 2])
    ensures at + 4 <= |zip| ==> Rd32(zip, at) == Value(zip[at..at + 4])
  {
    if at + 2 <= |zip| {
      ValueOfTwo(zip[at..at + 2]);
    }
    if at + 4 <= |zip| {
      ValueOfFour(zip[at..at + 4]);
    }
  }

  // The signatures are "PK" and two bytes more.
  lemma SignaturesAre()
    ensures LOCAL_SIG == Value([0x50, 0x4b, 3, 4]) && CENTRAL_SIG == Value([0x50, 0x4b, 1, 2])
    ensures END_SIG == Value([0x50, 0x4b, 5, 6])
  {
    ValueOfFour([0x50, 0x4b, 3, 4]);
    ValueOfFour([0x50, 0x4b, 1, 2]);
    ValueOfFour([0x50, 0x4b, 5, 6]);
  }

  // The last place at or below i that has the signature of the end record; 0 if none.
  function EndRecord(zip: seq<byte>, i: nat): (eocd: nat)
    requires i + 4 <= |zip|
    ensures eocd <= i && (eocd > 0 ==> Rd32(zip, eocd) == END_SIG)
    ensures forall k :: eocd < k <= i ==> Rd32(zip, k) != END_SIG
  {
    if Rd32(zip, i) == END_SIG then i else if i == 0 then 0 else EndRecord(zip, i - 1)
  }

  // The stored bytes behind a local header.  The offsets are summed in 32 bits.
  function Extract(zip: seq<byte>, compression: nat, size: nat, local: nat): Outcome {
    if compression != 0 then Refused
    else if (local + 30) % U32 > |zip| then Refused
    else if local + 30 > |zip| then PastTheEnd
    else if Rd32(zip, local) != LOCAL_SIG then Refused
    else
      var body := (local + 30 + Rd16(zip, local + 26) + Rd16(zip, local + 28)) % U32;
      if body + size > |zip| then Refused else Found(zip[body..body + size])
  }

  // What the first `left` entries of the directory from `at` on say of a name.
  function Directory(zip: seq<byte>, want: seq<byte>, at: nat, left: nat): Outcome
    decreases left
  {
    if left == 0 || at + 46 > |zip| then Refused
    else if Rd32(zip, at) != CENTRAL_SIG then Refused
    else
      var nameLen := Rd16(zip, at + 28);
      if at + 46 + nameLen > |zip| then PastTheEnd
      else if zip[at + 46..at + 46 + nameLen] == want then
        Extract(zip, Rd16(zip, at + 10), Rd32(zip, at + 24), Rd32(zip, at + 42))
      else
        Directory(zip, want, at + 46 + nameLen + Rd16(zip, at + 30) + Rd16(zip, at + 32), left - 1)
  }

  function Member(zip: seq<byte>, want: seq<byte>): Outcome {
    if |zip| < 22 then Refused else
    var eocd := EndRecord(zip, |zip| - 22);
    if eocd == 0 then Refused else Directory(zip, want, Rd32(zip, eocd + 16), Rd16(zip, eocd + 10))
  }

  // The end record is behind a comment of unknown length: search back for it.
  method FindEnd(zip: seq<byte>) returns (eocd: nat)
    requires |zip| >= 22
    ensures eocd == EndRecord(zip, |zip| - 22)
  {
    var i: nat := |zip| - 22;
    while true
      invariant i <= |zip| - 22 && EndRecord(zip, |zip| - 22) == EndRecord(zip, i)
      decreases i
    {
      if Rd32(zip, i) == END_SIG {
        return i;
      }
      if i == 0 {
        return 0;
      }
      i := i - 1;
    }
  }

  method ReadStored(zip: seq<byte>, compression: nat, size: nat, local: nat) returns (r: Outcome)
    ensures r == Extract(zip, compression, size, local)
  {
    if compression != 0 {
      return Refused;
    }
    if (local + 30) % U32 > |zip| {
      return Refused;
    }
    if local + 30 > |zip| {
      return PastTheEnd;
    }
    if Rd32(zip, local) != LOCAL_SIG {
      return Refused;
    }
    var body := (local + 30 + Rd16(zip, local + 26) + Rd16(zip, local + 28)) % U32;
    if body + size > |zip| {
      return Refused;
    }
    return Found(zip[body..body + size]);
  }

  method ReadDirectory(zip: seq<byte>, want: seq<byte>, start: nat, count: nat) returns (r: Outcome)
    ensures r == Directory(zip, want, start, count)
  {
    var at: nat := start;
    var k: nat := 0;
    while k < count && at + 46 <= |zip|
      invariant k <= count && Directory(zip, want, start, count) == Directory(zip, want, at, count - k)
    {
      if Rd32(zip, at) != CENTRAL_SIG {
        return Refused;
      }
      var nameLen := Rd16(zip, at + 28);
      if at + 46 + nameLen > |zip| {
        return PastTheEnd;
      }
      if zip[at + 46..at + 46 + nameLen] == want {
        r := ReadStored(zip, Rd16(zip, at + 10), Rd32(zip, at + 24), Rd32(zip, at + 42));
        return;
      }
      at := at + 46 + nameLen + Rd16(zip, at + 30) + Rd16(zip, at + 32);
      k := k + 1;
    }
    return Refused;
  }

  method ZipMember(zip: seq<byte>, want: seq<byte>) returns (r: Outcome)
    ensures r == Member(zip, want)
  {
    if |zip| < 22 {
      return Refused;
    }
    var eocd := FindEnd(zip);
    if eocd == 0 {
      return Refused;
    }
    r := ReadDirectory(zip, want, Rd32(zip, eocd + 16), Rd16(zip, eocd + 10));
  }
}
