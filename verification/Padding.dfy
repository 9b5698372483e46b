// The padding all three digests share: a bit, zeros up to eight bytes short of a whole
// block, and the length of the message in bits.
module Padding {
  import opened Bytes
  import opened Division

  const BLOCK: int := 64

  // How far into its block the n-th byte is.
  function Offset(n: nat): (r: nat)
    ensures r < BLOCK
  {
    n % BLOCK
  }

  // How many zeros follow the first byte of padding: as few as will do.
  function Zeros(n: nat): (k: nat)
    ensures k < BLOCK && Offset(n + 1 + k) == 56
    ensures forall m :: n + 1 <= m < n + 1 + k ==> Offset(m) != 56
  {
    var off := Offset(n + 1);
    if off <= 56 then 56 - off else 120 - off
  }

  function Reversed(os: seq<byte>): (r: seq<byte>)
    ensures |r| == |os|
  {
    seq(|os|, i requires 0 <= i < |os| => os[|os| - 1 - i])
  }

  // The length field: eight bytes, lowest or highest first.
  function Field(bits: nat, little: bool): (r: seq<byte>)
    ensures |r| == 8
  {
    var low := Little(bits, 8);
    if little then low else Reversed(low)
  }

  function Padded(msg: seq<byte>, little: bool): (r: seq<byte>)
    ensures |r| == |msg| + 1 + Zeros(|msg|) + 8
  {
    msg + [0x80] + seq(Zeros(|msg|), i => 0) + Field(|msg| * 8 % U64, little)
  }

  // Byte k of a number.
  function ByteOf(v: nat, k: nat): byte {
    v / Power256(k) % 256
  }

  lemma DivideTwice(v: nat, p: nat)
    requires p > 0
    ensures v / 256 / p == v / (256 * p)
  {
    var a := v / 256;
    var q, r := a / p, a % p;
    var d, rest := 256 * p, 256 * r + v % 256;
    assert v == 256 * (q * p + r) + v % 256;
    assert q * d == 256 * (q * p);
    assert rest < d;
    Unique(v, d, q, rest);
  }

  lemma {:induction false} LittleAt(v: nat, width: nat, k: nat)
    requires k < width
    ensures Little(v, width)[k] == ByteOf(v, k)
    decreases k
  {
    if k > 0 {
      LittleAt(v / 256, width - 1, k - 1);
      DivideTwice(v, Power256(k - 1));
    }
  }

  // The eight bytes of the length.
  method PadLength(bits: nat, little: bool) returns (out: seq<byte>)
    ensures out == Field(bits, little)
  {
    out := [];
    for i := 0 to 8
      invariant |out| == i
      invariant forall j :: 0 <= j < i ==> out[j] == ByteOf(bits, if little then j else 7 - j)
    {
      out := out + [ByteOf(bits, if little then i else 7 - i)];
    }
    forall j | 0 <= j < 8 ensures out[j] == Field(bits, little)[j] {
      LittleAt(bits, 8, if little then j else 7 - j);
    }
  }

  method Pad(msg: seq<byte>, little: bool) returns (out: seq<byte>)
    ensures out == Padded(msg, little)
  {
    out := msg;
    var bits := |msg| * 8 % U64;
    out := out + [0x80];
    ghost var zeros := 0;
    while Offset(|out|) != 56
      invariant zeros <= Zeros(|msg|) && out == msg + [0x80] + seq(zeros, i => 0)
      decreases Zeros(|msg|) - zeros
    {
      out := out + [0];
      zeros := zeros + 1;
    }
    var field := PadLength(bits, little);
    out := out + field;
  }

  // ---- undoing it ----

  function Length(field: seq<byte>, little: bool): nat
    requires |field| == 8
  {
    Value(if little then field else Reversed(field))
  }

  lemma FieldIsRead(bits: nat, little: bool)
    requires bits < U64
    ensures Length(Field(bits, little), little) == bits
  {
    var low := Little(bits, 8);
    assert Reversed(Reversed(low)) == low;
    Widths();
    LittleValue(bits, 8);
  }

  // The message whose length a padded message ends with.
  function Unpadded(p: seq<byte>, little: bool): seq<byte>
    requires |p| >= 8
  {
    var n := Length(p[|p| - 8..], little) / 8;
    if n <= |p| then p[..n] else p
  }

  lemma EightMore(n: nat)
    requires Offset(n) == 56
    ensures (n + 8) % BLOCK == 0
  {
    Unique(n + 8, BLOCK, n / BLOCK + 1, 0);
  }

  lemma WholeBlocks(msg: seq<byte>, little: bool)
    ensures |Padded(msg, little)| % BLOCK == 0
  {
    EightMore(|msg| + 1 + Zeros(|msg|));
  }

  // The message can be had back exactly while its length in bits fits the field.
  lemma PaddingIsUndone(msg: seq<byte>, little: bool)
    ensures Unpadded(Padded(msg, little), little) == msg <==> |msg| < 0x2000_0000_0000_0000
  {
    var p, bits := Padded(msg, little), |msg| * 8 % U64;
    assert p[|p| - 8..] == Field(bits, little);
    FieldIsRead(bits, little);
    var n := bits / 8;
    assert n == |msg| <==> |msg| < 0x2000_0000_0000_0000;
    assert n <= |msg|;
    assert p[..|msg|] == msg;
  }
}
