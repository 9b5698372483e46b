// What the three digests share: words of 32 bits, highest first, as the standards have
// them, and how bytes make words and words make bytes.
module DigestWords {
  import opened Bytes
  import opened Division
  import opened Padding

  type Word = w: seq<bool> | |w| == 32 witness seq(32, i => false)

  // ---- bits ----

  function And(x: Word, y: Word): Word {
    seq(32, i requires 0 <= i < 32 => x[i] && y[i])
  }

  function Or(x: Word, y: Word): Word {
    seq(32, i requires 0 <= i < 32 => x[i] || y[i])
  }

  function Xor(x: Word, y: Word): Word {
    seq(32, i requires 0 <= i < 32 => x[i] != y[i])
  }

  function Not(x: Word): Word {
    seq(32, i requires 0 <= i < 32 => !x[i])
  }

  function Shl(x: Word, n: nat): Word
    requires n <= 32
  {
    x[n..] + seq(n, i => false)
  }

  function Shr(x: Word, n: nat): Word
    requires n <= 32
  {
    seq(n, i => false) + x[..32 - n]
  }

  // Circular shift to the left, and to the right.
  function Rotl(x: Word, n: nat): Word
    requires n <= 32
  {
    x[n..] + x[..n]
  }

  function Rotr(x: Word, n: nat): Word
    requires n <= 32
  {
    x[32 - n..] + x[..32 - n]
  }

  // Two shifts make a rotation.
  method RotateLeft(x: Word, n: nat) returns (r: Word)
    requires n <= 32
    ensures r == Rotl(x, n)
  {
    r := Or(Shl(x, n), Shr(x, 32 - n));
  }

  method RotateRight(x: Word, n: nat) returns (r: Word)
    requires n <= 32
    ensures r == Rotr(x, n)
  {
    r := Or(Shr(x, n), Shl(x, 32 - n));
  }

  // ---- numbers ----

  function Bits(n: nat, k: nat): (w: seq<bool>)
    ensures |w| == k
  {
    if k == 0 then [] else Bits(n / 2, k - 1) + [n % 2 == 1]
  }

  function Number(w: seq<bool>): nat {
    if w == [] then 0 else 2 * Number(w[..|w| - 1]) + (if w[|w| - 1] then 1 else 0)
  }

  lemma {:induction false} BitsOfNumber(w: seq<bool>)
    ensures Bits(Number(w), |w|) == w
  {
    if w != [] {
      BitsOfNumber(w[..|w| - 1]);
    }
  }

  function Pow2(k: nat): (p: nat)
    ensures p > 0
  {
    if k == 0 then 1 else 2 * Pow2(k - 1)
  }

  lemma {:induction false} NumberOfBits(n: nat, k: nat)
    requires n < Pow2(k)
    ensures Number(Bits(n, k)) == n
  {
    if k > 0 {
      NumberOfBits(n / 2, k - 1);
      assert Bits(n, k)[..k - 1] == Bits(n / 2, k - 1);
    }
  }

  lemma {:induction false} NumberBound(w: seq<bool>)
    ensures Number(w) < Pow2(|w|)
  {
    if w != [] {
      NumberBound(w[..|w| - 1]);
    }
  }

  lemma ThirtyTwo()
    ensures Pow2(32) == U32
  {
    assert Pow2(8) == 256;
    assert Pow2(16) == 0x1_0000;
    assert Pow2(24) == 0x100_0000;
  }

  // Binary digit k of a number.
  function Digit(n: nat, k: nat): bool {
    n / Pow2(k) % 2 == 1
  }

  function ToWord(n: nat): Word {
    seq(32, i requires 0 <= i < 32 => Digit(n, 31 - i))
  }

  lemma Halved(n: nat, p: nat)
    requires p > 0
    ensures n / 2 / p == n / (2 * p)
  {
    var a := n / 2;
    var q, r := a / p, a % p;
    var d, rest := 2 * p, 2 * r + n % 2;
    assert n == 2 * (q * p + r) + n % 2;
    assert q * d == 2 * (q * p);
    Unique(n, d, q, rest);
  }

  lemma {:induction false} BitsAreDigits(n: nat, k: nat, i: nat)
    requires i < k
    ensures Bits(n, k)[i] == Digit(n, k - 1 - i)
    decreases k
  {
    if i < k - 1 {
      BitsAreDigits(n / 2, k - 1, i);
      Halved(n, Pow2(k - 2 - i));
    }
  }

  lemma ToWordIsBits(n: nat)
    ensures ToWord(n) == Bits(n, 32)
  {
    forall i | 0 <= i < 32 ensures ToWord(n)[i] == Bits(n, 32)[i] {
      BitsAreDigits(n, 32, i);
    }
  }

  // Addition modulo 2^32.
  function Sum(x: Word, y: Word): nat {
    (Number(x) + Number(y)) % U32
  }

  function Add(x: Word, y: Word): Word {
    seq(32, i requires 0 <= i < 32 => Digit(Sum(x, y), 31 - i))
  }

  lemma AddIsSum(x: Word, y: Word)
    ensures Add(x, y) == ToWord(Sum(x, y))
  {
  }

  lemma AddCommutes(x: Word, y: Word)
    ensures Add(x, y) == Add(y, x)
  {
    AddIsSum(x, y);
    AddIsSum(y, x);
  }

  lemma NumberOfSum(x: Word, y: Word)
    ensures Number(Add(x, y)) == (Number(x) + Number(y)) % U32
  {
    var n := Sum(x, y);
    AddIsSum(x, y);
    ToWordIsBits(n);
    ThirtyTwo();
    NumberOfBits(n, 32);
  }

  lemma Wraps(n: nat)
    requires n < 2 * U32
    ensures n % U32 == if n < U32 then n else n - U32
  {
  }

  lemma SumsAssociate(a: nat, b: nat, c: nat)
    requires a < U32 && b < U32 && c < U32
    ensures ((a + b) % U32 + c) % U32 == (a + (b + c) % U32) % U32
  {
    Wraps(a + b);
    Wraps(b + c);
    Wraps((a + b) % U32 + c);
    Wraps(a + (b + c) % U32);
  }

  lemma AddAssociates(x: Word, y: Word, z: Word)
    ensures Add(Add(x, y), z) == Add(x, Add(y, z))
  {
    NumberOfSum(x, y);
    NumberOfSum(y, z);
    ThirtyTwo();
    NumberBound(x);
    NumberBound(y);
    NumberBound(z);
    SumsAssociate(Number(x), Number(y), Number(z));
    AddIsSum(Add(x, y), z);
    AddIsSum(x, Add(y, z));
  }

  // ---- bytes ----

  // The word at an offset, lowest byte first or highest first.
  function WordAt(m: seq<byte>, at: nat, little: bool): Word
    requires at + 4 <= |m|
  {
    var bs := m[at..at + 4];
    ToWord(Value(if little then bs else Reversed(bs)))
  }

  // The sixteen words of a block.
  function BlockAt(m: seq<byte>, off: nat, little: bool): (w: seq<Word>)
    requires off + 64 <= |m|
    ensures |w| == 16
  {
    seq(16, i requires 0 <= i < 16 => WordAt(m, off + 4 * i, little))
  }

  function WordOut(h: Word, little: bool): (r: seq<byte>)
    ensures |r| == 4
  {
    var low := Little(Number(h), 4);
    if little then low else Reversed(low)
  }

  // A word written out and read again is the same word.
  lemma WordOutIsRead(h: Word, little: bool)
    ensures WordAt(WordOut(h, little), 0, little) == h
  {
    var low := Little(Number(h), 4);
    NumberBound(h);
    ThirtyTwo();
    Widths();
    LittleValue(Number(h), 4);
    BitsOfNumber(h);
    ToWordIsBits(Number(h));
    assert Reversed(Reversed(low)) == low;
    assert low[0..4] == low && Reversed(low)[0..4] == Reversed(low);
  }

  function WordsOut(hs: seq<Word>, little: bool): (r: seq<byte>)
    ensures |r| == 4 * |hs|
  {
    if hs == [] then [] else WordsOut(hs[..|hs| - 1], little) + WordOut(hs[|hs| - 1], little)
  }

  // Replaces the words of an array.
  method Store(hs: array<Word>, ws: seq<Word>)
    requires hs.Length == |ws|
    modifies hs
    ensures hs[..] == ws
  {
    forall i | 0 <= i < |ws| {
      hs[i] := ws[i];
    }
  }

  // Writes the words of a digest out, byte by byte.
  method Output(hs: array<Word>, little: bool) returns (out: seq<byte>)
    ensures out == WordsOut(hs[..], little)
  {
    out := [];
    var i := 0;
    while i < hs.Length
      invariant 0 <= i <= hs.Length && out == WordsOut(hs[..i], little)
    {
      ghost var before := out;
      var j := 0;
      while j < 4
        invariant 0 <= j <= 4 && out == before + WordOut(hs[i], little)[..j]
      {
        var k := if little then j else 3 - j;
        LittleAt(Number(hs[i]), 4, k);
        out := out + [ByteOf(Number(hs[i]), k)];
        j := j + 1;
      }
      assert WordOut(hs[i], little)[..4] == WordOut(hs[i], little);
      assert hs[..i + 1][..i] == hs[..i];
      i := i + 1;
    }
    assert hs[..i] == hs[..];
  }
}
