// What the parts of the digests mean: padding byte by byte, shifts as arithmetic, and the
// logical functions bit by bit.
module DigestFacts {
  import opened Bytes
  import opened Division
  import opened Padding
  import opened DigestWords
  import Md5
  import Sha1
  import Sha256

  // ---- padding -------------------------------------------------------------------------------

  // The value of bytes of which the first counts most.
  function Highest(bs: seq<byte>): nat {
    if bs == [] then 0 else 256 * Highest(bs[..|bs| - 1]) + bs[|bs| - 1]
  }

  lemma {:induction false} HighestIsReversed(bs: seq<byte>)
    ensures Value(Reversed(bs)) == Highest(bs)
  {
    if bs != [] {
      var rest := bs[..|bs| - 1];
      HighestIsReversed(rest);
      assert Reversed(bs)[0] == bs[|bs| - 1] && Reversed(bs)[1..] == Reversed(rest);
    }
  }

  // The message, a byte 0x80, and fewer than 64 zeros, up to eight bytes short of whole
  // blocks of 64 ...
  lemma PaddedIs(msg: seq<byte>, little: bool, z: nat)
    requires z == |Padded(msg, little)| - |msg| - 9
    ensures z < 64 && (|msg| + 1 + z + 8) % 64 == 0
    ensures var p := Padded(msg, little);
      p[..|msg|] == msg && p[|msg|] == 128 && forall k :: |msg| < k <= |msg| + z ==> p[k] == 0
  {
    WholeBlocks(msg, little);
  }

  // ... and the number of bits modulo 2^64 in those eight bytes: the lowest first for MD5,
  // the highest first for the others.
  lemma LengthIs(msg: seq<byte>, little: bool, last: seq<byte>)
    requires last == Padded(msg, little)[|Padded(msg, little)| - 8..]
    ensures (if little then Value(last) else Highest(last)) == 8 * |msg| % U64
  {
    var bits := |msg| * 8 % U64;
    assert last == Field(bits, little);
    FieldIsRead(bits, little);
    if !little {
      HighestIsReversed(last);
    }
  }

  // ---- shifts ----------------------------------------------------------------------------------

  lemma {:induction false} NumberJoin(a: seq<bool>, b: seq<bool>)
    ensures Number(a + b) == Number(a) * Pow2(|b|) + Number(b)
  {
    if b == [] {
      assert a + b == a;
    } else {
      var rest := b[..|b| - 1];
      assert (a + b)[..|a + b| - 1] == a + rest;
      NumberJoin(a, rest);
      assert Number(a) * Pow2(|b|) == 2 * (Number(a) * Pow2(|rest|));
    }
  }

  lemma {:induction false} NumberOfZeros(n: nat)
    ensures Number(seq(n, i => false)) == 0
  {
    if n > 0 {
      assert seq(n, i => false)[..n - 1] == seq(n - 1, i => false);
      NumberOfZeros(n - 1);
    }
  }

  // Shifting right divides by 2^n.
  lemma ShiftRightDivides(x: Word, n: nat)
    requires n <= 32
    ensures Number(Shr(x, n)) == Number(x) / Pow2(n)
  {
    var high, low := x[..32 - n], x[32 - n..];
    assert x == high + low;
    NumberJoin(high, low);
    NumberJoin(seq(n, i => false), high);
    NumberOfZeros(n);
    NumberBound(low);
    assert 0 * Pow2(|high|) == 0;
    Unique(Number(x), Pow2(n), Number(high), Number(low));
  }

  lemma {:induction false} Pow2Sum(a: nat, b: nat)
    ensures Pow2(a + b) == Pow2(a) * Pow2(b)
  {
    if b > 0 {
      Pow2Sum(a, b - 1);
      assert a + (b - 1) == a + b - 1;
      assert Pow2(a) * Pow2(b) == 2 * (Pow2(a) * Pow2(b - 1));
    }
  }

  // Shifting left multiplies by 2^n, modulo 2^32.
  lemma ShiftLeftMultiplies(x: Word, n: nat)
    requires n <= 32
    ensures Number(Shl(x, n)) == Number(x) * Pow2(n) % U32
  {
    var high, low, p := x[..n], x[n..], Pow2(n);
    assert x == high + low;
    NumberJoin(high, low);
    NumberJoin(low, seq(n, i => false));
    NumberOfZeros(n);
    NumberBound(low);
    ThirtyTwo();
    Pow2Sum(32 - n, n);
    Spread(Number(high) * Pow2(32 - n), Number(low), p);
    Regroup(Number(high), Pow2(32 - n), p);
    MulMonotone(Number(low) + 1, Pow2(32 - n), p);
    Spread(Number(low), 1, p);
    MulMonotone(0, Number(low), p);
    Unique(Number(x) * p, U32, Number(high), Number(low) * p);
  }

  // ---- logical functions, bit by bit -----------------------------------------------------------

  // Both standards' choice, MD5's F among them: y where x is set, and z where it is not.
  lemma ChoiceIs(x: Word, y: Word, z: Word, i: nat)
    requires i < 32
    ensures Sha256.Ch(x, y, z)[i] == Sha1.Ch(x, y, z)[i] == Md5.F(x, y, z)[i] == if x[i] then y[i] else z[i]
    ensures Md5.G(x, y, z)[i] == if z[i] then x[i] else y[i]
  {
  }

  // Majority: what at least two of them are.
  lemma MajorityIs(x: Word, y: Word, z: Word, i: nat)
    requires i < 32
    ensures Sha256.Maj(x, y, z)[i] == Sha1.Maj(x, y, z)[i] == if x[i] == y[i] then x[i] else z[i]
  {
  }

  // Parity: whether an odd number of them are set.
  lemma ParityIs(x: Word, y: Word, z: Word, i: nat)
    requires i < 32
    ensures Sha1.Parity(x, y, z)[i] == Md5.H(x, y, z)[i] == (x[i] == (y[i] == z[i]))
    ensures Md5.I(x, y, z)[i] == if x[i] || !z[i] then !y[i] else y[i]
  {
  }

  // Which function each of SHA-1's rounds uses, and each of MD5's.
  lemma RoundsUse(t: nat, x: Word, y: Word, z: Word)
    ensures t < 20 ==> Sha1.F(t, x, y, z) == Sha1.Ch(x, y, z)
    ensures 40 <= t < 60 ==> Sha1.F(t, x, y, z) == Sha1.Maj(x, y, z)
    ensures 20 <= t < 40 || 60 <= t ==> Sha1.F(t, x, y, z) == Sha1.Parity(x, y, z)
  {
  }

  // The bit n places higher, round about, in a number: bit i counts 2^(31 - i).
  function Around(i: nat, n: nat): (k: nat)
    ensures k < 32
  {
    (i + n) % 32
  }

  lemma RotatedRight(x: Word, n: nat, i: nat)
    requires n <= 32 && i < 32
    ensures Rotr(x, n)[i] == x[Around(i, 32 - n)]
  {
  }

  lemma RotatedLeft(x: Word, n: nat, i: nat)
    requires n <= 32 && i < 32
    ensures Rotl(x, n)[i] == x[Around(i, n)]
  {
  }

  lemma OddOfThree(a: Word, b: Word, c: Word, i: nat)
    requires i < 32
    ensures Xor(Xor(a, b), c)[i] == (a[i] == (b[i] == c[i]))
  {
  }

  // SHA-256's four sums of rotations, bit by bit: whether an odd number of three bits are
  // set, so many places higher.
  lemma UpperSigma0Is(x: Word, i: nat)
    requires i < 32
    ensures Sha256.UpperSigma0(x)[i] == (x[Around(i, 30)] == (x[Around(i, 19)] == x[Around(i, 10)]))
  {
    OddOfThree(Rotr(x, 2), Rotr(x, 13), Rotr(x, 22), i);
    RotatedRight(x, 2, i);
    RotatedRight(x, 13, i);
    RotatedRight(x, 22, i);
  }

  lemma UpperSigma1Is(x: Word, i: nat)
    requires i < 32
    ensures Sha256.UpperSigma1(x)[i] == (x[Around(i, 26)] == (x[Around(i, 21)] == x[Around(i, 7)]))
  {
    OddOfThree(Rotr(x, 6), Rotr(x, 11), Rotr(x, 25), i);
    RotatedRight(x, 6, i);
    RotatedRight(x, 11, i);
    RotatedRight(x, 25, i);
  }

  lemma LowerSigma0Is(x: Word, i: nat)
    requires i < 32
    ensures Sha256.LowerSigma0(x)[i] == (x[Around(i, 25)] == (x[Around(i, 14)] == (i >= 3 && x[Around(i, 29)])))
  {
    OddOfThree(Rotr(x, 7), Rotr(x, 18), Shr(x, 3), i);
    RotatedRight(x, 7, i);
    RotatedRight(x, 18, i);
  }

  lemma LowerSigma1Is(x: Word, i: nat)
    requires i < 32
    ensures Sha256.LowerSigma1(x)[i] == (x[Around(i, 15)] == (x[Around(i, 13)] == (i >= 10 && x[Around(i, 22)])))
  {
    OddOfThree(Rotr(x, 17), Rotr(x, 19), Shr(x, 10), i);
    RotatedRight(x, 17, i);
    RotatedRight(x, 19, i);
  }
}
