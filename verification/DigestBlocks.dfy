// How the digests take a message in and give their value out, and what a round adds up, in
// numbers.
module DigestBlocks {
  import opened Bytes
  import opened Division
  import opened Padding
  import opened DigestWords
  import opened DigestFacts
  import Md5
  import Sha1
  import Sha256

  // ---- words and bytes -------------------------------------------------------------------------

  // A number in bytes, the first of them counting least, or most.
  function InOrder(bs: seq<byte>, little: bool): nat {
    if little then Value(bs) else Highest(bs)
  }

  lemma NumberOfWord(n: nat)
    requires n < U32
    ensures Number(ToWord(n)) == n
  {
    ThirtyTwo();
    ToWordIsBits(n);
    NumberOfBits(n, 32);
  }

  lemma WordIs(w: Word, n: nat)
    requires Number(w) == n
    ensures w == ToWord(n)
  {
    BitsOfNumber(w);
    ToWordIsBits(n);
  }

  lemma WordAtIs(m: seq<byte>, at: nat, little: bool)
    requires at + 4 <= |m|
    ensures Number(WordAt(m, at, little)) == InOrder(m[at..at + 4], little)
  {
    var bs := m[at..at + 4];
    Widths();
    ValueBound(bs);
    ValueBound(Reversed(bs));
    HighestIsReversed(bs);
    NumberOfWord(Value(if little then bs else Reversed(bs)));
  }

  lemma WordOutIs(h: Word, little: bool)
    ensures InOrder(WordOut(h, little), little) == Number(h)
  {
    var low := Little(Number(h), 4);
    NumberBound(h);
    ThirtyTwo();
    Widths();
    LittleValue(Number(h), 4);
    HighestIsReversed(Reversed(low));
    assert Reversed(Reversed(low)) == low;
  }

  lemma Prefix(a: seq<byte>, b: seq<byte>, at: nat)
    requires at + 4 <= |a|
    ensures (a + b)[at..at + 4] == a[at..at + 4]
  {
  }

  lemma {:induction false} WordsOutAt(hs: seq<Word>, little: bool, i: nat, at: nat)
    requires i < |hs| && at == 4 * i
    ensures WordsOut(hs, little)[at..at + 4] == WordOut(hs[i], little)
  {
    var most, last := hs[..|hs| - 1], WordOut(hs[|hs| - 1], little);
    if i < |hs| - 1 {
      WordsOutAt(most, little, i, at);
      Prefix(WordsOut(most, little), last, at);
    }
  }

  // Sixteen words that are what the bytes of a block say.
  predicate IsBlock(b: seq<Word>, m: seq<byte>, off: nat, little: bool) {
    && |b| == 16 && off + 64 <= |m|
    && forall i :: 0 <= i < 16 ==> Number(b[i]) == InOrder(m[off + 4 * i..off + 4 * i + 4], little)
  }

  lemma BlockIs(b: seq<Word>, m: seq<byte>, off: nat, little: bool)
    requires IsBlock(b, m, off, little)
    ensures b == BlockAt(m, off, little)
  {
    forall i | 0 <= i < 16 ensures b[i] == BlockAt(m, off, little)[i] {
      WordAtIs(m, off + 4 * i, little);
      WordIs(b[i], InOrder(m[off + 4 * i..off + 4 * i + 4], little));
      WordIs(WordAt(m, off + 4 * i, little), InOrder(m[off + 4 * i..off + 4 * i + 4], little));
    }
  }

  // Words that are these numbers.
  predicate Are(ws: seq<Word>, ns: seq<nat>) {
    |ws| == |ns| && forall i :: 0 <= i < |ws| ==> Number(ws[i]) == ns[i]
  }

  // The bytes from `at` on say a word.
  predicate GivesOut(bs: seq<byte>, at: nat, h: Word, little: bool) {
    at + 4 <= |bs| && InOrder(bs[at..at + 4], little) == Number(h)
  }

  lemma WordIsGivenOut(hs: seq<Word>, little: bool, i: nat, at: nat)
    requires i < |hs| && at == 4 * i
    ensures GivesOut(WordsOut(hs, little), at, hs[i], little)
  {
    WordsOutAt(hs, little, i, at);
    WordOutIs(hs[i], little);
  }

  lemma FromNumbers(ns: seq<nat>, ws: seq<Word>)
    requires |ws| == |ns| && forall i :: 0 <= i < |ns| ==> ns[i] < U32 && ws[i] == ToWord(ns[i])
    ensures Are(ws, ns)
  {
    forall i | 0 <= i < |ns| ensures Number(ws[i]) == ns[i] {
      NumberOfWord(ns[i]);
    }
  }

  // MD5 starts from its constants, takes its blocks one by one with the first byte of a
  // word counting least, and gives its words out so.
  lemma Md5TakesBlocks(m: seq<byte>, off: nat, b: seq<Word>)
    requires IsBlock(b, m, off, true)
    ensures Are(Md5.Hash(m, 0), Md5.IV) && Md5.Hash(m, off + 64) == Md5.Compress(Md5.Hash(m, off), b)
  {
    FromNumbers(Md5.IV, Md5.Initial());
    BlockIs(b, m, off, true);
  }

  lemma Md5GivesOut(msg: seq<byte>, p: seq<byte>, i: nat, at: nat)
    requires p == Padded(msg, true) && i < 4 && at == 4 * i
    ensures |Md5.Digest(msg)| == 16 && GivesOut(Md5.Digest(msg), at, Md5.Hash(p, |p|)[i], true)
  {
    WordIsGivenOut(Md5.Hash(p, |p|), true, i, at);
  }

  // SHA-1 and SHA-256 do so with the first byte counting most.
  lemma Sha1TakesBlocks(m: seq<byte>, off: nat, b: seq<Word>)
    requires IsBlock(b, m, off, false)
    ensures Are(Sha1.Hash(m, 0), Sha1.IV) && Sha1.Hash(m, off + 64) == Sha1.Compress(Sha1.Hash(m, off), b)
  {
    FromNumbers(Sha1.IV, Sha1.Initial());
    BlockIs(b, m, off, false);
  }

  lemma Sha1GivesOut(msg: seq<byte>, p: seq<byte>, i: nat, at: nat)
    requires p == Padded(msg, false) && i < 5 && at == 4 * i
    ensures |Sha1.Digest(msg)| == 20 && GivesOut(Sha1.Digest(msg), at, Sha1.Hash(p, |p|)[i], false)
  {
    WordIsGivenOut(Sha1.Hash(p, |p|), false, i, at);
  }

  lemma Sha256TakesBlocks(m: seq<byte>, off: nat, b: seq<Word>)
    requires IsBlock(b, m, off, false)
    ensures Are(Sha256.Hash(m, 0), Sha256.IV) && Sha256.Hash(m, off + 64) == Sha256.Compress(Sha256.Hash(m, off), b)
  {
    FromNumbers(Sha256.IV, Sha256.Initial());
    BlockIs(b, m, off, false);
  }

  lemma Sha256GivesOut(msg: seq<byte>, p: seq<byte>, i: nat, at: nat)
    requires p == Padded(msg, false) && i < 8 && at == 4 * i
    ensures |Sha256.Digest(msg)| == 32 && GivesOut(Sha256.Digest(msg), at, Sha256.Hash(p, |p|)[i], false)
  {
    WordIsGivenOut(Sha256.Hash(p, |p|), false, i, at);
  }

  // ---- rounds ----------------------------------------------------------------------------------

  lemma Folds(a: nat, b: nat)
    ensures (a % U32 + b) % U32 == (a + b) % U32
  {
  }

  lemma FourAdded(a: Word, b: Word, c: Word, d: Word)
    ensures Number(Add(Add(Add(a, b), c), d)) == (Number(a) + Number(b) + Number(c) + Number(d)) % U32
  {
    NumberOfSum(a, b);
    NumberOfSum(Add(a, b), c);
    NumberOfSum(Add(Add(a, b), c), d);
    Folds(Number(a) + Number(b), Number(c));
    Folds(Number(a) + Number(b) + Number(c), Number(d));
  }

  lemma FiveAdded(a: Word, b: Word, c: Word, d: Word, e: Word)
    ensures Number(Add(Add(Add(Add(a, b), c), d), e)) == (Number(a) + Number(b) + Number(c) + Number(d) + Number(e)) % U32
  {
    FourAdded(a, b, c, d);
    NumberOfSum(Add(Add(Add(a, b), c), d), e);
    Folds(Number(a) + Number(b) + Number(c) + Number(d), Number(e));
  }

  // A word of SHA-256's schedule is a sum of four of those before it, two of them mixed.
  lemma Sha256Extends(w: seq<Word>, t: nat)
    requires 16 <= t <= |w|
    ensures Number(Sha256.Extended(w, t))
         == (Number(Sha256.LowerSigma1(w[t - 2])) + Number(w[t - 7]) + Number(Sha256.LowerSigma0(w[t - 15])) + Number(w[t - 16])) % U32
  {
    FourAdded(Sha256.LowerSigma1(w[t - 2]), w[t - 7], Sha256.LowerSigma0(w[t - 15]), w[t - 16]);
  }

  lemma FoldsBoth(a: nat, b: nat)
    ensures (a % U32 + b % U32) % U32 == (a + b) % U32
  {
    Folds(a, b % U32);
    Folds(b, a);
  }

  // A round of SHA-256 moves six of its words on by one place, and makes two sums.
  lemma Sha256Moves(r: Sha256.Registers, k: Word, w: Word)
    ensures var x := Sha256.Round(r, k, w); x.b == r.a && x.c == r.b && x.d == r.c && x.f == r.e && x.g == r.f && x.h == r.g
  {
  }

  lemma TwoSums(a: Word, b: Word, m: nat, n: nat)
    requires Number(a) == m % U32 && Number(b) == n % U32
    ensures Number(Add(a, b)) == (m + n) % U32
  {
    NumberOfSum(a, b);
    FoldsBoth(m, n);
  }

  lemma OneSum(a: Word, b: Word, n: nat)
    requires Number(b) == n % U32
    ensures Number(Add(a, b)) == (Number(a) + n) % U32
  {
    NumberOfSum(a, b);
    Folds(n, Number(a));
  }

  lemma SevenAdded(a: Word, b: Word, c: Word, d: Word, e: Word, x: Word, y: Word, m: nat, n: nat)
    requires m == Number(a) + Number(b) + Number(c) + Number(d) + Number(e) && n == Number(x) + Number(y)
    ensures Number(Add(Add(Add(Add(Add(a, b), c), d), e), Add(x, y))) == (m + n) % U32
  {
    FiveAdded(a, b, c, d, e);
    NumberOfSum(x, y);
    TwoSums(Add(Add(Add(Add(a, b), c), d), e), Add(x, y), m, n);
  }

  // The first of them is added to d.
  lemma Sha256First(r: Sha256.Registers, k: Word, w: Word, t1: nat)
    requires t1 == Number(r.h) + Number(Sha256.UpperSigma1(r.e)) + Number(Sha256.Ch(r.e, r.f, r.g)) + Number(k) + Number(w)
    ensures Number(Sha256.Round(r, k, w).e) == (Number(r.d) + t1) % U32
  {
    var up, ch := Sha256.UpperSigma1(r.e), Sha256.Ch(r.e, r.f, r.g);
    FiveAdded(r.h, up, ch, k, w);
    OneSum(r.d, Add(Add(Add(Add(r.h, up), ch), k), w), t1);
  }

  // Both together take the place of a.
  lemma Sha256Both(r: Sha256.Registers, k: Word, w: Word, t1: nat, t2: nat)
    requires t1 == Number(r.h) + Number(Sha256.UpperSigma1(r.e)) + Number(Sha256.Ch(r.e, r.f, r.g)) + Number(k) + Number(w)
    requires t2 == Number(Sha256.UpperSigma0(r.a)) + Number(Sha256.Maj(r.a, r.b, r.c))
    ensures Number(Sha256.Round(r, k, w).a) == (t1 + t2) % U32
  {
    SevenAdded(r.h, Sha256.UpperSigma1(r.e), Sha256.Ch(r.e, r.f, r.g), k, w,
               Sha256.UpperSigma0(r.a), Sha256.Maj(r.a, r.b, r.c), t1, t2);
  }

  // A word of SHA-1's schedule: bit i is whether an odd number of four words' next bits
  // are set.
  lemma Sha1Extends(w: seq<Word>, t: nat, i: nat, k: nat)
    requires 16 <= t <= |w| && i < 32 && k == if i == 31 then 0 else i + 1
    ensures Sha1.Extended(w, t)[i] == ((w[t - 3][k] != w[t - 8][k]) != (w[t - 14][k] != w[t - 16][k]))
  {
    RotatedLeft(Xor(Xor(Xor(w[t - 3], w[t - 8]), w[t - 14]), w[t - 16]), 1, i);
  }

  // A round of SHA-1 moves its words on by one place, one of them turned by 30, and makes
  // one sum.
  lemma Sha1Rounds(r: Sha1.Registers, t: nat, w: Word, i: nat)
    requires i < 32
    ensures var x := Sha1.Round(r, t, w);
      && x.b == r.a && x.c[i] == r.b[Around(i, 30)] && x.d == r.c && x.e == r.d
      && Number(x.a) == (Number(Rotl(r.a, 5)) + Number(Sha1.F(t, r.b, r.c, r.d)) + Number(r.e) + Sha1.K(t) + Number(w)) % U32
  {
    RotatedLeft(r.b, 30, i);
    NumberOfWord(Sha1.K(t));
    FiveAdded(Rotl(r.a, 5), Sha1.F(t, r.b, r.c, r.d), r.e, ToWord(Sha1.K(t)), w);
  }

  // What an operation of MD5 adds: to b the sum of a, the function of the other three, a
  // word of the block and a constant, turned.
  lemma Md5Adds(p: Md5.Step, a: Word, b: Word, c: Word, d: Word) returns (sum: Word)
    requires p.s <= 32
    ensures Number(sum) == (Number(a) + Number(Md5.Mixed(p.t, b, c, d)) + Number(p.x) + Number(p.k)) % U32
    ensures Number(Md5.Sum(p, a, b, c, d)) == (Number(b) + Number(Rotl(sum, p.s))) % U32
  {
    sum := Add(Add(Add(a, Md5.Mixed(p.t, b, c, d)), p.x), p.k);
    FourAdded(a, Md5.Mixed(p.t, b, c, d), p.x, p.k);
    NumberOfSum(b, Rotl(sum, p.s));
  }
}
