// SHA-256: the in-place loops against the recursive definition of FIPS 180-4.
module Sha256 {
  import opened Bytes
  import opened Padding
  import opened DigestWords

  // ---- the standard: sections 4.1.2, 4.2.2, 5.3.3 and 6.2.2 ----

  const ROUNDS: nat := 64

  const K: seq<nat> :=
    [0x428a2f98, 0x71374491, 0xb5c0fbcf, 0xe9b5dba5, 0x3956c25b, 0x59f111f1, 0x923f82a4, 0xab1c5ed5]
    + [0xd807aa98, 0x12835b01, 0x243185be, 0x550c7dc3, 0x72be5d74, 0x80deb1fe, 0x9bdc06a7, 0xc19bf174]
    + [0xe49b69c1, 0xefbe4786, 0x0fc19dc6, 0x240ca1cc, 0x2de92c6f, 0x4a7484aa, 0x5cb0a9dc, 0x76f988da]
    + [0x983e5152, 0xa831c66d, 0xb00327c8, 0xbf597fc7, 0xc6e00bf3, 0xd5a79147, 0x06ca6351, 0x14292967]
    + [0x27b70a85, 0x2e1b2138, 0x4d2c6dfc, 0x53380d13, 0x650a7354, 0x766a0abb, 0x81c2c92e, 0x92722c85]
    + [0xa2bfe8a1, 0xa81a664b, 0xc24b8b70, 0xc76c51a3, 0xd192e819, 0xd6990624, 0xf40e3585, 0x106aa070]
    + [0x19a4c116, 0x1e376c08, 0x2748774c, 0x34b0bcb5, 0x391c0cb3, 0x4ed8aa4a, 0x5b9cca4f, 0x682e6ff3]
    + [0x748f82ee, 0x78a5636f, 0x84c87814, 0x8cc70208, 0x90befffa, 0xa4506ceb, 0xbef9a3f7, 0xc67178f2]

  lemma AllConstants()
    ensures |K| == ROUNDS
  {
  }

  const IV: seq<nat> := [0x6a09e667, 0xbb67ae85, 0x3c6ef372, 0xa54ff53a, 0x510e527f, 0x9b05688c, 0x1f83d9ab, 0x5be0cd19]

  function Ch(x: Word, y: Word, z: Word): Word { Xor(And(x, y), And(Not(x), z)) }
  function Maj(x: Word, y: Word, z: Word): Word { Xor(Xor(And(x, y), And(x, z)), And(y, z)) }
  function UpperSigma0(x: Word): Word { Xor(Xor(Rotr(x, 2), Rotr(x, 13)), Rotr(x, 22)) }
  function UpperSigma1(x: Word): Word { Xor(Xor(Rotr(x, 6), Rotr(x, 11)), Rotr(x, 25)) }
  function LowerSigma0(x: Word): Word { Xor(Xor(Rotr(x, 7), Rotr(x, 18)), Shr(x, 3)) }
  function LowerSigma1(x: Word): Word { Xor(Xor(Rotr(x, 17), Rotr(x, 19)), Shr(x, 10)) }

  function Extended(w: seq<Word>, t: nat): Word
    requires 16 <= t <= |w|
  {
    Add(Add(Add(LowerSigma1(w[t - 2]), w[t - 7]), LowerSigma0(w[t - 15])), w[t - 16])
  }

  // The first t words of the message schedule.
  function W(block: seq<Word>, t: nat): (w: seq<Word>)
    requires |block| == 16
    ensures |w| == t
  {
    if t <= 16 then block[..t]
    else
      var w := W(block, t - 1);
      w + [Extended(w, t - 1)]
  }

  datatype Registers = Registers(a: Word, b: Word, c: Word, d: Word, e: Word, f: Word, g: Word, h: Word)
  {
    function At(i: nat): Word
      requires i < 8
    {
      match i
      case 0 => a
      case 1 => b
      case 2 => c
      case 3 => d
      case 4 => e
      case 5 => f
      case 6 => g
      case _ => h
    }
  }

  function Round(r: Registers, k: Word, w: Word): Registers {
    var t1 := Add(Add(Add(Add(r.h, UpperSigma1(r.e)), Ch(r.e, r.f, r.g)), k), w);
    var t2 := Add(UpperSigma0(r.a), Maj(r.a, r.b, r.c));
    Registers(Add(t1, t2), r.a, r.b, r.c, Add(r.d, t1), r.e, r.f, r.g)
  }

  // The working variables after t rounds.
  function Rounds(start: Registers, w: seq<Word>, t: nat): Registers
    requires t <= |w| == ROUNDS
  {
    AllConstants();
    if t == 0 then start else Round(Rounds(start, w, t - 1), ToWord(K[t - 1]), w[t - 1])
  }

  // Added back, word by word.
  function Plus(h: seq<Word>, x: Registers): (r: seq<Word>)
    requires |h| == 8
    ensures |r| == 8
  {
    seq(8, i requires 0 <= i < 8 => Add(h[i], x.At(i)))
  }

  function From(h: seq<Word>): Registers
    requires |h| == 8
  {
    Registers(h[0], h[1], h[2], h[3], h[4], h[5], h[6], h[7])
  }

  // One block's worth.
  function Compress(h: seq<Word>, block: seq<Word>): (r: seq<Word>)
    requires |h| == 8 && |block| == 16
    ensures |r| == 8
  {
    seq(8, i requires 0 <= i < 8 => Add(h[i], Rounds(From(h), W(block, ROUNDS), ROUNDS).At(i)))
  }

  lemma CompressAdds(h: seq<Word>, block: seq<Word>)
    requires |h| == 8 && |block| == 16
    ensures Compress(h, block) == Plus(h, Rounds(From(h), W(block, ROUNDS), ROUNDS))
  {
  }

  function Initial(): (r: seq<Word>)
    ensures |r| == 8
  {
    seq(8, i requires 0 <= i < 8 => ToWord(IV[i]))
  }

  // The hash value after the blocks of a padded message that end by byte off.
  function Hash(m: seq<byte>, off: nat): (r: seq<Word>)
    requires off <= |m|
    ensures |r| == 8
  {
    if off < 64 then Initial() else Compress(Hash(m, off - 64), BlockAt(m, off - 64, false))
  }

  function Digest(msg: seq<byte>): (r: seq<byte>)
    ensures |r| == 32
  {
    var m := Padded(msg, false);
    WordsOut(Hash(m, |m|), false)
  }

  lemma FromTheOtherEnd(a: Word, b: Word, c: Word, d: Word)
    ensures Add(Add(Add(a, b), c), d) == Add(Add(Add(d, c), b), a)
  {
    AddCommutes(Add(Add(a, b), c), d);
    AddCommutes(Add(a, b), c);
    AddCommutes(a, b);
    AddAssociates(c, b, a);
    AddAssociates(d, c, Add(b, a));
    AddAssociates(Add(d, c), b, a);
  }

  method ExtendInPlace(w: array<Word>, i: nat)
    requires w.Length == ROUNDS && 16 <= i < ROUNDS
    modifies w
    ensures w[..i + 1] == old(w[..i]) + [Extended(old(w[..i]), i)]
  {
    var r7 := RotateRight(w[i - 15], 7);
    var r18 := RotateRight(w[i - 15], 18);
    var r17 := RotateRight(w[i - 2], 17);
    var r19 := RotateRight(w[i - 2], 19);
    var s0 := Xor(Xor(r7, r18), Shr(w[i - 15], 3));
    var s1 := Xor(Xor(r17, r19), Shr(w[i - 2], 10));
    FromTheOtherEnd(w[i - 16], s0, w[i - 7], s1);
    w[i] := Add(Add(Add(w[i - 16], s0), w[i - 7]), s1);
  }

  // ---- the loops ----

  // The schedule, filled in place.
  method Schedule(block: seq<Word>, w: array<Word>)
    requires |block| == 16 && w.Length == ROUNDS
    modifies w
    ensures w[..] == W(block, ROUNDS)
  {
    var i := 0;
    while i < 16
      invariant 0 <= i <= 16 && w[..i] == block[..i]
    {
      w[i] := block[i];
      i := i + 1;
    }
    while i < ROUNDS
      invariant 16 <= i <= ROUNDS && w[..i] == W(block, i)
    {
      ExtendInPlace(w, i);
      i := i + 1;
    }
    assert w[..ROUNDS] == w[..];
  }

  method AddInPlace(hs: array<Word>, x: Registers)
    requires hs.Length == 8
    modifies hs
    ensures hs[..] == Plus(old(hs[..]), x)
  {
    Store(hs, [Add(hs[0], x.a), Add(hs[1], x.b), Add(hs[2], x.c), Add(hs[3], x.d),
               Add(hs[4], x.e), Add(hs[5], x.f), Add(hs[6], x.g), Add(hs[7], x.h)]);
  }

  method RoundsInPlace(start: Registers, w: array<Word>) returns (end: Registers)
    requires w.Length == ROUNDS
    ensures end == Rounds(start, w[..], ROUNDS)
  {
    var a, b, c, d, e, f, g, hh := start.a, start.b, start.c, start.d, start.e, start.f, start.g, start.h;
    var i := 0;
    AllConstants();
    while i < ROUNDS
      invariant 0 <= i <= ROUNDS && Registers(a, b, c, d, e, f, g, hh) == Rounds(start, w[..], i)
    {
      var r6 := RotateRight(e, 6);
      var r11 := RotateRight(e, 11);
      var r25 := RotateRight(e, 25);
      var S1 := Xor(Xor(r6, r11), r25);
      var ch := Xor(And(e, f), And(Not(e), g));
      var t1 := Add(Add(Add(Add(hh, S1), ch), ToWord(K[i])), w[i]);
      var r2 := RotateRight(a, 2);
      var r13 := RotateRight(a, 13);
      var r22 := RotateRight(a, 22);
      var S0 := Xor(Xor(r2, r13), r22);
      var maj := Xor(Xor(And(a, b), And(a, c)), And(b, c));
      var t2 := Add(S0, maj);
      hh := g;
      g := f;
      f := e;
      e := Add(d, t1);
      d := c;
      c := b;
      b := a;
      a := Add(t1, t2);
      i := i + 1;
    }
    end := Registers(a, b, c, d, e, f, g, hh);
  }

  // One block, added into the hash value.
  method CompressInPlace(hs: array<Word>, block: seq<Word>, w: array<Word>)
    requires hs.Length == 8 && |block| == 16 && w.Length == ROUNDS && hs != w
    modifies hs, w
    ensures hs[..] == Compress(old(hs[..]), block)
  {
    Schedule(block, w);
    ghost var was := hs[..];
    var x := RoundsInPlace(Registers(hs[0], hs[1], hs[2], hs[3], hs[4], hs[5], hs[6], hs[7]), w);
    CompressAdds(was, block);
    AddInPlace(hs, x);
  }

  method NextBlock(m: seq<byte>, off: nat, hs: array<Word>, w: array<Word>)
    requires off + 64 <= |m| && hs.Length == 8 && w.Length == ROUNDS && hs != w && hs[..] == Hash(m, off)
    modifies hs, w
    ensures hs[..] == Hash(m, off + 64)
  {
    CompressInPlace(hs, BlockAt(m, off, false), w);
  }

  method HashInPlace(m: seq<byte>, hs: array<Word>, w: array<Word>, ghost blocks: nat)
    requires |m| == 64 * blocks && hs.Length == 8 && w.Length == ROUNDS && hs != w && hs[..] == Hash(m, 0)
    modifies hs, w
    ensures hs[..] == Hash(m, |m|)
  {
    var off := 0;
    ghost var n := 0;
    while off < |m|
      invariant off == 64 * n && n <= blocks && hs[..] == Hash(m, off)
      decreases blocks - n
    {
      NextBlock(m, off, hs, w);
      off, n := off + 64, n + 1;
    }
    assert n == blocks;
  }

  method Compute(msg: seq<byte>) returns (out: seq<byte>)
    ensures out == Digest(msg)
  {
    var hs, w := new Word[8], new Word[ROUNDS];
    Store(hs, Initial());
    var m := Pad(msg, false);
    WholeBlocks(msg, false);
    HashInPlace(m, hs, w, |m| / 64);
    out := Output(hs, false);
  }
}
