// SHA-1: the in-place loops against the recursive definition of FIPS 180-4.
module Sha1 {
  import opened Bytes
  import opened Padding
  import opened DigestWords

  // ---- the standard: sections 4.1.1, 4.2.1, 5.3.1 and 6.1.2 ----

  const ROUNDS: nat := 80
  const IV: seq<nat> := [0x67452301, 0xefcdab89, 0x98badcfe, 0x10325476, 0xc3d2e1f0]

  function Ch(x: Word, y: Word, z: Word): Word { Xor(And(x, y), And(Not(x), z)) }
  function Parity(x: Word, y: Word, z: Word): Word { Xor(Xor(x, y), z) }
  function Maj(x: Word, y: Word, z: Word): Word { Xor(Xor(And(x, y), And(x, z)), And(y, z)) }

  function F(t: nat, x: Word, y: Word, z: Word): Word {
    if t < 20 then Ch(x, y, z)
    else if 40 <= t < 60 then Maj(x, y, z)
    else Parity(x, y, z)
  }

  function K(t: nat): nat {
    if t < 20 then 0x5a827999 else if t < 40 then 0x6ed9eba1 else if t < 60 then 0x8f1bbcdc else 0xca62c1d6
  }

  function Extended(w: seq<Word>, t: nat): Word
    requires 16 <= t <= |w|
  {
    Rotl(Xor(Xor(Xor(w[t - 3], w[t - 8]), w[t - 14]), w[t - 16]), 1)
  }

  // The first t words of the message schedule.
  function W(block: seq<Word>, t: nat): (w: seq<Word>)
    requires |block| == 16
    ensures |w| == t
  {
    if t <= 16 then block[..t]
    else
      var w := W(block, t - 1);
      w + [Extended(w, t - 1)]
  }

  datatype Registers = Registers(a: Word, b: Word, c: Word, d: Word, e: Word)
  {
    function At(i: nat): Word
      requires i < 5
    {
      match i
      case 0 => a
      case 1 => b
      case 2 => c
      case 3 => d
      case _ => e
    }
  }

  function Round(r: Registers, t: nat, w: Word): Registers {
    var next := Add(Add(Add(Add(Rotl(r.a, 5), F(t, r.b, r.c, r.d)), r.e), ToWord(K(t))), w);
    Registers(next, r.a, Rotl(r.b, 30), r.c, r.d)
  }

  // The working variables after t rounds.
  function Rounds(start: Registers, w: seq<Word>, t: nat): Registers
    requires t <= |w|
  {
    if t == 0 then start else Round(Rounds(start, w, t - 1), t - 1, w[t - 1])
  }

  // Added back, word by word.
  function Plus(h: seq<Word>, x: Registers): (r: seq<Word>)
    requires |h| == 5
    ensures |r| == 5
  {
    seq(5, i requires 0 <= i < 5 => Add(h[i], x.At(i)))
  }

  function From(h: seq<Word>): Registers
    requires |h| == 5
  {
    Registers(h[0], h[1], h[2], h[3], h[4])
  }

  // One block's worth.
  function Compress(h: seq<Word>, block: seq<Word>): (r: seq<Word>)
    requires |h| == 5 && |block| == 16
    ensures |r| == 5
  {
    seq(5, i requires 0 <= i < 5 => Add(h[i], Rounds(From(h), W(block, ROUNDS), ROUNDS).At(i)))
  }

  lemma CompressAdds(h: seq<Word>, block: seq<Word>)
    requires |h| == 5 && |block| == 16
    ensures Compress(h, block) == Plus(h, Rounds(From(h), W(block, ROUNDS), ROUNDS))
  {
  }

  function Initial(): (r: seq<Word>)
    ensures |r| == 5
  {
    seq(5, i requires 0 <= i < 5 => ToWord(IV[i]))
  }

  // The hash value after the blocks of a padded message that end by byte off.
  function Hash(m: seq<byte>, off: nat): (r: seq<Word>)
    requires off <= |m|
    ensures |r| == 5
  {
    if off < 64 then Initial() else Compress(Hash(m, off - 64), BlockAt(m, off - 64, false))
  }

  function Digest(msg: seq<byte>): (r: seq<byte>)
    ensures |r| == 20
  {
    var m := Padded(msg, false);
    WordsOut(Hash(m, |m|), false)
  }

  method ExtendInPlace(w: array<Word>, i: nat)
    requires 16 <= i < w.Length
    modifies w
    ensures w[..i + 1] == old(w[..i]) + [Extended(old(w[..i]), i)]
  {
    var x := RotateLeft(Xor(Xor(Xor(w[i - 3], w[i - 8]), w[i - 14]), w[i - 16]), 1);
    w[i] := x;
  }

  // ---- the loops ----

  // The schedule, filled in place.
  method Schedule(block: seq<Word>, w: array<Word>)
    requires |block| == 16 && w.Length == ROUNDS
    modifies w
    ensures w[..] == W(block, w.Length)
  {
    var i := 0;
    while i < 16
      invariant 0 <= i <= 16 && w[..i] == block[..i]
    {
      w[i] := block[i];
      i := i + 1;
    }
    while i < w.Length
      invariant 16 <= i <= w.Length && w[..i] == W(block, i)
    {
      ExtendInPlace(w, i);
      i := i + 1;
    }
    assert w[..i] == w[..];
  }

  // The forms of the choice and the majority that the code uses.
  lemma ChoiceByOr(x: Word, y: Word, z: Word)
    ensures Or(And(x, y), And(Not(x), z)) == Ch(x, y, z)
  {
  }

  lemma MajorityByOr(x: Word, y: Word, z: Word)
    ensures Or(Or(And(x, y), And(x, z)), And(y, z)) == Maj(x, y, z)
  {
  }

  method Mix(i: nat, b: Word, c: Word, d: Word) returns (f: Word, k: nat)
    ensures f == F(i, b, c, d) && k == K(i)
  {
    if i < 20 {
      f := Or(And(b, c), And(Not(b), d));
      ChoiceByOr(b, c, d);
      k := 0x5a827999;
    } else if i < 40 {
      f := Xor(Xor(b, c), d);
      k := 0x6ed9eba1;
    } else if i < 60 {
      f := Or(Or(And(b, c), And(b, d)), And(c, d));
      MajorityByOr(b, c, d);
      k := 0x8f1bbcdc;
    } else {
      f := Xor(Xor(b, c), d);
      k := 0xca62c1d6;
    }
  }

  method AddInPlace(hs: array<Word>, x: Registers)
    requires hs.Length == 5
    modifies hs
    ensures hs[..] == Plus(old(hs[..]), x)
  {
    Store(hs, [Add(hs[0], x.a), Add(hs[1], x.b), Add(hs[2], x.c), Add(hs[3], x.d), Add(hs[4], x.e)]);
  }

  method RoundsInPlace(start: Registers, w: array<Word>) returns (end: Registers)
    ensures end == Rounds(start, w[..], w.Length)
  {
    var a, b, c, d, e := start.a, start.b, start.c, start.d, start.e;
    var i := 0;
    while i < w.Length
      invariant 0 <= i <= w.Length && Registers(a, b, c, d, e) == Rounds(start, w[..], i)
    {
      var f, k := Mix(i, b, c, d);
      var a5 := RotateLeft(a, 5);
      var t := Add(Add(Add(Add(a5, f), e), ToWord(k)), w[i]);
      e := d;
      d := c;
      c := RotateLeft(b, 30);
      b := a;
      a := t;
      i := i + 1;
    }
    end := Registers(a, b, c, d, e);
  }

  // One block, added into the hash value.
  method CompressInPlace(hs: array<Word>, block: seq<Word>, w: array<Word>)
    requires hs.Length == 5 && |block| == 16 && w.Length == ROUNDS && hs != w
    modifies hs, w
    ensures hs[..] == Compress(old(hs[..]), block)
  {
    Schedule(block, w);
    ghost var was := hs[..];
    var x := RoundsInPlace(Registers(hs[0], hs[1], hs[2], hs[3], hs[4]), w);
    CompressAdds(was, block);
    AddInPlace(hs, x);
  }

  method NextBlock(m: seq<byte>, off: nat, hs: array<Word>, w: array<Word>)
    requires off + 64 <= |m| && hs.Length == 5 && w.Length == ROUNDS && hs != w && hs[..] == Hash(m, off)
    modifies hs, w
    ensures hs[..] == Hash(m, off + 64)
  {
    CompressInPlace(hs, BlockAt(m, off, false), w);
  }

  method HashInPlace(m: seq<byte>, hs: array<Word>, w: array<Word>, ghost blocks: nat)
    requires |m| == 64 * blocks && hs.Length == 5 && w.Length == ROUNDS && hs != w && hs[..] == Hash(m, 0)
    modifies hs, w
    ensures hs[..] == Hash(m, |m|)
  {
    var off := 0;
    ghost var n := 0;
    while off < |m|
      invariant off == 64 * n && n <= blocks && hs[..] == Hash(m, off)
      decreases blocks - n
    {
      NextBlock(m, off, hs, w);
      off, n := off + 64, n + 1;
    }
    assert n == blocks;
  }

  method Compute(msg: seq<byte>) returns (out: seq<byte>)
    ensures out == Digest(msg)
  {
    var hs, w := new Word[5], new Word[ROUNDS];
    Store(hs, Initial());
    var m := Pad(msg, false);
    WholeBlocks(msg, false);
    HashInPlace(m, hs, w, |m| / 64);
    out := Output(hs, false);
  }
}
