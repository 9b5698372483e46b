// MD5: the in-place loop, which turns the registers round, against the operations of RFC
// 1321, which name them one by one.
module Md5 {
  import opened Bytes
  import opened Padding
  import opened DigestWords

  // ---- the standard: sections 3.3 and 3.4 ----

  const ROUNDS: nat := 64

  const T: seq<nat> :=
    [0xd76aa478, 0xe8c7b756, 0x242070db, 0xc1bdceee, 0xf57c0faf, 0x4787c62a, 0xa8304613, 0xfd469501]
    + [0x698098d8, 0x8b44f7af, 0xffff5bb1, 0x895cd7be, 0x6b901122, 0xfd987193, 0xa679438e, 0x49b40821]
    + [0xf61e2562, 0xc040b340, 0x265e5a51, 0xe9b6c7aa, 0xd62f105d, 0x02441453, 0xd8a1e681, 0xe7d3fbc8]
    + [0x21e1cde6, 0xc33707d6, 0xf4d50d87, 0x455a14ed, 0xa9e3e905, 0xfcefa3f8, 0x676f02d9, 0x8d2a4c8a]
    + [0xfffa3942, 0x8771f681, 0x6d9d6122, 0xfde5380c, 0xa4beea44, 0x4bdecfa9, 0xf6bb4b60, 0xbebfbc70]
    + [0x289b7ec6, 0xeaa127fa, 0xd4ef3085, 0x04881d05, 0xd9d4d039, 0xe6db99e5, 0x1fa27cf8, 0xc4ac5665]
    + [0xf4292244, 0x432aff97, 0xab9423a7, 0xfc93a039, 0x655b59c3, 0x8f0ccc92, 0xffeff47d, 0x85845dd1]
    + [0x6fa87e4f, 0xfe2ce6e0, 0xa3014314, 0x4e0811a1, 0xf7537e82, 0xbd3af235, 0x2ad7d2bb, 0xeb86d391]

  const IV: seq<nat> := [0x67452301, 0xefcdab89, 0x98badcfe, 0x10325476]

  // The word of the block each operation takes, round by round.
  function SecondRow(u: nat): nat {
    match u
    case 0 => 1 case 1 => 6 case 2 => 11 case 3 => 0 case 4 => 5 case 5 => 10 case 6 => 15 case 7 => 4
    case 8 => 9 case 9 => 14 case 10 => 3 case 11 => 8 case 12 => 13 case 13 => 2 case 14 => 7 case _ => 12
  }

  function ThirdRow(u: nat): nat {
    match u
    case 0 => 5 case 1 => 8 case 2 => 11 case 3 => 14 case 4 => 1 case 5 => 4 case 6 => 7 case 7 => 10
    case 8 => 13 case 9 => 0 case 10 => 3 case 11 => 6 case 12 => 9 case 13 => 12 case 14 => 15 case _ => 2
  }

  function FourthRow(u: nat): nat {
    match u
    case 0 => 0 case 1 => 7 case 2 => 14 case 3 => 5 case 4 => 12 case 5 => 3 case 6 => 10 case 7 => 1
    case 8 => 8 case 9 => 15 case 10 => 6 case 11 => 13 case 12 => 4 case 13 => 11 case 14 => 2 case _ => 9
  }

  function Listed(t: nat): (k: nat)
  {
    if t < 16 then t else if t < 32 then SecondRow(t - 16) else if t < 48 then ThirdRow(t - 32) else FourthRow(t - 48)
  }

  // How far each turns its sum, by round and by place in the row.
  function Turn(t: nat): (s: nat)
    requires t < 64
    ensures s <= 32
  {
    if t < 16 then (match t % 4 case 0 => 7 case 1 => 12 case 2 => 17 case _ => 22)
    else if t < 32 then (match t % 4 case 0 => 5 case 1 => 9 case 2 => 14 case _ => 20)
    else if t < 48 then (match t % 4 case 0 => 4 case 1 => 11 case 2 => 16 case _ => 23)
    else (match t % 4 case 0 => 6 case 1 => 10 case 2 => 15 case _ => 21)
  }

  function F(x: Word, y: Word, z: Word): Word { Or(And(x, y), And(Not(x), z)) }
  function G(x: Word, y: Word, z: Word): Word { Or(And(x, z), And(y, Not(z))) }
  function H(x: Word, y: Word, z: Word): Word { Xor(Xor(x, y), z) }
  function I(x: Word, y: Word, z: Word): Word { Xor(y, Or(x, Not(z))) }

  function Mixed(t: nat, x: Word, y: Word, z: Word): Word {
    if t < 16 then F(x, y, z) else if t < 32 then G(x, y, z) else if t < 48 then H(x, y, z) else I(x, y, z)
  }

  // What an operation works with: its round, its word of the block, its constant, and
  // how far it turns.
  datatype Step = Step(t: nat, x: Word, k: Word, s: nat)

  lemma AllConstants()
    ensures |T| == ROUNDS
  {
  }

  lemma SecondPlaces(u: nat)
    requires u < 16
    ensures SecondRow(u) == (5 * (u + 16) + 1) % 16
  {
  }

  lemma ThirdPlaces(u: nat)
    requires u < 16
    ensures ThirdRow(u) == (3 * (u + 32) + 5) % 16
  {
  }

  lemma FourthPlaces(u: nat)
    requires u < 16
    ensures FourthRow(u) == (7 * (u + 48)) % 16
  {
  }

  // Where in the block the code looks.
  function Place(t: nat): (g: nat)
    ensures t < 64 ==> g < 16
  {
    if t < 16 then t else if t < 32 then (5 * t + 1) % 16 else if t < 48 then (3 * t + 5) % 16 else (7 * t) % 16
  }

  lemma PlacesAreListed(t: nat)
    requires t < 64
    ensures Listed(t) == Place(t) < 16
  {
    if 16 <= t < 32 {
      SecondPlaces(t - 16);
    } else if 32 <= t < 48 {
      ThirdPlaces(t - 32);
    } else if 48 <= t {
      FourthPlaces(t - 48);
    }
  }

  function StepOf(block: seq<Word>, t: nat): (p: Step)
    requires t < ROUNDS && |block| == 16
    ensures p.s <= 32
  {
    AllConstants();
    PlacesAreListed(t);
    Step(t, block[Listed(t)], ToWord(T[t]), Turn(t))
  }

  // b + ((a + F(b, c, d) + X[k] + T[i]) <<< s).
  function Sum(p: Step, a: Word, b: Word, c: Word, d: Word): Word
    requires p.s <= 32
  {
    Add(b, Rotl(Add(Add(Add(a, Mixed(p.t, b, c, d)), p.x), p.k), p.s))
  }

  datatype Registers = Registers(a: Word, b: Word, c: Word, d: Word)
  {
    function At(i: nat): Word
      requires i < 4
    {
      match i
      case 0 => a
      case 1 => b
      case 2 => c
      case _ => d
    }
  }

  // Operation t changes one register: [ABCD], [DABC], [CDAB] and [BCDA] by turns.
  function Operation(r: Registers, p: Step): Registers
    requires p.s <= 32
  {
    match p.t % 4
    case 0 => r.(a := Sum(p, r.a, r.b, r.c, r.d))
    case 1 => r.(d := Sum(p, r.d, r.a, r.b, r.c))
    case 2 => r.(c := Sum(p, r.c, r.d, r.a, r.b))
    case _ => r.(b := Sum(p, r.b, r.c, r.d, r.a))
  }

  function Operations(start: Registers, block: seq<Word>, t: nat): Registers
    requires t <= ROUNDS && |block| == 16
  {
    if t == 0 then start else Operation(Operations(start, block, t - 1), StepOf(block, t - 1))
  }

  // Added back, word by word.
  function Plus(h: seq<Word>, x: Registers): (r: seq<Word>)
    requires |h| == 4
    ensures |r| == 4
  {
    seq(4, i requires 0 <= i < 4 => Add(h[i], x.At(i)))
  }

  function From(h: seq<Word>): Registers
    requires |h| == 4
  {
    Registers(h[0], h[1], h[2], h[3])
  }

  // One block's worth.
  function Compress(h: seq<Word>, block: seq<Word>): (r: seq<Word>)
    requires |h| == 4 && |block| == 16
    ensures |r| == 4
  {
    seq(4, i requires 0 <= i < 4 => Add(h[i], Operations(From(h), block, ROUNDS).At(i)))
  }

  lemma CompressAdds(h: seq<Word>, block: seq<Word>)
    requires |h| == 4 && |block| == 16
    ensures Compress(h, block) == Plus(h, Operations(From(h), block, ROUNDS))
  {
  }

  function Initial(): (r: seq<Word>)
    ensures |r| == 4
  {
    seq(4, i requires 0 <= i < 4 => ToWord(IV[i]))
  }

  // The hash value after the blocks of a padded message that end by byte off.
  function Hash(m: seq<byte>, off: nat): (r: seq<Word>)
    requires off <= |m|
    ensures |r| == 4
  {
    if off < 64 then Initial() else Compress(Hash(m, off - 64), BlockAt(m, off - 64, true))
  }

  function Digest(msg: seq<byte>): (r: seq<byte>)
    ensures |r| == 16
  {
    var m := Padded(msg, true);
    WordsOut(Hash(m, |m|), true)
  }

  // ---- the loop ----

  const S1: seq<nat> := [7, 12, 17, 22, 7, 12, 17, 22, 7, 12, 17, 22, 7, 12, 17, 22]
  const S2: seq<nat> := [5, 9, 14, 20, 5, 9, 14, 20, 5, 9, 14, 20, 5, 9, 14, 20]
  const S3: seq<nat> := [4, 11, 16, 23, 4, 11, 16, 23, 4, 11, 16, 23, 4, 11, 16, 23]
  const S4: seq<nat> := [6, 10, 15, 21, 6, 10, 15, 21, 6, 10, 15, 21, 6, 10, 15, 21]
  const S: seq<nat> := S1 + S2 + S3 + S4

  // The registers as the loop has them before operation t: turned round t times.
  function Turned(r: Registers, t: nat): Registers {
    match t % 4
    case 0 => r
    case 1 => Registers(r.d, r.a, r.b, r.c)
    case 2 => Registers(r.c, r.d, r.a, r.b)
    case _ => Registers(r.b, r.c, r.d, r.a)
  }

  lemma NextPlace(t: nat)
    ensures (t + 1) % 4 == if t % 4 == 3 then 0 else t % 4 + 1
  {
  }

  // One turn of the loop is one operation.
  lemma TurnIsOperation(r: Registers, p: Step)
    requires p.s <= 32
    ensures var x := Turned(r, p.t);
      Turned(Operation(r, p), p.t + 1) == Registers(x.d, Sum(p, x.a, x.b, x.c, x.d), x.b, x.c)
  {
    NextPlace(p.t);
  }

  lemma FirstTurns(u: nat)
    requires u < 16
    ensures |S1| == 16 && S1[u] == Turn(u)
  {
  }

  lemma SecondTurns(u: nat)
    requires u < 16
    ensures |S2| == 16 && S2[u] == Turn(u + 16)
  {
  }

  lemma ThirdTurns(u: nat)
    requires u < 16
    ensures |S3| == 16 && S3[u] == Turn(u + 32)
  {
  }

  lemma FourthTurns(u: nat)
    requires u < 16
    ensures |S4| == 16 && S4[u] == Turn(u + 48)
  {
  }

  lemma TurnsAreListed(t: nat)
    requires t < 64
    ensures |S| == 64 && S[t] == Turn(t)
  {
    if t < 16 {
      FirstTurns(t);
    } else if t < 32 {
      SecondTurns(t - 16);
    } else if t < 48 {
      ThirdTurns(t - 32);
    } else {
      FourthTurns(t - 48);
    }
  }

  lemma SecondByOr(b: Word, c: Word, d: Word)
    ensures Or(And(d, b), And(Not(d), c)) == G(b, c, d)
  {
  }

  method Mix(i: nat, b: Word, c: Word, d: Word) returns (f: Word, g: nat, s: nat)
    requires i < 64
    ensures f == Mixed(i, b, c, d) && g == Listed(i) < 16 && s == Turn(i)
  {
    PlacesAreListed(i);
    TurnsAreListed(i);
    s := S[i];
    if i < 16 {
      f := Or(And(b, c), And(Not(b), d));
      g := i;
    } else if i < 32 {
      f := Or(And(d, b), And(Not(d), c));
      SecondByOr(b, c, d);
      g := (5 * i + 1) % 16;
    } else if i < 48 {
      f := Xor(Xor(b, c), d);
      g := (3 * i + 5) % 16;
    } else {
      f := Xor(c, Or(b, Not(d)));
      g := (7 * i) % 16;
    }
  }

  lemma LastTwo(a: Word, k: Word, x: Word)
    ensures Add(Add(a, k), x) == Add(Add(a, x), k)
  {
    AddAssociates(a, k, x);
    AddCommutes(k, x);
    AddAssociates(a, x, k);
  }

  method RoundsInPlace(start: Registers, w: seq<Word>) returns (end: Registers)
    requires |w| == 16
    ensures end == Operations(start, w, ROUNDS)
  {
    var a, b, c, d := start.a, start.b, start.c, start.d;
    ghost var r := start;
    var i := 0;
    AllConstants();
    while i < ROUNDS
      invariant 0 <= i <= ROUNDS && r == Operations(start, w, i) && Registers(a, b, c, d) == Turned(r, i)
    {
      var f, g, s := Mix(i, b, c, d);
      LastTwo(Add(a, f), ToWord(T[i]), w[g]);
      TurnIsOperation(r, StepOf(w, i));
      var tmp := d;
      d := c;
      c := b;
      var turned := RotateLeft(Add(Add(Add(a, f), ToWord(T[i])), w[g]), s);
      b := Add(b, turned);
      a := tmp;
      r := Operation(r, StepOf(w, i));
      i := i + 1;
    }
    end := Registers(a, b, c, d);
  }

  method AddInPlace(hs: array<Word>, x: Registers)
    requires hs.Length == 4
    modifies hs
    ensures hs[..] == Plus(old(hs[..]), x)
  {
    Store(hs, [Add(hs[0], x.a), Add(hs[1], x.b), Add(hs[2], x.c), Add(hs[3], x.d)]);
  }

  // One block, added into the hash value.
  method CompressInPlace(hs: array<Word>, w: seq<Word>)
    requires hs.Length == 4 && |w| == 16
    modifies hs
    ensures hs[..] == Compress(old(hs[..]), w)
  {
    ghost var was := hs[..];
    var x := RoundsInPlace(Registers(hs[0], hs[1], hs[2], hs[3]), w);
    CompressAdds(was, w);
    AddInPlace(hs, x);
  }

  method NextBlock(m: seq<byte>, off: nat, hs: array<Word>)
    requires off + 64 <= |m| && hs.Length == 4 && hs[..] == Hash(m, off)
    modifies hs
    ensures hs[..] == Hash(m, off + 64)
  {
    CompressInPlace(hs, BlockAt(m, off, true));
  }

  method HashInPlace(m: seq<byte>, hs: array<Word>, ghost blocks: nat)
    requires |m| == 64 * blocks && hs.Length == 4 && hs[..] == Hash(m, 0)
    modifies hs
    ensures hs[..] == Hash(m, |m|)
  {
    var off := 0;
    ghost var n := 0;
    while off < |m|
      invariant off == 64 * n && n <= blocks && hs[..] == Hash(m, off)
      decreases blocks - n
    {
      NextBlock(m, off, hs);
      off, n := off + 64, n + 1;
    }
    assert n == blocks;
  }

  method Compute(msg: seq<byte>) returns (out: seq<byte>)
    ensures out == Digest(msg)
  {
    var hs := new Word[4];
    Store(hs, Initial());
    var m := Pad(msg, true);
    WholeBlocks(msg, true);
    HashInPlace(m, hs, |m| / 64);
    out := Output(hs, true);
  }
}
