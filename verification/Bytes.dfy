// Bytes, and little-endian integers of a given width.
module Bytes {

  type byte = b: int | 0 <= b < 256

  const U32: int := 0x1_0000_0000
  const U64: int := 0x1_0000_0000_0000_0000

  datatype Option<+T> = None | Some(value: T)

  function Power256(width: nat): (p: nat)
    ensures p > 0
  {
    if width == 0 then 1 else 256 * Power256(width - 1)
  }

  lemma Widths()
    ensures Power256(1) == 256 && Power256(2) == 0x1_0000 && Power256(4) == U32 && Power256(8) == U64
  {
    assert Power256(3) == 0x100_0000;
    assert Power256(5) == 256 * U32;
    assert Power256(6) == 0x1_0000 * U32;
    assert Power256(7) == 0x100_0000 * U32;
  }

  // v in the given number of bytes, lowest first; what does not fit is dropped.
  function Little(v: nat, width: nat): (bs: seq<byte>)
    ensures |bs| == width
  {
    if width == 0 then [] else [v % 256] + Little(v / 256, width - 1)
  }

  function Value(bs: seq<byte>): (v: nat)
  {
    if bs == [] then 0 else bs[0] + 256 * Value(bs[1..])
  }

  // The first byte counts least.
  lemma ValueOfTwo(bs: seq<byte>)
    requires |bs| == 2
    ensures Value(bs) == (bs[0] as int) + 0x100 * (bs[1] as int)
  {
    assert bs[1..][1..] == [] && Value(bs[1..]) == bs[1];
  }

  lemma ValueOfFour(bs: seq<byte>)
    requires |bs| == 4
    ensures Value(bs) == (bs[0] as int) + 0x100 * (bs[1] as int) + 0x1_0000 * (bs[2] as int) + 0x100_0000 * (bs[3] as int)
  {
    assert bs[1..][1..] == bs[2..] && bs[2..][1..] == bs[3..] && bs[3..][1..] == [];
    assert Value(bs[3..]) == bs[3] && Value(bs[2..]) == bs[2] + 256 * Value(bs[3..]);
    assert Value(bs[1..]) == bs[1] + 256 * Value(bs[2..]);
  }

  lemma {:induction false} ValueBound(bs: seq<byte>)
    ensures Value(bs) < Power256(|bs|)
  {
    if bs != [] {
      ValueBound(bs[1..]);
    }
  }

  lemma {:induction false} LittleValue(v: nat, width: nat)
    requires v < Power256(width)
    ensures Value(Little(v, width)) == v
  {
    if width > 0 {
      LittleValue(v / 256, width - 1);
    }
  }

  lemma {:induction false} ValueLittle(bs: seq<byte>)
    ensures Little(Value(bs), |bs|) == bs
  {
    if bs != [] {
      ValueLittle(bs[1..]);
      var v, rest := Value(bs), Value(bs[1..]);
      assert v == bs[0] + 256 * rest;
      assert v % 256 == bs[0] && v / 256 == rest;
      assert Little(v, |bs|) == [v % 256] + Little(v / 256, |bs| - 1);
    }
  }

  // The next n bytes of a stream, if there are that many.
  function Take(bs: seq<byte>, n: nat): (r: Option<(seq<byte>, seq<byte>)>)
    ensures r.Some? <==> n <= |bs|
    ensures r.Some? ==> |r.value.0| == n && r.value.0 + r.value.1 == bs
  {
    if n <= |bs| then Some((bs[..n], bs[n..])) else None
  }

  // The next little-endian integer of a stream.
  function TakeInt(bs: seq<byte>, width: nat): (r: Option<(nat, seq<byte>)>)
    ensures r.Some? <==> width <= |bs|
    ensures r.Some? ==> r.value.0 < Power256(width) && Little(r.value.0, width) + r.value.1 == bs
  {
    if width <= |bs| then
      ValueBound(bs[..width]);
      ValueLittle(bs[..width]);
      Some((Value(bs[..width]), bs[width..]))
    else
      None
  }

  lemma TakeWritten(v: nat, width: nat, rest: seq<byte>)
    requires v < Power256(width)
    ensures TakeInt(Little(v, width) + rest, width) == Some((v, rest))
  {
    LittleValue(v, width);
    assert (Little(v, width) + rest)[..width] == Little(v, width);
    assert (Little(v, width) + rest)[width..] == rest;
  }

  lemma TakeBytesWritten(bs: seq<byte>, rest: seq<byte>)
    ensures Take(bs + rest, |bs|) == Some((bs, rest))
  {
  }

  lemma TakeIntIs(all: seq<byte>, bs: seq<byte>, rest: seq<byte>)
    requires all == bs + rest
    ensures TakeInt(all, |bs|) == Some((Value(bs), rest))
  {
    assert all[..|bs|] == bs && all[|bs|..] == rest;
  }

  // Reading does not depend on what comes after.
  lemma TakeIntExtends(bs: seq<byte>, width: nat, more: seq<byte>)
    requires width <= |bs|
    ensures TakeInt(bs + more, width) == Some((TakeInt(bs, width).value.0, TakeInt(bs, width).value.1 + more))
  {
    assert (bs + more)[..width] == bs[..width];
    assert (bs + more)[width..] == bs[width..] + more;
  }

  lemma TakeExtends(bs: seq<byte>, n: nat, more: seq<byte>)
    requires n <= |bs|
    ensures Take(bs + more, n) == Some((Take(bs, n).value.0, Take(bs, n).value.1 + more))
  {
    assert (bs + more)[..n] == bs[..n];
    assert (bs + more)[n..] == bs[n..] + more;
  }

  lemma Regrouped(a: seq<byte>, b: seq<byte>, c: seq<byte>)
    ensures a + b + c == a + (b + c)
  {
  }
}
