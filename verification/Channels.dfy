// A pair of pipes as one end sees it. The operating system moves as many bytes per call as
// it likes, and may fail.
module Channels {
  import opened Bytes
  import opened Frames

  // Only the first part of bs, and not all of it, was added to what had been written.
  ghost predicate Cut(before: seq<byte>, bs: seq<byte>, after: seq<byte>) {
    exists k :: 0 <= k < |bs| && after == before + bs[..k]
  }

  class Channel {
    // What each system call in turn comes to: a failure, or at most so many bytes.
    const os: nat -> int
    var turn: nat
    // Everything the other end will send before it closes, and everything sent to it.
    var incoming: seq<byte>
    var outgoing: seq<byte>

    constructor (os: nat -> int, incoming: seq<byte>)
      ensures this.os == os && this.incoming == incoming && outgoing == [] && turn == 0
    {
      this.os, this.incoming, outgoing, turn := os, incoming, [], 0;
    }

    // No system call fails from here on.
    ghost predicate Smooth()
      reads this`turn
    {
      forall t :: t >= turn ==> os(t) > 0
    }

    // read(2): how many bytes came, 0 at the end of the stream, -1 on failure.
    method OsRead(n: nat) returns (got: int, bs: seq<byte>)
      requires n > 0
      modifies this`turn, this`incoming
      ensures -1 <= got <= n && (got > 0 ==> |bs| == got) && (got <= 0 ==> bs == [])
      ensures old(incoming) == bs + incoming
      ensures got == 0 ==> incoming == []
      ensures old(Smooth()) ==> Smooth() && got >= 0
    {
      var limit := os(turn);
      turn := turn + 1;
      if limit <= 0 {
        return -1, [];
      }
      got := if limit < n then limit else n;
      if |incoming| < got {
        got := |incoming|;
      }
      bs, incoming := incoming[..got], incoming[got..];
    }

    // write(2): how many of the bytes were taken; nothing or less is a failure.
    method OsWrite(bs: seq<byte>) returns (put: int)
      requires bs != []
      modifies this`turn, this`outgoing
      ensures put <= |bs|
      ensures outgoing == if put > 0 then old(outgoing) + bs[..put] else old(outgoing)
      ensures old(Smooth()) ==> Smooth() && put > 0
    {
      put := os(turn);
      turn := turn + 1;
      if put > |bs| {
        put := |bs|;
      }
      if put > 0 {
        outgoing := outgoing + bs[..put];
      }
    }

    // Reads n bytes: 1 when all came, 0 when the stream ended first, -1 on failure.
    method ReadAll(n: nat) returns (r: int, bs: seq<byte>)
      modifies this`turn, this`incoming
      ensures -1 <= r <= 1 && old(incoming) == bs + incoming
      ensures r == 1 <==> |bs| == n
      ensures r == 0 ==> incoming == [] && |bs| < n
      ensures old(Smooth()) ==> Smooth() && (r == 1 <==> n <= |old(incoming)|) && r >= 0
      ensures |bs| <= n
    {
      bs := [];
      while |bs| < n
        invariant |bs| <= n && old(incoming) == bs + incoming
        invariant old(Smooth()) ==> Smooth()
        decreases n - |bs|
      {
        var got, more := OsRead(n - |bs|);
        Regrouped(bs, more, incoming);
        bs := bs + more;
        if got == 0 {
          return 0, bs;
        }
        if got < 0 {
          return -1, bs;
        }
      }
      return 1, bs;
    }

    // Writes all of the bytes, or fails part of the way.
    method WriteAll(bs: seq<byte>) returns (ok: bool)
      modifies this`turn, this`outgoing
      ensures ok ==> outgoing == old(outgoing) + bs
      ensures !ok ==> Cut(old(outgoing), bs, outgoing)
      ensures old(Smooth()) ==> Smooth() && ok
    {
      var done := 0;
      while done < |bs|
        invariant 0 <= done <= |bs| && outgoing == old(outgoing) + bs[..done]
        invariant old(Smooth()) ==> Smooth()
        decreases |bs| - done
      {
        var put := OsWrite(bs[done..]);
        if put <= 0 {
          return false;
        }
        assert bs[done..][..put] == bs[done..done + put];
        assert bs[..done + put] == bs[..done] + bs[done..done + put];
        Regrouped(old(outgoing), bs[..done], bs[done..done + put]);
        done := done + put;
      }
      assert bs[..done] == bs;
      return true;
    }
  }

  // Cut within the second of two pieces is cut within both.
  lemma CutLater(before: seq<byte>, first: seq<byte>, second: seq<byte>, after: seq<byte>)
    requires Cut(before + first, second, after)
    ensures Cut(before, first + second, after)
  {
    var k :| 0 <= k < |second| && after == before + first + second[..k];
    assert (first + second)[..|first| + k] == first + second[..k];
    Regrouped(before, first, second[..k]);
  }

  lemma CutEarlier(before: seq<byte>, first: seq<byte>, second: seq<byte>, after: seq<byte>)
    requires Cut(before, first, after)
    ensures Cut(before, first + second, after)
  {
    var k :| 0 <= k < |first| && after == before + first[..k];
    assert (first + second)[..k] == first[..k];
  }

  // Writes a piece of all that is to be written, of which done has been.
  method WritePiece(c: Channel, ghost before: seq<byte>, ghost done: seq<byte>, piece: seq<byte>, ghost after: seq<byte>,
                    ghost all: seq<byte>)
    returns (ok: bool)
    requires c.outgoing == before + done && all == done + (piece + after)
    modifies c`turn, c`outgoing
    ensures ok ==> c.outgoing == before + (done + piece) && all == (done + piece) + after
    ensures !ok ==> Cut(before, all, c.outgoing)
    ensures old(c.Smooth()) ==> c.Smooth() && ok
  {
    ok := c.WriteAll(piece);
    Regrouped(before, done, piece);
    Regrouped(done, piece, after);
    if !ok {
      CutLater(before, done, piece, c.outgoing);
      CutEarlier(before, done + piece, after, c.outgoing);
    }
  }

  lemma FirstBlob(blobs: seq<seq<byte>>, i: nat)
    requires i < |blobs|
    ensures Blobs(blobs[i..]) == Little(|blobs[i]|, 4) + (blobs[i] + Blobs(blobs[i + 1..]))
  {
    assert blobs[i..][1..] == blobs[i + 1..];
    Regrouped(Little(|blobs[i]|, 4), blobs[i], Blobs(blobs[i + 1..]));
  }

  // A frame, field by field: the head, the scalars, and each blob behind its length.
  method SendFrame(c: Channel, f: Frame) returns (ok: bool)
    modifies c`turn, c`outgoing
    ensures ok ==> c.outgoing == old(c.outgoing) + Encode(f)
    ensures !ok ==> Cut(old(c.outgoing), Encode(f), c.outgoing)
    ensures old(c.Smooth()) ==> c.Smooth() && ok
  {
    ghost var before, all := c.outgoing, Encode(f);
    var head, words := Little(f.first, 4) + Little(|f.blobs|, 4), Words(f.words);
    assert before + [] == before;
    assert all == [] + (head + (words + Blobs(f.blobs)));
    ok := WritePiece(c, before, [], head, words + Blobs(f.blobs), all);
    if !ok {
      return;
    }
    ghost var done := [] + head;
    ok := WritePiece(c, before, done, words, Blobs(f.blobs), all);
    if !ok {
      return;
    }
    done := done + words;
    var i := 0;
    assert f.blobs[0..] == f.blobs;
    while i < |f.blobs|
      invariant 0 <= i <= |f.blobs| && c.outgoing == before + done && all == done + Blobs(f.blobs[i..])
      invariant old(c.Smooth()) ==> c.Smooth()
    {
      var b := f.blobs[i];
      ghost var more := Blobs(f.blobs[i + 1..]);
      FirstBlob(f.blobs, i);
      ok := WritePiece(c, before, done, Little(|b|, 4), b + more, all);
      if !ok {
        return;
      }
      done := done + Little(|b|, 4);
      ok := WritePiece(c, before, done, b, more, all);
      if !ok {
        return;
      }
      done := done + b;
      i := i + 1;
    }
    assert done + Blobs(f.blobs[i..]) == done;
    ok := true;
  }
}
