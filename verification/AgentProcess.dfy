// The guest's half: read a request, have the library answer it, send the answer, repeat.
module AgentProcess {
  import opened Bytes
  import opened Frames
  import opened Channels
  import opened Exchange

  // The requests a stream asks to be served: frame after frame, up to the end of the
  // stream, a malformed frame, or the request to quit.
  function Served(bs: seq<byte>): (requests: seq<Frame>)
    decreases |bs|
  {
    match Parse(bs, REQUEST_WORDS)
    case None => []
    case Some((request, rest)) =>
      ParsedIsEncoded(bs, REQUEST_WORDS);
      if request.first == QUIT then [] else [request] + Served(rest)
  }

  // What the process exits with on such a stream: 1 for a frame that is malformed, or cut
  // off anywhere but in its first eight bytes.
  function ExitCode(bs: seq<byte>): (code: int)
    decreases |bs|
  {
    match Parse(bs, REQUEST_WORDS)
    case None => if |bs| < 8 then 0 else 1
    case Some((request, rest)) =>
      ParsedIsEncoded(bs, REQUEST_WORDS);
      if request.first == QUIT then 0 else ExitCode(rest)
  }

  lemma ServedNext(bs: seq<byte>, q: Frame, rest: seq<byte>)
    requires Parse(bs, REQUEST_WORDS) == Some((q, rest))
    ensures |rest| < |bs|
    ensures Served(bs) == if q.first == QUIT then [] else [q] + Served(rest)
    ensures ExitCode(bs) == if q.first == QUIT then 0 else ExitCode(rest)
  {
    ParsedIsEncoded(bs, REQUEST_WORDS);
  }

  // What the agent has written after serving some requests.
  ghost predicate Replied(answer: Library, before: seq<byte>, served: seq<Frame>, after: seq<byte>) {
    after == before + EncodeAll(Answers(answer, served))
  }

  // What it has written when the last answer could not be sent whole.
  ghost predicate Interrupted(answer: Library, before: seq<byte>, served: seq<Frame>, after: seq<byte>) {
    served != [] && exists was ::
      Replied(answer, before, Front(served), was) && Cut(was, Encode(answer(served)), after)
  }

  lemma CutShort(answer: Library, before: seq<byte>, served: seq<Frame>, q: Frame, was: seq<byte>, after: seq<byte>)
    requires Replied(answer, before, served, was) && Cut(was, Encode(answer(served + [q])), after)
    ensures Interrupted(answer, before, served + [q], after)
  {
    assert Front(served + [q]) == served;
  }

  lemma OneMoreServed(served: seq<Frame>, q: Frame, more: seq<Frame>)
    ensures served + ([q] + more) == served + [q] + more
  {
  }

  lemma OneMoreReply(answer: Library, before: seq<byte>, served: seq<Frame>, q: Frame, was: seq<byte>, after: seq<byte>)
    requires Replied(answer, before, served, was) && after == was + Encode(answer(served + [q]))
    ensures Replied(answer, before, served + [q], after)
  {
    var replies, reply := Answers(answer, served), answer(served + [q]);
    assert (served + [q])[..|served|] == served;
    EncodeOneMore(replies, reply);
    Regrouped(before, EncodeAll(replies), Encode(reply));
  }

  // The blobs a stream starts with: those got so far, and k to come.
  ghost predicate Partial(whole: Option<(seq<seq<byte>>, seq<byte>)>, got: seq<seq<byte>>, left: seq<byte>, k: nat) {
    whole == InFront(got, TakeBlobs(left, k))
  }

  lemma PartialNext(whole: Option<(seq<seq<byte>>, seq<byte>)>, got: seq<seq<byte>>, left: seq<byte>, k: nat,
                    b: seq<byte>, more: seq<byte>)
    requires Partial(whole, got, left, k) && k > 0 && TakeBlob(left) == Some((b, more))
    ensures Partial(whole, got + [b], more, k - 1)
  {
    NextBlob(got, left, k, b, more);
  }

  lemma PartialStops(whole: Option<(seq<seq<byte>>, seq<byte>)>, got: seq<seq<byte>>, left: seq<byte>, k: nat)
    requires Partial(whole, got, left, k) && k > 0
    ensures TakeBlob(left).None? ==> whole.None?
  {
  }

  lemma PartialEnds(whole: Option<(seq<seq<byte>>, seq<byte>)>, got: seq<seq<byte>>, left: seq<byte>)
    requires Partial(whole, got, left, 0)
    ensures whole == Some((got, left))
  {
    assert got + [] == got;
  }

  lemma TooMany(bs: seq<byte>, head: seq<byte>, rest: seq<byte>)
    requires bs == head + rest && |head| == 8 && Value(head[4..]) > MAX_BLOBS
    ensures Parse(bs, REQUEST_WORDS).None?
  {
    assert bs[..4] == head[..4] && bs[4..] == head[4..] + rest;
    assert bs[4..][..4] == head[4..];
  }

  class Agent {
    const pipe: Channel
    const answer: Library
    const memory: nat -> bool
    var allocs: nat

    constructor (pipe: Channel, answer: Library, memory: nat -> bool)
      ensures this.pipe == pipe && this.answer == answer
    {
      this.pipe, this.answer, this.memory, allocs := pipe, answer, memory, 0;
    }

    // No system call fails and no malloc runs out from here on.
    ghost predicate Fine()
      reads this`allocs, pipe`turn
    {
      pipe.Smooth() && forall t :: t >= allocs ==> memory(t)
    }

    // A blob of a request.
    method ReadBlob() returns (ok: bool, b: seq<byte>)
      modifies pipe`turn, pipe`incoming, this`allocs
      ensures ok ==> TakeBlob(old(pipe.incoming)) == Some((b, pipe.incoming))
      ensures old(Fine()) ==> Fine()
      ensures old(Fine()) && !ok ==> TakeBlob(old(pipe.incoming)).None?
    {
      ghost var all := pipe.incoming;
      b := [];
      var r, bs := pipe.ReadAll(4);
      if r != 1 {
        return false, b;
      }
      ghost var rest := pipe.incoming;
      TakeIntIs(all, bs, rest);
      var len := Value(bs);
      if len > MAX_BLOB_BYTES {
        return false, b;
      }
      allocs := allocs + 1;
      if !memory(allocs - 1) {
        return false, b;
      }
      r, b := pipe.ReadAll(len);
      if r == 1 {
        assert Take(rest, len) == Some((b, pipe.incoming));
      }
      return r == 1, b;
    }

    // One blob more.
    method ReadNext(got: seq<seq<byte>>, ghost whole: Option<(seq<seq<byte>>, seq<byte>)>, ghost k: nat)
      returns (ok: bool, now: seq<seq<byte>>)
      requires k > 0 && Partial(whole, got, pipe.incoming, k)
      modifies pipe`turn, pipe`incoming, this`allocs
      ensures ok ==> Partial(whole, now, pipe.incoming, k - 1)
      ensures old(Fine()) ==> Fine() && (!ok ==> whole.None?)
    {
      ghost var was := pipe.incoming;
      var b;
      ok, b := ReadBlob();
      now := got + [b];
      if ok {
        PartialNext(whole, got, was, k, b, pipe.incoming);
      } else {
        PartialStops(whole, got, was, k);
      }
    }

    method ReadBlobs(n: nat, ghost whole: Option<(seq<seq<byte>>, seq<byte>)>) returns (ok: bool, blobs: seq<seq<byte>>)
      requires Partial(whole, [], pipe.incoming, n)
      modifies pipe`turn, pipe`incoming, this`allocs
      ensures ok ==> whole == Some((blobs, pipe.incoming))
      ensures old(Fine()) ==> Fine() && (!ok ==> whole.None?)
    {
      ghost var fine := Fine();
      blobs := [];
      var i := 0;
      while i < n
        invariant 0 <= i <= n && Partial(whole, blobs, pipe.incoming, n - i)
        invariant (fine ==> Fine())
      {
        ok, blobs := ReadNext(blobs, whole, n - i);
        if !ok {
          return;
        }
        i := i + 1;
      }
      PartialEnds(whole, blobs, pipe.incoming);
      ok := true;
    }

    // The next request: 1, or 0 when the host has gone, or -1 when it is malformed or
    // cannot be read.
    method ReadRequest() returns (r: int, q: Frame)
      modifies pipe`turn, pipe`incoming, this`allocs
      ensures -1 <= r <= 1
      ensures r == 1 ==> Parse(old(pipe.incoming), REQUEST_WORDS) == Some((q, pipe.incoming))
      ensures r == 0 ==> |old(pipe.incoming)| < 8 && pipe.incoming == []
      ensures old(Fine()) ==> Fine() && (r == 0 <==> |old(pipe.incoming)| < 8)
      ensures old(Fine()) && r == -1 ==> Parse(old(pipe.incoming), REQUEST_WORDS).None?
    {
      ghost var all := pipe.incoming;
      q := Frame(0, [], []);
      var head;
      r, head := pipe.ReadAll(8);
      if r <= 0 {
        return r, q;
      }
      var nblob := Value(head[4..]);
      ghost var afterHead := pipe.incoming;
      if nblob > MAX_BLOBS {
        TooMany(all, head, afterHead);
        return -1, q;
      }
      var words;
      r, words := pipe.ReadAll(32);
      if r <= 0 {
        if |all| < 40 {
          TooShort(all, REQUEST_WORDS);
        }
        return -1, q;
      }
      ghost var tail := pipe.incoming;
      ParsedByFields(all, REQUEST_WORDS, head, words, tail);
      NoneBefore(tail, nblob);
      var ok, blobs := ReadBlobs(nblob, TakeBlobs(tail, nblob));
      if !ok {
        return -1, q;
      }
      return 1, Frame(Value(head[..4]), TakeWords(words, REQUEST_WORDS).value.0, blobs);
    }

    // Serves until the host goes away, asks to quit, or sends what is no request.
    method Serve() returns (code: int, served: seq<Frame>)
      modifies this`allocs, pipe`turn, pipe`incoming, pipe`outgoing
      ensures served <= Served(old(pipe.incoming))
      ensures Replied(answer, old(pipe.outgoing), served, pipe.outgoing)
        || Interrupted(answer, old(pipe.outgoing), served, pipe.outgoing)
      ensures old(Fine()) ==>
        && served == Served(old(pipe.incoming)) && code == ExitCode(old(pipe.incoming))
        && Replied(answer, old(pipe.outgoing), served, pipe.outgoing)
    {
      served := [];
      ghost var all, exit, sent, fine := Served(pipe.incoming), ExitCode(pipe.incoming), pipe.outgoing, Fine();
      assert sent + [] == sent;
      assert [] + all == all;
      while true
        invariant all == served + Served(pipe.incoming) && exit == ExitCode(pipe.incoming)
        invariant Replied(answer, sent, served, pipe.outgoing)
        invariant (fine ==> Fine())
        decreases |pipe.incoming|
      {
        ghost var left, was := pipe.incoming, pipe.outgoing;
        var r, q := ReadRequest();
        if r != 1 {
          assert fine ==> served + [] == all;
          return if r == 0 then 0 else 1, served;
        }
        ServedNext(left, q, pipe.incoming);
        if q.first == QUIT {
          assert served + [] == all;
          return 0, served;
        }
        OneMoreServed(served, q, Served(pipe.incoming));
        ghost var before := served;
        served := served + [q];
        var ok := SendFrame(pipe, answer(served));
        if !ok {
          CutShort(answer, sent, before, q, was, pipe.outgoing);
          return 0, served;
        }
        OneMoreReply(answer, sent, before, q, was, pipe.outgoing);
      }
    }
  }

  lemma ServedFirst(q: Frame, left: seq<byte>)
    requires q.InLimits(REQUEST_WORDS) && q.first != QUIT
    ensures Served(Encode(q) + left) == [q] + Served(left)
  {
    EncodedIsParsed(q, left);
    ServedNext(Encode(q) + left, q, left);
  }

  lemma FirstAndRest(a: seq<Frame>, b: seq<Frame>)
    requires a != []
    ensures [a[0]] + (a[1..] + b) == a + b
  {
  }

  // A stream of requests asks for just those, whatever is or is not after them.
  lemma {:induction false} RequestsAreServed(requests: seq<Frame>, rest: seq<byte>)
    requires AllInLimits(requests, REQUEST_WORDS)
    requires forall i :: 0 <= i < |requests| ==> requests[i].first != QUIT
    ensures Served(EncodeAll(requests) + rest) == requests + Served(rest)
  {
    if requests == [] {
      assert [] + rest == rest && [] + Served(rest) == Served(rest);
    } else {
      var q, more := requests[0], EncodeAll(requests[1..]);
      var left := more + rest;
      assert EncodeAll(requests) + rest == Encode(q) + left by { Regrouped(Encode(q), more, rest); }
      ServedFirst(q, left);
      RequestsAreServed(requests[1..], rest);
      FirstAndRest(requests, Served(rest));
    }
  }

  // What the process exits with: 0 on a stream of requests that ends with one to quit, or
  // with fewer than eight bytes more; and 1 if more bytes than that are no request.
  lemma {:induction false} ExitsWith(fs: seq<Frame>, rest: seq<byte>)
    requires AllInLimits(fs, REQUEST_WORDS) && forall i :: 0 <= i < |fs| ==> fs[i].first != 255
    ensures |rest| < 8 ==> ExitCode(EncodeAll(fs) + rest) == 0
    ensures |rest| >= 8 && Parse(rest, REQUEST_WORDS).None? ==> ExitCode(EncodeAll(fs) + rest) == 1
    ensures Parse(rest, REQUEST_WORDS).Some? && Parse(rest, REQUEST_WORDS).value.0.first == 255 ==>
      ExitCode(EncodeAll(fs) + rest) == 0
  {
    if fs == [] {
      assert EncodeAll(fs) + rest == rest;
      if |rest| < 8 {
        TooShort(rest, REQUEST_WORDS);
      }
    } else {
      var more := EncodeAll(fs[1..]);
      Regrouped(Encode(fs[0]), more, rest);
      EncodedIsParsed(fs[0], more + rest);
      ServedNext(EncodeAll(fs) + rest, fs[0], more + rest);
      ExitsWith(fs[1..], rest);
    }
  }
}
