// The host's half of a call: start the agent if need be, send the request, take in the
// answer, and come out with the lock released and nothing leaked, however it goes.
module HostLibrary {
  import opened Bytes
  import opened Frames
  import opened Channels

  class Response {
    var code: nat
    var nblob: nat
    var r: seq<nat>
    var len: seq<nat>
    // Where each blob is, 0 for none.
    var blob: seq<nat>

    constructor ()
    {
      code, nblob, r, len, blob := 0, 0, [], [], [];
    }

    method Clear()
      modifies this
      ensures code == 0 && nblob == 0 && r == [0, 0] && len == [0, 0, 0] && blob == [0, 0, 0]
    {
      code, nblob, r, len, blob := 0, 0, [0, 0], [0, 0, 0], [0, 0, 0];
    }
  }

  datatype Status = Good | Malformed | NoMemory | CutShort

  // The addresses of the first n blobs.
  function Owned(blob: seq<nat>, n: nat): set<nat>
    requires n <= |blob|
  {
    set j | 0 <= j < n :: blob[j]
  }

  lemma SameOwned(was: seq<nat>, now: seq<nat>, n: nat)
    requires n <= |was| == |now| && forall j :: 0 <= j < n ==> now[j] == was[j]
    ensures Owned(now, n) == Owned(was, n)
  {
  }

  type Heap = map<nat, seq<byte>>

  // The blocks there were and one more.
  lemma OneBlockMore(held: Heap, heap: Heap, was: seq<nat>, now: seq<nat>, n: nat)
    requires n < |was| == |now| && forall j :: 0 <= j < n ==> now[j] == was[j] && was[j] in held
    requires forall j, k :: 0 <= j < k < n ==> was[j] != was[k]
    requires now[n] !in held && now[n] in heap && heap - {now[n]} == held
    ensures forall j :: 0 <= j < n + 1 ==> now[j] in heap
    ensures forall j, k :: 0 <= j < k < n + 1 ==> now[j] != now[k]
    ensures heap - Owned(now, n + 1) == held - Owned(was, n)
  {
    assert Owned(now, n + 1) == Owned(was, n) + {now[n]};
    assert forall x :: x in held ==> x in heap - {now[n]};
    assert heap - Owned(now, n + 1) == heap - {now[n]} - Owned(was, n);
  }

  // The first blobs of a response hold these contents, each with a terminator, in blocks
  // of their own.
  ghost predicate Holds(heap: Heap, blob: seq<nat>, contents: seq<seq<byte>>) {
    && |contents| <= |blob|
    && (forall j :: 0 <= j < |contents| ==> blob[j] in heap && heap[blob[j]] == contents[j] + [0])
    && (forall j, k :: 0 <= j < k < |contents| ==> blob[j] != blob[k])
  }

  // An answer and what follows it, if it is well formed.
  type Parsed = Option<(Frame, seq<byte>)>

  // The frame, once its blobs are known.
  function Completed(first: nat, words: seq<nat>, blobs: Option<(seq<seq<byte>>, seq<byte>)>): Parsed {
    match blobs
    case None => None
    case Some((contents, rest)) => Some((Frame(first, words, contents), rest))
  }

  lemma StillElsewhere(heap: Heap, a: nat, block: seq<byte>)
    ensures heap[a := block] - {a} == heap - {a}
  {
  }

  // Only a blob's length was read.
  ghost predicate LengthRead(before: seq<byte>, after: seq<byte>) {
    && TakeInt(before, 4).Some? && TakeInt(before, 4).value.0 <= MAX_BLOB_BYTES
    && after == TakeInt(before, 4).value.1
  }

  // What a call comes to: an answer, the end of the agent, or an answer abandoned at a
  // blob for want of memory.
  datatype Outcome = Answered(answer: Frame) | Failed | Lost(at: nat)

  // What of the host decides later calls: its state, what it has sent, and what it will
  // receive.
  datatype View = View(up: bool, broken: bool, locked: bool, started: nat, sent: seq<byte>, left: seq<byte>)

  // Never both up and given up on, and started once at most.
  predicate Sound(up: bool, broken: bool, started: nat) {
    !(up && broken) && started <= 1 && (up ==> started == 1) && (started == 1 ==> up || broken)
  }

  // What is left of an answer, once it is abandoned at a blob.
  ghost predicate Behind(parsed: Parsed, at: nat, left: seq<byte>) {
    && at < MAX_BLOBS
    && match parsed
       case None => true
       case Some((answer, rest)) =>
         at < |answer.blobs| && left == answer.blobs[at] + (Blobs(answer.blobs[at + 1..]) + rest)
  }

  // parsed is the answer that is waiting.
  ghost predicate CalledOn(before: View, parsed: Parsed, req: Frame, outcome: Outcome, after: View) {
    && !after.locked && Sound(after.up, after.broken, after.started)
    && (before.up ==> after.started == before.started)
    && if before.broken then outcome == Failed && after == before.(locked := false)
       else
         match outcome
         case Answered(answer) =>
           && after.up && !after.broken && after.sent == before.sent + Encode(req)
           && parsed == Some((answer, after.left))
         case Failed =>
           && after.broken && !after.up
           && (after.sent == before.sent || after.sent == before.sent + Encode(req) || Cut(before.sent, Encode(req), after.sent))
         case Lost(at) =>
           && after.up && !after.broken && after.sent == before.sent + Encode(req)
           && Behind(parsed, at, after.left)
  }

  // What a call does.
  ghost predicate Called(before: View, req: Frame, outcome: Outcome, after: View) {
    CalledOn(before, Parse(before.left, RESPONSE_WORDS), req, outcome, after)
  }

  // An answer with the blobs got so far, and k to come at the head of what is left.
  ghost predicate Reading(parsed: Parsed, first: nat, words: seq<nat>, got: seq<seq<byte>>, left: seq<byte>, k: nat) {
    parsed == Completed(first, words, InFront(got, TakeBlobs(left, k)))
  }

  lemma ReadingOn(parsed: Parsed, first: nat, words: seq<nat>, got: seq<seq<byte>>, left: seq<byte>, k: nat,
                  b: seq<byte>, more: seq<byte>, next: nat)
    requires Reading(parsed, first, words, got, left, k) && k == next + 1 && TakeBlob(left) == Some((b, more))
    ensures Reading(parsed, first, words, got + [b], more, next)
  {
    NextBlob(got, left, k, b, more);
  }

  // The answer is whole once its last blob has been read.
  lemma Finished(parsed: Parsed, first: nat, words: seq<nat>, got: seq<seq<byte>>, left: seq<byte>)
    requires Reading(parsed, first, words, got, left, 0)
    ensures parsed == Some((Frame(first, words, got), left))
  {
    assert got + [] == got;
  }

  // It is no answer when a blob cannot be read.
  lemma Stopped(parsed: Parsed, first: nat, words: seq<nat>, got: seq<seq<byte>>, left: seq<byte>, k: nat)
    requires Reading(parsed, first, words, got, left, k) && k > 0
    ensures TakeBlob(left).None? ==> parsed.None?
  {
  }

  // What is left of an answer abandoned before the contents of a blob.
  lemma AbandonedAt(parsed: Parsed, first: nat, words: seq<nat>, got: seq<seq<byte>>, was: seq<byte>, k: nat, left: seq<byte>)
    requires Reading(parsed, first, words, got, was, k) && k > 0
    requires LengthRead(was, left) && |got| < MAX_BLOBS
    ensures Behind(parsed, |got|, left)
  {
    if parsed.Some? {
      var (b, more) := TakeBlob(was).value;
      BlobsWritten(more, k - 1);
      var (blobs, rest) := TakeBlobs(more, k - 1).value;
      var all := parsed.value.0.blobs;
      assert all == got + ([b] + blobs);
      assert all[|got|] == b && all[|got| + 1..] == blobs;
    }
  }

  // A response's blobs hold these contents, in blocks of their own, and nothing else is
  // allocated that was not before.
  ghost predicate Given(len: seq<nat>, blob: seq<nat>, contents: seq<seq<byte>>, before: Heap, after: Heap)
    decreases |contents|
  {
    && |len| == |blob| == MAX_BLOBS && |contents| <= MAX_BLOBS
    && if contents == [] then after == before
       else
         var n := |contents| - 1;
         && blob[n] in after && after[blob[n]] == contents[n] + [0] && len[n] == |contents[n]|
         && Given(len, blob, contents[..n], before, after - {blob[n]})
  }

  // In other words.
  lemma {:induction false} GivenMeans(len: seq<nat>, blob: seq<nat>, contents: seq<seq<byte>>, before: Heap, after: Heap)
    requires Given(len, blob, contents, before, after)
    ensures Holds(after, blob, contents)
    ensures Owned(blob, |contents|) !! before.Keys && after - Owned(blob, |contents|) == before
    decreases |contents|
  {
    if contents == [] {
      assert after - {} == after;
    } else {
      var n := |contents| - 1;
      var held := after - {blob[n]};
      GivenMeans(len, blob, contents[..n], before, held);
      assert forall j :: 0 <= j < n ==> contents[..n][j] == contents[j];
      assert forall j :: 0 <= j < n ==> blob[j] in held && held[blob[j]] == after[blob[j]];
      assert Owned(blob, n + 1) == Owned(blob, n) + {blob[n]};
      assert after - Owned(blob, n + 1) == held - Owned(blob, n);
      assert before == held - Owned(blob, n);
    }
  }

  lemma {:induction false} GivenStays(len: seq<nat>, blob: seq<nat>, len': seq<nat>, blob': seq<nat>,
                                      contents: seq<seq<byte>>, before: Heap, after: Heap)
    requires Given(len, blob, contents, before, after) && |len'| == |blob'| == MAX_BLOBS
    requires forall j :: 0 <= j < |contents| ==> len'[j] == len[j] && blob'[j] == blob[j]
    ensures Given(len', blob', contents, before, after)
    decreases |contents|
  {
    if contents != [] {
      var n := |contents| - 1;
      GivenStays(len, blob, len', blob', contents[..n], before, after - {blob[n]});
    }
  }

  // One blob more, in a block of its own.
  lemma GivenMore(len: seq<nat>, blob: seq<nat>, len': seq<nat>, blob': seq<nat>,
                  got: seq<seq<byte>>, b: seq<byte>, before: Heap, held: Heap, after: Heap)
    requires Given(len, blob, got, before, held) && |len'| == |blob'| == MAX_BLOBS && |got| < MAX_BLOBS
    requires forall j :: 0 <= j < |got| ==> len'[j] == len[j] && blob'[j] == blob[j]
    requires var a := blob'[|got|]; a in after && after[a] == b + [0] && after - {a} == held
    requires len'[|got|] == |b|
    ensures Given(len', blob', got + [b], before, after)
  {
    GivenStays(len, blob, len', blob', got, before, held);
    assert (got + [b])[..|got|] == got;
  }

  class Host {
    const pipe: Channel
    // Whether the agent's process can be started, and whether each malloc finds memory.
    const starts: bool
    const memory: nat -> bool

    var up: bool
    var broken: bool
    var locked: bool
    var started: nat
    var heap: Heap
    var allocs: nat
    var top: nat

    constructor (pipe: Channel, starts: bool, memory: nat -> bool)
      ensures this.pipe == pipe && Valid() && !locked && !up && !broken && started == 0 && heap == map[]
    {
      this.pipe, this.starts, this.memory := pipe, starts, memory;
      up, broken, locked, started, heap, allocs, top := false, false, false, 0, map[], 0, 1;
    }

    // The agent is never both up and given up on, and it was started once at most.
    ghost predicate Valid()
      reads this
    {
      && Sound(up, broken, started)
      && (forall a :: a in heap ==> 0 < a < top) && top > 0
    }

    // No system call fails and no malloc runs out from here on.
    ghost predicate Fine()
      reads this`allocs, pipe`turn
    {
      pipe.Smooth() && forall t :: t >= allocs ==> memory(t)
    }

    method Malloc(size: nat) returns (a: nat)
      requires Valid() && size > 0
      modifies this`heap, this`allocs, this`top
      ensures Valid() && (a != 0 <==> memory(old(allocs))) && allocs == old(allocs) + 1
      ensures a == 0 ==> heap == old(heap)
      ensures a != 0 ==> a !in old(heap) && heap.Keys == old(heap).Keys + {a} && |heap[a]| == size && heap - {a} == old(heap)
    {
      allocs := allocs + 1;
      if !memory(allocs - 1) {
        return 0;
      }
      a := top;
      top := top + 1;
      heap := heap[a := seq(size, i => 0)];
    }

    // Frees the first n blobs.
    method FreeBlobs(blob: seq<nat>, n: nat)
      requires Valid() && n <= |blob| && forall j :: 0 <= j < n ==> blob[j] in heap
      requires forall j, k :: 0 <= j < k < n ==> blob[j] != blob[k]
      modifies this`heap
      ensures Valid() && heap == old(heap) - Owned(blob, n)
    {
      var j := 0;
      while j < n
        invariant 0 <= j <= n && Valid() && heap == old(heap) - Owned(blob, j)
      {
        heap := heap - {blob[j]};
        j := j + 1;
      }
    }

    method AgentStart() returns (ok: bool)
      requires Valid()
      modifies this`up, this`broken, this`started
      ensures Valid() && ok == up && (!ok ==> broken)
      ensures ok == (old(up) || (!old(broken) && starts))
      ensures old(up) || old(broken) ==> started == old(started) && up == old(up) && broken == old(broken)
    {
      if up {
        return true;
      }
      if broken {
        return false;
      }
      if !starts {
        broken := true;
        return false;
      }
      up, started := true, started + 1;
      return true;
    }

    // The agent is not to be used again.
    method GiveUp()
      requires Valid()
      modifies this`up, this`broken, this`locked
      ensures Valid() && !up && broken && !locked
    {
      up, broken, locked := false, true, false;
    }

    // The next blob of an answer.
    method ReadBlob(out: Response, i: nat) returns (status: Status, ghost b: seq<byte>)
      requires Valid() && |out.len| == |out.blob| == MAX_BLOBS && i < MAX_BLOBS
      modifies pipe`turn, pipe`incoming, this`heap, this`allocs, this`top, out`len, out`blob
      ensures Valid() && |out.len| == |out.blob| == MAX_BLOBS
      ensures forall j :: 0 <= j < i ==> out.blob[j] == old(out.blob)[j]
      ensures status == Good ==> TakeBlob(old(pipe.incoming)) == Some((b, pipe.incoming))
      ensures status == Good || status == CutShort ==>
        out.blob[i] !in old(heap) && out.blob[i] in heap && heap - {out.blob[i]} == old(heap)
      ensures status == Good ==> heap[out.blob[i]] == b + [0] && out.len[i] == |b|
      ensures forall j :: 0 <= j < i ==> out.len[j] == old(out.len)[j]
      ensures status == Malformed || status == NoMemory ==> heap == old(heap)
      ensures status == NoMemory ==> LengthRead(old(pipe.incoming), pipe.incoming)
      ensures old(Fine()) ==> Fine() && status != NoMemory && (status != Good ==> TakeBlob(old(pipe.incoming)).None?)
    {
      ghost var all := pipe.incoming;
      b := [];
      var r, bs := pipe.ReadAll(4);
      if r != 1 {
        return Malformed, b;
      }
      ghost var rest := pipe.incoming;
      TakeIntIs(all, bs, rest);
      var len := Value(bs);
      out.len := out.len[i := len];
      if len > MAX_BLOB_BYTES {
        return Malformed, b;
      }
      var a := Malloc(len + 1);
      out.blob := out.blob[i := a];
      if a == 0 {
        return NoMemory, b;
      }
      r, bs := pipe.ReadAll(len);
      if r != 1 {
        return CutShort, b;
      }
      b := bs;
      assert Take(rest, len) == Some((b, pipe.incoming));
      StillElsewhere(heap, a, bs + [0]);
      heap := heap[a := bs + [0]];
      return Good, b;
    }

    // The next blob again, behind those got so far; if it fails they are all freed.
    method ReadOne(out: Response, i: nat, ghost base: Heap, ghost got: seq<seq<byte>>) returns (status: Status, ghost b: seq<byte>)
      requires Valid() && |got| == i < MAX_BLOBS && Given(out.len, out.blob, got, base, heap)
      modifies pipe`turn, pipe`incoming, this`heap, this`allocs, this`top, out`len, out`blob
      ensures Valid()
      ensures status == Good ==> Given(out.len, out.blob, got + [b], base, heap)
      ensures status == Good ==> TakeBlob(old(pipe.incoming)) == Some((b, pipe.incoming))
      ensures status != Good ==> heap == base
      ensures status == NoMemory ==> LengthRead(old(pipe.incoming), pipe.incoming)
      ensures old(Fine()) ==> Fine() && status != NoMemory && (status != Good ==> TakeBlob(old(pipe.incoming)).None?)
    {
      ghost var held, len, blob := heap, out.len, out.blob;
      GivenMeans(len, blob, got, base, heap);
      status, b := ReadBlob(out, i);
      if status == Good {
        GivenMore(len, blob, out.len, out.blob, got, b, base, held, heap);
        return;
      }
      if status == CutShort {
        OneBlockMore(held, heap, blob, out.blob, i);
        FreeBlobs(out.blob, i + 1);
      } else {
        SameOwned(blob, out.blob, i);
        FreeBlobs(out.blob, i);
      }
    }

    ghost function State(): (v: View)
      reads this, pipe
    {
      View(up, broken, locked, started, pipe.outgoing, pipe.incoming)
    }

    // The same, as a part of the answer being read.
    method ReadNext(out: Response, i: nat, ghost base: Heap, ghost got: seq<seq<byte>>, ghost parsed: Parsed, ghost k: nat,
                    ghost next: nat)
      returns (status: Status, ghost now: seq<seq<byte>>)
      requires Valid() && |got| == i < MAX_BLOBS && Given(out.len, out.blob, got, base, heap)
      requires k == next + 1 && Reading(parsed, out.code, out.r, got, pipe.incoming, k)
      modifies pipe`turn, pipe`incoming, this`heap, this`allocs, this`top, out`len, out`blob
      ensures Valid()
      ensures status == Good ==>
        |now| == i + 1 && Given(out.len, out.blob, now, base, heap)
        && Reading(parsed, out.code, out.r, now, pipe.incoming, next)
      ensures status != Good ==> heap == base
      ensures status == NoMemory ==> Behind(parsed, i, pipe.incoming)
      ensures old(Fine()) ==> Fine() && status != NoMemory && (status != Good ==> parsed.None?)
    {
      ghost var was, b := pipe.incoming, [];
      status, b := ReadOne(out, i, base, got);
      now := got + [b];
      if status == Good {
        ReadingOn(parsed, out.code, out.r, got, was, k, b, pipe.incoming, next);
      } else if status == NoMemory {
        AbandonedAt(parsed, out.code, out.r, got, was, k, pipe.incoming);
      } else {
        Stopped(parsed, out.code, out.r, got, was, k);
      }
    }

    // The blobs of an answer whose head has been read.
    method ReadBlobs(out: Response, ghost parsed: Parsed) returns (status: Status, ghost got: seq<seq<byte>>)
      requires Valid() && out.nblob <= MAX_BLOBS && |out.len| == |out.blob| == MAX_BLOBS
      requires Reading(parsed, out.code, out.r, [], pipe.incoming, out.nblob)
      modifies pipe`turn, pipe`incoming, this`heap, this`allocs, this`top, out`len, out`blob
      ensures Valid()
      ensures status == Good ==>
        && |got| == out.nblob && Given(out.len, out.blob, got, old(heap), heap)
        && Reading(parsed, out.code, out.r, got, pipe.incoming, 0)
      ensures status != Good ==> heap == old(heap)
      ensures status == NoMemory ==> |got| < MAX_BLOBS && Behind(parsed, |got|, pipe.incoming)
      ensures old(Fine()) ==> Fine() && status != NoMemory && (status != Good ==> parsed.None?)
    {
      var i, n := 0, out.nblob;
      ghost var base, fine, left := heap, Fine(), n;
      status, got := Good, [];
      while i < n
        invariant 0 <= i <= n && Valid() && status == Good && unchanged(out`nblob, out`code, out`r)
        invariant |got| == i && Given(out.len, out.blob, got, base, heap)
        invariant left == n - i && Reading(parsed, out.code, out.r, got, pipe.incoming, left)
        invariant fine ==> Fine()
      {
        ghost var now;
        status, now := ReadNext(out, i, base, got, parsed, left, left - 1);
        if status != Good {
          return;
        }
        got, left := now, left - 1;
        i := i + 1;
      }
    }

    // The head and the scalars of an answer.
    method ReadHead(out: Response) returns (ok: bool)
      requires |out.len| == |out.blob| == MAX_BLOBS
      modifies pipe`turn, pipe`incoming, out`code, out`r, out`nblob
      ensures ok ==>
        && out.nblob <= MAX_BLOBS
        && Reading(Parse(old(pipe.incoming), RESPONSE_WORDS), out.code, out.r, [], pipe.incoming, out.nblob)
      ensures old(pipe.Smooth()) ==> pipe.Smooth()
      ensures old(pipe.Smooth()) && !ok ==> Parse(old(pipe.incoming), RESPONSE_WORDS).None?
    {
      ghost var all := pipe.incoming;
      var r, head := pipe.ReadAll(8);
      var words := [];
      if r == 1 {
        r, words := pipe.ReadAll(16);
      }
      if r != 1 {
        if |all| < 24 {
          TooShort(all, RESPONSE_WORDS);
        }
        return false;
      }
      ParsedByFields(all, RESPONSE_WORDS, head, words, pipe.incoming);
      out.r := TakeWords(words, RESPONSE_WORDS).value.0;
      out.code := Value(head[..4]);
      out.nblob := Value(head[4..]);
      if out.nblob > MAX_BLOBS {
        return false;
      }
      NoneBefore(pipe.incoming, out.nblob);
      return true;
    }

    // An answer that cannot be had whole.  Only want of memory leaves the agent in use.
    method Abandon(out: Response, short: bool)
      requires Valid() && up
      modifies this`up, this`broken, this`locked, out
      ensures Valid() && up == short && broken == !short && !locked && out.blob == [0, 0, 0]
    {
      out.Clear();
      if short {
        locked := false;
      } else {
        GiveUp();
      }
    }

    // The answer to a request that has been sent.
    method ReadAnswer(out: Response, ghost parsed: Parsed) returns (ok: bool, ghost outcome: Outcome)
      requires Valid() && locked && up && |out.len| == MAX_BLOBS && out.blob == [0, 0, 0]
      requires parsed == Parse(pipe.incoming, RESPONSE_WORDS)
      modifies this, pipe`turn, pipe`incoming, out
      ensures Valid() && ok == outcome.Answered? && started == old(started) && !locked
      ensures ok ==>
        && up && outcome.answer.first == out.code && outcome.answer.words == out.r
        && parsed == Some((outcome.answer, pipe.incoming))
        && Given(out.len, out.blob, outcome.answer.blobs, old(heap), heap) && out.nblob == |outcome.answer.blobs|
      ensures !ok ==> heap == old(heap) && out.blob == [0, 0, 0]
      ensures outcome.Failed? ==> broken
      ensures outcome.Lost? ==> up && Behind(parsed, outcome.at, pipe.incoming)
      ensures old(Fine()) ==>
        && Fine()
        && (ok <==> parsed.Some?)
    {
      ok := ReadHead(out);
      if !ok {
        GiveUp();
        return false, Failed;
      }
      var status;
      ghost var got;
      status, got := ReadBlobs(out, parsed);
      if status == Good {
        Finished(parsed, out.code, out.r, got, pipe.incoming);
        locked := false;
        return true, Answered(Frame(out.code, out.r, got));
      }
      Abandon(out, status == NoMemory);
      return false, if status == NoMemory then Lost(|got|) else Failed;
    }

    // The agent is started if need be and the request sent.
    method Ask(req: Frame) returns (ok: bool)
      requires Valid() && locked
      modifies this`up, this`broken, this`started, this`locked, pipe`turn, pipe`outgoing
      ensures Valid() && ok == up == locked && (!ok ==> broken)
      ensures old(up) || old(broken) ==> started == old(started)
      ensures old(broken) ==> !ok && pipe.outgoing == old(pipe.outgoing)
      ensures ok ==> pipe.outgoing == old(pipe.outgoing) + Encode(req)
      ensures !ok ==> pipe.outgoing == old(pipe.outgoing) || Cut(old(pipe.outgoing), Encode(req), pipe.outgoing)
      ensures old(Fine()) ==> Fine() && ok == (old(up) || (!old(broken) && starts))
    {
      ok := AgentStart();
      if !ok {
        locked := false;
        return false;
      }
      ok := SendFrame(pipe, req);
      if !ok {
        GiveUp();
      }
    }

    // A call with the lock held.
    method Exchange(req: Frame, out: Response, ghost parsed: Parsed) returns (ok: bool, ghost outcome: Outcome)
      requires Valid() && locked && |out.len| == MAX_BLOBS && out.blob == [0, 0, 0]
      requires parsed == Parse(pipe.incoming, RESPONSE_WORDS)
      modifies this, pipe`turn, pipe`incoming, pipe`outgoing, out
      ensures Valid() && ok == outcome.Answered? && CalledOn(old(State()), parsed, req, outcome, State())
      ensures ok ==> out.code == outcome.answer.first && out.r == outcome.answer.words
      ensures ok ==>
        Given(out.len, out.blob, outcome.answer.blobs, old(heap), heap) && out.nblob == |outcome.answer.blobs|
      ensures !ok ==> heap == old(heap) && out.blob == [0, 0, 0]
      ensures old(Fine()) && !old(broken) && (old(up) || starts) ==> Fine() && (ok <==> parsed.Some?)
    {
      ok := Ask(req);
      if !ok {
        return false, Failed;
      }
      ok, outcome := ReadAnswer(out, parsed);
    }

    // One request out, one answer in.
    method Rpc(req: Frame, out: Response) returns (ok: bool, ghost outcome: Outcome)
      requires Valid() && !locked
      modifies this, pipe`turn, pipe`incoming, pipe`outgoing, out
      ensures Valid() && ok == outcome.Answered? && Called(old(State()), req, outcome, State())
      ensures ok ==> out.code == outcome.answer.first && out.r == outcome.answer.words
      ensures ok ==>
        Given(out.len, out.blob, outcome.answer.blobs, old(heap), heap) && out.nblob == |outcome.answer.blobs|
      ensures !ok ==> heap == old(heap) && out.blob == [0, 0, 0]
      ensures old(Fine()) && !old(broken) && (old(up) || starts) ==>
        && Fine()
        && (ok <==> Parse(old(pipe.incoming), RESPONSE_WORDS).Some?)
    {
      out.Clear();
      locked := true;
      ok, outcome := Exchange(req, out, Parse(pipe.incoming, RESPONSE_WORDS));
    }

    method FreeResponse(out: Response)
      requires Valid() && out.nblob <= |out.blob| && forall j :: 0 <= j < out.nblob ==> out.blob[j] in heap
      requires forall j, k :: 0 <= j < k < out.nblob ==> out.blob[j] != out.blob[k]
      modifies this`heap, out`nblob
      ensures Valid() && out.nblob == 0 && heap == old(heap) - Owned(out.blob, old(out.nblob))
    {
      FreeBlobs(out.blob, out.nblob);
      out.nblob := 0;
    }
  }
}
