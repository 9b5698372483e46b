// Host and agent as two processes joined by two byte pipes, each moving as many or as few
// bytes at a time as it likes.
module Exchange {
  import opened Bytes
  import opened Frames

  function NeedBlobs(got: seq<byte>, n: nat): (r: Option<nat>)
    decreases n
  {
    if n == 0 then Some(0)
    else if |got| < 4 then Some(4 - |got|)
    else
      var len := Value(got[..4]);
      if len > MAX_BLOB_BYTES then None
      else if |got| < 4 + len then Some(4 + len - |got|)
      else NeedBlobs(got[4 + len..], n - 1)
  }

  // ---- how much a reader asks for ----

  // What the reader's current read is short of, given the bytes of the frame so far: 0
  // at the end of the frame, nothing if it is malformed.
  function Need(got: seq<byte>, words: nat): (n: Option<nat>) {
    if |got| < 8 then Some(8 - |got|) else
    var nblob := Value(got[4..8]);
    if nblob > MAX_BLOBS then None
    else if |got| < 8 + 8 * words then Some(8 + 8 * words - |got|)
    else NeedBlobs(got[8 + 8 * words..], nblob)
  }

  // Whether the need is positive and within what is left, or 0 when nothing is.
  predicate Fits(need: Option<nat>, left: nat) {
    need.Some? && need.value <= left && (need.value == 0 <==> left == 0)
  }

  lemma {:induction false} BlobsNeed(blobs: seq<seq<byte>>, k: nat)
    requires forall i :: 0 <= i < |blobs| ==> |blobs[i]| <= MAX_BLOB_BYTES
    requires k <= |Blobs(blobs)|
    ensures Fits(NeedBlobs(Blobs(blobs)[..k], |blobs|), |Blobs(blobs)| - k)
  {
    if blobs != [] {
      Widths();
      var b, more := blobs[0], Blobs(blobs[1..]);
      var all, got := Blobs(blobs), Blobs(blobs)[..k];
      assert all == Little(|b|, 4) + b + more;
      if k >= 4 {
        assert got[..4] == Little(|b|, 4);
        LittleValue(|b|, 4);
        if k >= 4 + |b| {
          assert got[4 + |b|..] == more[..k - 4 - |b|];
          BlobsNeed(blobs[1..], k - 4 - |b|);
        }
      }
    }
  }

  // Fed any part of a frame, a reader asks for more, but never for more than is left of
  // it.
  lemma FrameNeed(f: Frame, words: nat, k: nat)
    requires f.InLimits(words) && k <= |Encode(f)|
    ensures Fits(Need(Encode(f)[..k], words), |Encode(f)| - k)
  {
    Widths();
    var all, got, head := Encode(f), Encode(f)[..k], 8 + 8 * words;
    var blobs := Blobs(f.blobs);
    assert |all| == head + |blobs|;
    if k >= 8 {
      assert got[4..8] == all[4..8] == Little(|f.blobs|, 4);
      LittleValue(|f.blobs|, 4);
      if k >= head {
        assert all[head..] == blobs;
        assert got[head..] == all[head..][..k - head];
        BlobsNeed(f.blobs, k - head);
      }
    }
  }

  // ---- the two processes ----

  datatype HostSide = Idle | Sending(left: seq<byte>) | Awaiting(got: seq<byte>)
  datatype AgentSide = Receiving(got: seq<byte>) | Replying(left: seq<byte>)

  // calls, served and results are what was asked, what the agent made of it, and what
  // the callers were told.
  datatype System = System(host: HostSide, agent: AgentSide, toAgent: seq<byte>, toHost: seq<byte>,
                           calls: seq<Frame>, served: seq<Frame>, results: seq<Frame>)

  datatype Event =
    | Call(request: Frame)
    | HostWrites(k: nat)
    | AgentReads(k: nat)
    | AgentWrites(k: nat)
    | HostReads(k: nat)

  const START := System(Idle, Receiving([]), [], [], [], [], [])

  // The library behind the agent: its answer to the last request of a history.
  type Library = (seq<Frame>) -> Frame

  ghost predicate Proper(answer: Library) {
    forall history :: answer(history).InLimits(RESPONSE_WORDS)
  }

  function Asks(got: seq<byte>, words: nat): (n: nat) {
    var need := Need(got, words);
    if need.Some? then need.value else 0
  }

  predicate Enabled(s: System, e: Event) {
    match e
    case Call(request) => s.host.Idle? && request.InLimits(REQUEST_WORDS) && request.first != QUIT
    case HostWrites(k) => s.host.Sending? && 0 < k <= |s.host.left|
    case AgentReads(k) => s.agent.Receiving? && 0 < k <= |s.toAgent| && k <= Asks(s.agent.got, REQUEST_WORDS)
    case AgentWrites(k) => s.agent.Replying? && 0 < k <= |s.agent.left|
    case HostReads(k) => s.host.Awaiting? && 0 < k <= |s.toHost| && k <= Asks(s.host.got, RESPONSE_WORDS)
  }

  // The agent serves a request once it has all of it.
  function Received(answer: Library, s: System, got: seq<byte>): System {
    var frame := Parse(got, REQUEST_WORDS);
    if Need(got, REQUEST_WORDS) == Some(0) && frame.Some? then
      var served := s.served + [frame.value.0];
      s.(agent := Replying(Encode(answer(served))), served := served)
    else
      s.(agent := Receiving(got))
  }

  // The host returns to its caller once it has all of the answer.
  function Answered(s: System, got: seq<byte>): System {
    var frame := Parse(got, RESPONSE_WORDS);
    if Need(got, RESPONSE_WORDS) == Some(0) && frame.Some? then
      s.(host := Idle, results := s.results + [frame.value.0])
    else
      s.(host := Awaiting(got))
  }

  function Step(answer: Library, s: System, e: Event): System
    requires Enabled(s, e)
  {
    match e
    case Call(request) =>
      s.(host := Sending(Encode(request)), calls := s.calls + [request])
    case HostWrites(k) =>
      var left := s.host.left[k..];
      s.(host := if left == [] then Awaiting([]) else Sending(left), toAgent := s.toAgent + s.host.left[..k])
    case AgentReads(k) =>
      Received(answer, s.(toAgent := s.toAgent[k..]), s.agent.got + s.toAgent[..k])
    case AgentWrites(k) =>
      var left := s.agent.left[k..];
      s.(agent := if left == [] then Receiving([]) else Replying(left), toHost := s.toHost + s.agent.left[..k])
    case HostReads(k) =>
      Answered(s.(toHost := s.toHost[k..]), s.host.got + s.toHost[..k])
  }

  // What the callers must have been told.
  function Answers(answer: Library, calls: seq<Frame>): (r: seq<Frame>)
    ensures |r| == |calls|
  {
    if calls == [] then [] else Answers(answer, calls[..|calls| - 1]) + [answer(calls)]
  }

  function Last(calls: seq<Frame>): Frame
    requires |calls| > 0
  {
    calls[|calls| - 1]
  }

  function Front(calls: seq<Frame>): (front: seq<Frame>)
    requires |calls| > 0
  {
    calls[..|calls| - 1]
  }

  // ---- what every step keeps ----

  ghost predicate Asked(answer: Library, s: System) {
    && |s.calls| > 0 && Last(s.calls).InLimits(REQUEST_WORDS)
    && s.results == Answers(answer, Front(s.calls))
  }

  predicate Strict(got: seq<byte>, all: seq<byte>) {
    |got| < |all| && all[..|got|] == got
  }

  // No byte is lost, doubled or out of place: the request, or its answer, is spread over
  // its writer, its pipe and its reader in order, and nothing else is under way.
  ghost predicate Going(answer: Library, s: System) {
    match s.host
    case Idle =>
      && s.agent == Receiving([]) && s.toAgent == s.toHost == []
      && s.served == s.calls && s.results == Answers(answer, s.calls)
    case Sending(left) =>
      && Asked(answer, s) && left != [] && s.toHost == [] && s.served == Front(s.calls)
      && s.agent.Receiving? && s.agent.got + (s.toAgent + left) == Encode(Last(s.calls))
    case Awaiting(got) =>
      && Asked(answer, s)
      && if s.served != s.calls then
           && got == [] && s.toHost == [] && s.served == Front(s.calls)
           && s.agent.Receiving? && s.toAgent != [] && s.agent.got + s.toAgent == Encode(Last(s.calls))
         else
           && s.toAgent == []
           && Strict(got, Encode(answer(s.calls)))
           && match s.agent
              case Replying(left) => left != [] && got + (s.toHost + left) == Encode(answer(s.calls))
              case Receiving(more) => more == [] && got + s.toHost == Encode(answer(s.calls))
  }

  // Reading k more bytes of a frame f of which got has come, pipe is on its way and left
  // is still to be written.
  lemma ReadMore(f: Frame, words: nat, got: seq<byte>, pipe: seq<byte>, left: seq<byte>, k: nat) returns (now: seq<byte>)
    requires f.InLimits(words) && got + (pipe + left) == Encode(f) && 0 < k <= |pipe|
    ensures now == got + pipe[..k] && now + (pipe[k..] + left) == Encode(f)
    ensures Need(now, words) == Some(0) <==> pipe[k..] == [] && left == []
    ensures Need(now, words) == Some(0) ==> Parse(now, words) == Some((f, []))
    ensures Need(now, words) != Some(0) ==> Strict(now, Encode(f))
  {
    now := got + pipe[..k];
    assert now + (pipe[k..] + left) == Encode(f);
    assert Encode(f)[..|now|] == now;
    FrameNeed(f, words, |now|);
    if |now| == |Encode(f)| {
      assert now == Encode(f) && now + [] == now;
      EncodedIsParsed(f, []);
    }
  }

  lemma NotEmpty(f: Frame)
    ensures |Encode(f)| >= 8
  {
  }

  lemma CallKeeps(answer: Library, s: System, request: Frame)
    requires Proper(answer) && Going(answer, s) && Enabled(s, Call(request))
    ensures Going(answer, Step(answer, s, Call(request)))
  {
    var next := Step(answer, s, Call(request));
    NotEmpty(request);
    assert Front(next.calls) == s.calls && Last(next.calls) == request;
    assert [] + ([] + Encode(request)) == Encode(request);
  }

  // Bytes moved from the writer into the pipe.
  lemma Moved(got: seq<byte>, pipe: seq<byte>, left: seq<byte>, k: nat)
    requires k <= |left|
    ensures got + (pipe + left[..k] + left[k..]) == got + (pipe + left)
  {
    assert left[..k] + left[k..] == left;
    Regrouped(pipe, left[..k], left[k..]);
  }

  // While a call is not served the agent has served one less.
  lemma NotServed(s: System)
    requires |s.calls| > 0 && s.served == Front(s.calls)
    ensures s.served != s.calls
  {
    assert |s.served| < |s.calls|;
  }

  lemma HostWritesKeeps(answer: Library, s: System, k: nat)
    requires Proper(answer) && Going(answer, s) && Enabled(s, HostWrites(k))
    ensures Going(answer, Step(answer, s, HostWrites(k)))
  {
    var left := s.host.left;
    var next := Step(answer, s, HostWrites(k));
    Moved(s.agent.got, s.toAgent, left, k);
    assert next.toAgent != [];
    if left[k..] == [] {
      assert next.toAgent + left[k..] == next.toAgent;
      NotServed(s);
    }
  }

  lemma AgentReadsKeeps(answer: Library, s: System, k: nat)
    requires Proper(answer) && Going(answer, s) && Enabled(s, AgentReads(k))
    ensures Going(answer, Step(answer, s, AgentReads(k)))
  {
    var request := Last(s.calls);
    var left := if s.host.Sending? then s.host.left else [];
    assert s.toAgent + [] == s.toAgent;
    var now := ReadMore(request, REQUEST_WORDS, s.agent.got, s.toAgent, left, k);
    NotServed(s);
    if Need(now, REQUEST_WORDS) == Some(0) {
      var reply := Encode(answer(s.calls));
      assert Front(s.calls) + [request] == s.calls;
      NotEmpty(answer(s.calls));
      assert [] + ([] + reply) == reply && reply[..0] == [];
    } else if s.host.Awaiting? {
      assert s.toAgent[k..] + [] == s.toAgent[k..];
    }
  }

  lemma AgentWritesKeeps(answer: Library, s: System, k: nat)
    requires Proper(answer) && Going(answer, s) && Enabled(s, AgentWrites(k))
    ensures Going(answer, Step(answer, s, AgentWrites(k)))
  {
    var left := s.agent.left;
    Moved(s.host.got, s.toHost, left, k);
    var next := Step(answer, s, AgentWrites(k));
    if left[k..] == [] {
      assert next.toHost + left[k..] == next.toHost;
    }
  }

  lemma HostReadsKeeps(answer: Library, s: System, k: nat)
    requires Proper(answer) && Going(answer, s) && Enabled(s, HostReads(k))
    ensures Going(answer, Step(answer, s, HostReads(k)))
  {
    var reply := answer(s.calls);
    var left := if s.agent.Replying? then s.agent.left else [];
    assert s.toHost + [] == s.toHost;
    var now := ReadMore(reply, RESPONSE_WORDS, s.host.got, s.toHost, left, k);
    if s.agent.Receiving? {
      assert s.toHost[k..] + [] == s.toHost[k..];
    }
  }

  lemma StepKeeps(answer: Library, s: System, e: Event)
    requires Proper(answer) && Going(answer, s) && Enabled(s, e)
    ensures Going(answer, Step(answer, s, e))
  {
    match e
    case Call(request) => CallKeeps(answer, s, request);
    case HostWrites(k) => HostWritesKeeps(answer, s, k);
    case AgentReads(k) => AgentReadsKeeps(answer, s, k);
    case AgentWrites(k) => AgentWritesKeeps(answer, s, k);
    case HostReads(k) => HostReadsKeeps(answer, s, k);
  }

  // ---- whole runs ----

  ghost predicate Allowed(answer: Library, s: System, events: seq<Event>)
    decreases |events|
  {
    events != [] ==> Enabled(s, events[0]) && Allowed(answer, Step(answer, s, events[0]), events[1..])
  }

  ghost function After(answer: Library, s: System, events: seq<Event>): System
    requires Allowed(answer, s, events)
    decreases |events|
  {
    if events == [] then s else After(answer, Step(answer, s, events[0]), events[1..])
  }

  lemma {:induction false} RunKeeps(answer: Library, s: System, events: seq<Event>)
    requires Proper(answer) && Going(answer, s) && Allowed(answer, s, events)
    ensures Going(answer, After(answer, s, events))
    decreases |events|
  {
    if events != [] {
      StepKeeps(answer, s, events[0]);
      RunKeeps(answer, Step(answer, s, events[0]), events[1..]);
    }
  }

  // However reads and writes are split and interleaved, the agent serves exactly the
  // requests made, in order, the callers are told exactly the answers to them, and
  // between calls both pipes are empty and both ends at the start of a frame.
  lemma EveryRunIsExact(answer: Library, events: seq<Event>)
    requires Proper(answer) && Allowed(answer, START, events)
    ensures var s := After(answer, START, events);
      && s.served <= s.calls && s.results <= Answers(answer, s.calls)
      && |s.calls| - 1 <= |s.results| <= |s.served|
      && (s.host.Idle? ==>
           && s.served == s.calls && s.results == Answers(answer, s.calls)
           && s.toAgent == s.toHost == [] && s.agent == Receiving([]))
  {
    RunKeeps(answer, START, events);
    var s := After(answer, START, events);
    if !s.host.Idle? {
      assert Answers(answer, s.calls) == Answers(answer, Front(s.calls)) + [answer(s.calls)];
    }
  }

  // ---- no call is left hanging ----

  // How far a call is from its answer: the bytes still to be written and read.
  function Distance(answer: Library, s: System): (d: nat) {
    match s.host
    case Idle => 0
    case Sending(left) => 2 * |left| + |s.toAgent| + 2 * |Encode(answer(s.calls))|
    case Awaiting(_) =>
      if s.served != s.calls then |s.toAgent| + 2 * |Encode(answer(s.calls))|
      else (if s.agent.Replying? then 2 * |s.agent.left| else 0) + |s.toHost|
  }

  // A pipe takes no more than it has room for: a writer may have to wait.
  predicate HasRoom(s: System, e: Event, capacity: nat) {
    && (e.HostWrites? ==> |s.toAgent| + e.k <= capacity)
    && (e.AgentWrites? ==> |s.toHost| + e.k <= capacity)
  }

  // While a call is under way some process can move, however little the pipes hold.
  lemma NeverStuck(answer: Library, s: System, capacity: nat) returns (e: Event)
    requires Proper(answer) && Going(answer, s) && !s.host.Idle? && capacity > 0
    ensures Enabled(s, e) && !e.Call? && HasRoom(s, e, capacity)
  {
    if s.host.Sending? && |s.toAgent| < capacity {
      e := HostWrites(1);
    } else if s.host.Sending? || s.served != s.calls {
      var got := s.agent.got;
      assert Encode(Last(s.calls))[..|got|] == got;
      FrameNeed(Last(s.calls), REQUEST_WORDS, |got|);
      e := AgentReads(1);
    } else if s.agent.Replying? && |s.toHost| < capacity {
      e := AgentWrites(1);
    } else {
      FrameNeed(answer(s.calls), RESPONSE_WORDS, |s.host.got|);
      e := HostReads(1);
    }
  }

  lemma AgentReadsCounts(answer: Library, s: System, k: nat)
    requires Proper(answer) && Going(answer, s) && Enabled(s, AgentReads(k))
    ensures Distance(answer, Step(answer, s, AgentReads(k))) < Distance(answer, s)
  {
    var left := if s.host.Sending? then s.host.left else [];
    assert s.toAgent + [] == s.toAgent;
    var now := ReadMore(Last(s.calls), REQUEST_WORDS, s.agent.got, s.toAgent, left, k);
    NotServed(s);
    if Need(now, REQUEST_WORDS) == Some(0) {
      assert Front(s.calls) + [Last(s.calls)] == s.calls;
      NotEmpty(answer(s.calls));
    }
  }

  // And every move brings the answer closer.
  lemma EveryStepCounts(answer: Library, s: System, e: Event)
    requires Proper(answer) && Going(answer, s) && Enabled(s, e) && !e.Call?
    ensures Distance(answer, Step(answer, s, e)) < Distance(answer, s)
  {
    match e
    case HostWrites(k) =>
      NotServed(s);
    case AgentReads(k) => AgentReadsCounts(answer, s, k);
    case AgentWrites(k) =>
    case HostReads(k) =>
      var left := if s.agent.Replying? then s.agent.left else [];
      assert s.toHost + [] == s.toHost;
      var now := ReadMore(answer(s.calls), RESPONSE_WORDS, s.host.got, s.toHost, left, k);
  }
}
