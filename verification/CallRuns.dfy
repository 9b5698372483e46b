// Whole runs of calls, and what becomes of them when something fails.
module CallRuns {
  import opened Bytes
  import opened Frames
  import opened Exchange
  import opened HostLibrary
  import opened AgentProcess

  datatype Entry = Entry(request: Frame, outcome: Outcome, after: View)

  function Before(start: View, log: seq<Entry>, i: nat): View
    requires i <= |log|
  {
    if i == 0 then start else log[i - 1].after
  }

  ghost predicate CallAt(start: View, log: seq<Entry>, i: nat)
    requires i < |log|
  {
    Called(Before(start, log, i), log[i].request, log[i].outcome, log[i].after)
  }

  // A run of calls: each begins where the one before it ended.
  ghost predicate Run(start: View, log: seq<Entry>) {
    forall i :: 0 <= i < |log| ==> CallAt(start, log, i)
  }

  lemma RunBegins(start: View, log: seq<Entry>, n: nat)
    requires Run(start, log) && n <= |log|
    ensures Run(start, log[..n])
  {
    forall i | 0 <= i < n ensures CallAt(start, log[..n], i) {
      assert CallAt(start, log, i);
    }
  }

  // ---- failure ----

  lemma CallOnBroken(before: View, request: Frame, outcome: Outcome, after: View)
    requires Called(before, request, outcome, after) && before.broken && !before.locked
    ensures outcome == Failed && after == before
  {
  }

  lemma CallUnlocks(before: View, request: Frame, outcome: Outcome, after: View)
    requires Called(before, request, outcome, after)
    ensures !after.locked && (outcome.Failed? ==> after.broken)
  {
  }

  // Once given up on, the agent is never written to, read from or started again, and
  // every call fails.
  lemma {:induction false} BrokenIsFinal(start: View, log: seq<Entry>, i: nat, j: nat)
    requires Run(start, log) && i <= j < |log| && log[i].after.broken
    ensures log[j].after == log[i].after && (i < j ==> log[j].outcome == Failed)
    decreases j
  {
    if i < j {
      BrokenIsFinal(start, log, i, j - 1);
      assert CallAt(start, log, i) && CallAt(start, log, j);
      CallUnlocks(Before(start, log, i), log[i].request, log[i].outcome, log[i].after);
      CallOnBroken(log[j - 1].after, log[j].request, log[j].outcome, log[j].after);
    }
  }

  // ---- success ----

  function Requests(log: seq<Entry>): (r: seq<Frame>)
    ensures |r| == |log|
  {
    if log == [] then [] else Requests(log[..|log| - 1]) + [log[|log| - 1].request]
  }

  predicate AllAnswered(log: seq<Entry>) {
    forall i :: 0 <= i < |log| ==> log[i].outcome.Answered?
  }

  // What the callers were told.
  function Told(log: seq<Entry>): (r: seq<Frame>)
    requires AllAnswered(log)
    ensures |r| == |log|
  {
    if log == [] then [] else Told(log[..|log| - 1]) + [log[|log| - 1].outcome.answer]
  }

  lemma CallAnswered(before: View, request: Frame, answer: Frame, after: View)
    requires Called(before, request, Answered(answer), after)
    ensures after.sent == before.sent + Encode(request)
    ensures before.left == Encode(answer) + after.left && answer.InLimits(RESPONSE_WORDS)
  {
    ParsedIsEncoded(before.left, RESPONSE_WORDS);
  }

  // While calls succeed, what has been sent is the requests and what has been read is the
  // answers, frame by frame, with nothing skipped or left over.
  lemma {:induction false} AnsweredInOrder(start: View, log: seq<Entry>)
    requires Run(start, log) && AllAnswered(log)
    ensures var end := Before(start, log, |log|);
      && end.sent == start.sent + EncodeAll(Requests(log))
      && start.left == EncodeAll(Told(log)) + end.left
      && AllInLimits(Told(log), RESPONSE_WORDS)
    decreases |log|
  {
    if log == [] {
      assert start.sent + [] == start.sent && [] + start.left == start.left;
    } else {
      var n := |log| - 1;
      var first, last := log[..n], log[n];
      RunBegins(start, log, n);
      AnsweredInOrder(start, first);
      assert CallAt(start, log, n);
      var was, answer := Before(start, log, n), last.outcome.answer;
      CallAnswered(was, last.request, answer, last.after);
      EncodeOneMore(Requests(first), last.request);
      EncodeOneMore(Told(first), answer);
      Regrouped(start.sent, EncodeAll(Requests(first)), Encode(last.request));
      Regrouped(EncodeAll(Told(first)), Encode(answer), last.after.left);
    }
  }

  // A run without losses: its calls are answered up to some point, and fail from there.
  lemma {:induction false} AnsweredThenFailed(start: View, log: seq<Entry>) returns (n: nat)
    requires Run(start, log) && forall i :: 0 <= i < |log| ==> !log[i].outcome.Lost?
    ensures n <= |log| && AllAnswered(log[..n])
    ensures forall i :: n <= i < |log| ==> log[i].outcome == Failed
    decreases |log|
  {
    n := 0;
    while n < |log| && log[n].outcome.Answered?
      invariant n <= |log| && AllAnswered(log[..n])
    {
      n := n + 1;
    }
    forall i | n <= i < |log| ensures log[i].outcome == Failed {
      assert CallAt(start, log, n);
      CallUnlocks(Before(start, log, n), log[n].request, log[n].outcome, log[n].after);
      BrokenIsFinal(start, log, n, i);
    }
  }

  lemma JustRequests(requests: seq<Frame>)
    requires AllInLimits(requests, REQUEST_WORDS)
    requires forall i :: 0 <= i < |requests| ==> requests[i].first != QUIT
    ensures Served(EncodeAll(requests)) == requests
  {
    RequestsAreServed(requests, []);
    assert EncodeAll(requests) + [] == EncodeAll(requests);
    assert Served([]) == [] && requests + [] == requests;
  }

  lemma {:induction false} AnswersInLimits(answer: Library, calls: seq<Frame>)
    requires Proper(answer)
    ensures AllInLimits(Answers(answer, calls), RESPONSE_WORDS)
    decreases |calls|
  {
    if calls != [] {
      AnswersInLimits(answer, calls[..|calls| - 1]);
    }
  }

  // The two halves together: when the agent serves what the host has sent, the callers
  // are told exactly the library's answers to their requests, in order, and both streams
  // are at the end of a frame.
  lemma CallersAreToldTheAnswers(answer: Library, start: View, log: seq<Entry>, later: seq<byte>)
    requires Proper(answer) && Run(start, log) && AllAnswered(log) && start.sent == []
    requires AllInLimits(Requests(log), REQUEST_WORDS)
    requires forall i :: 0 <= i < |log| ==> Requests(log)[i].first != QUIT
    requires start.left == EncodeAll(Answers(answer, Served(Before(start, log, |log|).sent))) + later
    ensures Served(Before(start, log, |log|).sent) == Requests(log)
    ensures Told(log) == Answers(answer, Requests(log)) && Before(start, log, |log|).left == later
  {
    AnsweredInOrder(start, log);
    var end, requests := Before(start, log, |log|), Requests(log);
    assert end.sent == EncodeAll(requests);
    JustRequests(requests);
    AnswersInLimits(answer, requests);
    SplitOnce(Told(log), Answers(answer, requests), RESPONSE_WORDS, end.left, later);
  }

  // ---- an answer abandoned for want of memory ----

  // It leaves the stream at the end of a frame exactly when the blob there was no memory
  // for is the last and empty.
  lemma LossKeepsStep(before: View, request: Frame, at: nat, after: View, answer: Frame, rest: seq<byte>)
    requires !before.broken && Called(before, request, Lost(at), after)
    requires Parse(before.left, RESPONSE_WORDS) == Some((answer, rest))
    ensures after.up && at < |answer.blobs|
    ensures after.left == rest <==> at == |answer.blobs| - 1 && answer.blobs[at] == []
  {
    var b, more := answer.blobs[at], answer.blobs[at + 1..];
    if more != [] {
      assert |Blobs(more)| >= 4;
    } else if b == [] {
      assert b + (Blobs(more) + rest) == rest;
    }
  }

  // Otherwise the next call takes what was left unread for its answer: if the abandoned
  // blob held the bytes of a frame, the caller is told that frame.
  lemma LossIsMisread(before: View, request: Frame, at: nat, between: View, answer: Frame, rest: seq<byte>,
                      hidden: Frame, next: Frame, told: Frame, after: View)
    requires !before.broken && Called(before, request, Lost(at), between)
    requires Parse(before.left, RESPONSE_WORDS) == Some((answer, rest))
    requires at < |answer.blobs| && answer.blobs[at] == Encode(hidden) && hidden.InLimits(RESPONSE_WORDS)
    requires Called(between, next, Answered(told), after)
    ensures told == hidden
  {
    EncodedIsParsed(hidden, Blobs(answer.blobs[at + 1..]) + rest);
  }

  lemma LostCall(v: View, request: Frame, answer: Frame, rest: seq<byte>) returns (after: View)
    requires v.up && !v.broken && v.started == 1
    requires answer.InLimits(RESPONSE_WORDS) && |answer.blobs| == 1 && v.left == Encode(answer) + rest
    ensures Called(v, request, Lost(0), after)
    ensures after == v.(locked := false, sent := v.sent + Encode(request), left := answer.blobs[0] + ([] + rest))
  {
    after := v.(locked := false, sent := v.sent + Encode(request), left := answer.blobs[0] + ([] + rest));
    EncodedIsParsed(answer, rest);
    assert answer.blobs[1..] == [];
  }

  lemma AnsweredCall(v: View, request: Frame, answer: Frame, rest: seq<byte>) returns (after: View)
    requires v.up && !v.broken && v.started == 1
    requires answer.InLimits(RESPONSE_WORDS) && v.left == Encode(answer) + rest
    ensures Called(v, request, Answered(answer), after)
  {
    after := v.(locked := false, sent := v.sent + Encode(request), left := rest);
    EncodedIsParsed(answer, rest);
  }

  // And it happens: two calls, of which the first runs out of memory and the second is
  // told something that is not its answer.
  lemma WrongAnswer(first: Frame, second: Frame)
    returns (start: View, log: seq<Entry>, answer: Frame, due: Frame, told: Frame)
    requires first.InLimits(REQUEST_WORDS) && second.InLimits(REQUEST_WORDS)
    ensures Run(start, log) && |log| == 2 && log[0].request == first && log[1].request == second
    ensures start.left == Encode(answer) + Encode(due) && answer.InLimits(RESPONSE_WORDS) && due.InLimits(RESPONSE_WORDS)
    ensures log[0].outcome == Lost(0) && log[1].outcome == Answered(told) && told != due
  {
    told, due := Frame(7, [0, 0], []), Frame(0, [0, 0], []);
    answer := Frame(0, [0, 0], [Encode(told)]);
    assert |Encode(told)| == 24;
    start := View(true, false, false, 1, [], Encode(answer) + Encode(due));
    var between := LostCall(start, first, answer, Encode(due));
    var after := AnsweredCall(between, second, told, [] + Encode(due));
    log := [Entry(first, Lost(0), between), Entry(second, Answered(told), after)];
    assert CallAt(start, log, 0) && CallAt(start, log, 1);
  }
}
