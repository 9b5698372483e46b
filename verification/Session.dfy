// The shim's calls over a whole session, saves and restores among them.
module Session {
  import opened Bytes
  import opened Arena
  import opened ShimFile

  datatype Call =
    | Malloc(n: nat, host: Host)
    | Release(p: nat)
    | Create(kind: int)
    | Set(handle: nat, fields: seq<byte>)
    | Destroy(handle: nat)
    | SaveAndRestore

  function Ones(n: nat): (bs: seq<byte>)
    ensures |bs| == 4 * n
  {
    if n == 0 then [] else Little(1, 4) + Ones(n - 1)
  }

  // A new descriptor's fields: zero, but for a convolution's unit strides and
  // dilations, its mode and its single group.
  function Default(kind: int): (fields: seq<byte>)
    ensures |fields| == DescriptorSize(kind)
  {
    if kind == CONV then
      seq(20, i => 0) + Ones(8) + Ones(1) + Ones(1)
    else
      seq(DescriptorSize(kind), i => 0)
  }

  function Remember(s: Shim, d: Descriptor): (Shim, nat) {
    (s.(descriptors := s.descriptors[s.next := d], next := (s.next + 1) % U64), s.next)
  }

  function Changed(s: Shim, handle: nat, fields: seq<byte>): Shim {
    if handle in s.descriptors && |fields| == |s.descriptors[handle].fields| then
      s.(descriptors := s.descriptors[handle := s.descriptors[handle].(fields := fields)])
    else
      s
  }

  // The restored address space holds the arena exactly if there was one to save.
  predicate Spans(size: nat) {
    size > 0
  }

  // Saving and reading back; nothing if the file is refused, which ends the session.
  ghost function Restored(s: Shim): Option<Shim> {
    match Read(Saved(s))
    case None => None
    case Some((restored, _)) => if Spans(restored.arena.size) then Some(restored) else None
  }

  // The state after a call and what the call answers, if there is an after.
  ghost function Step(s: Shim, call: Call): Option<(Shim, nat)> {
    match call
    case Malloc(n, host) => var (a, p) := Alloc(s.arena, host, n); Some((s.(arena := a), p))
    case Release(p) => Some((s.(arena := Free(s.arena, p)), 0))
    case Create(kind) => Some(Remember(s, Descriptor(kind, Default(kind))))
    case Set(handle, fields) => Some((Changed(s, handle, fields), 0))
    case Destroy(handle) => Some((s.(descriptors := s.descriptors - {handle}), 0))
    case SaveAndRestore =>
      match Restored(s)
      case None => None
      case Some(restored) => Some((restored, 0))
  }

  ghost function After(s: Shim, calls: seq<Call>): Option<Shim>
    decreases |calls|
  {
    if calls == [] then Some(s) else
    match Step(s, calls[0])
    case None => None
    case Some((next, _)) => After(next, calls[1..])
  }

  // The answers, as far as the session gets.
  ghost function Answers(s: Shim, calls: seq<Call>): (r: seq<nat>)
    ensures |r| <= |calls|
    decreases |calls|
  {
    if calls == [] then [] else
    match Step(s, calls[0])
    case None => []
    case Some((next, answer)) => [answer] + Answers(next, calls[1..])
  }

  predicate Proper(call: Call) {
    match call
    case Malloc(n, host) => n <= LIMIT && host.Wanted() <= LIMIT
    case Create(kind) => TENSOR <= kind <= CONV
    case _ => true
  }

  ghost predicate Sound(s: Shim) {
    && Orderly(s.arena) && s.next < U64
    && forall h :: h in s.descriptors ==> h < s.next && KnownDescriptor(s.descriptors[h])
  }

  lemma {:induction false} Smaller(a: set<nat>, b: set<nat>)
    requires a <= b
    ensures |a| <= |b|
  {
    if a != {} {
      var x :| x in a;
      Smaller(a - {x}, b - {x});
    }
  }

  // ---- everything a session holds can be saved --------------------------------------------------

  lemma {:induction false} FewKeys(keys: set<nat>, n: nat)
    requires forall k :: k in keys ==> k < n
    ensures |keys| <= n
  {
    if n > 0 {
      var rest := keys - {n - 1};
      FewKeys(rest, n - 1);
      assert keys <= rest + {n - 1};
      assert |keys| <= |rest + {n - 1}| by { Smaller(keys, rest + {n - 1}); }
    } else {
      assert forall k :: k in keys ==> false;
      assert keys == {};
    }
  }

  // Offsets of free blocks of one kind: empty ones, or all the others.
  ghost function Offsets(free: seq<Block>, empty: bool): set<nat> {
    set x | x in free && (x.size == 0) == empty :: x.off
  }

  // One block more, of one kind.
  lemma OffsetsAdd(free: seq<Block>, b: Block)
    ensures Offsets(free + [b], b.size == 0) == Offsets(free, b.size == 0) + {b.off}
    ensures Offsets(free + [b], b.size != 0) == Offsets(free, b.size != 0)
  {
    assert forall x :: x in free + [b] <==> x in free || x == b;
  }

  lemma OffsetIsNew(free: seq<Block>, b: Block)
    requires b !in free && forall x :: x in free ==> Apart(x.off, x.size, b.off, b.size)
    ensures b.off !in Offsets(free, b.size == 0)
  {
  }

  // A block is told by its offset among the empty ones, and among the others.
  lemma {:induction false} CountFree(free: seq<Block>)
    requires forall i, j :: 0 <= i < j < |free| ==> free[i] != free[j]
    requires PairsApart(free)
    ensures |free| == |Offsets(free, true)| + |Offsets(free, false)|
  {
    if free != [] {
      var n := |free| - 1;
      var rest, last := free[..n], free[n];
      CountFree(rest);
      forall x | x in rest ensures x != last && Apart(x.off, x.size, last.off, last.size) {
        var i :| 0 <= i < n && rest[i] == x;
        assert free[i] == x;
      }
      assert free == rest + [last];
      OffsetsAdd(rest, last);
      OffsetIsNew(rest, last);
    }
  }

  lemma FewFree(a: Arena)
    requires Orderly(a)
    ensures |a.free| <= 2 * (a.used + 1)
  {
    CountFree(a.free);
    FewKeys(Offsets(a.free, true), a.used + 1);
    FewKeys(Offsets(a.free, false), a.used + 1);
  }

  lemma SoundIsStorable(s: Shim)
    requires Sound(s)
    ensures Storable(s)
  {
    FewFree(s.arena);
    FewKeys(s.arena.live.Keys, s.arena.used + 1);
    FewKeys(s.descriptors.Keys, s.next);
    assert |s.arena.live| == |s.arena.live.Keys| && |s.descriptors| == |s.descriptors.Keys|;
  }

  // A saved session can be resumed if and only if its arena had been mapped, and then it
  // is the same session.
  lemma RestoredIfMapped(s: Shim)
    requires Sound(s)
    ensures Restored(s) == if s.arena.size > 0 then Some(s) else None
  {
    SoundIsStorable(s);
    SavedIsRead(s);
  }

  lemma StepKeepsSound(s: Shim, call: Call)
    requires Sound(s) && Proper(call) && s.next + 1 < U64
    ensures Step(s, call).None? <==> call.SaveAndRestore? && s.arena.size == 0
    ensures Step(s, call).Some? ==>
      Sound(Step(s, call).value.0) && s.next <= Step(s, call).value.0.next <= s.next + 1
  {
    match call
    case Malloc(n, host) => RequestKeepsOrder(s.arena, n, host);
    case Release(p) => ReturnKeepsOrder(s.arena, p);
    case SaveAndRestore => RestoredIfMapped(s);
    case _ =>
  }

  // ---- a session cannot tell that it was saved --------------------------------------------------

  // Every save has behind it a call for memory for which the arena could be mapped.
  predicate MappedBeforeSaves(mapped: bool, calls: seq<Call>)
    decreases |calls|
  {
    calls != [] ==>
      && (calls[0].SaveAndRestore? ==> mapped)
      && MappedBeforeSaves(mapped || (calls[0].Malloc? && calls[0].host.Works()), calls[1..])
  }

  lemma AllocMaps(a: Arena, host: Host, n: nat)
    ensures Alloc(a, host, n).0.size == Initialised(a, host).0.size
  {
  }

  // A call maps the arena if it is the first for memory and the mapping works; nothing
  // unmaps it.
  lemma StepMaps(s: Shim, call: Call)
    requires Sound(s) && Proper(call) && s.next + 1 < U64 && Step(s, call).Some?
    ensures Step(s, call).value.0.arena.size > 0 <==> s.arena.size > 0 || (call.Malloc? && call.host.Works())
  {
    match call
    case SaveAndRestore => RestoredIfMapped(s);
    case Malloc(n, host) => AllocMaps(s.arena, host, n);
    case _ =>
  }

  // The calls without the saves, and the answers to those calls.
  function Unsaved(calls: seq<Call>): seq<Call> {
    if calls == [] then []
    else if calls[0].SaveAndRestore? then Unsaved(calls[1..])
    else [calls[0]] + Unsaved(calls[1..])
  }

  function Kept(calls: seq<Call>, answers: seq<nat>): seq<nat> {
    if calls == [] || answers == [] then []
    else if calls[0].SaveAndRestore? then Kept(calls[1..], answers[1..])
    else [answers[0]] + Kept(calls[1..], answers[1..])
  }

  // Handles enough are left for every call.
  ghost predicate CanRun(s: Shim, calls: seq<Call>) {
    Sound(s) && s.next + |calls| < U64 && forall i :: 0 <= i < |calls| ==> Proper(calls[i])
  }

  // A session is resumed after every one of its saves if and only if the arena is mapped
  // before the first.
  lemma {:induction false} ResumedIfMapped(s: Shim, calls: seq<Call>)
    requires CanRun(s, calls)
    ensures After(s, calls).Some? <==> MappedBeforeSaves(s.arena.size > 0, calls)
    ensures After(s, calls).Some? <==> |Answers(s, calls)| == |calls|
    decreases |calls|
  {
    if calls != [] {
      StepKeepsSound(s, calls[0]);
      if Step(s, calls[0]).Some? {
        var (next, answer) := Step(s, calls[0]).value;
        StepMaps(s, calls[0]);
        ResumedIfMapped(next, calls[1..]);
      }
    }
  }

  // And then no other call can tell that there were saves.
  lemma {:induction false} SavingIsInvisible(s: Shim, calls: seq<Call>)
    requires CanRun(s, calls) && MappedBeforeSaves(s.arena.size > 0, calls)
    ensures After(s, calls) == After(s, Unsaved(calls))
    ensures Kept(calls, Answers(s, calls)) == Answers(s, Unsaved(calls))
    decreases |calls|
  {
    if calls != [] {
      StepKeepsSound(s, calls[0]);
      StepMaps(s, calls[0]);
      var (next, answer) := Step(s, calls[0]).value;
      SavingIsInvisible(next, calls[1..]);
      assert Answers(s, calls)[1..] == Answers(next, calls[1..]);
      if calls[0].SaveAndRestore? {
        RestoredIfMapped(s);
      } else {
        assert Unsaved(calls)[1..] == Unsaved(calls[1..]);
      }
    }
  }

  lemma EarlySaveRefused(s: Shim, calls: seq<Call>)
    requires Sound(s) && s.arena.size == 0 && calls != [] && calls[0].SaveAndRestore?
    ensures After(s, calls) == None && Answers(s, calls) == [] && !MappedBeforeSaves(false, calls)
  {
    RestoredIfMapped(s);
  }

  lemma CreateThen(s: Shim, rest: seq<Call>) returns (next: Shim)
    requires Sound(s) && s.next + 1 < U64
    ensures Sound(next) && next.arena == s.arena && next.next == s.next + 1
    ensures After(s, [Create(TENSOR)] + rest) == After(next, rest)
    ensures Answers(s, [Create(TENSOR)] + rest) == [s.next] + Answers(next, rest)
    ensures MappedBeforeSaves(false, [Create(TENSOR)] + rest) == MappedBeforeSaves(false, rest)
    ensures Unsaved([Create(TENSOR)] + rest) == [Create(TENSOR)] + Unsaved(rest)
  {
    StepKeepsSound(s, Create(TENSOR));
    next := Step(s, Create(TENSOR)).value.0;
    assert ([Create(TENSOR)] + rest)[1..] == rest;
  }

  // A session that creates a descriptor, is saved before it ever asked for memory, and
  // creates another gets no further than the save.
  lemma EarlySaveEndsSession(s: Shim)
    requires Sound(s) && s.arena.size == 0 && s.next + 3 < U64
    ensures var calls := [Create(TENSOR), SaveAndRestore, Create(TENSOR)];
      && !MappedBeforeSaves(false, calls) && After(s, calls) == None && Answers(s, calls) == [s.next]
  {
    var rest := [SaveAndRestore, Create(TENSOR)];
    var one := CreateThen(s, rest);
    EarlySaveRefused(one, rest);
    assert [Create(TENSOR)] + rest == [Create(TENSOR), SaveAndRestore, Create(TENSOR)];
    assert [s.next] + [] == [s.next];
  }

  // Without the save it is given two handles.
  lemma WithoutTheSave(s: Shim)
    requires Sound(s) && s.arena.size == 0 && s.next + 3 < U64
    ensures Answers(s, [Create(TENSOR), Create(TENSOR)]) == [s.next, s.next + 1]
  {
    var one := CreateThen(s, [Create(TENSOR)]);
    var two := CreateThen(one, []);
    assert [Create(TENSOR)] + [] == [Create(TENSOR)];
    assert [Create(TENSOR)] + [Create(TENSOR)] == [Create(TENSOR), Create(TENSOR)];
  }

  // A session that has only begun is such a one.
  lemma BegunIsSound()
    ensures Sound(Shim(FRESH, 1, map[]))
  {
  }

  // A creation takes the next handle.
  lemma HandleTaken(s: Shim, call: Call)
    requires call.Create? && s.next + 1 < U64
    ensures Step(s, call).Some? && Step(s, call).value.1 == s.next && Step(s, call).value.0.next == s.next + 1
  {
  }

  // ---- handles -----------------------------------------------------------------------------------

  // The first call's answer, and the state the rest of the calls run in.
  lemma FirstCall(s: Shim, calls: seq<Call>) returns (next: Shim, answer: nat)
    requires CanRun(s, calls) && Answers(s, calls) != []
    ensures CanRun(next, calls[1..])
    ensures Answers(s, calls) == [answer] + Answers(next, calls[1..])
    ensures s.next <= next.next
    ensures calls[0].Create? ==> answer == s.next && next.next == s.next + 1
  {
    StepKeepsSound(s, calls[0]);
    next, answer := Step(s, calls[0]).value.0, Step(s, calls[0]).value.1;
    if calls[0].Create? {
      HandleTaken(s, calls[0]);
    }
  }

  lemma {:induction false} HandlesFrom(s: Shim, calls: seq<Call>, j: nat)
    requires CanRun(s, calls) && j < |Answers(s, calls)| && calls[j].Create?
    ensures s.next <= Answers(s, calls)[j]
    decreases |calls|
  {
    var next, answer := FirstCall(s, calls);
    if j > 0 {
      HandlesFrom(next, calls[1..], j - 1);
    }
  }

  // No handle is issued twice, however often the session is saved, as far as it gets.
  lemma {:induction false} HandlesIncrease(s: Shim, calls: seq<Call>, i: nat, j: nat)
    requires CanRun(s, calls) && i < j < |Answers(s, calls)| && calls[i].Create? && calls[j].Create?
    ensures Answers(s, calls)[i] < Answers(s, calls)[j]
    decreases |calls|
  {
    var next, answer := FirstCall(s, calls);
    if i == 0 {
      HandlesFrom(next, calls[1..], j - 1);
    } else {
      HandlesIncrease(next, calls[1..], i - 1, j - 1);
    }
  }
}
