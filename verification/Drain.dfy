/** How fast repeated runs with a fixed limit empty the backlog when nothing is appended. */
module Drain {
  import opened Sequences
  import opened CursorText
  import opened Records
  import opened BatchBuilder
  import opened EventLog
  import opened Delivery

  /** The state after the three steps of one successful, uninterrupted run. */
  function Run(s: State, request: Request): State {
    var start := StartCursor(s.cursors, request);
    Committed(s.(phase := EventsLoaded(request, start, LoadEvents(s.history, request, start))))
  }

  function Runs(s: State, request: Request, count: nat): State {
    if count == 0 then s else Run(Runs(s, request, count - 1), request)
  }

  /** What the next run would load. */
  function Loadable(s: State, request: Request): seq<MemoryEvent> {
    LoadEvents(s.history, request, StartCursor(s.cursors, request))
  }

  /** The wanted events beyond the cursor. */
  function Remaining(s: State, request: Request): seq<MemoryEvent> {
    Stretch(request, CursorOf(s.cursors, ScopeOf(request)), LastId(s.history), s.history)
  }

  function Min(a: int, b: int): int {
    if a <= b then a else b
  }

  lemma RunIsThreeSteps(s: State, request: Request) returns (loading: State, loaded: State)
    requires Consistent(s) && s.phase.Idle?
    ensures Next(s, loading) && Next(loading, loaded) && Next(loaded, Run(s, request))
    ensures loading.phase == CursorLoaded(request, StartCursor(s.cursors, request))
    ensures loaded.phase == EventsLoaded(request, StartCursor(s.cursors, request), Loadable(s, request))
    ensures loaded == s.(phase := loaded.phase) && Consistent(loaded) && Consistent(Run(s, request))
  {
    hide BuildSpec, LoadEvents, Consistent, ToText;
    var start := StartCursor(s.cursors, request);
    loading := s.(phase := CursorLoaded(request, start));
    loaded := s.(phase := EventsLoaded(request, start, LoadEvents(s.history, request, start)));
    StepKeepsConsistent(s, loading);
    StepKeepsConsistent(loading, loaded);
    StepKeepsConsistent(loaded, Run(s, request));
  }

  /** A batch short of the limit means that everything loaded was read. */
  lemma ShortBatchReadsAll(request: Request, loaded: seq<MemoryEvent>)
    requires !request.forceReprocess && 0 < request.maxEvents && ValidLog(loaded) && loaded != []
    ensures var build := BuildSpec(request, loaded);
      && build.nextCursor != ""
      && |build.batch.events| <= request.maxEvents
      && (exists e :: e in loaded && EventId(e) == CursorToInt(build.nextCursor))
      && (|build.batch.events| < request.maxEvents ==> CursorToInt(build.nextCursor) == LastId(loaded))
  {
    BuildParts(request, loaded);
    var n := ReadCount(request, loaded, request.maxEvents);
    ReadsSome(request, loaded, request.maxEvents, n);
    LastCursorId(loaded, n);
    hide BuildSpec, CursorToInt, ToText, Picked, ReadCount, Eligible, ValidLog, LastCursor, ReadsExactly, EventId;
    assert loaded[n - 1] in loaded;
  }

  lemma LoadIsSelected(s: State, request: Request)
    requires Consistent(s) && !request.forceReprocess
    ensures Loadable(s, request) == SelectAfter(request, CursorOf(s.cursors, ScopeOf(request)), s.history)
  {
    StartText(s, request);
    hide CursorToInt, Consistent, SelectAfter;
  }

  /** A run that loads something delivers a stretch of at most k wanted events, ending on a loaded
      event, the last one if it is shorter. */
  lemma RunMoves(s: State, request: Request)
    requires Consistent(s) && s.phase.Idle? && !request.forceReprocess && 0 < request.maxEvents
    requires Loadable(s, request) != []
    ensures var t, scope := Run(s, request), ScopeOf(request);
      var after, upTo := CursorOf(s.cursors, scope), CursorOf(t.cursors, scope);
      var batch := Stretch(request, after, upTo, s.history);
      && Consistent(t) && t.phase.Idle? && t.history == s.history
      && 0 <= after < upTo <= LastId(s.history)
      && Delivered(t.log, scope) == Delivered(s.log, scope) + batch
      && |batch| <= request.maxEvents
      && (exists e :: e in Loadable(s, request) && EventId(e) == upTo)
      && (|batch| < request.maxEvents ==> upTo == LastId(Loadable(s, request)))
  {
    var loading, loaded := RunIsThreeSteps(s, request);
    LoadedFacts(s.history, request, StartCursor(s.cursors, request));
    ShortBatchReadsAll(request, Loadable(s, request));
    CommitStretch(loaded);
    CommitEffect(loaded, request);
    hide BuildSpec, LoadEvents, EventId, ToText, ValidLog, LastId, Stretch, Consistent, Delivered, Due;
  }

  /** One run with limit k takes the first k of the remaining events, or all of them; a run that
      takes fewer than k leaves nothing to load. */
  lemma RunTakes(s: State, request: Request)
    requires Consistent(s) && s.phase.Idle? && !request.forceReprocess && 0 < request.maxEvents
    ensures var t, rest := Run(s, request), Remaining(s, request);
      var k := Min(request.maxEvents, |rest|);
      && Consistent(t) && t.phase.Idle? && t.history == s.history
      && Delivered(t.log, ScopeOf(request)) == Delivered(s.log, ScopeOf(request)) + rest[..k]
      && Remaining(t, request) == rest[k..]
      && (|rest| < request.maxEvents ==> Loadable(t, request) == [])
      && (Loadable(s, request) == [] ==> t == s)
  {
    if Loadable(s, request) == [] {
      EmptyRun(s, request);
      hide *;
      MinOf(request.maxEvents, 0);
      assert Delivered(s.log, ScopeOf(request)) + [] == Delivered(s.log, ScopeOf(request));
    } else {
      FullRun(s, request);
      hide *;
      var rest, t := Remaining(s, request), Run(s, request);
      var scope := ScopeOf(request);
      var batch := Stretch(request, CursorOf(s.cursors, scope), CursorOf(t.cursors, scope), s.history);
      assert rest[..|batch|] == batch;
      MinOf(request.maxEvents, |rest|);
    }
  }

  lemma MinOf(a: int, b: int)
    ensures Min(a, b) == if a <= b then a else b
  {
  }

  lemma EmptyRun(s: State, request: Request)
    requires Consistent(s) && s.phase.Idle? && !request.forceReprocess && Loadable(s, request) == []
    ensures Run(s, request) == s && Remaining(s, request) == []
  {
    LoadIsSelected(s, request);
    var after := CursorOf(s.cursors, ScopeOf(request));
    NothingBeyond(request, after, after, LastId(s.history), s.history);
  }

  /** A run that loads something takes the head of what remained; the rest still remains. */
  lemma FullRun(s: State, request: Request)
    requires Consistent(s) && s.phase.Idle? && !request.forceReprocess && 0 < request.maxEvents
    requires Loadable(s, request) != []
    ensures var t, scope := Run(s, request), ScopeOf(request);
      var batch := Stretch(request, CursorOf(s.cursors, scope), CursorOf(t.cursors, scope), s.history);
      && Consistent(t) && t.phase.Idle? && t.history == s.history
      && |batch| <= request.maxEvents
      && Delivered(t.log, ScopeOf(request)) == Delivered(s.log, ScopeOf(request)) + batch
      && Remaining(s, request) == batch + Remaining(t, request)
      && (|batch| < request.maxEvents ==> Remaining(t, request) == [] && Loadable(t, request) == [])
  {
    RunMoves(s, request);
    var t := Run(s, request);
    LoadIsSelected(s, request);
    LoadIsSelected(t, request);
    hide Run, Loadable, EventId, LastId, ValidLog, Stretch, Delivered, SelectAfter, CursorOf;
    var after, upTo := CursorOf(s.cursors, ScopeOf(request)), CursorOf(t.cursors, ScopeOf(request));
    StretchSplit(request, after, upTo, LastId(s.history), s.history);
    if |Stretch(request, after, upTo, s.history)| < request.maxEvents {
      NothingBeyond(request, after, upTo, LastId(s.history), s.history);
    }
  }

  lemma TakeTwice<T>(s: seq<T>, a: nat, b: nat)
    requires a + b <= |s|
    ensures s[..a] + s[a..][..b] == s[..a + b]
    ensures s[a..][b..] == s[a + b..]
  {
  }

  /** The events taken from a backlog of m by j runs with limit k. */
  function Taken(j: nat, k: nat, m: nat): (n: nat)
    ensures n <= m
  {
    assert 0 <= j * k;
    Min(j * k, m)
  }

  lemma TakenStep(j: nat, k: nat, m: nat)
    requires 0 < j
    ensures Taken(j - 1, k, m) + Min(k, m - Taken(j - 1, k, m)) == Taken(j, k, m)
  {
    assert (j - 1) * k + k == j * k;
  }

  /** After j runs with limit k exactly the first j * k remaining events have been delivered. */
  lemma {:induction false} DrainProgress(s: State, request: Request, j: nat)
    requires Consistent(s) && s.phase.Idle? && !request.forceReprocess && 0 < request.maxEvents
    ensures var t, rest := Runs(s, request, j), Remaining(s, request);
      var taken := Taken(j, request.maxEvents, |rest|);
      && Consistent(t) && t.phase.Idle? && t.history == s.history
      && Delivered(t.log, ScopeOf(request)) == Delivered(s.log, ScopeOf(request)) + rest[..taken]
      && Remaining(t, request) == rest[taken..]
  {
    hide Consistent, Remaining, Delivered, Run, Loadable, Taken;
    var rest, k := Remaining(s, request), request.maxEvents;
    if j == 0 {
      TakenNothing(k, |rest|);
      assert rest[..0] == [] && rest[0..] == rest;
    } else {
      DrainProgress(s, request, j - 1);
      RunTakes(Runs(s, request, j - 1), request);
      TakenStep(j, k, |rest|);
      var before := Taken(j - 1, k, |rest|);
      TakeTwice(rest, before, Min(k, |rest| - before));
    }
  }

  lemma TakenNothing(k: nat, m: nat)
    ensures Taken(0, k, m) == 0
  {
  }

  /** Drain bound: m remaining events are all delivered after floor(m / k) + 1 runs; then there is
      nothing left to load and a further run changes nothing. */
  lemma DrainBound(s: State, request: Request)
    requires Consistent(s) && s.phase.Idle? && !request.forceReprocess && 0 < request.maxEvents
    ensures var rest := Remaining(s, request);
      var t := Runs(s, request, |rest| / request.maxEvents + 1);
      && Delivered(t.log, ScopeOf(request)) == Delivered(s.log, ScopeOf(request)) + rest
      && Loadable(t, request) == []
      && Run(t, request) == t
  {
    hide *;
    var rest, k := Remaining(s, request), request.maxEvents;
    TakenAll(|rest|, k);
    LastRun(s, request, |rest| / k);
  }

  /** The run after which fewer than a full batch remained is the last one that does anything. */
  lemma LastRun(s: State, request: Request, j: nat)
    requires Consistent(s) && s.phase.Idle? && !request.forceReprocess && 0 < request.maxEvents
    requires var m := |Remaining(s, request)|;
      m - Taken(j, request.maxEvents, m) < request.maxEvents && Taken(j + 1, request.maxEvents, m) == m
    ensures var t := Runs(s, request, j + 1);
      && Delivered(t.log, ScopeOf(request)) == Delivered(s.log, ScopeOf(request)) + Remaining(s, request)
      && Loadable(t, request) == []
      && Run(t, request) == t
  {
    hide Consistent, Remaining, Delivered, Run, Loadable, Taken;
    var rest := Remaining(s, request);
    DrainProgress(s, request, j);
    DrainProgress(s, request, j + 1);
    RunTakes(Runs(s, request, j), request);
    RunTakes(Runs(s, request, j + 1), request);
    assert rest[..|rest|] == rest;
  }

  lemma TakenAll(m: nat, k: nat)
    requires 0 < k
    ensures m - Taken(m / k, k, m) < k
    ensures Taken(m / k + 1, k, m) == m
  {
    assert m == m / k * k + m % k;
    assert (m / k + 1) * k == m / k * k + k;
  }

  /** The bound for any succession of states that are each one run after the one before, such as
      those between successful calls of the runtime while nothing is appended. */
  lemma RunsInARowDrain(states: seq<State>, request: Request)
    requires states != [] && Consistent(states[0]) && states[0].phase.Idle?
    requires !request.forceReprocess && 0 < request.maxEvents
    requires forall i :: 0 < i < |states| ==> states[i] == Run(states[i - 1], request)
    requires |states| == |Remaining(states[0], request)| / request.maxEvents + 2
    ensures var t, scope := Last(states), ScopeOf(request);
      && Delivered(t.log, scope) == Delivered(states[0].log, scope) + Remaining(states[0], request)
      && Loadable(t, request) == []
      && Run(t, request) == t
  {
    RunsInARow(states, request, |states| - 1);
    DrainBound(states[0], request);
  }

  lemma {:induction false} RunsInARow(states: seq<State>, request: Request, i: nat)
    requires i < |states|
    requires forall k :: 0 < k < |states| ==> states[k] == Run(states[k - 1], request)
    ensures states[i] == Runs(states[0], request, i)
  {
    hide Run;
    if i > 0 {
      RunsInARow(states, request, i - 1);
    }
  }

  /** While anything is left to load, each run leaves strictly less to load. */
  lemma LoadableShrinks(s: State, request: Request)
    requires Consistent(s) && s.phase.Idle? && !request.forceReprocess && 0 < request.maxEvents
    requires Loadable(s, request) != []
    ensures |Loadable(Run(s, request), request)| < |Loadable(s, request)|
  {
    RunMoves(s, request);
    LoadIsSelected(s, request);
    LoadIsSelected(Run(s, request), request);
    hide Run, Loadable, EventId, LastId, ValidLog, Stretch, Delivered, SelectAfter, CursorOf;
    var after, upTo := CursorOf(s.cursors, ScopeOf(request)), CursorOf(Run(s, request).cursors, ScopeOf(request));
    var e :| e in Loadable(s, request) && EventId(e) == upTo;
    LaterSelectsLess(request, after, s.history, e);
  }

  // ----- Reachable counterexamples -----

  /** A run over a log of one event that starts from the beginning. */
  lemma RunOverOne(s: State, request: Request, e: MemoryEvent)
    requires s.history == [e] && e.storeCursor == "1" && e.agentId == request.agentId
    requires e.sessionId == request.sessionId != "" && 1 < request.maxEvents
    requires request.forceReprocess || ScopeOf(request) !in s.cursors
    ensures var batch := if Eligible(request, e) then [e] else [];
      Run(s, request) == State([e], s.cursors[ScopeOf(request) := 1], Idle,
                               if batch == [] then s.log else s.log + [Commit(request, batch)])
  {
    OneId();
    LoadOne(request, e);
    BuildOne(request, e);
    hide CursorToInt, ToText, LoadEvents, BuildSpec, Eligible;
  }

  lemma LoadOne(request: Request, e: MemoryEvent)
    requires e.storeCursor == "1" && e.agentId == request.agentId && e.sessionId == request.sessionId != ""
    ensures LoadEvents([e], request, "") == [e]
  {
    OneId();
    hide CursorToInt;
    FilterAll(SelectedAfter(request, 0), [e]);
  }

  lemma BuildOne(request: Request, e: MemoryEvent)
    requires e.storeCursor == "1" && 1 < request.maxEvents
    ensures var build := BuildSpec(request, [e]);
      build.nextCursor == "1" && build.batch.events == if Eligible(request, e) then [e] else []
  {
    hide Eligible, SourceRefs, Transcript;
    assert [e][..1] == [e] && [e][..0] == [];
    ReadCountUnique(request, [e], request.maxEvents, 1, ReadCount(request, [e], request.maxEvents));
  }

  lemma OneId()
    ensures CursorToInt("") == 0 && CursorToInt("1") == 1 && ToText(1) == "1"
  {
    CursorRoundTrip(1);
  }

  lemma ExtendHistory(trace: seq<State>, t: State)
    requires IsHistory(trace) && Next(Last(trace), t)
    ensures IsHistory(trace + [t]) && Last(trace + [t]) == t
  {
    hide Next, Initial;
  }

  /** An uninterrupted run at the end of a history. */
  lemma ExtendByRun(trace: seq<State>, request: Request) returns (longer: seq<State>)
    requires IsHistory(trace) && Last(trace).phase.Idle?
    ensures IsHistory(longer) && longer != [] && trace <= longer && Last(longer) == Run(Last(trace), request)
    ensures forall i :: |trace| <= i < |longer| ==> longer[i].phase.Idle? || longer[i].phase.request == request
  {
    TraceConsistent(trace, |trace| - 1);
    hide Next, Initial, Consistent, Loadable, IsHistory, Run;
    var loading, loaded := RunIsThreeSteps(Last(trace), request);
    RunEndsIdle(Last(trace), request);
    ExtendHistory(trace, loading);
    ExtendHistory(trace + [loading], loaded);
    ExtendHistory(trace + [loading] + [loaded], Run(Last(trace), request));
    longer := trace + [loading] + [loaded] + [Run(Last(trace), request)];
    hide *;
    ThreeMore(trace, loading, loaded, Run(Last(trace), request));
  }

  lemma ThreeMore(trace: seq<State>, a: State, b: State, c: State)
    ensures var longer := trace + [a] + [b] + [c];
      trace <= longer && forall i :: |trace| <= i < |longer| ==> longer[i] == a || longer[i] == b || longer[i] == c
  {
  }

  lemma RunEndsIdle(s: State, request: Request)
    ensures Run(s, request).phase.Idle?
  {
  }

  /** A fresh log with one event appended. */
  lemma OneAppended(e: MemoryEvent) returns (trace: seq<State>)
    requires e.storeCursor == "1"
    ensures IsHistory(trace) && trace != [] && Last(trace) == State([e], map[], Idle, [])
    ensures forall i :: 0 <= i < |trace| ==> trace[i].phase.Idle?
  {
    OneId();
    hide CursorToInt, ToText;
    trace := [State([], map[], Idle, []), State([e], map[], Idle, [])];
    assert Appends(trace[0], trace[1]);
  }

  /** A message appended, consolidated, and consolidated again by force is delivered twice. */
  lemma ForcedRunRepeats(e: MemoryEvent, request: Request) returns (trace: seq<State>)
    requires e.storeCursor == "1" && Wanted(request, e)
    requires e.sessionId == request.sessionId != "" && 1 < request.maxEvents && !request.forceReprocess
    ensures IsHistory(trace) && forall i :: 0 <= i < |trace| ==> FixedFilter(trace[i], request)
    ensures Delivered(Last(trace).log, ScopeOf(request)) == [e, e]
    ensures !ExactlyDelivered(Last(trace), request)
  {
    hide Run, IsHistory, Due, Delivered, StartCursor;
    var forced := request.(forceReprocess := true);
    var appended := OneAppended(e);
    var once := ExtendByRun(appended, request);
    RunOverOne(Last(appended), request, e);
    trace := ExtendByRun(once, forced);
    RunOverOne(Last(once), forced, e);
    DeliveredTwice(e, request, forced);
    DueAtMost(Last(trace), request);
  }

  lemma DeliveredTwice(e: MemoryEvent, a: Request, b: Request)
    requires ScopeOf(a) == ScopeOf(b)
    ensures Delivered([] + [Commit(a, [e])] + [Commit(b, [e])], ScopeOf(a)) == [e, e]
  {
    DeliveredAppend([], Commit(a, [e]), ScopeOf(a));
    DeliveredAppend([] + [Commit(a, [e])], Commit(b, [e]), ScopeOf(a));
  }

  lemma DueAtMost(s: State, ref: Request)
    ensures |Due(s, ref)| <= |s.history|
  {
  }

  /** A message appended and passed over by a run that excludes its session is lost to requests that
      do not exclude it. */
  lemma ExcludingRunLoses(e: MemoryEvent, request: Request) returns (trace: seq<State>)
    requires e.storeCursor == "1" && Wanted(request, e)
    requires e.sessionId == request.sessionId != "" && 1 < request.maxEvents
    ensures IsHistory(trace)
    ensures Delivered(Last(trace).log, ScopeOf(request)) == [] && Due(Last(trace), request) == [e]
    ensures !AllDelivered(Last(trace), request)
  {
    OneId();
    var other := request.(excludedSessionIds := [e.sessionId]);
    var appended := OneAppended(e);
    trace := ExtendByRun(appended, other);
    RunOverOne(Last(appended), other, e);
    hide CursorToInt, Run, IsHistory;
    assert [e][..0] == [];
    assert Due(Last(trace), request) == Stretch(request, 0, 1, [e]);
    FilterAll(WantedBetween(request, 0, 1), [e]);
    assert e in Due(Last(trace), request);
  }

  /** A message delivered by a run that does not exclude its session was never due to requests that do. */
  lemma IncludingRunOverdelivers(e: MemoryEvent, request: Request) returns (trace: seq<State>)
    requires e.storeCursor == "1" && Wanted(request, e)
    requires e.sessionId == request.sessionId != "" && 1 < request.maxEvents
    ensures IsHistory(trace)
    ensures var ref := request.(excludedSessionIds := [e.sessionId]);
      && Delivered(Last(trace).log, ScopeOf(ref)) == [e] && Due(Last(trace), ref) == []
      && !ExactlyDelivered(Last(trace), ref)
  {
    var ref := request.(excludedSessionIds := [e.sessionId]);
    var appended := OneAppended(e);
    trace := ExtendByRun(appended, request);
    RunOverOne(Last(appended), request, e);
    DeliveredAppend([], Commit(request, [e]), ScopeOf(ref));
    StretchEmptyIff(ref, 0, 1, [e]);
    hide CursorToInt, Run, IsHistory, Stretch;
    assert [] + [e] == [e];
  }
}
