/** The consolidation protocol as a transition system. Runs are serialised by the runtime's
    consolidation mutex, so one run is in flight at a time; appends interleave with its steps
    and it may be abandoned, by an error or a crash, after any of them. */
module Delivery {
  import opened Sequences
  import opened CursorText
  import opened Records
  import opened BatchBuilder
  import opened EventLog

  type Request = MemoryConsolidationRequest

  datatype Phase =
    | Idle
    | CursorLoaded(request: Request, startCursor: string)
    | EventsLoaded(request: Request, startCursor: string, events: seq<MemoryEvent>)

  /** One committed batch. */
  datatype Commit = Commit(request: Request, batch: seq<MemoryEvent>)

  datatype State = State(history: seq<MemoryEvent>, cursors: map<Scope, int>, phase: Phase, log: seq<Commit>)

  function ScopeOf(request: Request): Scope {
    Scope(request.agentId, request.sessionId)
  }

  function CursorOf(cursors: map<Scope, int>, scope: Scope): int {
    if scope in cursors then cursors[scope] else 0
  }

  /** The text a run starts from: empty for a forced run and for a scope without a cursor row. */
  function StartCursor(cursors: map<Scope, int>, request: Request): string {
    if request.forceReprocess || ScopeOf(request) !in cursors then "" else ToText(cursors[ScopeOf(request)])
  }

  function StartId(cursors: map<Scope, int>, request: Request): int {
    if request.forceReprocess then 0 else CursorOf(cursors, ScopeOf(request))
  }

  /** A successful commit of the loaded events. */
  function Committed(s: State): State
    requires s.phase.EventsLoaded?
  {
    var build := BuildSpec(s.phase.request, s.phase.events);
    if build.nextCursor == "" then s.(phase := Idle)
    else
      State(s.history,
            s.cursors[ScopeOf(s.phase.request) := CursorToInt(build.nextCursor)],
            Idle,
            if build.batch.events == [] then s.log else s.log + [Commit(s.phase.request, build.batch.events)])
  }

  ghost predicate Appends(s: State, t: State) {
    && |t.history| == |s.history| + 1
    && t == s.(history := t.history)
    && t.history[..|s.history|] == s.history
    && ValidLog(t.history)
  }

  ghost predicate Next(s: State, t: State) {
    || Appends(s, t)
    || (s.phase.Idle? && t.phase.CursorLoaded?
        && t == s.(phase := CursorLoaded(t.phase.request, StartCursor(s.cursors, t.phase.request))))
    || (s.phase.CursorLoaded?
        && t == s.(phase := EventsLoaded(s.phase.request, s.phase.startCursor,
                                         LoadEvents(s.history, s.phase.request, s.phase.startCursor))))
    || (s.phase.EventsLoaded? && t == Committed(s))
    || t == s.(phase := Idle)
  }

  ghost predicate Initial(s: State) {
    ValidLog(s.history) && s.cursors == map[] && s.phase.Idle? && s.log == []
  }

  ghost predicate IsTrace(trace: seq<State>) {
    |trace| > 0 && forall i :: 0 < i < |trace| ==> Next(trace[i - 1], trace[i])
  }

  /** A trace from a fresh database. */
  ghost predicate IsHistory(trace: seq<State>) {
    IsTrace(trace) && Initial(trace[0])
  }

  function Last(trace: seq<State>): State
    requires trace != []
  {
    trace[|trace| - 1]
  }

  /** What every reachable state satisfies: no cursor is beyond the log, and an in-flight run
      started from the stored cursor and holds a load of some earlier prefix of the log. */
  ghost predicate Consistent(s: State) {
    && ValidLog(s.history)
    && (forall scope :: scope in s.cursors ==> 0 <= s.cursors[scope] <= LastId(s.history))
    && (s.phase.Idle? || CursorToInt(s.phase.startCursor) == StartId(s.cursors, s.phase.request))
    && (s.phase.EventsLoaded? ==> exists n :: LoadedAt(s, n))
  }

  ghost predicate LoadedAt(s: State, n: int)
    requires s.phase.EventsLoaded?
  {
    0 <= n <= |s.history| && s.phase.events == LoadEvents(s.history[..n], s.phase.request, s.phase.startCursor)
  }

  function Delivered(log: seq<Commit>, scope: Scope): seq<MemoryEvent> {
    if log == [] then []
    else
      var last := log[|log| - 1];
      Delivered(log[..|log| - 1], scope) + if ScopeOf(last.request) == scope then last.batch else []
  }

  /** Same scope and same exclusion set, in any order and multiplicity. */
  ghost predicate SameFilter(r: Request, ref: Request) {
    && ScopeOf(r) == ScopeOf(ref)
    && forall x :: x in r.excludedSessionIds <==> x in ref.excludedSessionIds
  }

  /** Every request of `ref`'s scope filters like `ref`. */
  ghost predicate FixedFilter(s: State, ref: Request) {
    s.phase.Idle? || (ScopeOf(s.phase.request) == ScopeOf(ref) ==> SameFilter(s.phase.request, ref))
  }

  ghost predicate NotForced(s: State, ref: Request) {
    s.phase.Idle? || (ScopeOf(s.phase.request) == ScopeOf(ref) ==> !s.phase.request.forceReprocess)
  }

  /** The wanted events at or below the stored cursor of `ref`'s scope. */
  ghost function Due(s: State, ref: Request): seq<MemoryEvent> {
    Stretch(ref, 0, CursorOf(s.cursors, ScopeOf(ref)), s.history)
  }

  ghost predicate ExactlyDelivered(s: State, ref: Request) {
    Delivered(s.log, ScopeOf(ref)) == Due(s, ref)
  }

  ghost predicate AllDelivered(s: State, ref: Request) {
    forall e :: e in Due(s, ref) ==> e in Delivered(s.log, ScopeOf(ref))
  }

  // ----- Every step keeps the state consistent -----

  lemma StartText(s: State, request: Request)
    requires Consistent(s)
    ensures CursorToInt(StartCursor(s.cursors, request)) == StartId(s.cursors, request)
  {
    hide ToText, ValidLog;
    var scope := ScopeOf(request);
    if scope in s.cursors {
      CursorRoundTrip(s.cursors[scope]);
      assert IsInt64(LastId(s.history));
    }
    assert CursorToInt("") == 0;
  }

  lemma AppendGrows(s: State, t: State)
    requires Consistent(s) && Appends(s, t)
    ensures LastId(s.history) < LastId(t.history)
  {
    hide CursorToInt, ToText;
    if s.history != [] {
      assert t.history[|s.history| - 1] == s.history[|s.history| - 1];
    }
  }

  lemma CommitStretch(s: State)
    requires Consistent(s) && s.phase.EventsLoaded?
    requires BuildSpec(s.phase.request, s.phase.events).nextCursor != ""
    ensures var build := BuildSpec(s.phase.request, s.phase.events);
      var after, upTo := StartId(s.cursors, s.phase.request), CursorToInt(build.nextCursor);
      && 0 <= after < upTo <= LastId(s.history)
      && build.batch.events == Stretch(s.phase.request, after, upTo, s.history)
  {
    hide BuildSpec, LoadEvents, CursorToInt, ToText, ValidLog, LastId;
    var n :| LoadedAt(s, n);
    BatchIsStretch(s.history, n, s.phase.request, s.phase.startCursor);
  }

  lemma StepKeepsConsistent(s: State, t: State)
    requires Consistent(s) && Next(s, t)
    ensures Consistent(t)
  {
    hide BuildSpec, LoadEvents, CursorToInt, ToText, LastId, ValidLog;
    if Appends(s, t) {
      AppendGrows(s, t);
      if s.phase.EventsLoaded? {
        var n :| LoadedAt(s, n);
        assert t.history[..n] == s.history[..n];
        assert LoadedAt(t, n);
      }
    } else if s.phase.Idle? && t.phase.CursorLoaded? {
      StartText(s, t.phase.request);
    } else if s.phase.CursorLoaded? && t.phase.EventsLoaded? {
      assert s.history[..|s.history|] == s.history;
      assert LoadedAt(t, |s.history|);
    } else if s.phase.EventsLoaded? && t == Committed(s) && t.cursors != s.cursors {
      CommitStretch(s);
    }
  }

  lemma {:induction false} TraceConsistent(trace: seq<State>, i: nat)
    requires IsTrace(trace) && Initial(trace[0]) && i < |trace|
    ensures Consistent(trace[i])
  {
    if i == 0 {
    } else {
      TraceConsistent(trace, i - 1);
      StepKeepsConsistent(trace[i - 1], trace[i]);
    }
  }

  // ----- Delivery -----

  lemma DeliveredAppend(log: seq<Commit>, c: Commit, scope: Scope)
    ensures Delivered(log + [c], scope) == Delivered(log, scope) + if ScopeOf(c.request) == scope then c.batch else []
  {
    assert (log + [c])[..|log|] == log;
  }

  /** What a commit does to the scope it belongs to, as seen by any request of that scope. */
  lemma CommitEffect(s: State, ref: Request)
    requires Consistent(s) && s.phase.EventsLoaded? && ScopeOf(s.phase.request) == ScopeOf(ref)
    requires BuildSpec(s.phase.request, s.phase.events).nextCursor != ""
    ensures var t, r, scope := Committed(s), s.phase.request, ScopeOf(ref);
      var after, upTo := StartId(s.cursors, r), CursorOf(t.cursors, scope);
      && 0 <= after < upTo <= LastId(s.history) && t.history == s.history
      && Delivered(t.log, scope) == Delivered(s.log, scope) + Stretch(r, after, upTo, s.history)
      && Due(t, ref) == Stretch(ref, 0, upTo, s.history)
  {
    CommitStretch(s);
    hide BuildSpec, LoadEvents, CursorToInt, ToText, LastId, ValidLog, Stretch, StartId, Delivered;
    var batch := BuildSpec(s.phase.request, s.phase.events).batch.events;
    DeliveredAppend(s.log, Commit(s.phase.request, batch), ScopeOf(ref));
  }

  /** Requests that filter alike want the same events. */
  lemma SameFilterSameStretch(history: seq<MemoryEvent>, r: Request, ref: Request, after: int, upTo: int)
    requires SameFilter(r, ref)
    ensures Stretch(r, after, upTo, history) == Stretch(ref, after, upTo, history)
  {
    SameStretchIff(r, after, upTo, ref, after, upTo, history);
    hide Stretch, EventId;
  }

  /** For a request that filters like `ref` the commit moves delivery and due events alike, forced or not. */
  lemma CommitDelivers(s: State, ref: Request)
    requires Consistent(s) && s.phase.EventsLoaded? && SameFilter(s.phase.request, ref)
    requires BuildSpec(s.phase.request, s.phase.events).nextCursor != ""
    ensures var t, scope := Committed(s), ScopeOf(ref);
      var after, upTo := StartId(s.cursors, s.phase.request), CursorOf(t.cursors, scope);
      && 0 <= after < upTo <= LastId(s.history)
      && Delivered(t.log, scope) == Delivered(s.log, scope) + Stretch(ref, after, upTo, s.history)
      && Due(t, ref) == Stretch(ref, 0, after, s.history) + Stretch(ref, after, upTo, s.history)
  {
    CommitEffect(s, ref);
    var after, upTo := StartId(s.cursors, s.phase.request), CursorOf(Committed(s).cursors, ScopeOf(ref));
    hide BuildSpec, Committed, CursorOf, StartId, Due, Delivered, Stretch, ValidLog, LastId;
    SameFilterSameStretch(s.history, s.phase.request, ref, after, upTo);
    StretchSplit(ref, 0, after, upTo, s.history);
  }

  lemma AppendKeepsDue(s: State, t: State, ref: Request)
    requires Consistent(s) && Appends(s, t)
    ensures t.log == s.log && t.cursors == s.cursors && Due(t, ref) == Due(s, ref)
  {
    hide EventId, ToText, Stretch;
    LastIdBounds(s.history);
    StretchIgnoresAppends(t.history, |s.history|, ref, 0, CursorOf(s.cursors, ScopeOf(ref)));
  }

  lemma SameCursorSameDue(s: State, t: State, ref: Request)
    requires t.history == s.history && CursorOf(t.cursors, ScopeOf(ref)) == CursorOf(s.cursors, ScopeOf(ref))
    ensures Due(t, ref) == Due(s, ref)
  {
  }

  /** Steps that commit nothing for the scope leave its delivery and its due events alone. */
  lemma OtherStepsKeepScope(s: State, t: State, ref: Request)
    requires Consistent(s) && Next(s, t)
    requires !(s.phase.EventsLoaded? && t == Committed(s) && ScopeOf(s.phase.request) == ScopeOf(ref))
    ensures Delivered(t.log, ScopeOf(ref)) == Delivered(s.log, ScopeOf(ref))
    ensures CursorOf(t.cursors, ScopeOf(ref)) == CursorOf(s.cursors, ScopeOf(ref))
    ensures Due(t, ref) == Due(s, ref)
  {
    hide BuildSpec, LoadEvents, CursorToInt, ToText, Due, LastId, ValidLog, Appends;
    if Appends(s, t) {
      AppendKeepsDue(s, t, ref);
    } else if s.phase.EventsLoaded? && t == Committed(s) && t.log != s.log {
      DeliveredAppend(s.log, t.log[|t.log| - 1], ScopeOf(ref));
      SameCursorSameDue(s, t, ref);
    } else {
      SameCursorSameDue(s, t, ref);
    }
  }

  lemma StepKeepsExact(s: State, t: State, ref: Request)
    requires Consistent(s) && Next(s, t)
    requires FixedFilter(s, ref) && NotForced(s, ref)
    requires ExactlyDelivered(s, ref)
    ensures ExactlyDelivered(t, ref)
  {
    hide BuildSpec, LoadEvents, CursorToInt, ToText, LastId, ValidLog;
    if s.phase.EventsLoaded? && t == Committed(s) && ScopeOf(s.phase.request) == ScopeOf(ref) {
      if BuildSpec(s.phase.request, s.phase.events).nextCursor != "" {
        CommitDelivers(s, ref);
      }
    } else {
      OtherStepsKeepScope(s, t, ref);
    }
  }

  /** Exactly-once, in-order delivery: in every state of every history whose runs for a scope are
      not forced and share one exclusion set, the batches committed for the scope concatenate to
      the wanted events at or below its cursor, whatever the batch limits, appends and failures. */
  lemma {:induction false} ExactlyOnce(trace: seq<State>, ref: Request, i: nat)
    requires IsTrace(trace) && Initial(trace[0]) && i < |trace|
    requires forall k :: 0 <= k < |trace| ==> FixedFilter(trace[k], ref) && NotForced(trace[k], ref)
    ensures Delivered(trace[i].log, ScopeOf(ref)) == Due(trace[i], ref)
    ensures Increasing(EventId, Delivered(trace[i].log, ScopeOf(ref)))
  {
    hide CursorToInt, ToText, LastId;
    TraceConsistent(trace, i);
    if i == 0 {
      NoStretch(ref, 0, 0, trace[0].history);
    } else {
      ExactlyOnce(trace, ref, i - 1);
      TraceConsistent(trace, i - 1);
      StepKeepsExact(trace[i - 1], trace[i], ref);
      StretchIncreasing(ref, 0, CursorOf(trace[i].cursors, ScopeOf(ref)), trace[i].history);
    }
  }

  /** So an event has been delivered to a scope exactly if it is a message of the scope's agent and
      session, outside the excluded sessions, and its id is at or below the scope's cursor. */
  lemma DeliveredIff(trace: seq<State>, ref: Request, i: nat, e: MemoryEvent)
    requires IsTrace(trace) && Initial(trace[0]) && i < |trace|
    requires forall k :: 0 <= k < |trace| ==> FixedFilter(trace[k], ref) && NotForced(trace[k], ref)
    ensures var scope, cursors := Scope(ref.agentId, ref.sessionId), trace[i].cursors;
      e in Delivered(trace[i].log, scope) <==>
        && e in trace[i].history && e.kind == MessageAppended
        && e.agentId == ref.agentId && (ref.sessionId == "" || e.sessionId == ref.sessionId)
        && e.sessionId !in ref.excludedSessionIds
        && scope in cursors && CursorToInt(e.storeCursor) <= cursors[scope]
  {
    hide CursorToInt, ToText, LastId, Delivered;
    ExactlyOnce(trace, ref, i);
    TraceConsistent(trace, i);
    StretchMember(ref, 0, CursorOf(trace[i].cursors, ScopeOf(ref)), trace[i].history, e);
    if e in trace[i].history {
      MemberBounds(trace[i].history, e);
    }
  }

  /** How the batches were cut does not matter: two such histories over the same log that reach the
      same cursor have delivered the same events in the same order. */
  lemma CutsDoNotMatter(a: seq<State>, b: seq<State>, ref: Request, i: nat, j: nat)
    requires IsTrace(a) && Initial(a[0]) && i < |a| && IsTrace(b) && Initial(b[0]) && j < |b|
    requires forall k :: 0 <= k < |a| ==> FixedFilter(a[k], ref) && NotForced(a[k], ref)
    requires forall k :: 0 <= k < |b| ==> FixedFilter(b[k], ref) && NotForced(b[k], ref)
    requires a[i].history == b[j].history
    requires CursorOf(a[i].cursors, ScopeOf(ref)) == CursorOf(b[j].cursors, ScopeOf(ref))
    ensures Delivered(a[i].log, ScopeOf(ref)) == Delivered(b[j].log, ScopeOf(ref))
  {
    ExactlyOnce(a, ref, i);
    ExactlyOnce(b, ref, j);
  }

  lemma StepKeepsAll(s: State, t: State, ref: Request)
    requires Consistent(s) && Next(s, t)
    requires FixedFilter(s, ref)
    requires AllDelivered(s, ref)
    ensures AllDelivered(t, ref)
  {
    hide BuildSpec, LoadEvents, CursorToInt, ToText, LastId, ValidLog;
    if s.phase.EventsLoaded? && t == Committed(s) && ScopeOf(s.phase.request) == ScopeOf(ref) {
      if BuildSpec(s.phase.request, s.phase.events).nextCursor != "" {
        CommitDelivers(s, ref);
        if s.phase.request.forceReprocess {
          NoStretch(ref, 0, 0, s.history);
        }
      }
    } else {
      OtherStepsKeepScope(s, t, ref);
    }
  }

  /** No loss, forced runs included: a bounded forced run may move the cursor backwards, yet every
      wanted event at or below the cursor is in some committed batch. */
  lemma {:induction false} NoLoss(trace: seq<State>, ref: Request, i: nat)
    requires IsTrace(trace) && Initial(trace[0]) && i < |trace|
    requires forall k :: 0 <= k < |trace| ==> FixedFilter(trace[k], ref)
    ensures AllDelivered(trace[i], ref)
  {
    hide CursorToInt, ToText, LastId;
    if i == 0 {
      NoStretch(ref, 0, 0, trace[0].history);
    } else {
      NoLoss(trace, ref, i - 1);
      TraceConsistent(trace, i - 1);
      StepKeepsAll(trace[i - 1], trace[i], ref);
    }
  }

  // ----- Once at most -----

  /** Nothing was delivered twice or out of order, and nothing from beyond the cursor. */
  ghost predicate DeliveredOnce(s: State, scope: Scope) {
    && Increasing(EventId, Delivered(s.log, scope))
    && forall e :: e in Delivered(s.log, scope) ==> EventId(e) <= CursorOf(s.cursors, scope)
  }

  lemma StretchExtends(delivered: seq<MemoryEvent>, r: Request, after: int, upTo: int, history: seq<MemoryEvent>)
    requires ValidLog(history) && after <= upTo
    requires Increasing(EventId, delivered) && forall e :: e in delivered ==> EventId(e) <= after
    ensures var both := delivered + Stretch(r, after, upTo, history);
      Increasing(EventId, both) && forall e :: e in both ==> EventId(e) <= upTo
  {
    StretchIncreasing(r, after, upTo, history);
    hide EventId, Stretch, Wanted, ValidLog;
    var more := Stretch(r, after, upTo, history);
    forall e | e in more ensures after < EventId(e) <= upTo {
      StretchMember(r, after, upTo, history, e);
    }
    var both := delivered + more;
    forall i, j | 0 <= i < j < |both| ensures EventId(both[i]) < EventId(both[j]) {
      assert i < |delivered| ==> both[i] in delivered;
      assert j >= |delivered| ==> both[j] in more;
    }
  }

  lemma StepKeepsOnce(s: State, t: State, ref: Request)
    requires Consistent(s) && Next(s, t) && NotForced(s, ref)
    requires DeliveredOnce(s, ScopeOf(ref))
    ensures DeliveredOnce(t, ScopeOf(ref))
  {
    hide BuildSpec, LoadEvents, EventId, ToText, LastId, ValidLog, Delivered, Stretch, Increasing, Due;
    if s.phase.EventsLoaded? && t == Committed(s) && ScopeOf(s.phase.request) == ScopeOf(ref) {
      if BuildSpec(s.phase.request, s.phase.events).nextCursor != "" {
        CommitEffect(s, ref);
        var after, upTo := CursorOf(s.cursors, ScopeOf(ref)), CursorOf(t.cursors, ScopeOf(ref));
        StretchExtends(Delivered(s.log, ScopeOf(ref)), s.phase.request, after, upTo, s.history);
      }
    } else {
      OtherStepsKeepScope(s, t, ref);
    }
  }

  /** At most once, in order: in every state of every history whose runs for a scope are not forced,
      whatever their exclusion lists, the deliveries of the scope strictly increase and stay at or
      below its cursor. */
  lemma {:induction false} AtMostOnce(trace: seq<State>, ref: Request, i: nat)
    requires IsTrace(trace) && Initial(trace[0]) && i < |trace|
    requires forall k :: 0 <= k < |trace| ==> NotForced(trace[k], ref)
    ensures DeliveredOnce(trace[i], ScopeOf(ref))
  {
    hide EventId;
    if i > 0 {
      AtMostOnce(trace, ref, i - 1);
      TraceConsistent(trace, i - 1);
      hide NotForced, Next, Consistent, Initial, DeliveredOnce;
      StepKeepsOnce(trace[i - 1], trace[i], ref);
    }
  }

  // ----- Exact conditions -----

  /** When what `r` selects turns the wanted events up to one cursor into those up to another. */
  lemma RejoinIff(ref: Request, before: int, r: Request, after: int, upTo: int, history: seq<MemoryEvent>)
    requires ValidLog(history) && 0 <= before && 0 <= upTo
    ensures Stretch(ref, 0, before, history) + Stretch(r, after, upTo, history) == Stretch(ref, 0, upTo, history) <==>
      forall e :: e in history ==>
        (InStretch(r, after, upTo, e) <==> InStretch(ref, before, upTo, e)) && !InStretch(ref, upTo, before, e)
  {
    hide Stretch, EventId, Wanted, ValidLog;
    var added := Stretch(r, after, upTo, history);
    if before <= upTo {
      StretchSplit(ref, 0, before, upTo, history);
      CancelHead(Stretch(ref, 0, before, history), added, Stretch(ref, before, upTo, history));
      SameStretchIff(r, after, upTo, ref, before, upTo, history);
    } else {
      StretchSplit(ref, 0, upTo, before, history);
      NothingAdded(Stretch(ref, 0, upTo, history), Stretch(ref, upTo, before, history), added);
      StretchEmptyIff(ref, upTo, before, history);
      StretchEmptyIff(r, after, upTo, history);
    }
  }

  /** The batch about to be committed is what `ref` wants between the old and the new cursor, and the
      cursor does not move back over anything `ref` wants. */
  ghost predicate CommitFits(s: State, ref: Request) {
    s.phase.EventsLoaded? ==>
    var r, before := s.phase.request, CursorOf(s.cursors, ScopeOf(ref));
    var after, upTo := StartId(s.cursors, r), CursorOf(Committed(s).cursors, ScopeOf(ref));
    forall e :: e in s.history ==>
      (InStretch(r, after, upTo, e) <==> InStretch(ref, before, upTo, e)) && !InStretch(ref, upTo, before, e)
  }

  /** When a commit keeps exactly-once delivery for `ref`, whatever the run excluded and forced or not. */
  lemma CommitIsExactIff(s: State, ref: Request)
    requires Consistent(s) && s.phase.EventsLoaded? && ScopeOf(s.phase.request) == ScopeOf(ref)
    requires ExactlyDelivered(s, ref)
    ensures ExactlyDelivered(Committed(s), ref) <==>
      BuildSpec(s.phase.request, s.phase.events).nextCursor == "" || CommitFits(s, ref)
  {
    if BuildSpec(s.phase.request, s.phase.events).nextCursor != "" {
      CommitEffect(s, ref);
      var r, before := s.phase.request, CursorOf(s.cursors, ScopeOf(ref));
      hide BuildSpec, LoadEvents, CursorToInt, LastId, ValidLog, InStretch, Stretch, Delivered, Committed, StartId;
      RejoinIff(ref, before, r, StartId(s.cursors, r), CursorOf(Committed(s).cursors, ScopeOf(ref)), s.history);
    } else {
      hide BuildSpec, Delivered, Stretch, Consistent, CommitFits;
    }
  }

  /** A step that commits a run of `ref`'s scope and moves its cursor. */
  predicate CommitsFor(s: State, t: State, ref: Request) {
    && s.phase.EventsLoaded? && t == Committed(s) && ScopeOf(s.phase.request) == ScopeOf(ref)
    && BuildSpec(s.phase.request, s.phase.events).nextCursor != ""
  }

  lemma StepIsExactIff(s: State, t: State, ref: Request)
    requires Consistent(s) && Next(s, t) && ExactlyDelivered(s, ref)
    ensures ExactlyDelivered(t, ref) <==> !CommitsFor(s, t, ref) || CommitFits(s, ref)
  {
    if s.phase.EventsLoaded? && t == Committed(s) && ScopeOf(s.phase.request) == ScopeOf(ref) {
      CommitIsExactIff(s, ref);
      hide BuildSpec, Committed, ExactlyDelivered, CommitFits, Next, Consistent;
    } else {
      OtherStepsKeepScope(s, t, ref);
      hide BuildSpec, Committed, Next, Consistent, Due, Delivered;
    }
  }

  ghost predicate ExactThroughout(trace: seq<State>, ref: Request) {
    forall i :: 0 <= i < |trace| ==> ExactlyDelivered(trace[i], ref)
  }

  ghost predicate AllCommitsFit(trace: seq<State>, ref: Request) {
    forall k :: 0 < k < |trace| && CommitsFor(trace[k - 1], trace[k], ref) ==> CommitFits(trace[k - 1], ref)
  }

  lemma {:induction false} ExactSoFar(trace: seq<State>, ref: Request, i: nat)
    requires IsTrace(trace) && Initial(trace[0]) && i < |trace|
    requires AllCommitsFit(trace, ref)
    ensures ExactlyDelivered(trace[i], ref)
  {
    if i == 0 {
      NoStretch(ref, 0, 0, trace[0].history);
    } else {
      ExactSoFar(trace, ref, i - 1);
      TraceConsistent(trace, i - 1);
      hide Initial, Next, Consistent, ExactlyDelivered, CommitsFor, CommitFits;
      StepIsExactIff(trace[i - 1], trace[i], ref);
    }
  }

  lemma ExactMeansFits(trace: seq<State>, ref: Request, k: nat)
    requires IsTrace(trace) && Initial(trace[0]) && ExactThroughout(trace, ref)
    requires 0 < k < |trace| && CommitsFor(trace[k - 1], trace[k], ref)
    ensures CommitFits(trace[k - 1], ref)
  {
    hide *;
    TraceConsistent(trace, k - 1);
    TraceStep(trace, k);
    ExactAt(trace, ref, k - 1);
    ExactAt(trace, ref, k);
    StepIsExactIff(trace[k - 1], trace[k], ref);
  }

  lemma TraceStep(trace: seq<State>, k: nat)
    requires IsTrace(trace) && 0 < k < |trace|
    ensures Next(trace[k - 1], trace[k])
  {
    hide Next;
  }

  lemma ExactAt(trace: seq<State>, ref: Request, i: nat)
    requires ExactThroughout(trace, ref) && i < |trace|
    ensures ExactlyDelivered(trace[i], ref)
  {
    hide ExactlyDelivered;
  }

  /** The exact condition for a whole history, whatever its runs exclude and whichever are forced:
      delivery is exactly once in every state precisely when every commit of the scope fits. */
  lemma ExactThroughoutIff(trace: seq<State>, ref: Request)
    requires IsTrace(trace) && Initial(trace[0])
    ensures ExactThroughout(trace, ref) <==> AllCommitsFit(trace, ref)
  {
    hide Next, Initial, ExactlyDelivered, CommitFits, CommitsFor;
    if ExactThroughout(trace, ref) {
      forall k | 0 < k < |trace| && CommitsFor(trace[k - 1], trace[k], ref) ensures CommitFits(trace[k - 1], ref) {
        ExactMeansFits(trace, ref, k);
      }
    }
    if AllCommitsFit(trace, ref) {
      forall i | 0 <= i < |trace| ensures ExactlyDelivered(trace[i], ref) {
        ExactSoFar(trace, ref, i);
      }
    }
  }

  /** With a start at the old cursor, fitting is wanting the same in between. */
  lemma FitsAt(r: Request, ref: Request, before: int, upTo: int, e: MemoryEvent)
    requires before <= upTo
    ensures (InStretch(r, before, upTo, e) <==> InStretch(ref, before, upTo, e)) && !InStretch(ref, upTo, before, e)
       <==> (before < EventId(e) <= upTo ==> (Wanted(r, e) <==> Wanted(ref, e)))
  {
    hide EventId, Wanted;
  }

  lemma FitsUnforcedIff(s: State, ref: Request)
    requires s.phase.EventsLoaded? && ScopeOf(s.phase.request) == ScopeOf(ref) && !s.phase.request.forceReprocess
    requires CursorOf(s.cursors, ScopeOf(ref)) <= CursorOf(Committed(s).cursors, ScopeOf(ref))
    ensures var after, upTo := CursorOf(s.cursors, ScopeOf(ref)), CursorOf(Committed(s).cursors, ScopeOf(ref));
      CommitFits(s, ref) <==>
        forall e :: e in s.history && after < EventId(e) <= upTo ==> (Wanted(s.phase.request, e) <==> Wanted(ref, e))
  {
    hide EventId, Wanted, InStretch, Committed;
    var r, scope := s.phase.request, ScopeOf(ref);
    var after, upTo := CursorOf(s.cursors, scope), CursorOf(Committed(s).cursors, scope);
    forall e
      ensures (InStretch(r, after, upTo, e) <==> InStretch(ref, after, upTo, e)) && !InStretch(ref, upTo, after, e)
         <==> (after < EventId(e) <= upTo ==> (Wanted(r, e) <==> Wanted(ref, e)))
    {
      FitsAt(r, ref, after, upTo, e);
    }
  }

  /** For a run that is not forced: precisely when it and `ref` want the same of the events that it
      moves the cursor over. */
  lemma OtherExclusionIsExactIff(s: State, ref: Request)
    requires Consistent(s) && s.phase.EventsLoaded? && ScopeOf(s.phase.request) == ScopeOf(ref)
    requires BuildSpec(s.phase.request, s.phase.events).nextCursor != ""
    requires !s.phase.request.forceReprocess && ExactlyDelivered(s, ref)
    ensures var after, upTo := CursorOf(s.cursors, ScopeOf(ref)), CursorOf(Committed(s).cursors, ScopeOf(ref));
      ExactlyDelivered(Committed(s), ref) <==>
        forall e :: e in s.history && after < EventId(e) <= upTo ==> (Wanted(s.phase.request, e) <==> Wanted(ref, e))
  {
    CommitEffect(s, ref);
    CommitIsExactIff(s, ref);
    hide BuildSpec, EventId, Wanted, Committed, ExactlyDelivered, Consistent, Delivered, Due, Stretch, LastId,
      CommitFits;
    FitsUnforcedIff(s, ref);
  }

  /** When a forced run keeps exactly-once delivery: precisely when it finds no events or nothing had
      been delivered yet. Otherwise everything up to the new cursor is delivered again. */
  lemma ForcedRunIsExactIff(s: State, ref: Request)
    requires Consistent(s) && s.phase.EventsLoaded? && SameFilter(s.phase.request, ref)
    requires s.phase.request.forceReprocess && ExactlyDelivered(s, ref)
    ensures ExactlyDelivered(Committed(s), ref) <==> s.phase.events == [] || Due(s, ref) == []
  {
    NoCursorIff(s.phase.request, s.phase.events);
    hide BuildSpec, LoadEvents, CursorToInt, ToText, LastId, ValidLog, Stretch;
    if s.phase.events != [] {
      CommitDelivers(s, ref);
      NoStretch(ref, 0, 0, s.history);
      var again := Stretch(ref, 0, CursorOf(Committed(s).cursors, ScopeOf(ref)), s.history);
      NothingAdded(again, Delivered(s.log, ScopeOf(ref)), []);
      assert [] + again == again;
      assert |Delivered(s.log, ScopeOf(ref)) + again| == |Delivered(s.log, ScopeOf(ref))| + |again|;
    }
  }

  lemma NoCursorIff(request: Request, events: seq<MemoryEvent>)
    ensures request.forceReprocess ==> (BuildSpec(request, events).nextCursor == "" <==> events == [])
  {
  }

  /** Why the exclusion set has to stay fixed: a run that excludes other sessions than `ref` keeps
      `ref` free of loss precisely when it excludes no session of a wanted event in the stretch it
      moves the cursor over, except events delivered before. */
  lemma OtherExclusionLosesIff(s: State, ref: Request)
    requires Consistent(s) && s.phase.EventsLoaded? && ScopeOf(s.phase.request) == ScopeOf(ref)
    requires BuildSpec(s.phase.request, s.phase.events).nextCursor != ""
    requires AllDelivered(s, ref)
    ensures var after, upTo := StartId(s.cursors, s.phase.request), CursorOf(Committed(s).cursors, ScopeOf(ref));
      AllDelivered(Committed(s), ref) <==>
        forall e :: e in Stretch(ref, after, upTo, s.history) ==>
          e.sessionId !in s.phase.request.excludedSessionIds || e in Delivered(s.log, ScopeOf(ref))
  {
    CommitEffect(s, ref);
    var r, before := s.phase.request, Delivered(s.log, ScopeOf(ref));
    var after, upTo := StartId(s.cursors, r), CursorOf(Committed(s).cursors, ScopeOf(ref));
    StretchSplit(ref, 0, after, upTo, s.history);
    LowerIsDelivered(s, ref, r);
    hide BuildSpec, Committed, StartId, CursorOf, Delivered, Stretch, ValidLog, LastId, Consistent, EventId;
    var batch, gap := Stretch(r, after, upTo, s.history), Stretch(ref, after, upTo, s.history);
    forall e | e in gap ensures e in before + batch <==> e.sessionId !in r.excludedSessionIds || e in before {
      StretchMember(r, after, upTo, s.history, e);
      StretchMember(ref, after, upTo, s.history, e);
    }
    assert AllDelivered(Committed(s), ref) <==> forall e :: e in gap ==> e in before + batch;
  }

  /** What lies at or below the start of a run had been delivered. */
  lemma LowerIsDelivered(s: State, ref: Request, r: Request)
    requires AllDelivered(s, ref) && ScopeOf(r) == ScopeOf(ref)
    ensures forall e :: e in Stretch(ref, 0, StartId(s.cursors, r), s.history) ==> e in Delivered(s.log, ScopeOf(ref))
  {
    NoStretch(ref, 0, 0, s.history);
    hide Stretch, Delivered;
  }
}
