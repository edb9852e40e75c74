/** The runtime: every interleaving of its methods is a trace of the delivery protocol. */
module Runtime {
  import opened Sequences
  import opened CursorText
  import opened Json
  import opened Records
  import opened BatchBuilder
  import opened EventLog
  import opened Delivery
  import opened Drain
  import opened MemoryUpdate
  import opened SqliteStore
  import opened Consolidation
  import opened SessionRows

  /** A trace of the protocol from a fresh database that ends in `s`. */
  ghost predicate Reaches(trace: seq<State>, s: State) {
    IsHistory(trace) && Last(trace) == s
  }

  lemma ReachesOneMore(trace: seq<State>, s: State, t: State)
    requires Reaches(trace, s) && Next(s, t)
    ensures Reaches(trace + [t], t)
  {
    hide Next, Initial;
  }

  lemma AppendStep(s: State, t: State, rows: seq<EventRow>, row: EventRow)
    requires ValidEvents(rows + [row])
    requires s.history == Map(ReadEventRow, rows) && t == s.(history := Map(ReadEventRow, rows + [row]))
    ensures Next(s, t)
  {
    HistoryIsValidLog(rows + [row]);
    hide CursorToInt, ToText, ValidLog;
    assert t.history[..|s.history|] == s.history;
    assert Appends(s, t);
  }

  lemma CursorStep(s: State, request: Request)
    requires s.phase.Idle?
    ensures Next(s, s.(phase := CursorLoaded(request, StartCursor(s.cursors, request))))
  {
  }

  lemma LoadStep(s: State)
    requires s.phase.CursorLoaded?
    ensures Next(s, s.(phase := EventsLoaded(s.phase.request, s.phase.startCursor,
                                             LoadEvents(s.history, s.phase.request, s.phase.startCursor))))
  {
  }

  lemma AbandonStep(s: State)
    ensures Next(s, s.(phase := Idle))
  {
  }

  /** What a successful run has to leave behind for its last step to be the protocol's commit. */
  lemma CommitStep(s: State, t: State, build: BuildResult)
    requires s.phase.EventsLoaded? && build == BuildSpec(s.phase.request, s.phase.events)
    requires t.history == s.history && t.phase.Idle?
    requires t.cursors == if build.nextCursor == "" then s.cursors
                          else s.cursors[ScopeOf(s.phase.request) := CursorToInt(build.nextCursor)]
    requires t.log == if build.batch.events == [] then s.log else s.log + [Commit(s.phase.request, build.batch.events)]
    ensures Next(s, t)
  {
    BatchHasCursor(s.phase.request, s.phase.events);
  }

  function LogAfter(log: seq<Commit>, request: Request, build: BuildResult): seq<Commit> {
    if build.batch.events == [] then log else log + [Commit(request, build.batch.events)]
  }

  /** Without appends in between, a successful run is the uninterrupted run of the protocol. */
  lemma CompletedIsRun(s: State, t: State, service: ConsolidationService, request: Request, build: BuildResult)
    requires s.phase.Idle?
    requires build == BuildSpec(request, LoadEvents(s.history, request, StartCursor(s.cursors, request)))
    requires t.history == s.history && t.phase.Idle? && t.log == LogAfter(s.log, request, build)
    requires t.cursors == service.CursorsAfter(s.cursors, request, build)
    ensures t == Run(s, request)
  {
    BatchHasCursor(request, LoadEvents(s.history, request, StartCursor(s.cursors, request)));
    hide BuildSpec, LoadEvents, CursorToInt;
  }

  lemma HistoryPrefix(rows: seq<EventRow>, more: seq<EventRow>)
    requires rows <= more
    ensures Map(ReadEventRow, more)[..|rows|] == Map(ReadEventRow, rows)
  {
  }

  /** A committed run's rows record its batch; a run without a batch writes no rows. */
  lemma FinishRecords(service: ConsolidationService, t: Tables, log: seq<Commit>, request: Request,
                      events: seq<MemoryEvent>, model: Option<Processor>)
    requires Recorded(t.summaries, log)
    ensures var build := BuildSpec(request, events);
      Recorded(service.TablesAfter(t, request, build, model).summaries, LogAfter(log, request, build))
  {
    var build := BuildSpec(request, events);
    CommitRecords(t, log, request, events, Extracted(model, service.fallback, build.batch));
    hide BuildSpec, Recorded, Written;
  }

  /** The states a run adds to a trace all belong to its own request. */
  ghost predicate Adds(before: seq<State>, now: seq<State>, request: Request) {
    && before <= now
    && forall i :: |before| <= i < |now| ==> now[i].phase.Idle? || now[i].phase.request == request
  }

  class BuiltinMemoryRuntime {
    const service: ConsolidationService
    const store: MemorySqliteStore
    /** The batches committed so far, and the protocol states gone through. */
    ghost var log: seq<Commit>
    ghost var trace: seq<State>

    ghost function StateIn(phase: Phase): State
      reads this, store
    {
      State(store.History(), store.cursors, phase, log)
    }

    /** Between calls, and at every point of a run where other threads may append: the protocol
        state reached, and its committed batches on record in the summary table. */
    ghost predicate ValidIn(phase: Phase)
      reads this, store
    {
      store == service.writer.store && store.Valid() && store.saved.None? && Reaches(trace, StateIn(phase))
      && Recorded(store.summaries, log)
    }

    ghost predicate Valid()
      reads this, store
    {
      ValidIn(Idle)
    }

    /** Opens the runtime on a database left in the last state of `past`. */
    constructor (service: ConsolidationService, ghost past: seq<State>)
      requires var store := service.writer.store;
        && store.Valid() && store.saved.None? && past != []
        && Reaches(past, State(store.History(), store.cursors, Idle, Last(past).log))
        && Recorded(store.summaries, Last(past).log)
      ensures Valid() && this.service == service && trace == past
    {
      this.service, store := service, service.writer.store;
      log, trace := Last(past).log, past;
    }

    /** Appending takes only the store's lock, so it may land between the steps of a run. */
    method AppendEvent(event: MemoryEvent, ghost phase: Phase, ghost request: Request) returns (ok: bool)
      requires ValidIn(phase) && (phase.Idle? || phase.request == request)
      modifies this`trace, store`events
      ensures ValidIn(phase) && Adds(old(trace), trace, request)
      ensures store.events == old(store.events)
        + if ok then [EventRowFor(|old(store.events)| + 1, event)] else []
      ensures ok ==>
           store.History()
           == old(store.History())
            + [event.(storeCursor := ToText(|old(store.events)| + 1),
                      metadata := if event.metadata.JObject? then event.metadata else JObject(map[]))]
    {
      hide Next, Reaches, Recorded, ValidSummaries, ValidEntities, ValidRelations;
      ghost var s, rows := StateIn(phase), store.events;
      ok := store.SaveEvent(event);
      if ok {
        AppendStep(s, StateIn(phase), rows, EventRowFor(|rows| + 1, event));
        hide *;
        Record(s, phase);
      }
    }

    /** Whatever other threads append at this point. */
    method OtherThreads(ghost phase: Phase, ghost request: Request)
      requires ValidIn(phase) && (phase.Idle? || phase.request == request)
      modifies this`trace, store`events
      ensures ValidIn(phase) && Adds(old(trace), trace, request)
      ensures old(store.events) <= store.events
    {
      hide ValidIn;
      var appends: nat :| 0 <= appends;
      for i := 0 to appends
        invariant ValidIn(phase) && Adds(old(trace), trace, request)
        invariant old(store.events) <= store.events
      {
        var event: MemoryEvent := *;
        var ok := AppendEvent(event, phase, request);
      }
    }

    /** The steps of a run before its transaction: load the cursor, then the events after it. */
    method LoadForRun(request: Request) returns (ok: bool, events: seq<MemoryEvent>, ghost ready: Phase)
      requires Valid()
      modifies this`trace, store`events
      ensures Adds(old(trace), trace, request) && old(store.events) <= store.events
      ensures ok ==> ValidIn(ready) && ready.EventsLoaded? && ready.request == request && ready.events == events
      ensures ok ==> events == LoadEvents(store.History(), request, StartCursor(store.cursors, request))
      ensures !ok ==> Valid()
    {
      hide store.Valid, LoadEvents, CursorToInt, ToText, Next, Reaches, Recorded;
      var startCursor := "";
      ok, events, ready := true, [], Idle;
      if !request.forceReprocess {
        ok, startCursor := store.LoadConsolidationCursor(request.agentId, request.sessionId);
        if !ok {
          return;
        }
      }
      CursorStep(StateIn(Idle), request);
      ghost var loading := CursorLoaded(request, startCursor);
      Record(StateIn(Idle), loading);
      OtherThreads(loading, request);
      ok, events := store.LoadEventsAfterCursor(request, startCursor);
      if ok {
        LoadStep(StateIn(loading));
        ready := EventsLoaded(request, startCursor, events);
      } else {
        AbandonStep(StateIn(loading));
      }
      Record(StateIn(loading), ready);
    }

    /** One consolidation run, with appends from other threads between its steps. Whatever it does
        is a sequence of protocol steps for its own request. A run that fails changes nothing; a
        successful one consolidates what it saw, the first `seen` events. */
    method ConsolidateWithModel(request: Request, model: Option<Processor>)
      returns (result: Option<ConsolidationResult>, ghost seen: nat)
      requires Valid()
      modifies this, store
      ensures Valid() && Adds(old(trace), trace, request)
      ensures old(store.events) <= store.events && store.payloads == old(store.payloads)
      ensures result.None? || !result.value.succeeded ==>
           store.cursors == old(store.cursors) && store.LongTerm() == old(store.LongTerm()) && log == old(log)
      ensures result.Some? && result.value.succeeded ==> |old(store.events)| <= seen <= |store.events|
      ensures result.Some? && result.value.succeeded ==>
        var loaded := LoadEvents(store.History()[..seen], request, StartCursor(old(store.cursors), request));
        var build := BuildSpec(request, loaded);
        && store.cursors == service.CursorsAfter(old(store.cursors), request, build)
        && store.LongTerm() == service.TablesAfter(old(store.LongTerm()), request, build, model)
        && service.Accounted(result.value, request, loaded, model)
        && log == LogAfter(old(log), request, build)
      ensures result.Some? && result.value.succeeded && store.events == old(store.events) ==>
           StateIn(Idle) == Run(old(StateIn(Idle)), request)
    {
      hide ValidIn, LoadEvents, BuildSpec, StartCursor, Run, LogAfter, service.CursorsAfter, service.TablesAfter,
        service.Accounted;
      ghost var before := StateIn(Idle);
      ghost var ready;
      var ok, events;
      ok, events, ready := LoadForRun(request);
      seen := |store.events|;
      if !ok {
        return None, seen;
      }
      ghost var rows := store.events;
      OtherThreads(ready, request);
      var outcome := Finish(request, events, model, ready);
      HistoryPrefix(rows, store.events);
      result := Some(outcome);
      if outcome.succeeded && store.events == old(store.events) {
        assert store.History()[..seen] == store.History();
        CompletedIsRun(before, StateIn(Idle), service, request, BuildSpec(request, events));
      }
    }

    /** Notes the protocol state the runtime is now in. */
    ghost method Record(s: State, phase: Phase)
      requires Reaches(trace, s) && Next(s, StateIn(phase))
      modifies `trace
      ensures trace == old(trace) + [StateIn(phase)] && Reaches(trace, StateIn(phase))
    {
      hide Next, Reaches;
      ReachesOneMore(trace, s, StateIn(phase));
      trace := trace + [StateIn(phase)];
    }

    /** The service call that ends a run: the protocol's commit, or its abandonment. */
    method Finish(request: Request, events: seq<MemoryEvent>, model: Option<Processor>, ghost phase: Phase)
      returns (outcome: ConsolidationResult)
      requires ValidIn(phase) && phase.EventsLoaded? && phase.request == request && phase.events == events
      modifies this, store
      ensures Valid() && Adds(old(trace), trace, request)
      ensures store.events == old(store.events) && store.payloads == old(store.payloads)
      ensures !outcome.succeeded ==>
           store.cursors == old(store.cursors) && store.LongTerm() == old(store.LongTerm()) && log == old(log)
      ensures outcome.succeeded ==>
        var build := BuildSpec(request, events);
        && store.cursors == service.CursorsAfter(old(store.cursors), request, build)
        && store.LongTerm() == service.TablesAfter(old(store.LongTerm()), request, build, model)
        && service.Accounted(outcome, request, events, model)
        && log == LogAfter(old(log), request, build)
    {
      hide store.Valid, BuildSpec, CursorToInt, Next, Reaches, Recorded;
      ghost var s := StateIn(phase);
      outcome := service.Consolidate(request, events, model);
      ghost var build := BuildSpec(request, events);
      if outcome.succeeded {
        FinishRecords(service, old(store.LongTerm()), log, request, events, model);
        log := LogAfter(log, request, build);
        CommitStep(s, StateIn(Idle), build);
      } else {
        AbandonStep(s);
      }
      Record(s, Idle);
    }
  }

  /** The runtime delivers exactly once and in order, for every scope whose runs were not forced
      and shared one exclusion set, whatever else was running; and the session rows in its tables
      join to the transcript of exactly the wanted events at or below the stored cursor. */
  lemma RuntimeDeliversExactlyOnce(runtime: BuiltinMemoryRuntime, ref: Request)
    requires runtime.Valid()
    requires forall k :: 0 <= k < |runtime.trace| ==>
      FixedFilter(runtime.trace[k], ref) && NotForced(runtime.trace[k], ref)
    ensures var due := Stretch(ref, 0, CursorOf(runtime.store.cursors, ScopeOf(ref)), runtime.store.History());
      && Delivered(runtime.log, ScopeOf(ref)) == due
      && Join(SessionTexts(runtime.store.summaries, ScopeOf(ref))) == Transcript(due)
  {
    hide MemorySqliteStore.Valid, MemorySqliteStore.History, CursorToInt, SessionTexts, Transcripts, Join, Transcript,
      Stretch, Delivered;
    ExactlyOnce(runtime.trace, ref, |runtime.trace| - 1);
    RecordJoins(runtime.log, ScopeOf(ref));
  }

  /** Forced runs included, every wanted event at or below the stored cursor is in a batch whose
      transcript the tables hold. */
  lemma RuntimeLosesNothing(runtime: BuiltinMemoryRuntime, ref: Request, e: MemoryEvent)
    requires runtime.Valid()
    requires forall k :: 0 <= k < |runtime.trace| ==> FixedFilter(runtime.trace[k], ref)
    requires e in runtime.store.History() && Wanted(ref, e)
    requires EventId(e) <= CursorOf(runtime.store.cursors, ScopeOf(ref))
    ensures exists c :: c in runtime.log && e in c.batch &&
                        Transcript(c.batch) in SessionTexts(runtime.store.summaries, ScopeOf(ref))
  {
    var last := |runtime.trace| - 1;
    NoLoss(runtime.trace, ref, last);
    TraceConsistent(runtime.trace, last);
    hide MemorySqliteStore.Valid, MemorySqliteStore.History, EventId, Stretch, SessionTexts, Transcripts, Transcript,
      ToText, ValidLog;
    StretchMember(ref, 0, CursorOf(runtime.store.cursors, ScopeOf(ref)), runtime.store.History(), e);
    MemberBounds(runtime.store.History(), e);
    DeliveredIsRecorded(runtime.log, ScopeOf(ref), e);
  }
}
