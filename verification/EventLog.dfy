/** The event table as a log ordered by id, and the store's cursor-bounded read of it. */
module EventLog {
  import opened Sequences
  import opened CursorText
  import opened Records
  import opened BatchBuilder

  function EventId(event: MemoryEvent): int {
    CursorToInt(event.storeCursor)
  }

  predicate HasCursor(event: MemoryEvent) {
    1 <= EventId(event) && event.storeCursor == ToText(EventId(event))
  }

  /** Rows as read back from the table: ids positive, strictly increasing and printed as cursors. */
  ghost predicate ValidLog(history: seq<MemoryEvent>) {
    && Increasing(EventId, history)
    && forall i :: 0 <= i < |history| ==> HasCursor(history[i])
  }

  function LastId(history: seq<MemoryEvent>): int {
    if history == [] then 0 else EventId(history[|history| - 1])
  }

  /** The WHERE clause of `LoadEventsAfterCursor`: the exclusion list is only part of the
      agent-level query. */
  predicate Selected(request: MemoryConsolidationRequest, after: int, event: MemoryEvent) {
    && after < EventId(event)
    && event.agentId == request.agentId
    && if request.sessionId != "" then event.sessionId == request.sessionId
       else event.sessionId !in request.excludedSessionIds
  }

  function SelectedAfter(request: MemoryConsolidationRequest, after: int): MemoryEvent -> bool {
    event => Selected(request, after, event)
  }

  function SelectAfter(request: MemoryConsolidationRequest, after: int, history: seq<MemoryEvent>): seq<MemoryEvent> {
    Filter(SelectedAfter(request, after), history)
  }

  function LoadEvents(history: seq<MemoryEvent>, request: MemoryConsolidationRequest,
                      cursor: string): seq<MemoryEvent> {
    SelectAfter(request, CursorToInt(cursor), history)
  }

  /** What a request is meant to deliver, before any cursor or limit. */
  predicate Wanted(request: MemoryConsolidationRequest, event: MemoryEvent) {
    event.agentId == request.agentId && Eligible(request, event)
  }

  predicate InStretch(request: MemoryConsolidationRequest, after: int, upTo: int, event: MemoryEvent) {
    Wanted(request, event) && after < EventId(event) <= upTo
  }

  function WantedBetween(request: MemoryConsolidationRequest, after: int, upTo: int): MemoryEvent -> bool {
    event => InStretch(request, after, upTo, event)
  }

  /** The wanted events of a log with ids above one cursor and up to another. */
  function Stretch(request: MemoryConsolidationRequest, after: int, upTo: int,
                   history: seq<MemoryEvent>): seq<MemoryEvent> {
    Filter(WantedBetween(request, after, upTo), history)
  }

  // ----- Stretches -----

  lemma StretchMember(request: MemoryConsolidationRequest, after: int, upTo: int, history: seq<MemoryEvent>,
                      e: MemoryEvent)
    ensures e in Stretch(request, after, upTo, history) <==> e in history && InStretch(request, after, upTo, e)
  {
    hide InStretch;
    FilterMember(WantedBetween(request, after, upTo), history, e);
  }

  /** Two stretches of a log are the same precisely when the same events belong to them. */
  lemma SameStretchIff(r: MemoryConsolidationRequest, a: int, u: int, q: MemoryConsolidationRequest, b: int, v: int,
                       history: seq<MemoryEvent>)
    ensures Stretch(r, a, u, history) == Stretch(q, b, v, history) <==>
      forall e :: e in history ==> (InStretch(r, a, u, e) <==> InStretch(q, b, v, e))
  {
    hide InStretch;
    if forall e :: e in history ==> (InStretch(r, a, u, e) <==> InStretch(q, b, v, e)) {
      FilterAgree(WantedBetween(r, a, u), WantedBetween(q, b, v), history);
    } else {
      var e :| e in history && !(InStretch(r, a, u, e) <==> InStretch(q, b, v, e));
      StretchMember(r, a, u, history, e);
      StretchMember(q, b, v, history, e);
    }
  }

  lemma StretchEmptyIff(request: MemoryConsolidationRequest, after: int, upTo: int, history: seq<MemoryEvent>)
    ensures Stretch(request, after, upTo, history) == [] <==>
      forall e :: e in history ==> !InStretch(request, after, upTo, e)
  {
    hide InStretch;
    if forall e :: e in history ==> !InStretch(request, after, upTo, e) {
      FilterNone(WantedBetween(request, after, upTo), history);
    } else {
      var e :| e in history && InStretch(request, after, upTo, e);
      StretchMember(request, after, upTo, history, e);
    }
  }

  lemma NoStretch(request: MemoryConsolidationRequest, after: int, upTo: int, history: seq<MemoryEvent>)
    requires upTo <= after
    ensures Stretch(request, after, upTo, history) == []
  {
    StretchEmptyIff(request, after, upTo, history);
    hide Stretch, EventId, Wanted;
  }

  lemma StretchSplit(request: MemoryConsolidationRequest, after: int, mid: int, upTo: int, history: seq<MemoryEvent>)
    requires ValidLog(history) && after <= mid <= upTo
    ensures Stretch(request, after, upTo, history)
         == Stretch(request, after, mid, history) + Stretch(request, mid, upTo, history)
  {
    hide EventId, Wanted, Filter;
    FilterCut(EventId, mid, WantedBetween(request, after, upTo), WantedBetween(request, after, mid),
              WantedBetween(request, mid, upTo), history);
  }

  lemma StretchConcat(request: MemoryConsolidationRequest, after: int, upTo: int, a: seq<MemoryEvent>,
                      b: seq<MemoryEvent>)
    ensures Stretch(request, after, upTo, a + b) == Stretch(request, after, upTo, a) + Stretch(request, after, upTo, b)
  {
    FilterConcat(WantedBetween(request, after, upTo), a, b);
  }

  lemma StretchIncreasing(request: MemoryConsolidationRequest, after: int, upTo: int, history: seq<MemoryEvent>)
    requires ValidLog(history)
    ensures Increasing(EventId, Stretch(request, after, upTo, history))
  {
    hide EventId;
    FilterIncreasing(EventId, WantedBetween(request, after, upTo), history);
  }

  lemma PickedIncreasing(request: MemoryConsolidationRequest, events: seq<MemoryEvent>)
    requires ValidLog(events)
    ensures Increasing(EventId, Picked(request, events))
  {
    hide EventId;
    FilterIncreasing(EventId, EligibleFor(request), events);
  }

  // ----- Logs -----

  lemma ValidPrefix(history: seq<MemoryEvent>, n: nat)
    requires ValidLog(history) && n <= |history|
    ensures ValidLog(history[..n])
  {
    hide EventId;
  }

  lemma LastIdBounds(history: seq<MemoryEvent>)
    requires ValidLog(history)
    ensures 0 <= LastId(history)
    ensures forall i :: 0 <= i < |history| ==> EventId(history[i]) <= LastId(history)
  {
    hide EventId;
  }

  lemma MemberBounds(history: seq<MemoryEvent>, e: MemoryEvent)
    requires ValidLog(history) && e in history
    ensures 1 <= EventId(e) <= LastId(history) && e.storeCursor == ToText(EventId(e))
  {
    LastIdBounds(history);
    hide EventId, LastId;
  }

  lemma SelectedMember(request: MemoryConsolidationRequest, after: int, history: seq<MemoryEvent>, e: MemoryEvent)
    ensures e in SelectAfter(request, after, history) <==> e in history && Selected(request, after, e)
  {
    hide Selected;
    FilterMember(SelectedAfter(request, after), history, e);
  }

  lemma SelectedIsLog(request: MemoryConsolidationRequest, after: int, history: seq<MemoryEvent>)
    requires ValidLog(history)
    ensures ValidLog(SelectAfter(request, after, history))
  {
    hide EventId, Selected;
    FilterIncreasing(EventId, SelectedAfter(request, after), history);
    var loaded := SelectAfter(request, after, history);
    forall i | 0 <= i < |loaded| ensures HasCursor(loaded[i]) {
      SelectedMember(request, after, history, loaded[i]);
      MemberBounds(history, loaded[i]);
    }
  }

  /** Which events a load returns: the agent's, beyond the cursor, of the session if one is given and
      else of every session that is not excluded. */
  lemma LoadedIff(history: seq<MemoryEvent>, request: MemoryConsolidationRequest, cursor: string, e: MemoryEvent)
    ensures e in LoadEvents(history, request, cursor) <==>
      && e in history && CursorToInt(cursor) < CursorToInt(e.storeCursor) && e.agentId == request.agentId
      && (request.sessionId != "" ==> e.sessionId == request.sessionId)
      && (request.sessionId == "" ==> e.sessionId !in request.excludedSessionIds)
  {
    SelectedMember(request, CursorToInt(cursor), history, e);
    hide SelectAfter;
  }

  /** A load keeps the order of the log. */
  lemma LoadedFacts(history: seq<MemoryEvent>, request: MemoryConsolidationRequest, cursor: string)
    requires ValidLog(history)
    ensures var loaded := LoadEvents(history, request, cursor);
      && ValidLog(loaded)
      && forall i :: 0 <= i < |loaded| ==>
           && loaded[i] in history
           && Selected(request, CursorToInt(cursor), loaded[i])
           && EventId(loaded[i]) <= LastId(history)
  {
    hide EventId, Selected, LastId, SelectAfter, ValidLog;
    var loaded := LoadEvents(history, request, cursor);
    SelectedIsLog(request, CursorToInt(cursor), history);
    forall i | 0 <= i < |loaded|
      ensures loaded[i] in history && Selected(request, CursorToInt(cursor), loaded[i])
           && EventId(loaded[i]) <= LastId(history)
    {
      SelectedMember(request, CursorToInt(cursor), history, loaded[i]);
      MemberBounds(history, loaded[i]);
    }
  }

  /** Nothing is selected or wanted from beyond the last event selected before. */
  lemma NothingBeyond(request: MemoryConsolidationRequest, after: int, later: int, upTo: int,
                      history: seq<MemoryEvent>)
    requires ValidLog(history) && after <= later && LastId(SelectAfter(request, after, history)) <= later
    ensures SelectAfter(request, later, history) == [] && Stretch(request, later, upTo, history) == []
  {
    SelectedIsLog(request, after, history);
    WantedIsSelected(request, later);
    StretchEmptyIff(request, later, upTo, history);
    hide EventId, LastId, SelectAfter, Stretch, ValidLog, Wanted;
    forall e | e in history ensures !Selected(request, later, e) {
      SelectedMember(request, after, history, e);
      if Selected(request, after, e) {
        MemberBounds(SelectAfter(request, after, history), e);
      }
    }
    if SelectAfter(request, later, history) != [] {
      SelectedMember(request, later, history, SelectAfter(request, later, history)[0]);
    }
  }

  lemma WantedIsSelected(request: MemoryConsolidationRequest, after: int)
    ensures forall e :: Wanted(request, e) && after < EventId(e) ==> Selected(request, after, e)
  {
    hide EventId;
  }

  /** Starting after an event that was selected leaves strictly less. */
  lemma LaterSelectsLess(request: MemoryConsolidationRequest, after: int, history: seq<MemoryEvent>, e: MemoryEvent)
    requires ValidLog(history) && e in SelectAfter(request, after, history)
    ensures |SelectAfter(request, EventId(e), history)| < |SelectAfter(request, after, history)|
  {
    SelectedMember(request, after, history, e);
    hide EventId;
    var low := event => Selected(request, after, event) && EventId(event) <= EventId(e);
    FilterCut(EventId, EventId(e), SelectedAfter(request, after), low, SelectedAfter(request, EventId(e)), history);
    FilterMember(low, history, e);
  }

  function UpTo(id: int): MemoryEvent -> bool {
    event => EventId(event) <= id
  }

  /** A head of a log is what lies at or below the id of its last event. */
  lemma HeadIsUpTo(events: seq<MemoryEvent>, k: nat)
    requires ValidLog(events) && 0 < k <= |events|
    ensures Filter(UpTo(EventId(events[k - 1])), events) == events[..k]
  {
    hide EventId, Filter;
    FilterIsPrefix(UpTo(EventId(events[k - 1])), events, k);
  }

  lemma LastCursorId(events: seq<MemoryEvent>, n: nat)
    requires ValidLog(events) && n <= |events|
    ensures LastCursor(events, n) == if n == 0 then "" else events[n - 1].storeCursor
    ensures n > 0 ==>
      && LastCursor(events, n) == ToText(EventId(events[n - 1]))
      && CursorToInt(LastCursor(events, n)) == EventId(events[n - 1])
  {
    hide CursorToInt, ToText, Increasing;
  }

  /** What a build reads is the loaded stretch up to the cursor it reports. */
  lemma BuildReadsUpTo(request: MemoryConsolidationRequest, loaded: seq<MemoryEvent>)
    requires ValidLog(loaded)
    requires BuildSpec(request, loaded).nextCursor != ""
    ensures var build := BuildSpec(request, loaded);
      var upTo := CursorToInt(build.nextCursor);
      && (exists i :: 0 <= i < |loaded| && upTo == EventId(loaded[i]))
      && build.nextCursor == ToText(upTo)
      && build.batch.events == Picked(request, Filter(UpTo(upTo), loaded))
  {
    assert !Skipped(request);
    hide Skipped, BuildSpec, ReadCount, EffectiveLimit, Picked, CursorToInt, ToText, ValidLog, LastCursor;
    BuildParts(request, loaded);
    var k := ReadCount(request, loaded, EffectiveLimit(request, loaded));
    LastCursorId(loaded, k);
    HeadIsUpTo(loaded, k);
  }

  lemma LaterIds(history: seq<MemoryEvent>, n: nat)
    requires ValidLog(history) && n <= |history|
    ensures LastId(history[..n]) <= LastId(history)
    ensures forall e :: e in history[n..] ==> LastId(history[..n]) < EventId(e)
  {
    hide EventId;
    if n > 0 {
      assert history[..n][n - 1] == history[n - 1];
    }
  }

  lemma TailHasNone(history: seq<MemoryEvent>, n: nat, request: MemoryConsolidationRequest, after: int, upTo: int)
    requires ValidLog(history) && n <= |history| && upTo <= LastId(history[..n])
    ensures Stretch(request, after, upTo, history[n..]) == []
  {
    LaterIds(history, n);
    StretchEmptyIff(request, after, upTo, history[n..]);
    hide EventId, LastId, ValidLog, Stretch, Wanted;
  }

  /** Rows appended after a load lie beyond any cursor taken from the load. */
  lemma StretchIgnoresAppends(history: seq<MemoryEvent>, n: nat, request: MemoryConsolidationRequest, after: int,
                              upTo: int)
    requires ValidLog(history) && n <= |history|
    requires upTo <= LastId(history[..n])
    ensures Stretch(request, after, upTo, history) == Stretch(request, after, upTo, history[..n])
    ensures upTo <= LastId(history)
  {
    LaterIds(history, n);
    TailHasNone(history, n, request, after, upTo);
    StretchWithoutTail(request, after, upTo, history[..n], history[n..]);
    hide *;
    TakeAndDrop(history, n);
  }

  lemma StretchWithoutTail(request: MemoryConsolidationRequest, after: int, upTo: int, a: seq<MemoryEvent>,
                           b: seq<MemoryEvent>)
    requires Stretch(request, after, upTo, b) == []
    ensures Stretch(request, after, upTo, a + b) == Stretch(request, after, upTo, a)
  {
    StretchConcat(request, after, upTo, a, b);
    hide Stretch;
  }

  /** Three filters in a row, by query, by cursor and by the builder, select one stretch of the log. */
  lemma LoadThenBuildIsStretch(seen: seq<MemoryEvent>, request: MemoryConsolidationRequest, cursor: string, upTo: int)
    ensures Picked(request, Filter(UpTo(upTo), LoadEvents(seen, request, cursor)))
         == Stretch(request, CursorToInt(cursor), upTo, seen)
  {
    hide CursorToInt, Filter;
    var after := CursorToInt(cursor);
    var bounded := event => Selected(request, after, event) && EventId(event) <= upTo;
    FilterTwice(SelectedAfter(request, after), UpTo(upTo), bounded, seen);
    FilterTwice(bounded, EligibleFor(request), WantedBetween(request, after, upTo), seen);
  }

  /** The batch built from a load is exactly the wanted stretch of the whole log between the
      start cursor and the cursor about to be saved, even if the log has grown since the load. */
  lemma BatchIsStretch(history: seq<MemoryEvent>, n: nat, request: MemoryConsolidationRequest, cursor: string)
    requires ValidLog(history) && n <= |history|
    requires BuildSpec(request, LoadEvents(history[..n], request, cursor)).nextCursor != ""
    ensures var build := BuildSpec(request, LoadEvents(history[..n], request, cursor));
      var after, upTo := CursorToInt(cursor), CursorToInt(build.nextCursor);
      && after < upTo <= LastId(history)
      && build.nextCursor == ToText(upTo)
      && build.batch.events == Stretch(request, after, upTo, history)
  {
    hide BuildSpec, LoadEvents, CursorToInt, ToText, ValidLog, LastId, Stretch, Picked;
    ValidPrefix(history, n);
    var loaded := LoadEvents(history[..n], request, cursor);
    LoadedFacts(history[..n], request, cursor);
    BuildReadsUpTo(request, loaded);
    var build := BuildSpec(request, loaded);
    var after, upTo := CursorToInt(cursor), CursorToInt(build.nextCursor);
    LoadThenBuildIsStretch(history[..n], request, cursor, upTo);
    StretchIgnoresAppends(history, n, request, after, upTo);
  }
}
