/** The exclusion list is applied twice: by the store's query and again by the batch builder. */
module FilterLayers {
  import opened Sequences
  import opened CursorText
  import opened Records
  import opened BatchBuilder
  import opened EventLog

  function NotExcluded(request: MemoryConsolidationRequest): MemoryEvent -> bool {
    (event: MemoryEvent) => event.sessionId !in request.excludedSessionIds
  }

  function Prefiltered(request: MemoryConsolidationRequest, events: seq<MemoryEvent>): seq<MemoryEvent> {
    Filter(NotExcluded(request), events)
  }

  ghost predicate FromStore(events: seq<MemoryEvent>) {
    forall i :: 0 <= i < |events| ==> events[i].storeCursor != ""
  }

  lemma PickedPrefiltered(request: MemoryConsolidationRequest, events: seq<MemoryEvent>)
    ensures Picked(request, Prefiltered(request, events)) == Picked(request, events)
  {
    FilterTwice(NotExcluded(request), EligibleFor(request), EligibleFor(request), events);
  }

  lemma KeptSplit(request: MemoryConsolidationRequest, events: seq<MemoryEvent>, n: nat)
    requires n <= |events|
    ensures var kept, front := Prefiltered(request, events), Prefiltered(request, events[..n]);
      |front| <= |kept| && kept[..|front|] == front && (n == |events| ==> kept == front)
  {
    hide Filter;
    assert n == |events| ==> events[..n] == events;
    TakeAndDrop(events, n);
    FilterConcat(NotExcluded(request), events[..n], events[n..]);
  }

  lemma LastIsKept(request: MemoryConsolidationRequest, events: seq<MemoryEvent>, n: nat)
    requires 0 < n <= |events| && Eligible(request, events[n - 1])
    ensures var front := Prefiltered(request, events[..n]); front != [] && front[|front| - 1] == events[n - 1]
  {
    FilterOneMore(NotExcluded(request), events, n - 1);
    hide Filter;
  }

  /** A build reads the same part of the log whether or not excluded rows were dropped before. */
  lemma ReadsSamePart(request: MemoryConsolidationRequest, events: seq<MemoryEvent>, limit: int)
    ensures var n, kept := ReadCount(request, events, limit), Prefiltered(request, events);
      var m := ReadCount(request, kept, limit);
      kept[..m] == Prefiltered(request, events[..n])
  {
    var n, kept := ReadCount(request, events, limit), Prefiltered(request, events);
    ReadsExactlyPrefix(request, events, limit, n);
    KeptSplit(request, events, n);
    hide Prefiltered, ReadsExactly;
    ReadCountUnique(request, kept, limit, |Prefiltered(request, events[..n])|, ReadCount(request, kept, limit));
  }

  /** The prefiltered prefix satisfies the stopping rule of the prefiltered list. */
  lemma ReadsExactlyPrefix(request: MemoryConsolidationRequest, events: seq<MemoryEvent>, limit: int, n: nat)
    requires ReadsExactly(request, events, limit, n)
    ensures ReadsExactly(request, Prefiltered(request, events), limit, |Prefiltered(request, events[..n])|)
  {
    KeptSplit(request, events, n);
    PickedPrefiltered(request, events[..n]);
    if 0 < n && Eligible(request, events[n - 1]) {
      LastIsKept(request, events, n);
    }
    hide Prefiltered, Picked, Eligible;
  }

  lemma {:induction false} RefsFromStore(request: MemoryConsolidationRequest, a: seq<MemoryEvent>, m: nat,
                                         b: seq<MemoryEvent>, n: nat)
    requires m <= |a| && n <= |b| && FromStore(a) && FromStore(b)
    requires Picked(request, a[..m]) == Picked(request, b[..n])
    ensures SourceRefs(request, a, m) == SourceRefs(request, b, n)
    decreases m + n
  {
    hide Eligible, Picked;
    if m > 0 {
      PickedOneMore(request, a, m - 1);
    }
    if n > 0 {
      PickedOneMore(request, b, n - 1);
    }
    if m > 0 && !Eligible(request, a[m - 1]) {
      RefsFromStore(request, a, m - 1, b, n);
    } else if n > 0 && !Eligible(request, b[n - 1]) {
      RefsFromStore(request, a, m, b, n - 1);
    } else if m > 0 && n > 0 {
      LastsAgree(Picked(request, a[..m - 1]), a[m - 1], Picked(request, b[..n - 1]), b[n - 1]);
      RefsFromStore(request, a, m - 1, b, n - 1);
    } else {
      PickedSplit(request, a, 0);
      PickedSplit(request, b, 0);
      assert a[..0] == [] && b[..0] == [];
    }
  }

  lemma LastsAgree<T>(a: seq<T>, x: T, b: seq<T>, y: T)
    requires a + [x] == b + [y]
    ensures a == b && x == y
  {
    assert (a + [x])[..|a|] == a && (b + [y])[..|b|] == b;
    assert (a + [x])[|a|] == x && (b + [y])[|b|] == y;
  }

  /** Only a forced request without a limit looks at the size of its list, cast to 32 bits. */
  predicate SizeFits(request: MemoryConsolidationRequest, events: seq<MemoryEvent>) {
    request.forceReprocess && request.maxEvents <= 0 ==> |events| < 0x8000_0000
  }

  /** Both layers give the same batch precisely when they let through equally many eligible events.
      Then references and transcript agree too, and no eligible event lies between the two cursors.
      The prefiltered build reports no larger a cursor precisely when `NotAhead`. Both conditions hold
      unless the size of a list wraps. */
  lemma LayersAgree(request: MemoryConsolidationRequest, events: seq<MemoryEvent>)
    requires ValidLog(events)
    ensures var full, kept := BuildSpec(request, events), BuildSpec(request, Prefiltered(request, events));
      && (kept.batch.events == full.batch.events <==> Skipped(request) || SameHead(request, events))
      && (kept.batch.events == full.batch.events ==>
           && kept.batch == full.batch
           && kept.sessionSummary == full.sessionSummary
           && (Skipped(request) || NoneBetween(request, events, kept.nextCursor, full.nextCursor)))
      && (CursorToInt(kept.nextCursor) <= CursorToInt(full.nextCursor) <==>
           Skipped(request) || events == [] || NotAhead(request, events))
    ensures SizeFits(request, events) ==> SameHead(request, events) && NotAhead(request, events)
  {
    if SizeFits(request, events) {
      SizeFitsIsEnough(request, events);
    }
    if Skipped(request) {
      SkippedBuilds(request, events);
    } else {
      BatchesAgreeIff(request, events);
      if SameHead(request, events) {
        SameBatchSameRefs(request, events);
        SameBatchNoneBetween(request, events);
      }
      CursorsOrdered(request, events);
    }
    hide *;
  }

  lemma SkippedBuilds(request: MemoryConsolidationRequest, events: seq<MemoryEvent>)
    requires Skipped(request)
    ensures BuildSpec(request, Prefiltered(request, events)) == BuildSpec(request, events)
  {
  }

  predicate SameHead(request: MemoryConsolidationRequest, events: seq<MemoryEvent>) {
    var count := |Picked(request, events)|;
    HeadSize(EffectiveLimit(request, Prefiltered(request, events)), count)
      == HeadSize(EffectiveLimit(request, events), count)
  }

  lemma BatchesAgreeIff(request: MemoryConsolidationRequest, events: seq<MemoryEvent>)
    requires !Skipped(request)
    ensures BuildSpec(request, Prefiltered(request, events)).batch.events == BuildSpec(request, events).batch.events
       <==> SameHead(request, events)
  {
    BatchIsHead(request, events);
    BatchIsHead(request, Prefiltered(request, events));
    PickedPrefiltered(request, events);
    hide BuildSpec, Picked, Prefiltered, EffectiveLimit;
    var picked := Picked(request, events);
    var a, b := HeadSize(EffectiveLimit(request, Prefiltered(request, events)), |picked|),
                HeadSize(EffectiveLimit(request, events), |picked|);
    assert |picked[..a]| == a && |picked[..b]| == b;
  }

  /** Lists of 2^32 + 2 and 2^32 + 1 events: the cast leaves limits of two and one. */
  lemma WrappedSizesDisagree(event: MemoryEvent)
    requires event.kind.MessageAppended? && event.sessionId != "b"
    ensures var request := MemoryConsolidationRequest(event.agentId, "", 0, true, ["b"]);
      !SameHead(request, [event.(sessionId := "b")] + seq(0x1_0000_0001, _ => event))
  {
    var request := MemoryConsolidationRequest(event.agentId, "", 0, true, ["b"]);
    var excluded, rest := [event.(sessionId := "b")], seq(0x1_0000_0001, _ => event);
    FilterConcat(NotExcluded(request), excluded, rest);
    FilterNone(NotExcluded(request), excluded);
    FilterAll(NotExcluded(request), rest);
    assert Prefiltered(request, excluded + rest) == rest;
    PickedPrefiltered(request, excluded + rest);
    AllArePicked(request, rest);
    hide Picked, Prefiltered;
    assert EffectiveLimit(request, rest) == 1;
    assert EffectiveLimit(request, excluded + rest) == 2;
  }

  // ----- Where a build ends -----

  /** The limit is reached among `count` eligible events. */
  predicate Reached(limit: int, count: int) {
    0 < limit <= count
  }

  /** The event a build ends on: the one that fills the limit, else the last one. */
  function EndEvent(request: MemoryConsolidationRequest, events: seq<MemoryEvent>): MemoryEvent
    requires events != []
  {
    var limit, picked := EffectiveLimit(request, events), Picked(request, events);
    if Reached(limit, |picked|) then picked[limit - 1] else events[|events| - 1]
  }

  function EndId(request: MemoryConsolidationRequest, events: seq<MemoryEvent>): int {
    if events == [] then 0 else EventId(EndEvent(request, events))
  }

  lemma EligibleLast(request: MemoryConsolidationRequest, events: seq<MemoryEvent>, n: nat)
    requires 0 < n <= |events| && Eligible(request, events[n - 1])
    ensures var front := Picked(request, events[..n]); front != [] && front[|front| - 1] == events[n - 1]
  {
    hide Picked, Eligible;
    PickedOneMore(request, events, n - 1);
  }

  /** A build that reads `n` events ends on the last of them. */
  lemma EndsAt(request: MemoryConsolidationRequest, events: seq<MemoryEvent>, n: nat)
    requires events != [] && ReadsExactly(request, events, EffectiveLimit(request, events), n)
    ensures 0 < n && events[n - 1] == EndEvent(request, events)
  {
    PickedSplit(request, events, n);
    hide EffectiveLimit, Picked, Eligible;
    if n > 0 && |Picked(request, events[..n])| > 0 && Eligible(request, events[n - 1]) {
      EligibleLast(request, events, n);
    }
  }

  lemma CursorIs(request: MemoryConsolidationRequest, events: seq<MemoryEvent>)
    requires ValidLog(events) && !Skipped(request)
    ensures CursorToInt(BuildSpec(request, events).nextCursor) == EndId(request, events)
    ensures BuildSpec(request, events).nextCursor == "" <==> events == []
    ensures events != [] ==> BuildSpec(request, events).nextCursor == ToText(EndId(request, events))
  {
    assert CursorToInt("") == 0;
    BuildParts(request, events);
    var n := ReadCount(request, events, EffectiveLimit(request, events));
    hide BuildSpec, EffectiveLimit, ReadCount, EndEvent, EventId, ValidLog, LastCursor, CursorToInt, ToText;
    LastCursorId(events, n);
    if events != [] {
      EndsAt(request, events, n);
    }
  }

  lemma PickedAt(request: MemoryConsolidationRequest, events: seq<MemoryEvent>, i: nat)
    requires ValidLog(events) && i < |Picked(request, events)|
    ensures 1 <= EventId(Picked(request, events)[i]) <= LastId(events)
  {
    hide Picked, ValidLog, EventId, LastId, Eligible;
    PickedMember(request, events, Picked(request, events)[i]);
    MemberBounds(events, Picked(request, events)[i]);
  }

  lemma PickedOrder(request: MemoryConsolidationRequest, events: seq<MemoryEvent>, i: nat, j: nat)
    requires ValidLog(events) && i < |Picked(request, events)| && j < |Picked(request, events)|
    ensures EventId(Picked(request, events)[i]) <= EventId(Picked(request, events)[j]) <==> i <= j
  {
    PickedIncreasing(request, events);
    hide Picked, ValidLog, EventId;
  }

  /** Filling the limit takes the last event of a list precisely when that is the last eligible one. */
  lemma FillsAtEnd(request: MemoryConsolidationRequest, events: seq<MemoryEvent>, limit: int)
    requires ValidLog(events) && events != [] && Reached(limit, |Picked(request, events)|)
    ensures var picked, last := Picked(request, events), events[|events| - 1];
      && EventId(picked[limit - 1]) <= LastId(events)
      && (EventId(picked[limit - 1]) == LastId(events) <==> limit == |picked| && Eligible(request, last))
  {
    PickedAt(request, events, limit - 1);
    if EventId(Picked(request, events)[limit - 1]) == LastId(events) {
      FilledByLast(request, events, limit);
    }
    hide Picked, ValidLog, EventId, Eligible;
    if Eligible(request, events[|events| - 1]) {
      LastIsPicked(request, events);
    }
  }

  lemma FilledByLast(request: MemoryConsolidationRequest, events: seq<MemoryEvent>, limit: int)
    requires ValidLog(events) && events != [] && Reached(limit, |Picked(request, events)|)
    requires EventId(Picked(request, events)[limit - 1]) == LastId(events)
    ensures limit == |Picked(request, events)| && Eligible(request, events[|events| - 1])
  {
    hide Picked, ValidLog, Eligible, CursorToInt;
    var picked, last := Picked(request, events), events[|events| - 1];
    PickedAt(request, events, |picked| - 1);
    PickedOrder(request, events, |picked| - 1, limit - 1);
    PickedMember(request, events, picked[limit - 1]);
    LogIdsDiffer(events, picked[limit - 1], last);
  }

  lemma LastIsPicked(request: MemoryConsolidationRequest, events: seq<MemoryEvent>)
    requires events != [] && Eligible(request, events[|events| - 1])
    ensures var picked := Picked(request, events); picked != [] && picked[|picked| - 1] == events[|events| - 1]
  {
    EligibleLast(request, events, |events|);
    PickedSplit(request, events, |events|);
    hide Picked, Eligible;
  }

  lemma LogIdsDiffer(events: seq<MemoryEvent>, x: MemoryEvent, y: MemoryEvent)
    requires ValidLog(events) && x in events && y in events
    ensures EventId(x) == EventId(y) ==> x == y
  {
    hide EventId;
    var i :| 0 <= i < |events| && events[i] == x;
    var j :| 0 <= j < |events| && events[j] == y;
  }

  lemma KeptMember(request: MemoryConsolidationRequest, events: seq<MemoryEvent>, e: MemoryEvent)
    ensures e in Prefiltered(request, events) <==> e in events && e.sessionId !in request.excludedSessionIds
  {
    FilterMember(NotExcluded(request), events, e);
  }

  lemma KeptIsLog(request: MemoryConsolidationRequest, events: seq<MemoryEvent>)
    requires ValidLog(events)
    ensures ValidLog(Prefiltered(request, events))
  {
    hide EventId;
    FilterIncreasing(EventId, NotExcluded(request), events);
    var kept := Prefiltered(request, events);
    forall i | 0 <= i < |kept| ensures HasCursor(kept[i]) {
      KeptMember(request, events, kept[i]);
      MemberBounds(events, kept[i]);
    }
  }

  /** The last event of a list is the last one kept exactly if it is not excluded. */
  lemma LastIsKeptIff(request: MemoryConsolidationRequest, events: seq<MemoryEvent>)
    requires ValidLog(events) && Prefiltered(request, events) != []
    ensures events != []
    ensures var kept := Prefiltered(request, events);
      && LastId(kept) <= LastId(events)
      && (LastId(kept) == LastId(events) <==> events[|events| - 1].sessionId !in request.excludedSessionIds)
  {
    var kept := Prefiltered(request, events);
    KeptMember(request, events, kept[|kept| - 1]);
    var last := events[|events| - 1];
    KeptMember(request, events, last);
    KeptIsLog(request, events);
    hide ValidLog, EventId, Prefiltered;
    MemberBounds(events, kept[|kept| - 1]);
    LogIdsDiffer(events, kept[|kept| - 1], last);
    if last in kept {
      MemberBounds(kept, last);
    }
  }

  lemma EndIdIs(request: MemoryConsolidationRequest, events: seq<MemoryEvent>)
    requires events != []
    ensures var limit, picked := EffectiveLimit(request, events), Picked(request, events);
      EndId(request, events) == if Reached(limit, |picked|) then EventId(picked[limit - 1]) else LastId(events)
  {
    hide EffectiveLimit, Picked, EventId;
  }

  /** The head that a limit lets through is what is eligible up to the event the build ends on. */
  lemma HeadIff(request: MemoryConsolidationRequest, events: seq<MemoryEvent>, e: MemoryEvent)
    requires ValidLog(events) && e in events && Eligible(request, e)
    ensures var picked := Picked(request, events);
      e in picked[..HeadSize(EffectiveLimit(request, events), |picked|)] <==> EventId(e) <= EndId(request, events)
  {
    var limit, picked := EffectiveLimit(request, events), Picked(request, events);
    PickedMember(request, events, e);
    EndIdIs(request, events);
    MemberBounds(events, e);
    PickedIncreasing(request, events);
    HeadSizeIs(limit, |picked|);
    hide *;
    if Reached(limit, |picked|) {
      ReachedIs(limit, |picked|);
      MemberOfHead(picked, e, limit);
    } else {
      WholeHead(picked);
    }
  }

  lemma ReachedIs(limit: int, count: nat)
    ensures Reached(limit, count) <==> 0 < limit <= count
  {
  }

  lemma HeadSizeIs(limit: int, count: nat)
    ensures HeadSize(limit, count) == if Reached(limit, count) then limit else count
  {
  }

  lemma WholeHead<T>(s: seq<T>)
    ensures s[..|s|] == s
  {
  }

  lemma MemberOfHead(events: seq<MemoryEvent>, e: MemoryEvent, n: nat)
    requires Increasing(EventId, events) && e in events && 0 < n <= |events|
    ensures e in events[..n] <==> EventId(e) <= EventId(events[n - 1])
  {
    hide EventId;
    var i :| 0 <= i < |events| && events[i] == e;
    if i < n {
      assert events[..n][i] == e;
    }
  }

  // ----- References, and events between the cursors -----

  lemma LogFromStore(events: seq<MemoryEvent>)
    requires ValidLog(events)
    ensures FromStore(events)
  {
    hide EventId, ToText;
  }

  lemma SameBatchSameRefs(request: MemoryConsolidationRequest, events: seq<MemoryEvent>)
    requires ValidLog(events) && !Skipped(request) && SameHead(request, events)
    ensures var full, kept := BuildSpec(request, events), BuildSpec(request, Prefiltered(request, events));
      kept.batch == full.batch && kept.sessionSummary == full.sessionSummary
  {
    var kept := Prefiltered(request, events);
    BatchesAgreeIff(request, events);
    BuildParts(request, events);
    BuildParts(request, kept);
    KeptIsLog(request, events);
    LogFromStore(events);
    LogFromStore(kept);
    hide BuildSpec, Picked, Prefiltered, ReadCount, SourceRefs, Transcript, EffectiveLimit, ValidLog, FromStore,
      SameHead;
    RefsFromStore(request, kept, ReadCount(request, kept, EffectiveLimit(request, kept)),
                  events, ReadCount(request, events, EffectiveLimit(request, events)));
  }

  /** No eligible event lies above the first cursor and at or below the second. */
  ghost predicate NoneBetween(request: MemoryConsolidationRequest, events: seq<MemoryEvent>, after: string,
                              upTo: string) {
    forall e :: e in events && Eligible(request, e) ==> !(CursorToInt(after) < EventId(e) <= CursorToInt(upTo))
  }

  lemma SameBatchNoneBetween(request: MemoryConsolidationRequest, events: seq<MemoryEvent>)
    requires ValidLog(events) && !Skipped(request) && SameHead(request, events)
    ensures NoneBetween(request, events, BuildSpec(request, Prefiltered(request, events)).nextCursor,
                        BuildSpec(request, events).nextCursor)
  {
    var kept := Prefiltered(request, events);
    KeptIsLog(request, events);
    PickedPrefiltered(request, events);
    CursorIs(request, events);
    CursorIs(request, kept);
    hide BuildSpec, Picked, Prefiltered, EffectiveLimit, ValidLog, EndId, CursorToInt, EventId;
    forall e | e in events && Eligible(request, e)
      ensures !(EndId(request, kept) < EventId(e) <= EndId(request, events))
    {
      KeptMember(request, events, e);
      HeadIff(request, events, e);
      HeadIff(request, kept, e);
    }
  }

  // ----- Comparing the cursors -----

  /** The prefiltered build does not get past the other: not where the other fills its limit. */
  predicate NotAhead(request: MemoryConsolidationRequest, events: seq<MemoryEvent>) {
    var kept, count := Prefiltered(request, events), |Picked(request, events)|;
    var full, short := EffectiveLimit(request, events), EffectiveLimit(request, kept);
    Reached(full, count) ==>
      if Reached(short, count) then short <= full
      else full == count && kept != [] && Eligible(request, kept[|kept| - 1])
  }

  /** Both builds end on the same event: on the same eligible one when both limits are reached, on the
      last of the one list when it is the last eligible one of the other, or at the end of both. */
  predicate SameEnd(request: MemoryConsolidationRequest, events: seq<MemoryEvent>)
    requires events != []
  {
    var kept, count := Prefiltered(request, events), |Picked(request, events)|;
    var full, short := EffectiveLimit(request, events), EffectiveLimit(request, kept);
    if Reached(full, count) && Reached(short, count) then full == short
    else if Reached(full, count) then full == count && kept != [] && Eligible(request, kept[|kept| - 1])
    else if Reached(short, count) then short == count && Eligible(request, events[|events| - 1])
    else events[|events| - 1].sessionId !in request.excludedSessionIds
  }

  /** The two conditions decide how the ends of the two builds compare. */
  predicate Compared(request: MemoryConsolidationRequest, events: seq<MemoryEvent>)
    requires events != []
  {
    var kept := Prefiltered(request, events);
    && (EndId(request, kept) <= EndId(request, events) <==> NotAhead(request, events))
    && (EndId(request, kept) == EndId(request, events) <==> SameEnd(request, events))
  }

  lemma BothReached(request: MemoryConsolidationRequest, events: seq<MemoryEvent>)
    requires ValidLog(events) && Prefiltered(request, events) != [] && events != []
    requires Reached(EffectiveLimit(request, events), |Picked(request, events)|)
    requires Reached(EffectiveLimit(request, Prefiltered(request, events)), |Picked(request, events)|)
    ensures Compared(request, events)
  {
    hide Picked, Prefiltered, EffectiveLimit, Eligible, ValidLog, EventId, EndId, LastId;
    var kept := Prefiltered(request, events);
    var full, short := EffectiveLimit(request, events), EffectiveLimit(request, kept);
    PickedPrefiltered(request, events);
    EndIdIs(request, events);
    EndIdIs(request, kept);
    PickedOrder(request, events, short - 1, full - 1);
    PickedOrder(request, events, full - 1, short - 1);
  }

  lemma OnlyFullReached(request: MemoryConsolidationRequest, events: seq<MemoryEvent>)
    requires ValidLog(events) && Prefiltered(request, events) != [] && events != []
    requires Reached(EffectiveLimit(request, events), |Picked(request, events)|)
    requires !Reached(EffectiveLimit(request, Prefiltered(request, events)), |Picked(request, events)|)
    ensures Compared(request, events)
  {
    hide Picked, Prefiltered, EffectiveLimit, Eligible, ValidLog, EventId, EndId, LastId;
    var kept := Prefiltered(request, events);
    KeptIsLog(request, events);
    PickedPrefiltered(request, events);
    EndIdIs(request, events);
    EndIdIs(request, kept);
    FillsAtEnd(request, kept, EffectiveLimit(request, events));
  }

  lemma FullNotReached(request: MemoryConsolidationRequest, events: seq<MemoryEvent>)
    requires ValidLog(events) && Prefiltered(request, events) != [] && events != []
    requires !Reached(EffectiveLimit(request, events), |Picked(request, events)|)
    ensures Compared(request, events)
  {
    hide Picked, Prefiltered, EffectiveLimit, Eligible, ValidLog, EventId, EndId, LastId;
    var kept := Prefiltered(request, events);
    LastIsKeptIff(request, events);
    PickedPrefiltered(request, events);
    EndIdIs(request, events);
    EndIdIs(request, kept);
    var short := EffectiveLimit(request, kept);
    if Reached(short, |Picked(request, events)|) {
      FillsAtEnd(request, events, short);
    }
  }

  lemma EndsCompare(request: MemoryConsolidationRequest, events: seq<MemoryEvent>)
    requires ValidLog(events) && Prefiltered(request, events) != []
    ensures events != [] && Compared(request, events)
  {
    LastIsKeptIff(request, events);
    hide *;
    if !Reached(EffectiveLimit(request, events), |Picked(request, events)|) {
      FullNotReached(request, events);
    } else if Reached(EffectiveLimit(request, Prefiltered(request, events)), |Picked(request, events)|) {
      BothReached(request, events);
    } else {
      OnlyFullReached(request, events);
    }
  }

  /** When everything is excluded, the prefiltered build reads nothing. */
  lemma NothingKept(request: MemoryConsolidationRequest, events: seq<MemoryEvent>)
    requires Prefiltered(request, events) == []
    ensures NotAhead(request, events)
    ensures events != [] ==> !SameEnd(request, events)
  {
    PickedPrefiltered(request, events);
    if events != [] {
      KeptMember(request, events, events[|events| - 1]);
    }
    hide Prefiltered, EffectiveLimit, Eligible;
  }

  lemma EndIdBounds(request: MemoryConsolidationRequest, events: seq<MemoryEvent>)
    requires ValidLog(events)
    ensures 0 <= EndId(request, events)
    ensures events != [] ==> 1 <= EndId(request, events)
  {
    var limit := EffectiveLimit(request, events);
    hide Picked, ValidLog, EventId, EffectiveLimit;
    if events != [] {
      MemberBounds(events, events[|events| - 1]);
      if Reached(limit, |Picked(request, events)|) {
        PickedAt(request, events, limit - 1);
      }
    }
  }

  lemma CursorsOrdered(request: MemoryConsolidationRequest, events: seq<MemoryEvent>)
    requires ValidLog(events) && !Skipped(request)
    ensures var full := BuildSpec(request, events).nextCursor;
      var kept := BuildSpec(request, Prefiltered(request, events)).nextCursor;
      && (CursorToInt(kept) <= CursorToInt(full) <==> events == [] || NotAhead(request, events))
      && (kept == full <==> events == [] || SameEnd(request, events))
  {
    var kept := Prefiltered(request, events);
    assert events == [] ==> kept == [];
    KeptIsLog(request, events);
    CursorIs(request, events);
    CursorIs(request, kept);
    EndIdBounds(request, events);
    EndOfNothing(request);
    hide BuildSpec, Prefiltered, ValidLog, EndId, CursorToInt, ToText, SameEnd, NotAhead;
    if kept == [] {
      NothingKept(request, events);
    } else {
      EndsCompare(request, events);
    }
  }

  lemma EndOfNothing(request: MemoryConsolidationRequest)
    ensures EndId(request, []) == 0
  {
  }

  /** When both report the same cursor: precisely when nothing is read or both end on the same event.
      If no size wraps, that means: the limit is reached, or the last event of the list is not
      excluded. Otherwise excluded events at the end do not advance the cursor. */
  lemma CursorsAgreeIff(request: MemoryConsolidationRequest, events: seq<MemoryEvent>)
    requires ValidLog(events)
    ensures BuildSpec(request, Prefiltered(request, events)).nextCursor == BuildSpec(request, events).nextCursor
       <==> Skipped(request) || events == [] || SameEnd(request, events)
    ensures SizeFits(request, events) && !Skipped(request) && events != [] ==>
      (SameEnd(request, events) <==>
        || Reached(request.maxEvents, |Picked(request, events)|)
        || events[|events| - 1].sessionId !in request.excludedSessionIds)
  {
    if Skipped(request) {
      SkippedBuilds(request, events);
    } else {
      CursorsOrdered(request, events);
      if SizeFits(request, events) && events != [] {
        SameEndFits(request, events);
      }
    }
    hide *;
  }

  // ----- Sizes that do not wrap -----

  lemma LimitIsSize(request: MemoryConsolidationRequest, events: seq<MemoryEvent>)
    requires request.forceReprocess && request.maxEvents <= 0 && |events| < 0x8000_0000
    ensures EffectiveLimit(request, events) == |events|
  {
  }

  lemma Sizes(request: MemoryConsolidationRequest, events: seq<MemoryEvent>)
    ensures |Picked(request, events)| <= |Prefiltered(request, events)| <= |events|
  {
    PickedPrefiltered(request, events);
    hide Picked;
  }

  lemma SizeFitsIsEnough(request: MemoryConsolidationRequest, events: seq<MemoryEvent>)
    requires SizeFits(request, events)
    ensures SameHead(request, events) && NotAhead(request, events)
  {
    Sizes(request, events);
    if request.maxEvents <= 0 && request.forceReprocess {
      LimitIsSize(request, events);
      LimitIsSize(request, Prefiltered(request, events));
      hide Picked, Prefiltered, EffectiveLimit, Eligible;
    } else {
      hide Picked, Prefiltered, Eligible;
    }
  }

  lemma SameEndFits(request: MemoryConsolidationRequest, events: seq<MemoryEvent>)
    requires ValidLog(events) && SizeFits(request, events) && !Skipped(request) && events != []
    ensures SameEnd(request, events) <==>
      || Reached(request.maxEvents, |Picked(request, events)|)
      || events[|events| - 1].sessionId !in request.excludedSessionIds
  {
    var kept, last := Prefiltered(request, events), events[|events| - 1];
    if request.maxEvents <= 0 {
      Sizes(request, events);
      LimitIsSize(request, events);
      LimitIsSize(request, kept);
      PickedPrefiltered(request, events);
      AllPicked(request, events);
      AllPicked(request, kept);
      KeptMember(request, events, last);
      NotExcludedIfEligible(request, last);
      hide Picked, Prefiltered, EffectiveLimit, Eligible, ValidLog;
    } else {
      hide Picked, Prefiltered, Eligible, ValidLog;
    }
  }

  lemma NotExcludedIfEligible(request: MemoryConsolidationRequest, e: MemoryEvent)
    ensures Eligible(request, e) ==> e.sessionId !in request.excludedSessionIds
  {
  }

  lemma AllPicked(request: MemoryConsolidationRequest, events: seq<MemoryEvent>)
    ensures |Picked(request, events)| == |events| ==> forall e :: e in events ==> Eligible(request, e)
  {
    hide Eligible;
    if |Picked(request, events)| == |events| {
      FilterFull(EligibleFor(request), events);
    }
  }

  // ----- A log that ends in an excluded event -----

  /** A message and then one of an excluded session: only the build that sees both moves past it. */
  lemma TrailingExcludedIsNotRead(e: MemoryEvent)
    ensures var first := e.(kind := MessageAppended, sessionId := "a", storeCursor := "1");
      var second := e.(kind := MessageAppended, sessionId := "b", storeCursor := "2");
      var request := MemoryConsolidationRequest(e.agentId, "", 10, false, ["b"]);
      && BuildSpec(request, [first, second]).nextCursor == "2"
      && BuildSpec(request, Prefiltered(request, [first, second])).nextCursor == "1"
      && BuildSpec(request, LoadEvents([first, second], request, "")).nextCursor == "1"
  {
    var first := e.(kind := MessageAppended, sessionId := "a", storeCursor := "1");
    var second := e.(kind := MessageAppended, sessionId := "b", storeCursor := "2");
    var request := MemoryConsolidationRequest(e.agentId, "", 10, false, ["b"]);
    var events := [first, second];
    FirstIsKept(request, first, second);
    BothAreLoaded(request, first, second);
    LoadIsPrefiltered(events, request, "");
    ShortListIsRead(request, events);
    ShortListIsRead(request, [first]);
    hide CursorToInt, ToText, BuildSpec, LoadEvents, Prefiltered;
  }

  lemma FirstIsKept(request: MemoryConsolidationRequest, first: MemoryEvent, second: MemoryEvent)
    requires first.sessionId !in request.excludedSessionIds && second.sessionId in request.excludedSessionIds
    ensures Prefiltered(request, [first, second]) == [first]
  {
    var events := [first, second];
    assert events[..0] == [] && events[..1] == [first] && events[..2] == events;
    FilterOneMore(NotExcluded(request), events, 0);
    FilterOneMore(NotExcluded(request), events, 1);
  }

  lemma BothAreLoaded(request: MemoryConsolidationRequest, first: MemoryEvent, second: MemoryEvent)
    requires first.agentId == second.agentId == request.agentId && request.sessionId == ""
    requires first.storeCursor == "1" && second.storeCursor == "2"
    ensures LoadEvents([first, second], request.(excludedSessionIds := []), "") == [first, second]
  {
    OneAndTwo();
    hide CursorToInt;
    FilterAll(SelectedAfter(request.(excludedSessionIds := []), 0), [first, second]);
  }

  lemma OneAndTwo()
    ensures CursorToInt("") == 0 && CursorToInt("1") == 1 && CursorToInt("2") == 2
  {
    assert ToText(1) == "1" && ToText(2) == "2";
    CursorRoundTrip(1);
    CursorRoundTrip(2);
  }

  /** A list shorter than the limit is read to its end. */
  lemma ShortListIsRead(request: MemoryConsolidationRequest, events: seq<MemoryEvent>)
    requires |events| < request.maxEvents
    ensures BuildSpec(request, events).nextCursor == LastCursor(events, |events|)
  {
    assert events[..|events|] == events;
    ReadCountUnique(request, events, request.maxEvents, |events|, ReadCount(request, events, request.maxEvents));
  }

  /** The agent-level query loads exactly the prefiltered part of what it would load without the
      exclusion list. */
  lemma LoadIsPrefiltered(history: seq<MemoryEvent>, request: MemoryConsolidationRequest, cursor: string)
    requires request.sessionId == ""
    ensures LoadEvents(history, request, cursor)
         == Prefiltered(request, LoadEvents(history, request.(excludedSessionIds := []), cursor))
  {
    hide CursorToInt;
    FilterTwice(SelectedAfter(request.(excludedSessionIds := []), CursorToInt(cursor)), NotExcluded(request),
                SelectedAfter(request, CursorToInt(cursor)), history);
  }
}
