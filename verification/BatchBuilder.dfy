/** The scan that turns loaded events into a bounded consolidation batch. */
module BatchBuilder {
  import opened Integers
  import opened Sequences
  import opened CursorText
  import opened Records

  datatype BuildResult = BuildResult(
    batch: LongTermMemoryBatch,
    sessionId: string,
    sessionSummary: string,
    sessionSourceRefs: seq<string>,
    nextCursor: string)

  predicate Eligible(request: MemoryConsolidationRequest, event: MemoryEvent) {
    && (request.sessionId == "" || event.sessionId == request.sessionId)
    && event.sessionId !in request.excludedSessionIds
    && event.kind.MessageAppended?
  }

  function EligibleFor(request: MemoryConsolidationRequest): MemoryEvent -> bool {
    event => Eligible(request, event)
  }

  function Picked(request: MemoryConsolidationRequest, events: seq<MemoryEvent>): (picked: seq<MemoryEvent>)
    ensures |picked| <= |events|
  {
    Filter(EligibleFor(request), events)
  }

  lemma PickedMember(request: MemoryConsolidationRequest, events: seq<MemoryEvent>, e: MemoryEvent)
    ensures e in Picked(request, events) <==> e in events && Eligible(request, e)
  {
    hide Eligible;
    FilterMember(EligibleFor(request), events, e);
  }

  lemma PickedConcat(request: MemoryConsolidationRequest, a: seq<MemoryEvent>, b: seq<MemoryEvent>)
    ensures Picked(request, a + b) == Picked(request, a) + Picked(request, b)
  {
    FilterConcat(EligibleFor(request), a, b);
  }

  lemma PickedSplit(request: MemoryConsolidationRequest, events: seq<MemoryEvent>, n: nat)
    requires n <= |events|
    ensures Picked(request, events) == Picked(request, events[..n]) + Picked(request, events[n..])
    ensures n == 0 ==> Picked(request, events[..n]) == []
    ensures n == |events| ==> Picked(request, events[..n]) == Picked(request, events)
  {
    assert n == |events| ==> events[..n] == events;
    TakeAndDrop(events, n);
    PickedConcat(request, events[..n], events[n..]);
    hide Filter, Eligible;
    FilterEmpty(EligibleFor(request));
  }

  lemma PickedOneMore(request: MemoryConsolidationRequest, events: seq<MemoryEvent>, n: nat)
    requires n < |events|
    ensures Picked(request, events[..n + 1])
         == Picked(request, events[..n]) + if Eligible(request, events[n]) then [events[n]] else []
  {
    hide Filter, Eligible;
    FilterOneMore(EligibleFor(request), events, n);
  }

  lemma AllArePicked(request: MemoryConsolidationRequest, events: seq<MemoryEvent>)
    requires forall i :: 0 <= i < |events| ==> Eligible(request, events[i])
    ensures Picked(request, events) == events
  {
    hide Eligible;
    FilterAll(EligibleFor(request), events);
  }

  /** Cursor of the event at index `i`: the store's, or the position for events without one. */
  function CursorAt(events: seq<MemoryEvent>, i: nat): (cursor: string)
    requires i < |events|
    ensures cursor != ""
  {
    if events[i].storeCursor != "" then events[i].storeCursor else ToText(i + 1)
  }

  function SourceRef(request: MemoryConsolidationRequest, cursor: string): string {
    "session://" + request.sessionId + "#event:" + cursor
  }

  function SourceRefs(request: MemoryConsolidationRequest, events: seq<MemoryEvent>, n: nat): seq<string>
    requires n <= |events|
  {
    if n == 0 then []
    else
      var front := SourceRefs(request, events, n - 1);
      if Eligible(request, events[n - 1]) then front + [SourceRef(request, CursorAt(events, n - 1))] else front
  }

  function Transcript(batch: seq<MemoryEvent>): string {
    if batch == [] then ""
    else
      var last := batch[|batch| - 1];
      Transcript(batch[..|batch| - 1]) + last.role + ": " + last.content + "\n"
  }

  /** Transcripts of successive batches join to the transcript of all their events. */
  lemma {:induction false} TranscriptConcat(a: seq<MemoryEvent>, b: seq<MemoryEvent>)
    ensures Transcript(a + b) == Transcript(a) + Transcript(b)
  {
    assert Transcript([]) == "";
    hide Transcript;
    if b == [] {
      assert a + b == a;
    } else {
      var front, last := b[..|b| - 1], b[|b| - 1];
      TranscriptConcat(a, front);
      TranscriptLast(a + front, last);
      TranscriptLast(front, last);
      assert (a + front) + [last] == a + b && front + [last] == b;
      Joined(Transcript(a), Transcript(front), last.role + ": " + last.content + "\n");
    }
  }

  /** A transcript is a line per event: role, a colon, a blank and the content. */
  lemma TranscriptLast(front: seq<MemoryEvent>, last: MemoryEvent)
    ensures Transcript(front + [last]) == Transcript(front) + (last.role + ": " + last.content + "\n")
  {
    assert (front + [last])[..|front|] == front;
    assert Transcript(front + [last]) == Transcript(front) + last.role + ": " + last.content + "\n";
  }

  lemma Joined(a: string, b: string, c: string)
    ensures (a + b) + c == a + (b + c)
  {
  }

  predicate Skipped(request: MemoryConsolidationRequest) {
    !request.forceReprocess && request.maxEvents <= 0
  }

  function EffectiveLimit(request: MemoryConsolidationRequest, events: seq<MemoryEvent>): Int32 {
    if request.forceReprocess && request.maxEvents <= 0 then AsInt32(|events|) else request.maxEvents
  }

  /** `n` events are read: all of them, or just enough to end on the eligible one that fills the limit. */
  predicate ReadsExactly(request: MemoryConsolidationRequest, events: seq<MemoryEvent>, limit: int, n: nat) {
    && n <= |events|
    && (n < |events| ==> 0 < limit && |Picked(request, events[..n])| == limit)
    && (0 < limit ==> |Picked(request, events[..n])| <= limit)
    && (0 < limit && 0 < n && |Picked(request, events[..n])| == limit ==> Eligible(request, events[n - 1]))
  }

  function ReadCount(request: MemoryConsolidationRequest, events: seq<MemoryEvent>, limit: int): (n: nat)
    ensures ReadsExactly(request, events, limit, n)
  {
    if events == [] then 0
    else
      var front := events[..|events| - 1];
      var m := ReadCount(request, front, limit);
      assert events[..m] == front[..m];
      assert events[..|front|] == front;
      assert events[..|events|] == events;
      assert m > 0 ==> front[m - 1] == events[m - 1];
      if 0 < limit && |Picked(request, front[..m])| == limit then m else |events|
  }

  /** What the stopping rule says of a list that is not empty. */
  lemma ReadsSome(request: MemoryConsolidationRequest, events: seq<MemoryEvent>, limit: int, n: nat)
    requires events != [] && 0 < limit && ReadsExactly(request, events, limit, n)
    ensures 0 < n && |Picked(request, events[..n])| <= limit
    ensures |Picked(request, events[..n])| < limit ==> n == |events|
  {
    PickedSplit(request, events, n);
    hide Picked, Eligible;
  }

  lemma ReadCountUnique(request: MemoryConsolidationRequest, events: seq<MemoryEvent>, limit: int, m: nat, n: nat)
    requires ReadsExactly(request, events, limit, m) && ReadsExactly(request, events, limit, n)
    ensures m == n
  {
    if m < n {
      PickedGrows(request, events, m, n);
    } else if n < m {
      PickedGrows(request, events, n, m);
    }
  }

  /** Reading one more eligible event strictly grows the batch. */
  lemma PickedGrows(request: MemoryConsolidationRequest, events: seq<MemoryEvent>, m: nat, n: nat)
    requires m < n <= |events|
    ensures |Picked(request, events[..m])| <= |Picked(request, events[..n])|
    ensures Eligible(request, events[n - 1]) ==> |Picked(request, events[..m])| < |Picked(request, events[..n])|
  {
    PickedSplit(request, events[..n - 1], m);
    assert events[..n - 1][..m] == events[..m];
    PickedOneMore(request, events, n - 1);
    hide Picked, Eligible;
  }

  /** The cursor of the last of the first `n` events. */
  function LastCursor(events: seq<MemoryEvent>, n: nat): string
    requires n <= |events|
  {
    if n == 0 then "" else CursorAt(events, n - 1)
  }

  function BuildSpec(request: MemoryConsolidationRequest, events: seq<MemoryEvent>): BuildResult {
    if Skipped(request) then BuildResult(LongTermMemoryBatch([], []), request.sessionId, "", [], "")
    else
      var n := ReadCount(request, events, EffectiveLimit(request, events));
      var batch := Picked(request, events[..n]);
      BuildResult(LongTermMemoryBatch(batch, SourceRefs(request, events, n)),
                  request.sessionId,
                  Transcript(batch),
                  ["session://" + request.sessionId],
                  LastCursor(events, n))
  }

  /** How many of `count` eligible events a limit lets through. */
  function HeadSize(limit: int, count: nat): (n: nat)
    ensures n <= count
  {
    if 0 < limit < count then limit else count
  }

  /** A batch is the head of the eligible events, as long as the limit allows. */
  lemma BatchIsHead(request: MemoryConsolidationRequest, events: seq<MemoryEvent>)
    requires !Skipped(request)
    ensures var picked := Picked(request, events);
      BuildSpec(request, events).batch.events == picked[..HeadSize(EffectiveLimit(request, events), |picked|)]
  {
    BuildParts(request, events);
    hide BuildSpec, EffectiveLimit, Eligible, Picked;
    PickedSplit(request, events, ReadCount(request, events, EffectiveLimit(request, events)));
  }

  lemma BuildParts(request: MemoryConsolidationRequest, events: seq<MemoryEvent>)
    requires !Skipped(request)
    ensures var n := ReadCount(request, events, EffectiveLimit(request, events));
      && BuildSpec(request, events).batch.events == Picked(request, events[..n])
      && BuildSpec(request, events).batch.sourceRefs == SourceRefs(request, events, n)
      && BuildSpec(request, events).sessionSummary == Transcript(Picked(request, events[..n]))
      && BuildSpec(request, events).nextCursor == LastCursor(events, n)
  {
    hide Eligible, Picked, ReadCount, EffectiveLimit, SourceRefs, Transcript;
  }

  /** What a batch holds: messages of the session asked for, outside the excluded sessions, each with its
      line of the transcript; and the cursor handed on is that of the last event read, or its position. */
  lemma BuildFacts(request: MemoryConsolidationRequest, events: seq<MemoryEvent>, e: MemoryEvent)
    ensures var build, skipped := BuildSpec(request, events), !request.forceReprocess && request.maxEvents <= 0;
      && build.sessionId == request.sessionId && build.sessionSummary == Transcript(build.batch.events)
      && build.sessionSourceRefs == (if skipped then [] else ["session://" + request.sessionId])
      && (skipped ==> build.batch.events == [] && build.nextCursor == "")
      && (!skipped ==>
            var limit := if request.forceReprocess && request.maxEvents <= 0 then AsInt32(|events|)
                         else request.maxEvents;
            var n := ReadCount(request, events, limit);
            && (e in build.batch.events <==>
                  && e in events[..n] && e.kind == MessageAppended
                  && (request.sessionId == "" || e.sessionId == request.sessionId)
                  && e.sessionId !in request.excludedSessionIds)
            && build.nextCursor == if n == 0 then ""
                                   else if events[n - 1].storeCursor != "" then events[n - 1].storeCursor
                                   else ToText(n))
  {
    if !Skipped(request) {
      PickedMember(request, events[..ReadCount(request, events, EffectiveLimit(request, events))], e);
    }
    hide Picked, ReadCount, SourceRefs, Transcript;
  }

  /** When a request without a positive limit truncates nothing: exactly when nothing is eligible, or
      it is forced and the list's size, cast to 32 bits, is not positive or covers every eligible event.
      Below 2^31 events that leaves forced requests. */
  lemma NoTruncationIff(request: MemoryConsolidationRequest, events: seq<MemoryEvent>)
    requires request.maxEvents <= 0
    ensures BuildSpec(request, events).batch.events == Picked(request, events) <==>
      || Picked(request, events) == []
      || (request.forceReprocess && !(0 < AsInt32(|events|) < |Picked(request, events)|))
    ensures |events| < 0x8000_0000 ==>
      (BuildSpec(request, events).batch.events == Picked(request, events) <==>
        request.forceReprocess || Picked(request, events) == [])
  {
    if request.forceReprocess {
      BatchIsHead(request, events);
      hide BuildSpec;
      var picked := Picked(request, events);
      assert picked[..|picked|] == picked;
    }
  }

  /** One eligible event and no limit: unless forced, the batch stays empty and nothing is read. */
  lemma UnlimitedReadsNothing(event: MemoryEvent)
    requires event.kind.MessageAppended?
    ensures var request := MemoryConsolidationRequest(event.agentId, event.sessionId, 0, false, []);
      && Picked(request, [event]) == [event]
      && BuildSpec(request, [event]).batch.events == []
      && BuildSpec(request, [event]).nextCursor == ""
  {
    var request := MemoryConsolidationRequest(event.agentId, event.sessionId, 0, false, []);
    AllArePicked(request, [event]);
  }

  /** A forced request without a limit over 2^32 + 1 messages: the cast wraps to a limit of one. */
  lemma HugeListIsTruncated(event: MemoryEvent)
    requires event.kind.MessageAppended?
    ensures var request := MemoryConsolidationRequest(event.agentId, event.sessionId, 0, true, []);
      var events := seq(0x1_0000_0001, _ => event);
      Picked(request, events) == events && BuildSpec(request, events).batch.events == [event]
  {
    var request := MemoryConsolidationRequest(event.agentId, event.sessionId, 0, true, []);
    var events := seq(0x1_0000_0001, _ => event);
    assert Eligible(request, event);
    assert !Skipped(request) && EffectiveLimit(request, events) == AsInt32(0x1_0000_0001) == 1;
    hide BuildSpec, Picked, Eligible, EffectiveLimit, AsInt32;
    AllArePicked(request, events);
    BatchIsHead(request, events);
    assert events[..1] == [event];
  }

  /** Each source reference of a batch names its own event, for events that carry a store cursor. */
  lemma {:induction false} RefsNameTheirEvents(request: MemoryConsolidationRequest, events: seq<MemoryEvent>, n: nat)
    requires n <= |events| && forall i :: 0 <= i < |events| ==> events[i].storeCursor != ""
    ensures var picked, refs := Picked(request, events[..n]), SourceRefs(request, events, n);
      && |refs| == |picked|
      && forall i :: 0 <= i < |refs| ==> refs[i] == "session://" + request.sessionId + "#event:" + picked[i].storeCursor
  {
    if n > 0 {
      RefsNameTheirEvents(request, events, n - 1);
      PickedOneMore(request, events, n - 1);
      hide Picked, Eligible;
    }
  }

  /** The scan's accumulators after reading the first `n` events. */
  ghost predicate Scanned(request: MemoryConsolidationRequest, events: seq<MemoryEvent>, n: nat,
                          picked: seq<MemoryEvent>, refs: seq<string>, summary: string, nextCursor: string)
    requires n <= |events|
  {
    && picked == Picked(request, events[..n])
    && refs == SourceRefs(request, events, n)
    && summary == Transcript(picked)
    && nextCursor == LastCursor(events, n)
  }

  lemma SkipOne(request: MemoryConsolidationRequest, events: seq<MemoryEvent>, i: nat,
                picked: seq<MemoryEvent>, refs: seq<string>, summary: string, nextCursor: string)
    requires i < |events| && Scanned(request, events, i, picked, refs, summary, nextCursor)
    requires !Eligible(request, events[i])
    ensures Scanned(request, events, i + 1, picked, refs, summary, CursorAt(events, i))
  {
    assert events[..i + 1][..i] == events[..i];
  }

  lemma TakeOne(request: MemoryConsolidationRequest, events: seq<MemoryEvent>, i: nat,
                picked: seq<MemoryEvent>, refs: seq<string>, summary: string, nextCursor: string)
    requires i < |events| && Scanned(request, events, i, picked, refs, summary, nextCursor)
    requires Eligible(request, events[i])
    ensures Scanned(request, events, i + 1, picked + [events[i]], refs + [SourceRef(request, CursorAt(events, i))],
                    summary + events[i].role + ": " + events[i].content + "\n", CursorAt(events, i))
  {
    assert events[..i + 1][..i] == events[..i];
    assert (picked + [events[i]])[..|picked|] == picked;
  }

  lemma ScanIsBuild(request: MemoryConsolidationRequest, events: seq<MemoryEvent>, n: nat,
                    picked: seq<MemoryEvent>, refs: seq<string>, summary: string, nextCursor: string)
    requires !Skipped(request)
    requires n <= |events| && Scanned(request, events, n, picked, refs, summary, nextCursor)
    requires var limit := EffectiveLimit(request, events);
      if 0 < limit && |picked| == limit then 0 < n && Eligible(request, events[n - 1])
      else n == |events| && (0 < limit ==> |picked| < limit)
    ensures BuildSpec(request, events) == BuildResult(LongTermMemoryBatch(picked, refs), request.sessionId,
      summary, ["session://" + request.sessionId], nextCursor)
  {
    var limit := EffectiveLimit(request, events);
    ReadCountUnique(request, events, limit, n, ReadCount(request, events, limit));
  }

  /** The entry conditions of the scan. */
  lemma ScanStarts(request: MemoryConsolidationRequest, events: seq<MemoryEvent>)
    ensures Skipped(request) <==> !request.forceReprocess && request.maxEvents <= 0
    ensures Skipped(request)
      ==> BuildSpec(request, events) == BuildResult(LongTermMemoryBatch([], []), request.sessionId, "", [], "")
    ensures EffectiveLimit(request, events)
         == if request.forceReprocess && request.maxEvents <= 0 then AsInt32(|events|) else request.maxEvents
    ensures Scanned(request, events, 0, [], [], "", "")
  {
  }

  /** What one iteration looks at. */
  lemma ScanReads(request: MemoryConsolidationRequest, events: seq<MemoryEvent>, i: nat)
    requires i < |events|
    ensures CursorAt(events, i) == if events[i].storeCursor != "" then events[i].storeCursor else ToText(i + 1)
    ensures Eligible(request, events[i]) <==>
      && !(request.sessionId != "" && events[i].sessionId != request.sessionId)
      && !(request.excludedSessionIds != [] && events[i].sessionId in request.excludedSessionIds)
      && events[i].kind.MessageAppended?
  {
  }

  method Build(request: MemoryConsolidationRequest, events: seq<MemoryEvent>) returns (result: BuildResult)
    ensures result == BuildSpec(request, events)
  {
    hide *;
    ScanStarts(request, events);
    result := BuildResult(LongTermMemoryBatch([], []), request.sessionId, "", [], "");
    if !request.forceReprocess && request.maxEvents <= 0 {
      return;
    }
    var limit := request.maxEvents;
    if request.forceReprocess && limit <= 0 {
      limit := AsInt32(|events|);
    }
    var nextCursor, picked, refs, summary := "", [], [], "";
    var count := 0;
    var i := 0;
    while i < |events|
      invariant 0 <= i <= |events| && count == |picked|
      invariant Scanned(request, events, i, picked, refs, summary, nextCursor)
      invariant 0 < limit ==> count < limit
    {
      var event := events[i];
      var eventCursor := if event.storeCursor != "" then event.storeCursor else ToText(i + 1);
      ghost var before := nextCursor;
      nextCursor := eventCursor;
      ScanReads(request, events, i);
      i := i + 1;
      if (request.sessionId != "" && event.sessionId != request.sessionId)
        || (request.excludedSessionIds != [] && event.sessionId in request.excludedSessionIds)
        || !event.kind.MessageAppended?
      {
        SkipOne(request, events, i - 1, picked, refs, summary, before);
        continue;
      }
      TakeOne(request, events, i - 1, picked, refs, summary, before);
      summary := summary + event.role + ": " + event.content + "\n";
      picked := picked + [event];
      refs := refs + [SourceRef(request, eventCursor)];
      count := count + 1;
      if limit > 0 && count >= limit {
        break;
      }
    }
    ScanIsBuild(request, events, i, picked, refs, summary, nextCursor);
    result := BuildResult(LongTermMemoryBatch(picked, refs), request.sessionId, summary,
                          ["session://" + request.sessionId], nextCursor);
  }
}
