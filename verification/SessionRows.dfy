/** What consolidation leaves on record: one "session" summary row per committed batch. */
module SessionRows {
  import opened Sequences
  import opened Records
  import opened BatchBuilder
  import opened Delivery
  import opened Kernel
  import opened MemoryUpdate
  import opened UpdateRows
  import opened Consolidation

  predicate IsSessionRow(scope: Scope, row: SummaryRow) {
    row.level == "session" && row.agentId == scope.agentId && row.sessionId == scope.sessionId
  }

  /** The texts of a scope's session rows, oldest first. */
  function SessionTexts(rows: seq<SummaryRow>, scope: Scope): seq<string> {
    Map((row: SummaryRow) => row.summary, Filter((row: SummaryRow) => IsSessionRow(scope, row), rows))
  }

  function Transcripts(log: seq<Commit>, scope: Scope): seq<string> {
    Map((c: Commit) => Transcript(c.batch), Filter((c: Commit) => ScopeOf(c.request) == scope, log))
  }

  /** The tables hold exactly the transcripts of the batches committed, scope by scope and in order. */
  ghost predicate Recorded(rows: seq<SummaryRow>, log: seq<Commit>) {
    forall scope :: SessionTexts(rows, scope) == Transcripts(log, scope)
  }

  function Join(texts: seq<string>): string {
    if texts == [] then "" else Join(texts[..|texts| - 1]) + texts[|texts| - 1]
  }

  lemma FilterLast<T>(p: T -> bool, s: seq<T>, x: T)
    ensures Filter(p, s + [x]) == if p(x) then Filter(p, s) + [x] else Filter(p, s)
  {
    assert (s + [x])[..|s|] == s;
  }

  lemma OneMoreRow(rows: seq<SummaryRow>, row: SummaryRow, scope: Scope)
    ensures SessionTexts(rows + [row], scope)
         == if IsSessionRow(scope, row) then SessionTexts(rows, scope) + [row.summary] else SessionTexts(rows, scope)
  {
    FilterLast((r: SummaryRow) => IsSessionRow(scope, r), rows, row);
  }

  lemma OneMoreCommit(log: seq<Commit>, c: Commit, scope: Scope)
    ensures Transcripts(log + [c], scope)
         == Transcripts(log, scope) + if ScopeOf(c.request) == scope then [Transcript(c.batch)] else []
  {
    hide Transcript;
    FilterLast((x: Commit) => ScopeOf(x.request) == scope, log, c);
  }

  /** Topic and profile rows are not session rows. */
  lemma {:induction false} OtherLevels(rows: seq<SummaryRow>, agentId: string, sessionId: string, level: string,
                                       topic: string, texts: seq<string>, confidence: real, refs: seq<string>,
                                       scope: Scope)
    requires level != "session"
    ensures SessionTexts(AddSummaries(rows, agentId, sessionId, level, topic, texts, confidence, refs), scope)
         == SessionTexts(rows, scope)
  {
    hide SessionTexts;
    if texts != [] {
      var front := texts[..|texts| - 1];
      OtherLevels(rows, agentId, sessionId, level, topic, front, confidence, refs, scope);
      var before := AddSummaries(rows, agentId, sessionId, level, topic, front, confidence, refs);
      var row := SummaryRow(|before| + 1, agentId, sessionId, level, topic, texts[|texts| - 1], confidence, refs);
      OneMoreRow(before, row, scope);
    }
  }

  /** The summary table after a batch: its session row, then topics, then profiles. */
  lemma WrittenRows(t: Tables, agentId: string, build: BuildResult, update: LongTermMemoryUpdate)
    ensures var refs := build.batch.sourceRefs;
      var rows := AddSummary(t.summaries, agentId, build.sessionId, "session", "conversation",
                             build.sessionSummary, 0.5, build.sessionSourceRefs);
      Written(t, agentId, build, update).summaries == WriteSummaries(rows, agentId, build.sessionId, update, refs)
  {
    var rows := AddSummary(t.summaries, agentId, build.sessionId, "session", "conversation",
                           build.sessionSummary, 0.5, build.sessionSourceRefs);
    hide AddSummary, WriteSummaries, WriteEntities, WriteRelations;
    RelationsKeepSummaries(Tables(WriteSummaries(rows, agentId, build.sessionId, update, build.batch.sourceRefs),
                                  WriteEntities(t.entities, agentId, update.entities), t.relations),
                           agentId, update.relations);
  }

  lemma OtherTexts(rows: seq<SummaryRow>, agentId: string, sessionId: string, update: LongTermMemoryUpdate,
                   refs: seq<string>, scope: Scope)
    ensures SessionTexts(WriteSummaries(rows, agentId, sessionId, update, refs), scope) == SessionTexts(rows, scope)
  {
    hide SessionTexts, AddSummaries;
    var topics := AddSummaries(rows, agentId, sessionId, "topic", "auto", update.topicSummaries, 0.5, refs);
    OtherLevels(rows, agentId, sessionId, "topic", "auto", update.topicSummaries, 0.5, refs, scope);
    OtherLevels(topics, agentId, sessionId, "profile", "user", update.profileSummaries, 0.6, refs, scope);
  }

  /** Writing a batch adds its transcript to its own scope's rows and touches no other scope's. */
  lemma WrittenTexts(t: Tables, request: Request, build: BuildResult, update: LongTermMemoryUpdate, scope: Scope)
    requires build.sessionId == request.sessionId
    ensures SessionTexts(Written(t, request.agentId, build, update).summaries, scope)
         == SessionTexts(t.summaries, scope) + if ScopeOf(request) == scope then [build.sessionSummary] else []
  {
    hide SessionTexts, WriteSummaries, Written;
    var row := SummaryRow(|t.summaries| + 1, request.agentId, build.sessionId, "session", "conversation",
                          build.sessionSummary, 0.5, build.sessionSourceRefs);
    WrittenRows(t, request.agentId, build, update);
    OtherTexts(t.summaries + [row], request.agentId, build.sessionId, update, build.batch.sourceRefs, scope);
    OneMoreRow(t.summaries, row, scope);
    assert SessionTexts(t.summaries, scope) + [] == SessionTexts(t.summaries, scope);
  }

  /** So a committed run keeps the tables a record of the batches committed. */
  lemma CommitRecords(t: Tables, log: seq<Commit>, request: Request, events: seq<MemoryEvent>,
                      update: LongTermMemoryUpdate)
    requires Recorded(t.summaries, log)
    ensures var build := BuildSpec(request, events);
      Recorded(Written(t, request.agentId, build, update).summaries, log + [Commit(request, build.batch.events)])
  {
    var build := BuildSpec(request, events);
    assert build.sessionId == request.sessionId && build.sessionSummary == Transcript(build.batch.events);
    hide BuildSpec, Written, Transcript, SessionTexts, Transcripts;
    var commit := Commit(request, build.batch.events);
    var rows := Written(t, request.agentId, build, update).summaries;
    forall scope ensures SessionTexts(rows, scope) == Transcripts(log + [commit], scope) {
      assert SessionTexts(t.summaries, scope) == Transcripts(log, scope);
      WrittenTexts(t, request, build, update, scope);
      OneMoreCommit(log, commit, scope);
    }
  }

  /** The recorded texts of a scope join to the transcript of everything delivered to it. */
  lemma {:induction false} RecordJoins(log: seq<Commit>, scope: Scope)
    ensures Join(Transcripts(log, scope)) == Transcript(Delivered(log, scope))
  {
    hide Transcript, Transcripts;
    if log == [] {
      NothingRecorded(scope);
    } else {
      var front, c := log[..|log| - 1], log[|log| - 1];
      RecordJoins(front, scope);
      assert front + [c] == log;
      OneMoreCommit(front, c, scope);
      DeliveredAppend(front, c, scope);
      if ScopeOf(c.request) == scope {
        TranscriptConcat(Delivered(front, scope), c.batch);
        var texts := Transcripts(front, scope);
        assert (texts + [Transcript(c.batch)])[..|texts|] == texts;
      } else {
        assert Delivered(front, scope) + [] == Delivered(front, scope);
        assert Transcripts(front, scope) + [] == Transcripts(front, scope);
      }
    }
  }

  lemma NothingRecorded(scope: Scope)
    ensures Transcripts([], scope) == [] && Transcript([]) == "" && SessionTexts([], scope) == []
  {
  }

  /** Every delivered event is in a batch whose transcript is on record. */
  lemma {:induction false} DeliveredIsRecorded(log: seq<Commit>, scope: Scope, e: MemoryEvent)
    requires e in Delivered(log, scope)
    ensures exists c :: c in log && e in c.batch && Transcript(c.batch) in Transcripts(log, scope)
  {
    hide Transcript, Transcripts;
    var front, last := log[..|log| - 1], log[|log| - 1];
    assert front + [last] == log;
    OneMoreCommit(front, last, scope);
    if e in Delivered(front, scope) {
      DeliveredIsRecorded(front, scope, e);
      var c :| c in front && e in c.batch && Transcript(c.batch) in Transcripts(front, scope);
      assert c in log;
    } else {
      assert last in log && e in last.batch;
    }
  }
}
