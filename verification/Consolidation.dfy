/** Writing a consolidation: the update writer and the service that runs it in one transaction. */
module Consolidation {
  import opened Integers
  import opened Sequences
  import opened CursorText
  import opened Records
  import opened BatchBuilder
  import opened Kernel
  import opened MemoryUpdate
  import opened UpdateRows
  import opened SqliteStore

  /** Rule-based or model-backed extraction: any function of the batch. */
  type Processor = LongTermMemoryBatch -> LongTermMemoryUpdate

  datatype WriteResult = WriteResult(succeeded: bool, savedSummaries: nat, savedEntities: nat, savedRelations: nat)

  const FAILED_WRITE := WriteResult(false, 0, 0, 0)

  datatype ConsolidationResult = ConsolidationResult(
    succeeded: bool,
    fallbackUsed: bool,
    processedEvents: Int32,
    savedSummaries: nat,
    savedEntities: nat,
    savedRelations: nat,
    nextCursor: string,
    sessionId: string,
    errorCode: string)

  predicate HasRecords(update: LongTermMemoryUpdate) {
    update.topicSummaries != [] || update.profileSummaries != [] || update.entities != [] || update.relations != []
  }

  /** The number of records in an update. */
  function Size(update: LongTermMemoryUpdate): nat {
    |update.topicSummaries| + |update.profileSummaries| + |update.entities| + |update.relations|
  }

  /** The model's update if it extracted anything, else the fallback's. */
  function Extracted(model: Option<Processor>, fallback: Option<Processor>,
                     batch: LongTermMemoryBatch): LongTermMemoryUpdate {
    var update := if model.Some? then model.value(batch) else EMPTY_UPDATE;
    if !HasRecords(update) && fallback.Some? then fallback.value(batch) else update
  }

  function UsesFallback(model: Option<Processor>, fallback: Option<Processor>, batch: LongTermMemoryBatch): bool {
    fallback.Some? && (model.None? || !HasRecords(model.value(batch)))
  }

  /** The tables after a consolidation with a non-empty batch has been committed. */
  function Written(t: Tables, agentId: string, build: BuildResult, update: LongTermMemoryUpdate): Tables {
    SaveUpdate(
      t.(summaries := AddSummary(t.summaries, agentId, build.sessionId, "session", "conversation",
                                 build.sessionSummary, 0.5, build.sessionSourceRefs)),
      agentId, build.sessionId, update, build.batch.sourceRefs)
  }

  lemma EmptyUpdateWritesNothing(t: Tables, agentId: string, sessionId: string, update: LongTermMemoryUpdate,
                                 refs: seq<string>)
    requires !HasRecords(update)
    ensures SaveUpdate(t, agentId, sessionId, update, refs) == t
  {
  }

  /** What a committed consolidation adds, against which the reported counts are read: 1 + topics +
      profiles summary rows, one relation row per relation, at most one entity row per entity. */
  lemma WrittenCounts(t: Tables, agentId: string, build: BuildResult, update: LongTermMemoryUpdate)
    requires EntityRowIds(t.entities) && RelationIds(t.relations)
    ensures var u := Written(t, agentId, build, update);
      && |u.summaries| == |t.summaries| + 1 + |update.topicSummaries| + |update.profileSummaries|
      && t.summaries <= u.summaries
      && |u.relations| == |t.relations| + |update.relations|
      && |t.entities| <= |u.entities| <= |t.entities| + |update.entities|
  {
    UpdateCounted(
      t.(summaries := AddSummary(t.summaries, agentId, build.sessionId, "session", "conversation",
                                 build.sessionSummary, 0.5, build.sessionSourceRefs)),
      agentId, build.sessionId, update, build.batch.sourceRefs);
  }

  /** The summary rows of a committed batch: its session row, then one per topic, then one per profile. */
  lemma BatchSummaries(t: Tables, agentId: string, build: BuildResult, update: LongTermMemoryUpdate, i: nat)
    ensures var rows, n, k := Written(t, agentId, build, update).summaries, |t.summaries|, |update.topicSummaries|;
      && |rows| == n + 1 + k + |update.profileSummaries| && t.summaries <= rows
      && rows[n] == SummaryRow(n + 1, agentId, build.sessionId, "session", "conversation", build.sessionSummary, 0.5,
                               build.sessionSourceRefs)
      && (i < k ==>
            rows[n + 1 + i] == SummaryRow(n + i + 2, agentId, build.sessionId, "topic", "auto",
                                          update.topicSummaries[i], 0.5, build.batch.sourceRefs))
      && (i < |update.profileSummaries| ==>
            rows[n + 1 + k + i] == SummaryRow(n + k + i + 2, agentId, build.sessionId, "profile", "user",
                                              update.profileSummaries[i], 0.6, build.batch.sourceRefs))
  {
    var session := AddSummary(t.summaries, agentId, build.sessionId, "session", "conversation", build.sessionSummary,
                              0.5, build.sessionSourceRefs);
    SummaryRowsWritten(t.(summaries := session), agentId, build.sessionId, update, build.batch.sourceRefs, i);
    hide SaveUpdate;
  }

  /** The entities and relations of a committed batch: the last entity with an id fills that id's row,
      relations come last, and rows that are not written again keep everything but activity and links. */
  lemma BatchRecords(t: Tables, agentId: string, build: BuildResult, update: LongTermMemoryUpdate, id: string, i: nat)
    ensures var m := Written(t, agentId, build, update).entities;
      && ((forall j :: 0 <= j < |update.entities| ==> update.entities[j].id != id) ==> SameRow(t.entities, m, id))
      && (LastWithId(update.entities, i) ==> Holds(m, agentId, update.entities[i]))
    ensures var rows, n := Written(t, agentId, build, update).relations, |t.relations|;
      && |rows| == n + |update.relations|
      && (i < n ==> rows[i] == t.relations[i].(active := rows[i].active))
      && (i < |update.relations| ==> HoldsRelation(rows[n + i], n + i + 1, agentId, update.relations[i]))
  {
    var start := t.(summaries := AddSummary(t.summaries, agentId, build.sessionId, "session", "conversation",
                                            build.sessionSummary, 0.5, build.sessionSourceRefs));
    UpdateRecords(start, agentId, build.sessionId, update, build.batch.sourceRefs, id, i);
    hide SaveUpdate;
  }

  class MemoryUpdateWriter {
    const store: MemorySqliteStore

    constructor (store: MemorySqliteStore)
      ensures this.store == store
    {
      this.store := store;
    }

    method SaveSessionSummary(agentId: string, sessionId: string, summary: string, sourceRefs: seq<string>)
      returns (result: WriteResult)
      requires store.Valid()
      modifies store`summaries, store`summaryIndex
      ensures store.Valid()
      ensures result.succeeded ==> result == WriteResult(true, 1, 0, 0)
      ensures result.succeeded ==>
           store.summaries
           == AddSummary(old(store.summaries), agentId, sessionId, "session", "conversation", summary, 0.5, sourceRefs)
    {
      var ok := store.SaveSummary(agentId, sessionId, "session", "conversation", summary, 0.5, sourceRefs);
      result := if ok then WriteResult(true, 1, 0, 0) else FAILED_WRITE;
    }

    method SaveSummaries(agentId: string, sessionId: string, level: string, topic: string, texts: seq<string>,
                         confidence: real, sourceRefs: seq<string>) returns (ok: bool, count: nat)
      requires store.Valid()
      modifies store`summaries, store`summaryIndex
      ensures store.Valid()
      ensures ok ==> count == |texts|
      ensures ok ==>
           store.summaries
           == AddSummaries(old(store.summaries), agentId, sessionId, level, topic, texts, confidence, sourceRefs)
    {
      hide store.Valid;
      ok, count := true, 0;
      while count < |texts|
        invariant count <= |texts| && store.Valid()
        invariant store.summaries
               == AddSummaries(old(store.summaries), agentId, sessionId, level, topic, texts[..count], confidence,
                               sourceRefs)
      {
        ok := store.SaveSummary(agentId, sessionId, level, topic, texts[count], confidence, sourceRefs);
        if !ok {
          return;
        }
        assert texts[..count + 1][..count] == texts[..count];
        count := count + 1;
      }
      assert texts[..|texts|] == texts;
    }

    method SaveEntities(agentId: string, entities: seq<MemoryEntity>) returns (ok: bool, count: nat)
      requires store.Valid()
      modifies store`entities, store`entityIndex
      ensures store.Valid()
      ensures ok ==> count == |entities|
      ensures ok ==> store.entities == WriteEntities(old(store.entities), agentId, entities)
    {
      hide store.Valid, Kernel.SaveEntity, MarkObsolete;
      ok, count := true, 0;
      while count < |entities|
        invariant count <= |entities| && store.Valid()
        invariant store.entities == WriteEntities(old(store.entities), agentId, entities[..count])
      {
        var e := entities[count];
        if e.agentId == "" {
          e := e.(agentId := agentId);
        }
        ok := store.SaveEntity(e);
        if !ok {
          return;
        }
        if e.supersededEntityId != "" {
          ok := store.MarkEntityObsolete(e.supersededEntityId, e.id);
          if !ok {
            return;
          }
        }
        assert entities[..count + 1][..count] == entities[..count];
        count := count + 1;
      }
      assert entities[..|entities|] == entities;
    }

    method SaveRelations(agentId: string, relations: seq<MemoryRelation>) returns (ok: bool, count: nat)
      requires store.Valid()
      modifies store`relations, store`relationIndex, store`entities, store`entityIndex
      ensures store.Valid()
      ensures ok ==> count == |relations|
      ensures ok ==> store.LongTerm() == WriteRelations(old(store.LongTerm()), agentId, relations)
    {
      hide store.Valid, WriteRelation;
      ok, count := true, 0;
      while count < |relations|
        invariant count <= |relations| && store.Valid()
        invariant store.LongTerm() == WriteRelations(old(store.LongTerm()), agentId, relations[..count])
      {
        var r := relations[count];
        if r.agentId == "" {
          r := r.(agentId := agentId);
        }
        ok := store.SaveRelation(r);
        if !ok {
          return;
        }
        assert relations[..count + 1][..count] == relations[..count];
        count := count + 1;
      }
      assert relations[..|relations|] == relations;
    }

    /** Stops at the first failing write, reporting nothing saved. */
    method SaveUpdate(agentId: string, sessionId: string, update: LongTermMemoryUpdate, sourceRefs: seq<string>)
      returns (result: WriteResult)
      requires store.Valid()
      modifies store`summaries, store`summaryIndex
      modifies store`relations, store`relationIndex, store`entities, store`entityIndex
      ensures store.Valid()
      ensures !result.succeeded ==> result == FAILED_WRITE
      ensures result.succeeded ==>
           result == WriteResult(true, |update.topicSummaries| + |update.profileSummaries|,
                                 |update.entities|, |update.relations|)
      ensures result.succeeded ==>
           store.LongTerm() == MemoryUpdate.SaveUpdate(old(store.LongTerm()), agentId, sessionId, update, sourceRefs)
    {
      hide store.Valid, AddSummaries, WriteEntities, WriteRelations;
      result := FAILED_WRITE;
      var ok, topics := SaveSummaries(agentId, sessionId, "topic", "auto", update.topicSummaries, 0.5, sourceRefs);
      if !ok {
        return;
      }
      var profiles;
      ok, profiles := SaveSummaries(agentId, sessionId, "profile", "user", update.profileSummaries, 0.6, sourceRefs);
      if !ok {
        return;
      }
      var entities;
      ok, entities := SaveEntities(agentId, update.entities);
      if !ok {
        return;
      }
      var relations;
      ok, relations := SaveRelations(agentId, update.relations);
      if !ok {
        return;
      }
      result := WriteResult(true, topics + profiles, entities, relations);
    }
  }

  class ConsolidationService {
    const writer: MemoryUpdateWriter
    const fallback: Option<Processor>

    constructor (writer: MemoryUpdateWriter, fallback: Option<Processor>)
      ensures this.writer == writer && this.fallback == fallback
    {
      this.writer, this.fallback := writer, fallback;
    }

    /** Moves the cursor past events that were all filtered out, in a transaction of its own. */
    method SaveCursorOnly(request: MemoryConsolidationRequest, nextCursor: string) returns (ok: bool)
      requires writer.store.Valid() && writer.store.saved.None?
      modifies writer.store
      ensures writer.store.Valid() && writer.store.saved.None?
      ensures writer.store.Contents() == if ok
        then old(writer.store.Contents()).(cursors :=
               old(writer.store.cursors)[Scope(request.agentId, request.sessionId) := CursorToInt(nextCursor)])
        else old(writer.store.Contents())
    {
      var store := writer.store;
      hide store.Valid;
      ok := store.Begin();
      if !ok {
        return;
      }
      ok := store.SaveConsolidationCursor(request.agentId, request.sessionId, nextCursor);
      if ok {
        ok := store.Commit();
      }
      if !ok {
        store.Rollback();
      }
    }

    /** The work inside the transaction of a consolidation with a non-empty batch. */
    method WriteAll(request: MemoryConsolidationRequest, build: BuildResult, update: LongTermMemoryUpdate)
      returns (errorCode: string, result: WriteResult)
      requires writer.store.Valid() && build.nextCursor != ""
      modifies writer.store`summaries, writer.store`summaryIndex, writer.store`relations, writer.store`relationIndex,
        writer.store`entities, writer.store`entityIndex, writer.store`cursors
      ensures writer.store.Valid()
      ensures errorCode == "" ==>
           writer.store.LongTerm() == Written(old(writer.store.LongTerm()), request.agentId, build, update)
      ensures errorCode == "" ==>
           writer.store.cursors
           == old(writer.store.cursors)[Scope(request.agentId, request.sessionId) := CursorToInt(build.nextCursor)]
      ensures errorCode == "" ==>
           result == WriteResult(true, 1 + |update.topicSummaries| + |update.profileSummaries|,
                                 |update.entities|, |update.relations|)
    {
      var store := writer.store;
      hide store.Valid, MemoryUpdate.SaveUpdate, AddSummary, CursorToInt;
      errorCode, result := "consolidation_failed", FAILED_WRITE;
      var session := writer.SaveSessionSummary(request.agentId, build.sessionId, build.sessionSummary,
                                               build.sessionSourceRefs);
      if !session.succeeded {
        return;
      }
      var rest := WriteResult(true, 0, 0, 0);
      if HasRecords(update) {
        rest := writer.SaveUpdate(request.agentId, build.sessionId, update, build.batch.sourceRefs);
        if !rest.succeeded {
          return;
        }
      } else {
        EmptyUpdateWritesNothing(store.LongTerm(), request.agentId, build.sessionId, update, build.batch.sourceRefs);
      }
      var ok := store.SaveConsolidationCursor(request.agentId, request.sessionId, build.nextCursor);
      errorCode := if ok then "" else "sqlite_error";
      result := WriteResult(ok, session.savedSummaries + rest.savedSummaries, rest.savedEntities, rest.savedRelations);
    }

    /** All or nothing: a failed write or commit restores every table, index and cursor. */
    method WriteBatch(request: MemoryConsolidationRequest, build: BuildResult, update: LongTermMemoryUpdate)
      returns (errorCode: string, result: WriteResult)
      requires writer.store.Valid() && writer.store.saved.None? && build.nextCursor != ""
      modifies writer.store
      ensures writer.store.Valid() && writer.store.saved.None?
      ensures writer.store.events == old(writer.store.events) && writer.store.payloads == old(writer.store.payloads)
      ensures errorCode != "" ==> writer.store.Contents() == old(writer.store.Contents())
      ensures errorCode == "" ==>
           writer.store.LongTerm() == Written(old(writer.store.LongTerm()), request.agentId, build, update)
      ensures errorCode == "" ==>
           writer.store.cursors
           == old(writer.store.cursors)[Scope(request.agentId, request.sessionId) := CursorToInt(build.nextCursor)]
      ensures errorCode == "" ==>
           result == WriteResult(true, 1 + |update.topicSummaries| + |update.profileSummaries|,
                                 |update.entities|, |update.relations|)
    {
      var store := writer.store;
      hide store.Valid, Written, CursorToInt;
      result := FAILED_WRITE;
      var ok := store.Begin();
      if !ok {
        return "sqlite_error", result;
      }
      errorCode, result := WriteAll(request, build, update);
      if errorCode == "" {
        ok := store.Commit();
        errorCode := if ok then "" else "sqlite_error";
      }
      if errorCode != "" {
        store.Rollback();
      }
    }

    /** The part of a consolidation that asks the model and, if it gives nothing, the fallback. */
    method Extract(batch: LongTermMemoryBatch, model: Option<Processor>)
      returns (update: LongTermMemoryUpdate, fallbackUsed: bool)
      ensures update == Extracted(model, fallback, batch)
      ensures fallbackUsed == UsesFallback(model, fallback, batch)
    {
      update, fallbackUsed := EMPTY_UPDATE, false;
      if model.Some? {
        update := model.value(batch);
      }
      var hasLlmUpdate := HasRecords(update);
      if !hasLlmUpdate && fallback.Some? {
        fallbackUsed := true;
        update := fallback.value(batch);
      }
    }

    /** A failed consolidation changes nothing at all. A successful one leaves events and payloads
        alone, writes exactly one batch's rows and moves only its own scope's cursor. */
    method Consolidate(request: MemoryConsolidationRequest, events: seq<MemoryEvent>, model: Option<Processor>)
      returns (result: ConsolidationResult)
      requires writer.store.Valid() && writer.store.saved.None?
      modifies writer.store
      ensures writer.store.Valid() && writer.store.saved.None?
      ensures writer.store.events == old(writer.store.events) && writer.store.payloads == old(writer.store.payloads)
      ensures result.succeeded <==> result.errorCode == ""
      ensures !result.succeeded ==> writer.store.Contents() == old(writer.store.Contents())
      ensures result.succeeded ==>
           writer.store.cursors == CursorsAfter(old(writer.store.cursors), request, BuildSpec(request, events))
      ensures result.succeeded ==>
           writer.store.LongTerm()
           == TablesAfter(old(writer.store.LongTerm()), request, BuildSpec(request, events), model)
      ensures result.succeeded ==>
        var t, u := old(writer.store.LongTerm()), writer.store.LongTerm();
        WritesChosen(t, u, request, BuildSpec(request, events), model)
      ensures result.succeeded ==> Accounted(result, request, events, model)
    {
      ExtractionDecides(this, writer.store.LongTerm(), request, BuildSpec(request, events), model);
      hide writer.store.Valid, BuildSpec, Written, CursorToInt, WritesChosen, Extracted, UsesFallback, AsInt32;
      var build := Build(request, events);
      BatchHasCursor(request, events);
      result := ConsolidationResult(false, false, AsInt32(|build.batch.events|), 0, 0, 0,
                                    build.nextCursor, build.sessionId, "");
      if build.batch.events == [] {
        if build.nextCursor == "" {
          result := result.(succeeded := true);
          return;
        }
        var ok := SaveCursorOnly(request, build.nextCursor);
        result := if ok then result.(succeeded := true) else result.(errorCode := "sqlite_error");
        return;
      }
      var update, fallbackUsed := Extract(build.batch, model);
      result := result.(fallbackUsed := fallbackUsed);
      var errorCode, written := WriteBatch(request, build, update);
      if errorCode != "" {
        result := result.(errorCode := errorCode);
        return;
      }
      result := result.(succeeded := true, savedSummaries := written.savedSummaries,
                        savedEntities := written.savedEntities, savedRelations := written.savedRelations);
    }

    /** The cursors after a successful run; no cursor to save means nothing was read. */
    function CursorsAfter(cursors: map<Scope, int>, request: MemoryConsolidationRequest,
                          build: BuildResult): map<Scope, int> {
      if build.nextCursor == "" then cursors
      else cursors[Scope(request.agentId, request.sessionId) := CursorToInt(build.nextCursor)]
    }

    /** The tables after a successful run; an empty batch writes no rows. */
    function TablesAfter(t: Tables, request: MemoryConsolidationRequest, build: BuildResult,
                         model: Option<Processor>): Tables {
      if build.batch.events == [] then t
      else Written(t, request.agentId, build, Extracted(model, fallback, build.batch))
    }

    /** Whose records a run writes: the model's if it gave any, else the fallback's, else only the session
        row; and nothing without a batch. */
    predicate WritesChosen(t: Tables, u: Tables, request: MemoryConsolidationRequest, build: BuildResult,
                           model: Option<Processor>) {
      if build.batch.events == [] then u == t
      else if model.Some? && 0 < Size(model.value(build.batch)) then
        u == Written(t, request.agentId, build, model.value(build.batch))
      else if fallback.Some? then u == Written(t, request.agentId, build, fallback.value(build.batch))
      else
        u == t.(summaries := t.summaries + [SummaryRow(|t.summaries| + 1, request.agentId, build.sessionId, "session",
                                                       "conversation", build.sessionSummary, 0.5,
                                                       build.sessionSourceRefs)])
    }

    /** What a successful result reports. */
    predicate Accounted(result: ConsolidationResult, request: MemoryConsolidationRequest, events: seq<MemoryEvent>,
                        model: Option<Processor>) {
      var build := BuildSpec(request, events);
      var update := if build.batch.events == [] then EMPTY_UPDATE else Extracted(model, fallback, build.batch);
      && result.nextCursor == build.nextCursor && result.sessionId == build.sessionId
      && result.processedEvents == AsInt32(|build.batch.events|)
      && result.savedSummaries
         == (if build.batch.events == [] then 0 else 1 + |update.topicSummaries| + |update.profileSummaries|)
      && result.savedEntities == |update.entities|
      && result.savedRelations == |update.relations|
      && result.fallbackUsed == (build.batch.events != [] && UsesFallback(model, fallback, build.batch))
    }
  }

  lemma BatchHasCursor(request: MemoryConsolidationRequest, events: seq<MemoryEvent>)
    ensures BuildSpec(request, events).batch.events != [] ==> BuildSpec(request, events).nextCursor != ""
  {
  }

  /** The tables after a run hold the records of the right source. */
  lemma ExtractionDecides(service: ConsolidationService, t: Tables, request: MemoryConsolidationRequest,
                          build: BuildResult, model: Option<Processor>)
    ensures service.WritesChosen(t, service.TablesAfter(t, request, build, model), request, build, model)
  {
    if model.None? || !HasRecords(model.value(build.batch)) {
      var session := AddSummary(t.summaries, request.agentId, build.sessionId, "session", "conversation",
                                build.sessionSummary, 0.5, build.sessionSourceRefs);
      var update := if model.Some? then model.value(build.batch) else EMPTY_UPDATE;
      EmptyUpdateWritesNothing(t.(summaries := session), request.agentId, build.sessionId, update,
                               build.batch.sourceRefs);
    }
    hide SaveUpdate;
  }

  /** The report against the tables: saved summaries and relations are the rows added, saved entities
      bound the entity rows added, and the fallback is reported exactly if its records were written. */
  lemma ReportMatchesTables(service: ConsolidationService, result: ConsolidationResult, t: Tables,
                            request: MemoryConsolidationRequest, events: seq<MemoryEvent>, model: Option<Processor>)
    requires service.Accounted(result, request, events, model)
    requires EntityRowIds(t.entities) && RelationIds(t.relations)
    ensures var build := BuildSpec(request, events);
      var u := service.TablesAfter(t, request, build, model);
      && result.nextCursor == build.nextCursor && result.sessionId == request.sessionId
      && result.processedEvents == AsInt32(|build.batch.events|)
      && |u.summaries| == |t.summaries| + result.savedSummaries
      && |u.relations| == |t.relations| + result.savedRelations
      && |t.entities| <= |u.entities| <= |t.entities| + result.savedEntities
    ensures var batch := BuildSpec(request, events).batch;
      var fromModel := model.Some? && 0 < Size(model.value(batch));
      && (result.fallbackUsed <==> batch.events != [] && service.fallback.Some? && !fromModel)
      && result.savedEntities == if batch.events == [] then 0
                                 else if fromModel then |model.value(batch).entities|
                                 else if service.fallback.Some? then |service.fallback.value(batch).entities|
                                 else 0
  {
    var build := BuildSpec(request, events);
    WrittenCounts(t, request.agentId, build, Extracted(model, service.fallback, build.batch));
    assert build.sessionId == request.sessionId;
    hide Written, BuildSpec, EntityRowIds, RelationIds;
  }
}
