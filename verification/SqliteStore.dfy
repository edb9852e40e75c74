/** The store: tables, indexes and cursors changed in place by statements that may each fail. */
module SqliteStore {
  import opened Sequences
  import opened CursorText
  import opened Json
  import opened Records
  import opened EventLog
  import opened Kernel
  import opened MemoryUpdate
  import opened FullText

  datatype EventRow = EventRow(id: int, event: MemoryEvent)

  /** An event as it is stored: metadata that is not an object becomes an empty one. */
  function EventRowFor(id: int, event: MemoryEvent): EventRow {
    EventRow(id, event.(metadata := JsonObject(event.metadata)))
  }

  function ReadEventRow(row: EventRow): MemoryEvent {
    row.event.(storeCursor := ToText(row.id))
  }

  /** The whole database, as a transaction saves and restores it. */
  datatype Db = Db(
    events: seq<EventRow>,
    payloads: map<string, MemoryPayloadRef>,
    tables: Tables,
    cursors: map<Scope, int>,
    summaryIndex: Index,
    entityIndex: Index,
    relationIndex: Index)

  ghost predicate ValidEvents(rows: seq<EventRow>) {
    |rows| <= INT64_MAX && forall i :: 0 <= i < |rows| ==> rows[i].id == i + 1
  }

  ghost predicate ValidSummaries(tok: Tokenizer, ix: Index, rows: seq<SummaryRow>) {
    && (forall i :: 0 <= i < |rows| ==> rows[i].id == i + 1)
    && Indexed(tok, ix, Map(SummaryColumns, rows))
  }

  ghost predicate ValidEntities(tok: Tokenizer, ix: Index, m: Entities) {
    ActiveEntitiesUnique(m) && EntitiesIndexed(tok, ix, m)
  }

  ghost predicate ValidRelations(tok: Tokenizer, ix: Index, rows: seq<RelationRow>) {
    RelationIds(rows) && ActiveRelationsUnique(rows) && Indexed(tok, ix, Map(RelationColumns, rows))
  }

  ghost predicate ValidCursors(cursors: map<Scope, int>) {
    forall scope :: scope in cursors ==> IsInt64(cursors[scope])
  }

  ghost predicate ValidDb(tok: Tokenizer, db: Db) {
    && ValidEvents(db.events)
    && ValidSummaries(tok, db.summaryIndex, db.tables.summaries)
    && ValidEntities(tok, db.entityIndex, db.tables.entities)
    && ValidRelations(tok, db.relationIndex, db.tables.relations)
    && ValidCursors(db.cursors)
  }

  lemma {:induction false} HistoryIsValidLog(rows: seq<EventRow>)
    requires ValidEvents(rows)
    ensures var history := Map(ReadEventRow, rows);
      && ValidLog(history)
      && forall i :: 0 <= i < |rows| ==> EventId(history[i]) == rows[i].id
  {
    var history := Map(ReadEventRow, rows);
    forall i | 0 <= i < |rows| ensures EventId(history[i]) == i + 1 && history[i].storeCursor == ToText(i + 1) {
      CursorRoundTrip(rows[i].id);
    }
    hide CursorToInt, ToText;
  }

  class MemorySqliteStore {
    const tokenize: Tokenizer
    var events: seq<EventRow>
    var payloads: map<string, MemoryPayloadRef>
    var summaries: seq<SummaryRow>
    var entities: Entities
    var relations: seq<RelationRow>
    var cursors: map<Scope, int>
    var summaryIndex: Index
    var entityIndex: Index
    var relationIndex: Index
    /** The state to return to while a transaction is open. */
    var saved: Option<Db>

    function Contents(): Db
      reads this
    {
      Db(events, payloads, Tables(summaries, entities, relations), cursors, summaryIndex, entityIndex, relationIndex)
    }

    /** The long-term tables on their own. */
    function LongTerm(): Tables
      reads this
    {
      Tables(summaries, entities, relations)
    }

    /** The event table as the loaders return it. */
    function History(): seq<MemoryEvent>
      reads this
    {
      Map(ReadEventRow, events)
    }

    /** Ids, uniqueness of active rows, and indexes in step, now and in the open transaction's snapshot. */
    ghost predicate Valid()
      reads this
    {
      ValidDb(tokenize, Contents()) && (saved.Some? ==> ValidDb(tokenize, saved.value))
    }

    constructor (tokenize: Tokenizer)
      ensures Valid() && saved.None? && events == [] && cursors == map[] && payloads == map[]
      ensures History() == [] && LongTerm() == Tables([], map[], [])
    {
      this.tokenize := tokenize;
      events, payloads, summaries, entities, relations, cursors := [], map[], [], map[], [], map[];
      summaryIndex, entityIndex, relationIndex, saved := map[], map[], map[], None;
    }

    /** Running a prepared statement: any statement may fail, and then has no effect. */
    method Step() returns (ok: bool)
    {
      ok := *;
    }

    // ----- Events, payload rows and cursors -----

    /** A saved event reads back as it was given, except that its cursor is the new row's id and metadata
        that is not an object has become an empty one. */
    method SaveEvent(event: MemoryEvent) returns (ok: bool)
      requires Valid()
      modifies `events
      ensures Valid()
      ensures ok ==> |old(events)| < INT64_MAX
      ensures events == if ok then old(events) + [EventRowFor(|old(events)| + 1, event)] else old(events)
      ensures ok ==>
           History()
           == old(History()) + [event.(storeCursor := ToText(|old(events)| + 1),
                                       metadata := if event.metadata.JObject? then event.metadata else JObject(map[]))]
    {
      hide ToText;
      MapAppend(ReadEventRow, events, EventRowFor(|events| + 1, event));
      ok := Step();
      // AUTOINCREMENT refuses to wrap around.
      if |events| >= INT64_MAX {
        ok := false;
      }
      if ok {
        events := events + [EventRowFor(|events| + 1, event)];
      }
    }

    method SavePayload(payload: MemoryPayloadRef) returns (ok: bool)
      requires Valid()
      modifies `payloads
      ensures Valid()
      ensures payloads == if ok then old(payloads)[payload.uri := payload] else old(payloads)
    {
      ok := Step();
      if ok {
        payloads := payloads[payload.uri := payload];
      }
    }

    method LoadConsolidationCursor(agentId: string, sessionId: string) returns (ok: bool, cursor: string)
      requires Valid()
      ensures ok ==>
        var scope := Scope(agentId, sessionId); cursor == if scope in cursors then ToText(cursors[scope]) else ""
    {
      cursor := "";
      ok := Step();
      if ok && Scope(agentId, sessionId) in cursors {
        cursor := ToText(cursors[Scope(agentId, sessionId)]);
      }
    }

    method SaveConsolidationCursor(agentId: string, sessionId: string, cursor: string) returns (ok: bool)
      requires Valid()
      modifies `cursors
      ensures Valid()
      ensures cursors == if ok then old(cursors)[Scope(agentId, sessionId) := CursorToInt(cursor)] else old(cursors)
    {
      ok := Step();
      if ok {
        cursors := cursors[Scope(agentId, sessionId) := CursorToInt(cursor)];
      }
    }

    /** Takes the namespaces and the exclusion list of a request, and the cursor to start after. */
    method LoadEventsAfterCursor(request: MemoryConsolidationRequest, cursor: string) returns (ok: bool,
                                 loaded: seq<MemoryEvent>)
      requires Valid()
      ensures ok ==> loaded == LoadEvents(History(), request, cursor)
    {
      HistoryIsValidLog(events);
      hide CursorToInt, ToText, ValidDb, Filter;
      var after := CursorToInt(cursor);
      loaded := [];
      ok := Step();
      if !ok {
        return;
      }
      var i := 0;
      assert Filter(SelectedAfter(request, after), History()[..0]) == [] by {
        FilterNone(SelectedAfter(request, after), History()[..0]);
      }
      while i < |events|
        invariant 0 <= i <= |events|
        invariant loaded == Filter(SelectedAfter(request, after), History()[..i])
      {
        var row := events[i];
        FilterOneMore(SelectedAfter(request, after), History(), i);
        if after < row.id && row.event.agentId == request.agentId
          && (if request.sessionId != "" then row.event.sessionId == request.sessionId
              else row.event.sessionId !in request.excludedSessionIds)
        {
          loaded := loaded + [ReadEventRow(row)];
        }
        i := i + 1;
      }
      assert History()[..|events|] == History();
      ok := Step();
    }

    // ----- Long-term rows -----

    method InsertSummary(row: SummaryRow)
      requires row.id == |summaries| + 1 && ValidSummaries(tokenize, summaryIndex, summaries)
      modifies `summaries, `summaryIndex
      ensures summaries == old(summaries) + [row] && ValidSummaries(tokenize, summaryIndex, summaries)
    {
      hide Indexed, IndexInsert, Tokens, SummaryColumns;
      AppendKeepsIndexed(tokenize, summaryIndex, Map(SummaryColumns, summaries), SummaryColumns(row));
      MapAppend(SummaryColumns, summaries, row);
      summaryIndex := IndexInsert(summaryIndex, row.id, Tokens(tokenize, SummaryColumns(row)));
      summaries := summaries + [row];
    }

    method SaveSummary(agentId: string, sessionId: string, level: string, topic: string, summary: string,
                       confidence: real, sourceRefs: seq<string>) returns (ok: bool)
      requires Valid()
      modifies `summaries, `summaryIndex
      ensures Valid()
      ensures summaries == old(summaries) + if ok
        then [SummaryRow(|old(summaries)| + 1, agentId, sessionId, level, topic, summary, confidence, sourceRefs)]
        else []
      ensures !ok ==> summaryIndex == old(summaryIndex)
    {
      hide ValidSummaries, ValidEntities, ValidRelations, ValidEvents, ValidCursors;
      ok := Step();
      if ok {
        InsertSummary(SummaryRow(|summaries| + 1, agentId, sessionId, level, topic, summary, confidence, sourceRefs));
      }
    }

    /** Updates one entity row and fires its trigger. */
    method UpdateEntityRow(id: string, row: EntityRow)
      requires EntitiesIndexed(tokenize, entityIndex, entities)
      requires id in entities && row.rowid == entities[id].rowid
      modifies `entities, `entityIndex
      ensures EntitiesIndexed(tokenize, entityIndex, entities)
      ensures entities == old(entities)[id := row]
    {
      UpdateKeepsEntitiesIndexed(tokenize, entityIndex, entities, id, row);
      hide EntitiesIndexed, IndexUpdate;
      entityIndex := IndexUpdate(tokenize, entityIndex, row.rowid, EntityColumns(entities[id]), EntityColumns(row));
      entities := entities[id := row];
    }

    /** The multi-row UPDATE: rows are visited in no particular order, each firing its trigger. */
    method ObsoleteDuplicates(e: MemoryEntity)
      requires EntitiesIndexed(tokenize, entityIndex, entities)
      modifies `entities, `entityIndex
      ensures EntitiesIndexed(tokenize, entityIndex, entities)
      ensures entities == MarkDuplicates(old(entities), e)
    {
      hide EntitiesIndexed, IsDuplicate;
      var todo := entities.Keys;
      while todo != {}
        invariant todo <= entities.Keys == old(entities).Keys
        invariant forall id :: id in todo ==> entities[id] == old(entities)[id]
        invariant forall id :: id in entities && id !in todo ==>
          entities[id] == ObsoleteIfDuplicate(id, old(entities)[id], e)
        invariant EntitiesIndexed(tokenize, entityIndex, entities)
        decreases |todo|
      {
        var id :| id in todo;
        todo := todo - {id};
        if IsDuplicate(id, entities[id], e) {
          UpdateEntityRow(id, Obsolete(entities[id], e.id));
        }
      }
      assert entities == MarkDuplicates(old(entities), e);
    }

    method MarkDuplicateEntitiesObsolete(e: MemoryEntity) returns (ok: bool)
      requires Valid()
      modifies `entities, `entityIndex
      ensures Valid()
      ensures entities == if ok then MarkDuplicates(old(entities), e) else old(entities)
      ensures !ok ==> entityIndex == old(entityIndex)
    {
      if e.id == "" || e.agentId == "" || e.entityType == "" || e.name == "" {
        assert MarkDuplicates(entities, e) == entities;
        return true;
      }
      DuplicatesKeepEntitiesUnique(entities, e);
      hide EntitiesIndexed, ActiveEntitiesUnique, ValidSummaries, ValidRelations, ValidEvents, ValidCursors,
        MarkDuplicates;
      ok := Step();
      if ok {
        ObsoleteDuplicates(e);
      }
    }

    /** The row part of INSERT ... ON CONFLICT(id) DO UPDATE: an existing row keeps its row id and
        fires the update trigger, a new one the insert trigger. */
    method PutEntityRow(e: MemoryEntity)
      requires EntitiesIndexed(tokenize, entityIndex, entities)
      modifies `entities, `entityIndex
      ensures EntitiesIndexed(tokenize, entityIndex, entities)
      ensures entities == Upsert(old(entities), e)
    {
      var row := RowFor(if e.id in entities then entities[e.id].rowid else |entities| + 1, e);
      hide EntitiesIndexed, IndexInsert, Tokens;
      if e.id in entities {
        UpdateEntityRow(e.id, row);
      } else {
        InsertKeepsEntitiesIndexed(tokenize, entityIndex, entities, e.id, row);
        entityIndex := IndexInsert(entityIndex, row.rowid, Tokens(tokenize, EntityColumns(row)));
        entities := entities[e.id := row];
      }
    }

    method UpsertEntity(e: MemoryEntity) returns (ok: bool)
      requires Valid() && ActiveEntitiesUnique(Upsert(entities, e))
      modifies `entities, `entityIndex
      ensures Valid()
      ensures entities == if ok then Upsert(old(entities), e) else old(entities)
      ensures !ok ==> entityIndex == old(entityIndex)
    {
      hide ValidSummaries, ValidRelations, ValidEvents, ValidCursors, ActiveEntitiesUnique, EntitiesIndexed, Upsert;
      ok := Step();
      if ok {
        PutEntityRow(e);
      }
    }

    method MarkEntityObsolete(id: string, successor: string) returns (ok: bool)
      requires Valid()
      modifies `entities, `entityIndex
      ensures Valid()
      ensures entities == if ok then MarkObsolete(old(entities), id, successor) else old(entities)
      ensures !ok ==> entityIndex == old(entityIndex)
    {
      ok := Step();
      if ok && id in entities {
        MarkKeepsEntitiesUnique(entities, id, successor);
        hide ValidSummaries, ValidRelations, ValidEvents, ValidCursors, ActiveEntitiesUnique, EntitiesIndexed;
        UpdateEntityRow(id, Obsolete(entities[id], successor));
      }
    }

    /** On failure the statements that ran before the failing one stay in effect; a surrounding
        transaction is what undoes them. */
    method SaveEntity(e: MemoryEntity) returns (ok: bool)
      requires Valid()
      modifies `entities, `entityIndex
      ensures Valid()
      ensures ok ==> entities == Kernel.SaveEntity(old(entities), e)
      ensures !ok ==>
        entities in {old(entities), MarkDuplicates(old(entities), e), Upsert(MarkDuplicates(old(entities), e), e)}
    {
      DuplicatesKeepEntitiesUnique(entities, e);
      hide ValidDb, ActiveEntitiesUnique, MarkDuplicates, Upsert, MarkObsolete;
      ok := MarkDuplicateEntitiesObsolete(e);
      if !ok {
        return;
      }
      ok := UpsertEntity(e);
      if !ok {
        return;
      }
      if e.supersededEntityId != "" {
        ok := MarkEntityObsolete(e.supersededEntityId, e.id);
      }
    }

    /** Deactivates every active row of the same relation, firing the trigger of each. */
    method DeactivateRelations(r: MemoryRelation)
      requires RelationIds(relations) && Indexed(tokenize, relationIndex, Map(RelationColumns, relations))
      modifies `relations, `relationIndex
      ensures relations == DeactivateSame(old(relations), r)
      ensures RelationIds(relations) && Indexed(tokenize, relationIndex, Map(RelationColumns, relations))
    {
      ghost var docs := Map(RelationColumns, relations);
      hide Indexed, IndexUpdate, RelationColumns, SameRelation;
      var i := 0;
      while i < |relations|
        invariant 0 <= i <= |relations| == |old(relations)|
        invariant forall k :: 0 <= k < i ==> relations[k] == Deactivated(old(relations)[k], r)
        invariant forall k :: i <= k < |relations| ==> relations[k] == old(relations)[k]
        invariant Indexed(tokenize, relationIndex, docs)
      {
        var row := relations[i];
        if SameRelation(row, r) && row.active {
          TouchKeepsIndexed(tokenize, relationIndex, docs, row.id);
          relationIndex := IndexUpdate(tokenize, relationIndex, row.id, RelationColumns(row), RelationColumns(row));
          relations := relations[i := row.(active := false)];
        }
        i := i + 1;
      }
      DeactivateKeepsDocs(old(relations), r);
      assert relations == DeactivateSame(old(relations), r);
    }

    method InsertRelation(r: MemoryRelation)
      requires RelationIds(relations) && Indexed(tokenize, relationIndex, Map(RelationColumns, relations))
      modifies `relations, `relationIndex
      ensures relations == old(relations) + [RelationRowFor(|old(relations)| + 1, r)]
      ensures RelationIds(relations) && Indexed(tokenize, relationIndex, Map(RelationColumns, relations))
    {
      hide Indexed, IndexInsert, Tokens, RelationColumns, RelationMetadata;
      var row := RelationRowFor(|relations| + 1, r);
      AppendKeepsIndexed(tokenize, relationIndex, Map(RelationColumns, relations), RelationColumns(row));
      MapAppend(RelationColumns, relations, row);
      relationIndex := IndexInsert(relationIndex, row.id, Tokens(tokenize, RelationColumns(row)));
      relations := relations + [row];
    }

    method SaveRelation(r: MemoryRelation) returns (ok: bool)
      requires Valid()
      modifies `relations, `relationIndex, `entities, `entityIndex
      ensures Valid()
      ensures ok ==> LongTerm() == WriteRelation(old(LongTerm()), r)
      ensures !ok ==> entities == old(entities) && entityIndex == old(entityIndex)
      ensures !ok ==>
        relations in {old(relations), DeactivateSame(old(relations), r), SaveRelationRows(old(relations), r)}
    {
      DeactivateKeepsUnique(relations, r);
      SaveKeepsRelationsUnique(relations, r);
      hide ValidEntities, ValidSummaries, ValidEvents, ValidCursors, ActiveRelationsUnique, MarkObsolete,
        DeactivateSame, RelationIds, Indexed, RelationRowFor;
      ok := Step();
      if !ok {
        return;
      }
      DeactivateRelations(r);
      ok := Step();
      if !ok {
        return;
      }
      assert |relations| == |old(relations)| by {
        DeactivateKeepsDocs(old(relations), r);
      }
      InsertRelation(r);
      if r.relationType == "supersedes" {
        ok := MarkEntityObsolete(r.toEntityId, r.fromEntityId);
      }
    }

    // ----- Transactions -----

    method Begin() returns (ok: bool)
      requires Valid() && saved.None?
      modifies `saved
      ensures Valid()
      ensures saved == if ok then Some(old(Contents())) else None
    {
      ok := Step();
      if ok {
        saved := Some(Contents());
      }
    }

    method Commit() returns (ok: bool)
      requires Valid() && saved.Some?
      modifies `saved
      ensures Valid()
      ensures saved == if ok then None else old(saved)
    {
      ok := Step();
      if ok {
        saved := None;
      }
    }

    method Rollback()
      requires Valid() && saved.Some?
      modifies this
      ensures Valid() && saved.None?
      ensures Contents() == old(saved.value)
    {
      hide ValidDb;
      var db := saved.value;
      events, payloads, cursors := db.events, db.payloads, db.cursors;
      summaries, entities, relations := db.tables.summaries, db.tables.entities, db.tables.relations;
      summaryIndex, entityIndex, relationIndex := db.summaryIndex, db.entityIndex, db.relationIndex;
      saved := None;
      assert Contents() == db;
    }
  }

  /** In every state a store can be in, each full-text query returns the rows a scan would. */
  lemma SearchIsScan(store: MemorySqliteStore, query: Query, agentId: string, sessionId: string)
    requires store.Valid()
    ensures MatchEntities(store.entityIndex, store.entities, query, agentId)
         == ScanEntities(store.tokenize, store.entities, query, agentId)
    ensures MatchRelations(store.relationIndex, store.relations, query, agentId)
         == ScanRelations(store.tokenize, store.relations, query, agentId)
    ensures MatchSummaries(store.summaryIndex, store.summaries, query, agentId, sessionId)
         == ScanSummaries(store.tokenize, store.summaries, query, agentId, sessionId)
  {
    EntityMatchIsScan(store.tokenize, store.entityIndex, store.entities, query, agentId);
    RelationMatchIsScan(store.tokenize, store.relationIndex, store.relations, query, agentId);
    SummaryMatchIsScan(store.tokenize, store.summaryIndex, store.summaries, query, agentId, sessionId);
  }

  lemma DeactivateKeepsDocs(rows: seq<RelationRow>, r: MemoryRelation)
    ensures |DeactivateSame(rows, r)| == |rows|
    ensures Map(RelationColumns, DeactivateSame(rows, r)) == Map(RelationColumns, rows)
  {
  }

  lemma DeactivateKeepsUnique(rows: seq<RelationRow>, r: MemoryRelation)
    requires ActiveRelationsUnique(rows)
    ensures ActiveRelationsUnique(DeactivateSame(rows, r))
  {
  }
}
