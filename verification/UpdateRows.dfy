/** What writing an update leaves in each table, row by row. */
module UpdateRows {
  import opened Json
  import opened Records
  import opened Kernel
  import opened MemoryUpdate

  // ----- Summaries -----

  lemma {:induction false} AddedRow(rows: seq<SummaryRow>, agentId: string, sessionId: string, level: string,
                                    topic: string, texts: seq<string>, confidence: real, refs: seq<string>, i: nat)
    requires i < |texts|
    ensures AddSummaries(rows, agentId, sessionId, level, topic, texts, confidence, refs)[|rows| + i]
         == SummaryRow(|rows| + i + 1, agentId, sessionId, level, topic, texts[i], confidence, refs)
  {
    if i < |texts| - 1 {
      AddedRow(rows, agentId, sessionId, level, topic, texts[..|texts| - 1], confidence, refs, i);
    }
  }

  lemma {:induction false} RelationsKeepSummaries(t: Tables, agentId: string, rs: seq<MemoryRelation>)
    ensures WriteRelations(t, agentId, rs).summaries == t.summaries
  {
    if rs != [] {
      RelationsKeepSummaries(t, agentId, rs[..|rs| - 1]);
    }
  }

  /** The summary rows of an update come last: one per topic text, then one per profile text. */
  lemma SummaryRowsWritten(t: Tables, agentId: string, sessionId: string, update: LongTermMemoryUpdate,
                           refs: seq<string>, i: nat)
    ensures var rows, n, k := SaveUpdate(t, agentId, sessionId, update, refs).summaries, |t.summaries|,
                              |update.topicSummaries|;
      && |rows| == n + k + |update.profileSummaries| && t.summaries <= rows
      && (i < k ==>
            rows[n + i]
            == SummaryRow(n + i + 1, agentId, sessionId, "topic", "auto", update.topicSummaries[i], 0.5, refs))
      && (i < |update.profileSummaries| ==>
            rows[n + k + i]
            == SummaryRow(n + k + i + 1, agentId, sessionId, "profile", "user", update.profileSummaries[i], 0.6, refs))
  {
    hide AddSummaries, WriteEntities, WriteRelations;
    var topics := AddSummaries(t.summaries, agentId, sessionId, "topic", "auto", update.topicSummaries, 0.5, refs);
    RelationsKeepSummaries(Tables(WriteSummaries(t.summaries, agentId, sessionId, update, refs),
                                  WriteEntities(t.entities, agentId, update.entities), t.relations),
                           agentId, update.relations);
    if i < |update.topicSummaries| {
      AddedRow(t.summaries, agentId, sessionId, "topic", "auto", update.topicSummaries, 0.5, refs, i);
    }
    if i < |update.profileSummaries| {
      AddedRow(topics, agentId, sessionId, "profile", "user", update.profileSummaries, 0.6, refs, i);
    }
  }

  // ----- Entities and relations -----

  /** The entities and relations of an update are saved one after the other, those without an agent for
      the agent being consolidated. */
  lemma SavedInOrder(t: Tables, agentId: string, es: seq<MemoryEntity>, e: MemoryEntity, rs: seq<MemoryRelation>,
                     r: MemoryRelation)
    ensures WriteEntities(t.entities, agentId, []) == t.entities && WriteRelations(t, agentId, []) == t
    ensures WriteEntities(t.entities, agentId, es + [e])
         == SaveEntity(WriteEntities(t.entities, agentId, es),
                       e.(agentId := if e.agentId == "" then agentId else e.agentId))
    ensures var before, after := WriteRelations(t, agentId, rs), WriteRelations(t, agentId, rs + [r]);
      && after.relations
         == SaveRelationRows(before.relations, r.(agentId := if r.agentId == "" then agentId else r.agentId))
      && after.entities == (if r.relationType == "supersedes"
                            then MarkObsolete(before.entities, r.toEntityId, r.fromEntityId)
                            else before.entities)
  {
    assert (es + [e])[..|es|] == es && (rs + [r])[..|rs|] == rs;
    SecondMarkIsRedundant(WriteEntities(t.entities, agentId, es), EntityFor(agentId, e));
    hide SaveEntity, WriteEntity, MarkObsolete, SaveRelationRows;
  }

  /** A row that is not saved again keeps everything but its link. */
  ghost predicate SameRow(before: Entities, after: Entities, id: string) {
    && (id in before <==> id in after)
    && (id in before ==>
          after[id] == before[id].(active := after[id].active, supersededBy := after[id].supersededBy))
  }

  lemma OneSaveKeepsRow(m: Entities, e: MemoryEntity, id: string)
    requires id != e.id
    ensures SameRow(m, SaveEntity(m, e), id)
  {
    SaveEntityEffect(m, e, id);
    hide SaveEntity;
  }

  lemma {:induction false} OthersKeepRow(m: Entities, agentId: string, es: seq<MemoryEntity>, id: string)
    requires forall j :: 0 <= j < |es| ==> es[j].id != id
    ensures SameRow(m, WriteEntities(m, agentId, es), id)
  {
    if es != [] {
      var front, e := es[..|es| - 1], EntityFor(agentId, es[|es| - 1]);
      OthersKeepRow(m, agentId, front, id);
      SecondMarkIsRedundant(WriteEntities(m, agentId, front), e);
      OneSaveKeepsRow(WriteEntities(m, agentId, front), e, id);
      hide SaveEntity, WriteEntity;
    }
  }

  lemma {:induction false} RelationsKeepRow(t: Tables, agentId: string, rs: seq<MemoryRelation>, id: string)
    ensures SameRow(t.entities, WriteRelations(t, agentId, rs).entities, id)
  {
    if rs != [] {
      RelationsKeepRow(t, agentId, rs[..|rs| - 1], id);
    }
  }

  /** The row holds what the entity gives, apart from the link. */
  ghost predicate Holds(m: Entities, agentId: string, e: MemoryEntity) {
    && e.id in m
    && var row := m[e.id];
    && row.agentId == (if e.agentId == "" then agentId else e.agentId)
    && row.entityType == e.entityType && row.name == e.name && row.summary == e.summary
    && row.confidence == e.confidence && row.sourceRefs == e.sourceRefs
    && row.metadata == (if e.metadata.JObject? then e.metadata else JObject(map[]))
  }

  /** The row holds what the relation gives, apart from its activity. */
  predicate HoldsRelation(row: RelationRow, id: nat, agentId: string, r: MemoryRelation) {
    row == RelationRow(id, if r.agentId == "" then agentId else r.agentId, r.fromEntityId, r.relationType, r.toEntityId,
                       r.confidence, r.sourceRefs, RelationMetadata(r), row.active)
  }

  predicate LastWithId(es: seq<MemoryEntity>, i: nat) {
    i < |es| && forall j :: i < j < |es| ==> es[j].id != es[i].id
  }

  lemma SavedHolds(m: Entities, agentId: string, e: MemoryEntity)
    ensures Holds(WriteEntity(m, EntityFor(agentId, e)), agentId, e)
  {
    SecondMarkIsRedundant(m, EntityFor(agentId, e));
    SaveEntityEffect(m, EntityFor(agentId, e), e.id);
    hide SaveEntity, WriteEntity;
  }

  lemma {:induction false} LastHolds(m: Entities, agentId: string, es: seq<MemoryEntity>, i: nat)
    requires LastWithId(es, i)
    ensures Holds(WriteEntities(m, agentId, es), agentId, es[i])
  {
    var front, last := es[..|es| - 1], es[|es| - 1];
    var before := WriteEntities(m, agentId, front);
    if i == |front| {
      SavedHolds(before, agentId, last);
    } else {
      LastHolds(m, agentId, front, i);
      SecondMarkIsRedundant(before, EntityFor(agentId, last));
      OneSaveKeepsRow(before, EntityFor(agentId, last), es[i].id);
    }
    hide SaveEntity, WriteEntity;
  }

  /** The relation rows of an update come last, one per relation; all rows keep everything but their
      activity. */
  lemma {:induction false} RelationRowsWritten(t: Tables, agentId: string, rs: seq<MemoryRelation>, i: nat)
    ensures var rows, n := WriteRelations(t, agentId, rs).relations, |t.relations|;
      && |rows| == n + |rs|
      && (i < n ==> rows[i] == t.relations[i].(active := rows[i].active))
      && (i < |rs| ==> HoldsRelation(rows[n + i], n + i + 1, agentId, rs[i]))
  {
    if rs != [] {
      var front, r := rs[..|rs| - 1], RelationFor(agentId, rs[|rs| - 1]);
      var before, rows := WriteRelations(t, agentId, front).relations, WriteRelations(t, agentId, rs).relations;
      RelationRowsWritten(t, agentId, front, i);
      LastRelationRow(before, r);
      assert rows == SaveRelationRows(before, r);
      assert i < |front| ==> front[i] == rs[i];
      hide SaveRelationRows, WriteRelations, RelationMetadata;
      if i < |before| {
        SaveRelationEffect(before, r, i);
      }
      if |t.relations| + i < |before| {
        SaveRelationEffect(before, r, |t.relations| + i);
      }
    }
  }

  lemma LastRelationRow(rows: seq<RelationRow>, r: MemoryRelation)
    ensures SaveRelationRows(rows, r)[|rows|] == RelationRowFor(|rows| + 1, r)
    ensures |SaveRelationRows(rows, r)| == |rows| + 1
  {
  }

  /** After an update, the row of an id it mentions holds what the last entity with that id gives; any
      other row is there exactly if it was before, and only its link may have changed. Relation rows come
      last, one per relation, and older ones change only their activity. */
  lemma UpdateRecords(t: Tables, agentId: string, sessionId: string, update: LongTermMemoryUpdate, refs: seq<string>,
                      id: string, i: nat)
    ensures var m := SaveUpdate(t, agentId, sessionId, update, refs).entities;
      && ((forall j :: 0 <= j < |update.entities| ==> update.entities[j].id != id) ==> SameRow(t.entities, m, id))
      && (LastWithId(update.entities, i) ==> Holds(m, agentId, update.entities[i]))
    ensures var rows, n := SaveUpdate(t, agentId, sessionId, update, refs).relations, |t.relations|;
      && |rows| == n + |update.relations|
      && (i < n ==> rows[i] == t.relations[i].(active := rows[i].active))
      && (i < |update.relations| ==> HoldsRelation(rows[n + i], n + i + 1, agentId, update.relations[i]))
  {
    hide WriteEntities, WriteRelations, WriteSummaries;
    var es := update.entities;
    var mid := Tables(WriteSummaries(t.summaries, agentId, sessionId, update, refs),
                      WriteEntities(t.entities, agentId, es), t.relations);
    RelationRowsWritten(mid, agentId, update.relations, i);
    if forall j :: 0 <= j < |es| ==> es[j].id != id {
      OthersKeepRow(t.entities, agentId, es, id);
      RelationsKeepRow(mid, agentId, update.relations, id);
    }
    if LastWithId(es, i) {
      LastHolds(t.entities, agentId, es, i);
      RelationsKeepRow(mid, agentId, update.relations, es[i].id);
    }
  }
}
