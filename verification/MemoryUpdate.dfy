/** The effect of writing one consolidation update on the long-term tables. */
module MemoryUpdate {
  import opened Records
  import opened Kernel

  datatype Tables = Tables(summaries: seq<SummaryRow>, entities: Entities, relations: seq<RelationRow>)

  function AddSummary(rows: seq<SummaryRow>, agentId: string, sessionId: string, level: string, topic: string,
                      summary: string, confidence: real, sourceRefs: seq<string>): seq<SummaryRow> {
    rows + [SummaryRow(|rows| + 1, agentId, sessionId, level, topic, summary, confidence, sourceRefs)]
  }

  function AddSummaries(rows: seq<SummaryRow>, agentId: string, sessionId: string, level: string, topic: string,
                        texts: seq<string>, confidence: real, sourceRefs: seq<string>): (added: seq<SummaryRow>)
    ensures |added| == |rows| + |texts| && rows <= added
  {
    if texts == [] then rows
    else
      AddSummary(AddSummaries(rows, agentId, sessionId, level, topic, texts[..|texts| - 1], confidence, sourceRefs),
                 agentId, sessionId, level, topic, texts[|texts| - 1], confidence, sourceRefs)
  }

  /** Extracted records without an agent belong to the agent being consolidated. */
  function EntityFor(agentId: string, e: MemoryEntity): MemoryEntity {
    if e.agentId == "" then e.(agentId := agentId) else e
  }

  function RelationFor(agentId: string, r: MemoryRelation): MemoryRelation {
    if r.agentId == "" then r.(agentId := agentId) else r
  }

  /** The writer repeats the obsoleting that saving the entity already did. */
  function WriteEntity(m: Entities, e: MemoryEntity): Entities {
    var saved := SaveEntity(m, e);
    if e.supersededEntityId == "" then saved else MarkObsolete(saved, e.supersededEntityId, e.id)
  }

  function WriteEntities(m: Entities, agentId: string, es: seq<MemoryEntity>): Entities {
    if es == [] then m
    else WriteEntity(WriteEntities(m, agentId, es[..|es| - 1]), EntityFor(agentId, es[|es| - 1]))
  }

  function WriteRelation(t: Tables, r: MemoryRelation): Tables {
    t.(relations := SaveRelationRows(t.relations, r), entities := SaveRelationEntities(t.entities, r))
  }

  function WriteRelations(t: Tables, agentId: string, rs: seq<MemoryRelation>): Tables {
    if rs == [] then t
    else WriteRelation(WriteRelations(t, agentId, rs[..|rs| - 1]), RelationFor(agentId, rs[|rs| - 1]))
  }

  function WriteSummaries(rows: seq<SummaryRow>, agentId: string, sessionId: string, update: LongTermMemoryUpdate,
                          sourceRefs: seq<string>): seq<SummaryRow> {
    AddSummaries(AddSummaries(rows, agentId, sessionId, "topic", "auto", update.topicSummaries, 0.5, sourceRefs),
                 agentId, sessionId, "profile", "user", update.profileSummaries, 0.6, sourceRefs)
  }

  function SaveUpdate(t: Tables, agentId: string, sessionId: string, update: LongTermMemoryUpdate,
                      sourceRefs: seq<string>): Tables {
    WriteRelations(Tables(WriteSummaries(t.summaries, agentId, sessionId, update, sourceRefs),
                          WriteEntities(t.entities, agentId, update.entities),
                          t.relations),
                   agentId, update.relations)
  }

  /** The repeated obsoleting changes nothing. */
  lemma SecondMarkIsRedundant(m: Entities, e: MemoryEntity)
    ensures WriteEntity(m, e) == SaveEntity(m, e)
  {
    var saved := SaveEntity(m, e);
    if e.supersededEntityId != "" && e.supersededEntityId in saved {
      assert saved[e.supersededEntityId] == Obsolete(saved[e.supersededEntityId], e.id);
    }
  }

  // ----- Accounting -----

  lemma WriteEntityCounted(m: Entities, e: MemoryEntity)
    requires EntityRowIds(m)
    ensures var t := WriteEntity(m, e);
      && EntityRowIds(t) && t.Keys == m.Keys + {e.id} && |m| <= |t| <= |m| + 1
  {
    SaveKeepsRowIds(m, e);
    MarkKeepsRowIds(SaveEntity(m, e), e.supersededEntityId, e.id);
  }

  lemma {:induction false} EntitiesCounted(m: Entities, agentId: string, es: seq<MemoryEntity>)
    requires EntityRowIds(m)
    ensures var t := WriteEntities(m, agentId, es);
      && EntityRowIds(t) && m.Keys <= t.Keys && |m| <= |t| <= |m| + |es|
      && (forall e :: e in es ==> e.id in t)
  {
    hide EntityRowIds, WriteEntity;
    if es != [] {
      var front, e := es[..|es| - 1], EntityFor(agentId, es[|es| - 1]);
      EntitiesCounted(m, agentId, front);
      WriteEntityCounted(WriteEntities(m, agentId, front), e);
      assert forall x :: x in es ==> x in front || x == es[|es| - 1];
    }
  }

  lemma {:induction false} RelationsCounted(t: Tables, agentId: string, rs: seq<MemoryRelation>)
    requires EntityRowIds(t.entities) && RelationIds(t.relations)
    ensures var u := WriteRelations(t, agentId, rs);
      && |u.relations| == |t.relations| + |rs| && RelationIds(u.relations)
      && u.summaries == t.summaries
      && EntityRowIds(u.entities) && u.entities.Keys == t.entities.Keys && |u.entities| == |t.entities|
  {
    if rs != [] {
      RelationsCounted(t, agentId, rs[..|rs| - 1]);
      var r := RelationFor(agentId, rs[|rs| - 1]);
      MarkKeepsRowIds(WriteRelations(t, agentId, rs[..|rs| - 1]).entities, r.toEntityId, r.fromEntityId);
    }
  }

  /** What an update adds to each table: one summary row per text, one relation row per relation, at
      most one entity row per entity. */
  lemma UpdateCounted(t: Tables, agentId: string, sessionId: string, update: LongTermMemoryUpdate,
                      sourceRefs: seq<string>)
    requires EntityRowIds(t.entities) && RelationIds(t.relations)
    ensures var u := SaveUpdate(t, agentId, sessionId, update, sourceRefs);
      && |u.summaries| == |t.summaries| + |update.topicSummaries| + |update.profileSummaries|
      && t.summaries <= u.summaries
      && |u.relations| == |t.relations| + |update.relations|
      && |t.entities| <= |u.entities| <= |t.entities| + |update.entities|
      && EntityRowIds(u.entities) && RelationIds(u.relations)
  {
    EntitiesCounted(t.entities, agentId, update.entities);
    var mid := Tables(WriteSummaries(t.summaries, agentId, sessionId, update, sourceRefs),
                      WriteEntities(t.entities, agentId, update.entities), t.relations);
    RelationsCounted(mid, agentId, update.relations);
  }

  // ----- Active uniqueness -----

  lemma {:induction false} EntitiesStayUnique(m: Entities, agentId: string, es: seq<MemoryEntity>)
    requires ActiveEntitiesUnique(m)
    ensures ActiveEntitiesUnique(WriteEntities(m, agentId, es))
  {
    if es != [] {
      var before, e := WriteEntities(m, agentId, es[..|es| - 1]), EntityFor(agentId, es[|es| - 1]);
      EntitiesStayUnique(m, agentId, es[..|es| - 1]);
      SaveKeepsEntitiesUnique(before, e);
      MarkKeepsEntitiesUnique(SaveEntity(before, e), e.supersededEntityId, e.id);
    }
  }

  /** Writing an update leaves at most one active row per key, from any state that has that. */
  lemma {:induction false} RelationsStayUnique(t: Tables, agentId: string, rs: seq<MemoryRelation>)
    requires ActiveEntitiesUnique(t.entities) && ActiveRelationsUnique(t.relations)
    ensures var u := WriteRelations(t, agentId, rs);
      ActiveEntitiesUnique(u.entities) && ActiveRelationsUnique(u.relations)
  {
    if rs != [] {
      var before, r := WriteRelations(t, agentId, rs[..|rs| - 1]), RelationFor(agentId, rs[|rs| - 1]);
      RelationsStayUnique(t, agentId, rs[..|rs| - 1]);
      SaveKeepsRelationsUnique(before.relations, r);
      MarkKeepsEntitiesUnique(before.entities, r.toEntityId, r.fromEntityId);
    }
  }
}
