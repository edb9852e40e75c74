/** The long-term tables and the effect of each statement on them. Rows are never deleted, so the
    next row id of every table is its size plus one. */
module Kernel {
  import opened Sequences
  import opened Json
  import opened Records

  datatype EntityRow = EntityRow(
    rowid: nat,
    agentId: string,
    entityType: string,
    name: string,
    summary: string,
    confidence: real,
    sourceRefs: seq<string>,
    metadata: Json,
    active: bool,
    supersededBy: Option<string>)

  datatype RelationRow = RelationRow(
    id: nat,
    agentId: string,
    fromEntity: string,
    relation: string,
    toEntity: string,
    confidence: real,
    sourceRefs: seq<string>,
    metadata: Json,
    active: bool)

  datatype SummaryRow = SummaryRow(
    id: nat,
    agentId: string,
    sessionId: string,
    level: string,
    topic: string,
    summary: string,
    confidence: real,
    sourceRefs: seq<string>)

  /** Entities are keyed by the primary key, which is global rather than per agent. */
  type Entities = map<string, EntityRow>

  // ----- Entities -----

  predicate SameEntityKey(row: EntityRow, agentId: string, entityType: string, name: string) {
    row.agentId == agentId && row.entityType == entityType && row.name == name
  }

  predicate HasFullKey(e: MemoryEntity) {
    e.id != "" && e.agentId != "" && e.entityType != "" && e.name != ""
  }

  predicate IsDuplicate(id: string, row: EntityRow, e: MemoryEntity) {
    HasFullKey(e) && SameEntityKey(row, e.agentId, e.entityType, e.name) && id != e.id && row.active
  }

  function Obsolete(row: EntityRow, successor: string): EntityRow {
    row.(active := false, supersededBy := Some(successor))
  }

  function ObsoleteIfDuplicate(id: string, row: EntityRow, e: MemoryEntity): EntityRow {
    if IsDuplicate(id, row, e) then Obsolete(row, e.id) else row
  }

  function MarkDuplicates(m: Entities, e: MemoryEntity): Entities {
    map id | id in m :: ObsoleteIfDuplicate(id, m[id], e)
  }

  function RowFor(rowid: nat, e: MemoryEntity): EntityRow {
    EntityRow(rowid, e.agentId, e.entityType, e.name, e.summary, e.confidence, e.sourceRefs, JsonObject(e.metadata),
              e.isActive, if e.supersededByEntityId == "" then None else Some(e.supersededByEntityId))
  }

  function Upsert(m: Entities, e: MemoryEntity): Entities {
    m[e.id := RowFor(if e.id in m then m[e.id].rowid else |m| + 1, e)]
  }

  function MarkObsolete(m: Entities, id: string, successor: string): Entities {
    if id in m then m[id := Obsolete(m[id], successor)] else m
  }

  function SaveEntity(m: Entities, e: MemoryEntity): Entities {
    var saved := Upsert(MarkDuplicates(m, e), e);
    if e.supersededEntityId == "" then saved else MarkObsolete(saved, e.supersededEntityId, e.id)
  }

  // ----- Relations -----

  predicate SameRelation(row: RelationRow, r: MemoryRelation) {
    && row.agentId == r.agentId && row.fromEntity == r.fromEntityId
    && row.relation == r.relationType && row.toEntity == r.toEntityId
  }

  function Deactivated(row: RelationRow, r: MemoryRelation): RelationRow {
    if SameRelation(row, r) && row.active then row.(active := false) else row
  }

  /** A contradiction records what it conflicts with in its metadata. */
  function RelationMetadata(r: MemoryRelation): Json {
    var metadata := JsonObject(r.metadata);
    if r.relationType == "contradicts" then
      JObject(metadata.fields["conflict" := JBool(true)]["conflictsWithEntityId" := JString(r.toEntityId)])
    else metadata
  }

  function RelationRowFor(id: nat, r: MemoryRelation): RelationRow {
    RelationRow(id, r.agentId, r.fromEntityId, r.relationType, r.toEntityId, r.confidence, r.sourceRefs,
                RelationMetadata(r), true)
  }

  function DeactivateSame(rows: seq<RelationRow>, r: MemoryRelation): seq<RelationRow> {
    Map(row => Deactivated(row, r), rows)
  }

  function SaveRelationRows(rows: seq<RelationRow>, r: MemoryRelation): seq<RelationRow> {
    DeactivateSame(rows, r) + [RelationRowFor(|rows| + 1, r)]
  }

  /** A "supersedes" relation also obsoletes its target entity. */
  function SaveRelationEntities(m: Entities, r: MemoryRelation): Entities {
    if r.relationType == "supersedes" then MarkObsolete(m, r.toEntityId, r.fromEntityId) else m
  }

  // ----- Uniqueness of what is active -----

  predicate Rival(m: Entities, a: string, b: string)
    requires a in m && b in m
  {
    && a != "" && b != "" && a != b && m[a].active && m[b].active
    && SameEntityKey(m[a], m[b].agentId, m[b].entityType, m[b].name)
    && m[b].agentId != "" && m[b].entityType != "" && m[b].name != ""
  }

  /** At most one active entity with an id per complete (agent, type, name). */
  ghost predicate ActiveEntitiesUnique(m: Entities) {
    forall a, b :: a in m && b in m ==> !Rival(m, a, b)
  }

  predicate SameKey(a: RelationRow, b: RelationRow) {
    a.agentId == b.agentId && a.fromEntity == b.fromEntity && a.relation == b.relation && a.toEntity == b.toEntity
  }

  /** At most one active relation per (agent, from, type, to). */
  ghost predicate ActiveRelationsUnique(rows: seq<RelationRow>) {
    forall i, j :: 0 <= i < j < |rows| && rows[i].active && rows[j].active ==> !SameKey(rows[i], rows[j])
  }

  /** Row ids are distinct and lie in 1..size. */
  ghost predicate EntityRowIds(m: Entities) {
    && (forall id :: id in m ==> 1 <= m[id].rowid <= |m|)
    && (forall a, b :: a in m && b in m && m[a].rowid == m[b].rowid ==> a == b)
  }

  ghost predicate RelationIds(rows: seq<RelationRow>) {
    forall i :: 0 <= i < |rows| ==> rows[i].id == i + 1
  }

  /** The upsert cannot create a rival, even when it moves an existing row to another key. */
  lemma SaveKeepsEntitiesUnique(m: Entities, e: MemoryEntity)
    requires ActiveEntitiesUnique(m)
    ensures ActiveEntitiesUnique(SaveEntity(m, e))
  {
    DuplicatesKeepEntitiesUnique(m, e);
    MarkKeepsEntitiesUnique(Upsert(MarkDuplicates(m, e), e), e.supersededEntityId, e.id);
  }

  lemma DuplicatesKeepEntitiesUnique(m: Entities, e: MemoryEntity)
    requires ActiveEntitiesUnique(m)
    ensures ActiveEntitiesUnique(MarkDuplicates(m, e))
    ensures ActiveEntitiesUnique(Upsert(MarkDuplicates(m, e), e))
  {
    var marked := MarkDuplicates(m, e);
    forall a, b | a in marked && b in marked ensures !Rival(marked, a, b) {
      assert !Rival(m, a, b);
    }
    var saved := Upsert(marked, e);
    forall a, b | a in saved && b in saved ensures !Rival(saved, a, b) {
      if a in marked && b in marked {
        assert !Rival(marked, a, b);
      }
    }
  }

  lemma MarkKeepsEntitiesUnique(m: Entities, id: string, successor: string)
    requires ActiveEntitiesUnique(m)
    ensures ActiveEntitiesUnique(MarkObsolete(m, id, successor))
  {
    var marked := MarkObsolete(m, id, successor);
    forall a, b | a in marked && b in marked ensures !Rival(marked, a, b) {
      assert !Rival(m, a, b);
    }
  }

  lemma SaveKeepsRelationsUnique(rows: seq<RelationRow>, r: MemoryRelation)
    requires ActiveRelationsUnique(rows)
    ensures ActiveRelationsUnique(SaveRelationRows(rows, r))
  {
  }

  lemma UpsertKeepsRowIds(m: Entities, e: MemoryEntity)
    requires EntityRowIds(m)
    ensures var u := Upsert(m, e);
      && EntityRowIds(u) && u.Keys == m.Keys + {e.id}
      && |u| == |m| + (if e.id in m then 0 else 1)
      && forall id :: id in m ==> u[id].rowid == m[id].rowid
  {
    UpsertSize(m, e);
    ReplaceKeepsRowIds(m, e.id, Upsert(m, e)[e.id]);
  }

  lemma ReplaceKeepsRowIds(m: Entities, key: string, row: EntityRow)
    requires EntityRowIds(m)
    requires row.rowid == if key in m then m[key].rowid else |m| + 1
    requires |m[key := row]| == |m| + if key in m then 0 else 1
    ensures EntityRowIds(m[key := row])
  {
    var u := m[key := row];
    forall a, b | a in u && b in u && u[a].rowid == u[b].rowid ensures a == b {
      assert a != key ==> a in m;
      assert b != key ==> b in m;
    }
  }

  lemma UpsertSize(m: Entities, e: MemoryEntity)
    ensures Upsert(m, e).Keys == m.Keys + {e.id}
    ensures |Upsert(m, e)| == |m| + if e.id in m then 0 else 1
  {
    var u := Upsert(m, e);
    assert u.Keys == m.Keys + {e.id};
    assert |u| == |u.Keys|;
  }

  lemma DuplicatesKeepRowIds(m: Entities, e: MemoryEntity)
    requires EntityRowIds(m)
    ensures var d := MarkDuplicates(m, e);
      && EntityRowIds(d) && d.Keys == m.Keys && |d| == |m|
      && forall id :: id in m ==> d[id].rowid == m[id].rowid
  {
    var d := MarkDuplicates(m, e);
    assert d.Keys == m.Keys;
    assert |d| == |d.Keys|;
  }

  lemma MarkKeepsRowIds(m: Entities, id: string, successor: string)
    requires EntityRowIds(m)
    ensures var t := MarkObsolete(m, id, successor);
      && EntityRowIds(t) && t.Keys == m.Keys && |t| == |m|
      && forall x :: x in m ==> t[x].rowid == m[x].rowid
  {
    var marked := MarkObsolete(m, id, successor);
    assert marked.Keys == m.Keys;
    assert |marked| == |marked.Keys| == |m.Keys| == |m|;
  }

  /** A save adds at most one row and leaves every row id where it was. */
  lemma SaveKeepsRowIds(m: Entities, e: MemoryEntity)
    requires EntityRowIds(m)
    ensures var t := SaveEntity(m, e);
      && EntityRowIds(t) && t.Keys == m.Keys + {e.id}
      && |t| == |m| + (if e.id in m then 0 else 1)
      && forall id :: id in m ==> t[id].rowid == m[id].rowid
  {
    var d := MarkDuplicates(m, e);
    var u := Upsert(d, e);
    DuplicatesKeepRowIds(m, e);
    UpsertKeepsRowIds(d, e);
    MarkKeepsRowIds(u, e.supersededEntityId, e.id);
    hide MarkDuplicates, Upsert, MarkObsolete, EntityRowIds;
  }

  /** What a save means, field by field: the saved id holds the given fields, and another row keeps
      everything but its link, which changes, to the saved id, exactly when the row was an active
      duplicate of a complete key or is the entity named as superseded. */
  lemma SaveEntityEffect(m: Entities, e: MemoryEntity, id: string)
    ensures var t := SaveEntity(m, e);
      && e.id in t
      && t[e.id].agentId == e.agentId && t[e.id].entityType == e.entityType && t[e.id].name == e.name
      && t[e.id].summary == e.summary && t[e.id].confidence == e.confidence && t[e.id].sourceRefs == e.sourceRefs
      && t[e.id].metadata == (if e.metadata.JObject? then e.metadata else JObject(map[]))
    ensures var t := SaveEntity(m, e);
      e.supersededEntityId == "" || e.supersededEntityId != e.id ==>
        && t[e.id].active == e.isActive
        && t[e.id].supersededBy == if e.supersededByEntityId == "" then None else Some(e.supersededByEntityId)
    ensures id != e.id ==> (id in SaveEntity(m, e) <==> id in m)
    ensures id in m && id != e.id ==>
      var duplicate := e.id != "" && e.agentId != "" && e.entityType != "" && e.name != "" && m[id].active
        && m[id].agentId == e.agentId && m[id].entityType == e.entityType && m[id].name == e.name;
      SaveEntity(m, e)[id] == if duplicate || id == e.supersededEntityId != ""
                              then m[id].(active := false, supersededBy := Some(e.id))
                              else m[id]
  {
  }

  /** Entities are not isolated per agent: a save changes a row of another agent precisely when it has
      that row's id, or names it as superseded and it is not obsolete in favour of the saved id yet. */
  lemma OtherAgentsRowChangesIff(m: Entities, e: MemoryEntity, id: string)
    requires id in m && m[id].agentId != e.agentId
    ensures SaveEntity(m, e)[id] != m[id] <==>
      || id == e.id
      || (id == e.supersededEntityId && id != "" && (m[id].active || m[id].supersededBy != Some(e.id)))
  {
    SaveEntityEffect(m, e, id);
    hide SaveEntity;
  }

  /** An agent that saves an id of another agent takes the row over; one that names it as superseded
      obsoletes it. */
  lemma AgentsShareIds(e: MemoryEntity, taken: MemoryEntity, superseding: MemoryEntity)
    requires e.isActive && e.id != "" && e.supersededEntityId == ""
    requires taken.id == e.id && taken.agentId != e.agentId && taken.supersededEntityId == ""
    requires superseding.id != e.id && superseding.agentId != e.agentId && superseding.supersededEntityId == e.id
    ensures var m := SaveEntity(map[], e);
      && e.id in m && m[e.id].agentId == e.agentId && m[e.id].active
      && SaveEntity(m, taken)[e.id].agentId == taken.agentId
      && !SaveEntity(m, superseding)[e.id].active
  {
    var m := SaveEntity(map[], e);
    SaveEntityEffect(map[], e, e.id);
    SaveEntityEffect(m, taken, e.id);
    SaveEntityEffect(m, superseding, e.id);
    hide SaveEntity;
  }

  /** What saving a relation means: a new active row with the given fields comes last, and an older
      row changes only by becoming inactive, exactly when it is the same relation. */
  lemma SaveRelationEffect(rows: seq<RelationRow>, r: MemoryRelation, i: nat)
    ensures var t, n := SaveRelationRows(rows, r), |rows|;
      && |t| == n + 1
      && t[n] == RelationRow(n + 1, r.agentId, r.fromEntityId, r.relationType, r.toEntityId, r.confidence, r.sourceRefs,
                             t[n].metadata, true)
    ensures var metadata, given := SaveRelationRows(rows, r)[|rows|].metadata,
                                   if r.metadata.JObject? then r.metadata.fields else map[];
      metadata == JObject(if r.relationType == "contradicts"
                          then given + map["conflict" := JBool(true), "conflictsWithEntityId" := JString(r.toEntityId)]
                          else given)
    ensures i < |rows| ==>
      var same := rows[i].agentId == r.agentId && rows[i].fromEntity == r.fromEntityId
        && rows[i].relation == r.relationType && rows[i].toEntity == r.toEntityId;
      SaveRelationRows(rows, r)[i] == if same then rows[i].(active := false) else rows[i]
  {
  }

  /** A "supersedes" relation obsoletes the entity it points to, of whatever agent, in favour of the one
      it comes from; other relations leave the entities alone. */
  lemma SaveRelationObsoletes(m: Entities, r: MemoryRelation, id: string)
    ensures SaveRelationEntities(m, r).Keys == m.Keys
    ensures id in m ==>
      SaveRelationEntities(m, r)[id] == if r.relationType == "supersedes" && id == r.toEntityId
                                        then m[id].(active := false, supersededBy := Some(r.fromEntityId))
                                        else m[id]
  {
  }

  /** Marking rewrites the link of one entity, if it is there. */
  lemma MarkObsoleteEffect(m: Entities, id: string, successor: string, other: string)
    ensures MarkObsolete(m, id, successor).Keys == m.Keys
    ensures other in m ==>
      MarkObsolete(m, id, successor)[other] == if other == id
                                               then m[id].(active := false, supersededBy := Some(successor))
                                               else m[other]
  {
  }

  /** Only contradictions touch a relation's metadata, and only two of its fields. */
  lemma ContradictionIsRecorded(r: MemoryRelation, key: string)
    ensures RelationMetadata(r).JObject?
    ensures r.relationType == "contradicts" ==>
      && JsonField(RelationMetadata(r), "conflict") == JBool(true)
      && JsonField(RelationMetadata(r), "conflictsWithEntityId") == JString(r.toEntityId)
    ensures r.relationType != "contradicts" || key !in {"conflict", "conflictsWithEntityId"} ==>
      JsonField(RelationMetadata(r), key) == JsonField(JsonObject(r.metadata), key)
  {
  }
}
