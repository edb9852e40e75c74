/** Writing the same update twice leaves the same entities and the same active relations as
    writing it once. */
module Reapply {
  import opened Sequences
  import opened Records
  import opened Kernel
  import opened MemoryUpdate

  /** The statements an update sends to the entity table. */
  datatype Op = Dup(e: MemoryEntity) | Put(e: MemoryEntity) | Mark(id: string, successor: string)

  function RunOp(m: Entities, op: Op): Entities {
    match op
    case Dup(e) => MarkDuplicates(m, e)
    case Put(e) => Upsert(m, e)
    case Mark(id, successor) => MarkObsolete(m, id, successor)
  }

  function RunOps(m: Entities, ops: seq<Op>): Entities {
    if ops == [] then m else RunOp(RunOps(m, ops[..|ops| - 1]), ops[|ops| - 1])
  }

  function MarkSuperseded(e: MemoryEntity): seq<Op> {
    if e.supersededEntityId == "" then [] else [Mark(e.supersededEntityId, e.id), Mark(e.supersededEntityId, e.id)]
  }

  function EntityOps(agentId: string, es: seq<MemoryEntity>): seq<Op> {
    if es == [] then []
    else
      var e := EntityFor(agentId, es[|es| - 1]);
      EntityOps(agentId, es[..|es| - 1]) + [Dup(e), Put(e)] + MarkSuperseded(e)
  }

  function RelationOps(agentId: string, rs: seq<MemoryRelation>): seq<Op> {
    if rs == [] then []
    else
      var r := RelationFor(agentId, rs[|rs| - 1]);
      RelationOps(agentId, rs[..|rs| - 1]) + MarkTarget(r)
  }

  function MarkTarget(r: MemoryRelation): seq<Op> {
    if r.relationType == "supersedes" then [Mark(r.toEntityId, r.fromEntityId)] else []
  }

  lemma {:induction false} RunOpsConcat(m: Entities, a: seq<Op>, b: seq<Op>)
    ensures RunOps(m, a + b) == RunOps(RunOps(m, a), b)
  {
    if b == [] {
      assert a + b == a;
    } else {
      assert (a + b)[..|a + b| - 1] == a + b[..|b| - 1];
      RunOpsConcat(m, a, b[..|b| - 1]);
    }
  }

  lemma RunOne(m: Entities, op: Op)
    ensures RunOps(m, [op]) == RunOp(m, op)
  {
    assert [op][..0] == [];
  }

  lemma WriteEntityIsOps(m: Entities, e: MemoryEntity)
    ensures WriteEntity(m, e) == RunOps(m, [Dup(e), Put(e)] + MarkSuperseded(e))
  {
    RunOpsConcat(m, [Dup(e), Put(e)], MarkSuperseded(e));
    RunOpsConcat(m, [Dup(e)], [Put(e)]);
    RunOne(m, Dup(e));
    RunOne(RunOps(m, [Dup(e)]), Put(e));
    if e.supersededEntityId != "" {
      var mark, put := Mark(e.supersededEntityId, e.id), RunOps(m, [Dup(e)] + [Put(e)]);
      RunOpsConcat(put, [mark], [mark]);
      RunOne(put, mark);
      RunOne(RunOp(put, mark), mark);
    }
  }

  lemma {:induction false} WriteEntitiesIsOps(m: Entities, agentId: string, es: seq<MemoryEntity>)
    ensures WriteEntities(m, agentId, es) == RunOps(m, EntityOps(agentId, es))
  {
    if es != [] {
      var e, front := EntityFor(agentId, es[|es| - 1]), es[..|es| - 1];
      WriteEntitiesIsOps(m, agentId, front);
      WriteEntityIsOps(WriteEntities(m, agentId, front), e);
      hide RunOps, WriteEntity;
      RunOpsConcat(m, EntityOps(agentId, front), [Dup(e), Put(e)] + MarkSuperseded(e));
      assert EntityOps(agentId, front) + ([Dup(e), Put(e)] + MarkSuperseded(e)) == EntityOps(agentId, es);
    }
  }

  lemma WriteRelationIsOps(t: Tables, r: MemoryRelation)
    ensures WriteRelation(t, r).entities == RunOps(t.entities, MarkTarget(r))
  {
    RunOne(t.entities, Mark(r.toEntityId, r.fromEntityId));
  }

  lemma {:induction false} WriteRelationsIsOps(t: Tables, agentId: string, rs: seq<MemoryRelation>)
    ensures WriteRelations(t, agentId, rs).entities == RunOps(t.entities, RelationOps(agentId, rs))
  {
    hide RunOps, WriteRelation, MarkTarget;
    if rs == [] {
      RunNone(t.entities);
    } else {
      var r, front := RelationFor(agentId, rs[|rs| - 1]), rs[..|rs| - 1];
      WriteRelationsIsOps(t, agentId, front);
      WriteRelationIsOps(WriteRelations(t, agentId, front), r);
      RunOpsConcat(t.entities, RelationOps(agentId, front), MarkTarget(r));
    }
  }

  lemma RunNone(m: Entities)
    ensures RunOps(m, []) == m
  {
  }

  // ----- Each row evolves on its own -----

  /** A row without its row id. */
  function Content(m: Entities, id: string): Option<EntityRow> {
    if id in m then Some(m[id].(rowid := 0)) else None
  }

  function StepRow(op: Op, id: string, row: Option<EntityRow>): Option<EntityRow> {
    match op
    case Dup(e) => if row.Some? then Some(ObsoleteIfDuplicate(id, row.value, e)) else None
    case Put(e) => if e.id == id then Some(RowFor(0, e)) else row
    case Mark(target, successor) => if target == id && row.Some? then Some(Obsolete(row.value, successor)) else row
  }

  function StepsRow(ops: seq<Op>, id: string, row: Option<EntityRow>): Option<EntityRow> {
    if ops == [] then row else StepRow(ops[|ops| - 1], id, StepsRow(ops[..|ops| - 1], id, row))
  }

  lemma OpIsPointwise(m: Entities, op: Op, id: string)
    ensures Content(RunOp(m, op), id) == StepRow(op, id, Content(m, id))
  {
  }

  lemma {:induction false} OpsArePointwise(m: Entities, ops: seq<Op>, id: string)
    ensures Content(RunOps(m, ops), id) == StepsRow(ops, id, Content(m, id))
  {
    if ops != [] {
      OpsArePointwise(m, ops[..|ops| - 1], id);
      OpIsPointwise(RunOps(m, ops[..|ops| - 1]), ops[|ops| - 1], id);
      hide RunOp, StepRow, Content;
    }
  }

  ghost predicate Puts(ops: seq<Op>, id: string) {
    exists i :: 0 <= i < |ops| && ops[i].Put? && ops[i].e.id == id
  }

  ghost predicate Marks(ops: seq<Op>, id: string) {
    exists i :: 0 <= i < |ops| && ops[i].Mark? && ops[i].id == id
  }

  lemma LastOrFront(ops: seq<Op>, id: string)
    requires ops != []
    ensures var front, last := ops[..|ops| - 1], ops[|ops| - 1];
      && (Puts(ops, id) <==> Puts(front, id) || (last.Put? && last.e.id == id))
      && (Marks(ops, id) <==> Marks(front, id) || (last.Mark? && last.id == id))
  {
    var front, last := ops[..|ops| - 1], ops[|ops| - 1];
    if Puts(front, id) {
      var i :| 0 <= i < |front| && front[i].Put? && front[i].e.id == id;
      assert ops[i].Put?;
    }
    if Marks(front, id) {
      var i :| 0 <= i < |front| && front[i].Mark? && front[i].id == id;
      assert ops[i].Mark?;
    }
    if Puts(ops, id) {
      var i :| 0 <= i < |ops| && ops[i].Put? && ops[i].e.id == id;
      assert i < |front| ==> front[i].Put?;
    }
    if Marks(ops, id) {
      var i :| 0 <= i < |ops| && ops[i].Mark? && ops[i].id == id;
      assert i < |front| ==> front[i].Mark?;
    }
  }

  /** A row that is written in full forgets what it was. */
  lemma {:induction false} PutForgets(ops: seq<Op>, id: string, a: Option<EntityRow>, b: Option<EntityRow>)
    requires Puts(ops, id)
    ensures StepsRow(ops, id, a) == StepsRow(ops, id, b) && StepsRow(ops, id, a).Some?
  {
    LastOrFront(ops, id);
    if Puts(ops[..|ops| - 1], id) {
      PutForgets(ops[..|ops| - 1], id, a, b);
    }
  }

  /** Same row up to its link. */
  predicate SameButLink(a: EntityRow, b: EntityRow) {
    a.(active := false, supersededBy := None) == b.(active := false, supersededBy := None)
  }

  /** A row that is only obsoleted keeps everything but its link; an absent row stays absent. */
  lemma {:induction false} OnlyLinkChanges(ops: seq<Op>, id: string, row: Option<EntityRow>)
    requires !Puts(ops, id)
    ensures StepsRow(ops, id, row).Some? == row.Some?
    ensures row.Some? ==> SameButLink(StepsRow(ops, id, row).value, row.value)
  {
    if ops != [] {
      LastOrFront(ops, id);
      OnlyLinkChanges(ops[..|ops| - 1], id, row);
    }
  }

  /** An explicit mark fixes the final link, whatever the link was. */
  lemma {:induction false} MarkForgetsLink(ops: seq<Op>, id: string, a: EntityRow, b: EntityRow)
    requires !Puts(ops, id) && Marks(ops, id) && SameButLink(a, b)
    ensures StepsRow(ops, id, Some(a)) == StepsRow(ops, id, Some(b))
  {
    var front := ops[..|ops| - 1];
    LastOrFront(ops, id);
    OnlyLinkChanges(front, id, Some(a));
    OnlyLinkChanges(front, id, Some(b));
    if Marks(front, id) {
      MarkForgetsLink(front, id, a, b);
    }
  }

  /** Duplicate-obsoleting alone never touches an obsolete row, and a row still active at the end
      was never touched. */
  lemma {:induction false} DuplicatesSettle(ops: seq<Op>, id: string, row: EntityRow)
    requires !Puts(ops, id) && !Marks(ops, id)
    ensures var end := StepsRow(ops, id, Some(row));
      && end.Some? && (end.value == row || (row.active && !end.value.active))
  {
    if ops != [] {
      LastOrFront(ops, id);
      DuplicatesSettle(ops[..|ops| - 1], id, row);
    }
  }

  /** The second pass over the statements changes no row. */
  lemma StepsTwice(ops: seq<Op>, id: string, row: Option<EntityRow>)
    ensures StepsRow(ops, id, StepsRow(ops, id, row)) == StepsRow(ops, id, row)
  {
    var once := StepsRow(ops, id, row);
    if Puts(ops, id) {
      PutForgets(ops, id, once, row);
    } else {
      OnlyLinkChanges(ops, id, row);
      if row.None? {
        OnlyLinkChanges(ops, id, once);
      } else if Marks(ops, id) {
        MarkForgetsLink(ops, id, once.value, row.value);
      } else {
        DuplicatesSettle(ops, id, row.value);
        DuplicatesSettle(ops, id, once.value);
      }
    }
  }

  // ----- Row ids -----

  lemma {:induction false} OpsKeepRowIds(m: Entities, ops: seq<Op>)
    requires EntityRowIds(m)
    ensures var t := RunOps(m, ops);
      EntityRowIds(t) && m.Keys <= t.Keys && forall id :: id in m ==> t[id].rowid == m[id].rowid
  {
    if ops != [] {
      var front := RunOps(m, ops[..|ops| - 1]);
      OpsKeepRowIds(m, ops[..|ops| - 1]);
      match ops[|ops| - 1] {
        case Dup(e) => DuplicatesKeepRowIds(front, e);
        case Put(e) => UpsertKeepsRowIds(front, e);
        case Mark(id, successor) => MarkKeepsRowIds(front, id, successor);
      }
    }
  }

  lemma OpsTwice(m: Entities, ops: seq<Op>)
    requires EntityRowIds(m)
    ensures RunOps(RunOps(m, ops), ops) == RunOps(m, ops)
  {
    var once := RunOps(m, ops);
    var twice := RunOps(once, ops);
    OpsKeepRowIds(m, ops);
    OpsKeepRowIds(once, ops);
    forall id ensures Content(twice, id) == Content(once, id) {
      OpsArePointwise(m, ops, id);
      OpsArePointwise(once, ops, id);
      StepsTwice(ops, id, Content(m, id));
    }
    forall id ensures id in twice <==> id in once {
      assert Content(twice, id) == Content(once, id);
    }
    forall id | id in once ensures twice[id] == once[id] {
      assert Content(twice, id) == Content(once, id);
    }
  }

  // ----- Active relations -----

  /** The active rows of one relation, in table order and without row ids. */
  function ActiveView(rows: seq<RelationRow>, key: MemoryRelation): seq<RelationRow> {
    Map((row: RelationRow) => row.(id := 0), Filter((row: RelationRow) => row.active && SameRelation(row, key), rows))
  }

  predicate SameRelationKey(a: MemoryRelation, b: MemoryRelation) {
    && a.agentId == b.agentId && a.fromEntityId == b.fromEntityId
    && a.relationType == b.relationType && a.toEntityId == b.toEntityId
  }

  lemma {:induction false} DeactivateView(rows: seq<RelationRow>, r: MemoryRelation, key: MemoryRelation)
    ensures ActiveView(DeactivateSame(rows, r), key) == if SameRelationKey(r, key) then [] else ActiveView(rows, key)
  {
    if rows == [] {
      assert DeactivateSame(rows, r) == [];
    } else {
      DeactivateView(rows[..|rows| - 1], r, key);
      assert DeactivateSame(rows, r)[..|rows| - 1] == DeactivateSame(rows[..|rows| - 1], r);
    }
  }

  lemma SaveRelationView(rows: seq<RelationRow>, r: MemoryRelation, key: MemoryRelation)
    ensures ActiveView(SaveRelationRows(rows, r), key)
         == if SameRelationKey(r, key) then [RelationRowFor(0, r)] else ActiveView(rows, key)
  {
    var rest := DeactivateSame(rows, r);
    DeactivateView(rows, r, key);
    assert SaveRelationRows(rows, r)[..|rows|] == rest;
  }

  /** The last relation of a batch with the given key. */
  function LastWithKey(agentId: string, rs: seq<MemoryRelation>, key: MemoryRelation): Option<MemoryRelation> {
    if rs == [] then None
    else
      var r := RelationFor(agentId, rs[|rs| - 1]);
      if SameRelationKey(r, key) then Some(r) else LastWithKey(agentId, rs[..|rs| - 1], key)
  }

  /** A batch leaves one active row for each relation it mentions, the last one it gave, and the
      other relations as they were. */
  lemma {:induction false} WriteRelationsView(t: Tables, agentId: string, rs: seq<MemoryRelation>, key: MemoryRelation)
    ensures ActiveView(WriteRelations(t, agentId, rs).relations, key)
         == var last := LastWithKey(agentId, rs, key);
            if last.Some? then [RelationRowFor(0, last.value)] else ActiveView(t.relations, key)
  {
    if rs != [] {
      WriteRelationsView(t, agentId, rs[..|rs| - 1], key);
      SaveRelationView(WriteRelations(t, agentId, rs[..|rs| - 1]).relations, RelationFor(agentId, rs[|rs| - 1]), key);
    }
  }

  /** Re-applying an update is harmless, for every update and every starting state: the entity table
      is unchanged, row ids included, and so are the active rows of every relation. */
  lemma ReapplyIsHarmless(t: Tables, agentId: string, sessionId: string, update: LongTermMemoryUpdate,
                          sourceRefs: seq<string>, key: MemoryRelation)
    requires EntityRowIds(t.entities)
    ensures var once := SaveUpdate(t, agentId, sessionId, update, sourceRefs);
      var twice := SaveUpdate(once, agentId, sessionId, update, sourceRefs);
      && twice.entities == once.entities
      && ActiveView(twice.relations, key) == ActiveView(once.relations, key)
  {
    var once := SaveUpdate(t, agentId, sessionId, update, sourceRefs);
    UpdateIsOps(t, agentId, sessionId, update, sourceRefs);
    UpdateIsOps(once, agentId, sessionId, update, sourceRefs);
    OpsTwice(t.entities, UpdateOps(agentId, update));
    var m1 := t.(summaries := WriteSummaries(t.summaries, agentId, sessionId, update, sourceRefs),
                 entities := WriteEntities(t.entities, agentId, update.entities));
    var m2 := once.(summaries := WriteSummaries(once.summaries, agentId, sessionId, update, sourceRefs),
                    entities := WriteEntities(once.entities, agentId, update.entities));
    WriteRelationsView(m1, agentId, update.relations, key);
    WriteRelationsView(m2, agentId, update.relations, key);
  }

  function UpdateOps(agentId: string, update: LongTermMemoryUpdate): seq<Op> {
    EntityOps(agentId, update.entities) + RelationOps(agentId, update.relations)
  }

  lemma UpdateIsOps(t: Tables, agentId: string, sessionId: string, update: LongTermMemoryUpdate,
                    sourceRefs: seq<string>)
    ensures SaveUpdate(t, agentId, sessionId, update, sourceRefs).entities
         == RunOps(t.entities, UpdateOps(agentId, update))
  {
    WriteEntitiesIsOps(t.entities, agentId, update.entities);
    var mid := Tables(WriteSummaries(t.summaries, agentId, sessionId, update, sourceRefs),
                      WriteEntities(t.entities, agentId, update.entities), t.relations);
    WriteRelationsIsOps(mid, agentId, update.relations);
    RunOpsConcat(t.entities, EntityOps(agentId, update.entities), RelationOps(agentId, update.relations));
  }
}
