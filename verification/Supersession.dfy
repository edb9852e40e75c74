/** Following `superseded_by` links: when every chain ends at an active entity. */
module Supersession {
  import opened Sequences
  import opened Records
  import opened Kernel
  import opened MemoryUpdate

  /** The chain from `id` has `n` links and ends at an active row. */
  predicate Resolves(m: Entities, id: string, n: nat)
    decreases n
  {
    && id in m
    && if m[id].active then n == 0
       else n > 0 && m[id].supersededBy.Some? && Resolves(m, m[id].supersededBy.value, n - 1)
  }

  /** Every obsolete row points to an existing row and every chain ends at an active one. */
  ghost predicate WellFounded(m: Entities) {
    forall id :: id in m ==> exists n: nat :: Resolves(m, id, n)
  }

  /** The id reached after `k` links. */
  function Hop(m: Entities, id: string, k: nat): Option<string>
    decreases k
  {
    if k == 0 then Some(id)
    else if id in m && !m[id].active && m[id].supersededBy.Some? then Hop(m, m[id].supersededBy.value, k - 1)
    else None
  }

  ghost predicate Reaches(m: Entities, source: string, target: string) {
    exists k: nat :: Hop(m, source, k) == Some(target)
  }

  lemma {:induction false} ResolvesOnce(m: Entities, id: string, a: nat, b: nat)
    requires Resolves(m, id, a) && Resolves(m, id, b)
    ensures a == b
    decreases a
  {
    if a > 0 && b > 0 {
      ResolvesOnce(m, m[id].supersededBy.value, a - 1, b - 1);
    }
  }

  lemma {:induction false} HopResolves(m: Entities, id: string, n: nat, k: nat, target: string)
    requires Resolves(m, id, n) && Hop(m, id, k) == Some(target)
    ensures k <= n && Resolves(m, target, n - k)
    decreases k
  {
    if k > 0 {
      HopResolves(m, m[id].supersededBy.value, n - 1, k - 1, target);
    }
  }

  /** Links never run in a circle. */
  lemma NoCycle(m: Entities, id: string, k: nat)
    requires WellFounded(m) && id in m && Hop(m, id, k) == Some(id)
    ensures k == 0
  {
    var n: nat :| Resolves(m, id, n);
    HopResolves(m, id, n, k, id);
    ResolvesOnce(m, id, n, n - k);
  }

  predicate SameLink(a: EntityRow, b: EntityRow) {
    a.active == b.active && a.supersededBy == b.supersededBy
  }

  /** A rewrite of the table that makes `root` obsolete in favour of `target`, points every other
      touched row at `root`, and leaves all other links alone. */
  ghost predicate Redirects(m: Entities, t: Entities, touched: set<string>, root: string, target: string) {
    && m.Keys <= t.Keys <= m.Keys + touched
    && root in touched && root in t && !t[root].active && t[root].supersededBy == Some(target)
    && (forall id :: id in t && id in touched && id != root ==> !t[id].active && t[id].supersededBy == Some(root))
    && (forall id :: id in m && id !in touched ==> SameLink(t[id], m[id]))
  }

  lemma ReachesThroughLink(m: Entities, id: string, z: string)
    requires id in m && !m[id].active && m[id].supersededBy.Some?
    ensures Reaches(m, m[id].supersededBy.value, z) ==> Reaches(m, id, z)
  {
    if k: nat :| Hop(m, m[id].supersededBy.value, k) == Some(z) {
      assert Hop(m, id, k + 1) == Some(z);
    }
  }

  lemma {:induction false} UntouchedChain(m: Entities, t: Entities, touched: set<string>, id: string, n: nat)
    requires m.Keys <= t.Keys && forall x :: x in m && x !in touched ==> SameLink(t[x], m[x])
    requires Resolves(m, id, n)
    requires forall z :: z in touched ==> !Reaches(m, id, z)
    ensures Resolves(t, id, n)
    decreases n
  {
    assert Hop(m, id, 0) == Some(id);
    if n > 0 {
      var next := m[id].supersededBy.value;
      forall z | z in touched ensures !Reaches(m, next, z) {
        ReachesThroughLink(m, id, z);
      }
      UntouchedChain(m, t, touched, next, n - 1);
    }
  }

  /** Once `root` resolves, everything that resolved before still does. */
  lemma {:induction false} RedirectedChain(m: Entities, t: Entities, touched: set<string>, root: string, id: string,
                                           n: nat, r: nat)
    requires m.Keys <= t.Keys && forall x :: x in m && x !in touched ==> SameLink(t[x], m[x])
    requires forall x :: x in t && x in touched && x != root ==> !t[x].active && t[x].supersededBy == Some(root)
    requires Resolves(t, root, r)
    requires Resolves(m, id, n)
    ensures exists k: nat :: Resolves(t, id, k)
    decreases n
  {
    if id == root {
    } else if id in touched {
      assert Resolves(t, id, r + 1);
    } else if n == 0 {
      assert Resolves(t, id, 0);
    } else {
      RedirectedChain(m, t, touched, root, m[id].supersededBy.value, n - 1, r);
      var k: nat :| Resolves(t, m[id].supersededBy.value, k);
      assert Resolves(t, id, k + 1);
    }
  }

  /** A chain that met a touched row before still meets one after the rewrite. */
  lemma {:induction false} FirstTouched(m: Entities, t: Entities, touched: set<string>, id: string, k: nat, z: string)
    returns (j: nat, first: string)
    requires m.Keys <= t.Keys && forall x :: x in m && x !in touched ==> SameLink(t[x], m[x])
    requires WellFounded(m) && id in m && Hop(m, id, k) == Some(z) && z in touched
    ensures first in touched && first in m && Hop(t, id, j) == Some(first)
    decreases k
  {
    if id in touched {
      j, first := 0, id;
    } else {
      var n: nat :| Resolves(m, id, n);
      assert Resolves(m, m[id].supersededBy.value, n - 1);
      j, first := FirstTouched(m, t, touched, m[id].supersededBy.value, k - 1, z);
      j := j + 1;
    }
  }

  lemma {:induction false} HopTwice(m: Entities, a: string, j: nat, b: string, k: nat)
    requires Hop(m, a, j) == Some(b)
    ensures Hop(m, a, j + k) == Hop(m, b, k)
    decreases j
  {
    if j > 0 {
      HopTwice(m, m[a].supersededBy.value, j - 1, b, k);
    }
  }

  /** A redirection keeps all chains intact precisely when its target exists and the target's own
      chain does not run into a touched row. */
  lemma RedirectIff(m: Entities, t: Entities, touched: set<string>, root: string, target: string)
    requires WellFounded(m) && Redirects(m, t, touched, root, target)
    ensures WellFounded(t) <==> target in m && forall z :: z in touched ==> !Reaches(m, target, z)
  {
    if target in m && forall z :: z in touched ==> !Reaches(m, target, z) {
      var n: nat :| Resolves(m, target, n);
      UntouchedChain(m, t, touched, target, n);
      assert Resolves(t, root, n + 1);
      forall id | id in t ensures exists k: nat :: Resolves(t, id, k) {
        if id in m {
          var i: nat :| Resolves(m, id, i);
          RedirectedChain(m, t, touched, root, id, i, n + 1);
        } else if id != root {
          assert Resolves(t, id, n + 2);
        }
      }
    } else if WellFounded(t) {
      var n: nat :| Resolves(t, root, n);
      assert Resolves(t, target, n - 1);
      var j, first := 0, target;
      if target !in touched {
        assert target in m;
        var z :| z in touched && Reaches(m, target, z);
        var k: nat :| Hop(m, target, k) == Some(z);
        j, first := FirstTouched(m, t, touched, target, k, z);
      }
      BackToRoot(t, touched, root, target, j, first);
    }
  }

  lemma BackToRoot(t: Entities, touched: set<string>, root: string, target: string, j: nat, first: string)
    requires root in t && !t[root].active && t[root].supersededBy == Some(target)
    requires forall id :: id in t && id in touched && id != root ==> !t[id].active && t[id].supersededBy == Some(root)
    requires first in touched && first in t && Hop(t, target, j) == Some(first)
    ensures !WellFounded(t)
  {
    assert Hop(t, root, j + 1) == Some(first);
    HopTwice(t, root, j + 1, first, 1);
    if WellFounded(t) {
      if first == root {
        NoCycle(t, root, j + 1);
      } else {
        assert Hop(t, first, 1) == Hop(t, root, 0);
        NoCycle(t, root, j + 2);
      }
    }
  }

  // ----- The store's operations -----

  /** Marking keeps chains intact precisely when the marked entity does not exist, or its successor
      exists and is not itself, directly or indirectly, superseded by the marked entity. */
  lemma MarkObsoleteIff(m: Entities, id: string, successor: string)
    requires WellFounded(m)
    ensures WellFounded(MarkObsolete(m, id, successor)) <==> id !in m || (successor in m && !Reaches(m, successor, id))
  {
    if id in m {
      RedirectIff(m, MarkObsolete(m, id, successor), {id}, id, successor);
    }
  }

  /** The ids whose links a save rewrites. */
  function Touched(m: Entities, e: MemoryEntity): set<string> {
    {e.id} + (set id | id in m && IsDuplicate(id, m[id], e))
      + if e.supersededEntityId == "" then {} else {e.supersededEntityId}
  }

  predicate SupersedesItself(e: MemoryEntity) {
    e.supersededEntityId != "" && e.supersededEntityId == e.id
  }

  /** What a save does to the link of one row. */
  lemma SaveTouchesAt(m: Entities, e: MemoryEntity, id: string)
    requires !SupersedesItself(e)
    ensures var t, touched := SaveEntity(m, e), Touched(m, e);
      && (id in t <==> id in m || id == e.id)
      && (id == e.id ==> id in touched && SameLink(t[id], RowFor(0, e)))
      && (id in t && id in touched && id != e.id ==> !t[id].active && t[id].supersededBy == Some(e.id))
      && (id in m && id !in touched ==> SameLink(t[id], m[id]))
  {
    SaveEntityEffect(m, e, id);
    hide SaveEntity;
  }

  lemma SaveTouchesOnly(m: Entities, e: MemoryEntity)
    requires !SupersedesItself(e)
    ensures var t, touched := SaveEntity(m, e), Touched(m, e);
      && m.Keys <= t.Keys <= m.Keys + touched
      && e.id in t && SameLink(t[e.id], RowFor(0, e))
      && (forall id :: id in t && id in touched && id != e.id ==> !t[id].active && t[id].supersededBy == Some(e.id))
      && (forall id :: id in m && id !in touched ==> SameLink(t[id], m[id]))
  {
    hide *;
    forall id {
      SaveTouchesAt(m, e, id);
    }
    var t, touched := SaveEntity(m, e), Touched(m, e);
    assert forall id :: id in t <==> id in m || id == e.id;
    assert e.id in touched;
  }

  lemma SelfSupersedingBreaks(m: Entities, e: MemoryEntity)
    requires SupersedesItself(e)
    ensures !WellFounded(SaveEntity(m, e))
  {
    var t := SaveEntity(m, e);
    assert !t[e.id].active && t[e.id].supersededBy == Some(e.id);
    assert Hop(t, e.id, 1) == Hop(t, e.id, 0);
    if WellFounded(t) {
      NoCycle(t, e.id, 1);
    }
  }

  lemma ActiveSaveKeeps(m: Entities, e: MemoryEntity)
    requires WellFounded(m) && !SupersedesItself(e) && e.isActive
    ensures WellFounded(SaveEntity(m, e))
  {
    var t := SaveEntity(m, e);
    SaveTouchesOnly(m, e);
    hide SaveEntity, Touched, RowFor;
    assert t[e.id].active by {
      ActiveRow(e);
    }
    assert Resolves(t, e.id, 0);
    forall id | id in t ensures exists k: nat :: Resolves(t, id, k) {
      if id in m {
        var n: nat :| Resolves(m, id, n);
        RedirectedChain(m, t, Touched(m, e), e.id, id, n, 0);
      } else if id != e.id {
        assert Resolves(t, id, 1);
      }
    }
  }

  lemma ActiveRow(e: MemoryEntity)
    ensures RowFor(0, e).active == e.isActive
    ensures RowFor(0, e).supersededBy == if e.supersededByEntityId == "" then None else Some(e.supersededByEntityId)
  {
  }

  /** Saving an active entity keeps chains intact precisely when it does not supersede itself.
      Saving an inactive one does so precisely when, in addition, it names an existing successor
      whose chain avoids every row the save rewrites. */
  lemma SaveEntityIff(m: Entities, e: MemoryEntity)
    requires WellFounded(m)
    ensures WellFounded(SaveEntity(m, e)) <==>
      && !SupersedesItself(e)
      && (e.isActive ||
          (e.supersededByEntityId != "" && e.supersededByEntityId in m &&
           forall z :: z in Touched(m, e) ==> !Reaches(m, e.supersededByEntityId, z)))
  {
    var t := SaveEntity(m, e);
    if SupersedesItself(e) {
      SelfSupersedingBreaks(m, e);
    } else if e.isActive {
      ActiveSaveKeeps(m, e);
    } else {
      SaveTouchesOnly(m, e);
      ActiveRow(e);
      assert e.id in Touched(m, e);
      hide SaveEntity, Touched, RowFor;
      if e.supersededByEntityId == "" {
        assert forall n: nat :: !Resolves(t, e.id, n);
      } else {
        RedirectIff(m, t, Touched(m, e), e.id, e.supersededByEntityId);
      }
    }
  }

  function SaveAll(m: Entities, saves: seq<MemoryEntity>): Entities {
    if saves == [] then m else SaveEntity(SaveAll(m, saves[..|saves| - 1]), saves[|saves| - 1])
  }

  /** Any sequence of active saves, none superseding itself, leaves a table in which every obsolete
      row points to an existing row, links do not cycle and every chain ends at an active row. */
  lemma {:induction false} SaveHistoriesAreWellFounded(saves: seq<MemoryEntity>)
    requires forall i :: 0 <= i < |saves| ==> saves[i].isActive && !SupersedesItself(saves[i])
    ensures WellFounded(SaveAll(map[], saves))
  {
    if saves != [] {
      SaveHistoriesAreWellFounded(saves[..|saves| - 1]);
      SaveEntityIff(SaveAll(map[], saves[..|saves| - 1]), saves[|saves| - 1]);
    }
  }

  lemma {:induction false} WriteEntitiesKeepsChains(m: Entities, agentId: string, es: seq<MemoryEntity>)
    requires WellFounded(m) && forall i :: 0 <= i < |es| ==> es[i].isActive && !SupersedesItself(es[i])
    ensures WellFounded(WriteEntities(m, agentId, es))
  {
    if es != [] {
      var before, e := WriteEntities(m, agentId, es[..|es| - 1]), EntityFor(agentId, es[|es| - 1]);
      WriteEntitiesKeepsChains(m, agentId, es[..|es| - 1]);
      SaveEntityIff(before, e);
      SecondMarkIsRedundant(before, e);
    }
  }

  lemma {:induction false} OtherRelationsKeepEntities(t: Tables, agentId: string, rs: seq<MemoryRelation>)
    requires forall i :: 0 <= i < |rs| ==> rs[i].relationType != "supersedes"
    ensures WriteRelations(t, agentId, rs).entities == t.entities
  {
    if rs != [] {
      OtherRelationsKeepEntities(t, agentId, rs[..|rs| - 1]);
    }
  }

  /** A consolidation update keeps all chains intact if its entities are active, none supersedes
      itself, and its relations do not supersede. */
  lemma UpdateKeepsChains(t: Tables, agentId: string, sessionId: string, update: LongTermMemoryUpdate,
                          refs: seq<string>)
    requires WellFounded(t.entities)
    requires forall i :: 0 <= i < |update.entities| ==>
      update.entities[i].isActive && !SupersedesItself(update.entities[i])
    requires forall i :: 0 <= i < |update.relations| ==> update.relations[i].relationType != "supersedes"
    ensures WellFounded(SaveUpdate(t, agentId, sessionId, update, refs).entities)
  {
    WriteEntitiesKeepsChains(t.entities, agentId, update.entities);
    OtherRelationsKeepEntities(
      Tables(WriteSummaries(t.summaries, agentId, sessionId, update, refs),
             WriteEntities(t.entities, agentId, update.entities), t.relations),
      agentId, update.relations);
  }

  /** Relations are not covered: two opposite "supersedes" relations between existing entities leave
      two obsolete rows that point at each other. */
  lemma OppositeSupersedesCycle(m: Entities, ab: MemoryRelation, ba: MemoryRelation)
    requires ab.relationType == "supersedes" && ba.relationType == "supersedes"
    requires ab.fromEntityId == ba.toEntityId && ab.toEntityId == ba.fromEntityId
    requires ab.fromEntityId in m && ab.toEntityId in m
    ensures !WellFounded(SaveRelationEntities(SaveRelationEntities(m, ab), ba))
  {
    var t := SaveRelationEntities(SaveRelationEntities(m, ab), ba);
    var a, b := ab.fromEntityId, ab.toEntityId;
    if WellFounded(t) {
      assert Hop(t, b, 0) == Some(b);
      assert Hop(t, a, 1) == Hop(t, b, 0);
      assert Hop(t, b, 2) == Hop(t, a, 1);
      NoCycle(t, b, 2);
    }
  }
}
