/** A search of the store from end to end: what the queries match and what the caller gets. */
module StoreSearch {
  import opened Integers
  import opened Sequences
  import opened CursorText
  import opened FullText
  import opened SqliteStore
  import opened Ranking
  import opened Search
  import FtsQuery
  import LikePattern

  datatype SearchRequest = SearchRequest(agentId: string, sessionId: string, query: string, limit: Int32)

  /** How SQLite reads a sanitised text, and how it ranks the rows it matches: any functions. */
  datatype FtsEngine = FtsEngine(parse: string -> Query, summaryRank: nat -> real, entityRank: nat -> real,
                                 relationRank: nat -> real)

  const NO_ROW := FoundRow("", "", [], 0.0)

  // ----- Rows as the queries return them -----

  /** Numeric row ids are read as 32-bit integers here. */
  function FoundSummary(db: Db, rank: nat -> real): nat -> FoundRow {
    (id: nat) =>
      if 1 <= id <= |db.tables.summaries| then
        var row := db.tables.summaries[id - 1];
        FoundRow("summary:" + ToText(AsInt32(id)), row.level + ": " + row.topic + ": " + row.summary, row.sourceRefs,
                 rank(id))
      else NO_ROW
  }

  function FoundEntity(db: Db, rank: nat -> real): string -> FoundRow {
    (id: string) =>
      if id in db.tables.entities then
        var row := db.tables.entities[id];
        FoundRow(id, row.entityType + ": " + row.name + ": " + row.summary, row.sourceRefs, rank(row.rowid))
      else NO_ROW
  }

  function FoundRelation(db: Db, rank: nat -> real): nat -> FoundRow {
    (id: nat) =>
      if 1 <= id <= |db.tables.relations| then
        var row := db.tables.relations[id - 1];
        FoundRow("relation:" + ToText(AsInt32(id)), row.fromEntity + " " + row.relation + " " + row.toEntity,
                 row.sourceRefs, rank(id))
      else NO_ROW
  }

  // ----- The LIKE queries -----

  function Pattern(query: string): string {
    "%" + LikePattern.Escaped(query) + "%"
  }

  function LikeSummaries(db: Db, r: SearchRequest): set<nat> {
    set i | 0 <= i < |db.tables.summaries|
      && var row := db.tables.summaries[i];
         && row.agentId == r.agentId && (r.sessionId == "" || row.sessionId == r.sessionId)
         && (LikePattern.Like(Pattern(r.query), row.topic) || LikePattern.Like(Pattern(r.query), row.summary)) :: i + 1
  }

  function LikeEntities(db: Db, r: SearchRequest): set<string> {
    set id | id in db.tables.entities
      && var row := db.tables.entities[id];
         && row.active && row.agentId == r.agentId
         && (LikePattern.Like(Pattern(r.query), id) || LikePattern.Like(Pattern(r.query), row.entityType)
             || LikePattern.Like(Pattern(r.query), row.name) || LikePattern.Like(Pattern(r.query), row.summary))
  }

  function LikeRelations(db: Db, r: SearchRequest): set<nat> {
    set i | 0 <= i < |db.tables.relations|
      && var row := db.tables.relations[i];
         && row.active && row.agentId == r.agentId
         && (LikePattern.Like(Pattern(r.query), row.fromEntity) || LikePattern.Like(Pattern(r.query), row.relation)
             || LikePattern.Like(Pattern(r.query), row.toEntity)) :: i + 1
  }

  /** Some of the texts contains the query, up to case. */
  ghost predicate AnyContains(query: string, texts: seq<string>) {
    exists i :: 0 <= i < |texts| && LikePattern.Contains(query, texts[i])
  }

  /** The LIKE queries match exactly the rows that contain the query in one of their columns. */
  lemma LikeMatchesContain(db: Db, r: SearchRequest, i: nat, id: string)
    ensures i in LikeSummaries(db, r) <==>
      1 <= i <= |db.tables.summaries| && var row := db.tables.summaries[i - 1];
      && row.agentId == r.agentId && (r.sessionId == "" || row.sessionId == r.sessionId)
      && AnyContains(r.query, [row.topic, row.summary])
    ensures id in LikeEntities(db, r) <==>
      id in db.tables.entities && var row := db.tables.entities[id];
      && row.active && row.agentId == r.agentId && AnyContains(r.query, [id, row.entityType, row.name, row.summary])
    ensures i in LikeRelations(db, r) <==>
      1 <= i <= |db.tables.relations| && var row := db.tables.relations[i - 1];
      && row.active && row.agentId == r.agentId && AnyContains(r.query, [row.fromEntity, row.relation, row.toEntity])
  {
    hide LikePattern.Like, LikePattern.Contains, Pattern, AnyContains;
    forall s ensures LikePattern.Like(Pattern(r.query), s) <==> LikePattern.Contains(r.query, s) {
      SearchIsContains(r.query, s);
    }
    if 1 <= i <= |db.tables.summaries| {
      var row := db.tables.summaries[i - 1];
      OneOfFour(r.query, row.topic, row.summary, row.topic, row.topic);
    }
    if id in db.tables.entities {
      var row := db.tables.entities[id];
      OneOfFour(r.query, id, row.entityType, row.name, row.summary);
    }
    if 1 <= i <= |db.tables.relations| {
      var row := db.tables.relations[i - 1];
      OneOfFour(r.query, row.fromEntity, row.relation, row.toEntity, row.toEntity);
    }
  }

  lemma OneOfFour(query: string, a: string, b: string, c: string, d: string)
    ensures AnyContains(query, [a, b]) <==> LikePattern.Contains(query, a) || LikePattern.Contains(query, b)
    ensures AnyContains(query, [a, b, c]) <==> AnyContains(query, [a, b]) || LikePattern.Contains(query, c)
    ensures AnyContains(query, [a, b, c, d]) <==> AnyContains(query, [a, b, c]) || LikePattern.Contains(query, d)
  {
    hide LikePattern.Contains;
    var two, three, four := [a, b], [a, b, c], [a, b, c, d];
    assert two[0] == a && two[1] == b && three[0] == a && three[1] == b && three[2] == c;
    assert four[0] == a && four[1] == b && four[2] == c && four[3] == d;
  }

  lemma SearchIsContains(query: string, s: string)
    ensures LikePattern.Like(Pattern(query), s) <==> LikePattern.Contains(query, s)
  {
    LikePattern.SearchPatternIsSubstring(query, s);
  }

  // ----- One query -----

  /** Every matching row once. */
  ghost predicate IsListing<K(!new)>(keys: seq<K>, matching: set<K>) {
    && (forall i, j :: 0 <= i < j < |keys| ==> keys[i] != keys[j])
    && (forall k :: k in keys <==> k in matching)
  }

  ghost predicate IsAnswer<K(!new)>(keys: seq<K>, rows: seq<FoundRow>, matching: set<K>, found: K -> FoundRow,
                                    limit: nat) {
    IsListing(keys, matching) && ByRank(Map(found, keys)) && rows == Cut(Map(found, keys), limit)
  }

  /** A query that ran to its end gave the matching rows best rank first, cut to the limit; how ties
      are broken is left open. */
  ghost predicate Answers<K(!new)>(stage: Stage, matching: set<K>, found: K -> FoundRow, limit: nat) {
    stage.done ==> exists keys :: IsAnswer(keys, stage.rows, matching, found, limit)
  }

  lemma {:induction false} BestExists<K(!new)>(todo: set<K>, found: K -> FoundRow)
    requires todo != {}
    ensures exists k :: k in todo && NoneBefore(k, todo, found)
  {
    var x :| x in todo;
    if todo != {x} {
      BestExists(todo - {x}, found);
      var k :| k in todo - {x} && NoneBefore(k, todo - {x}, found);
      assert NoneBefore(if found(x).rank < found(k).rank then x else k, todo, found);
    } else {
      assert NoneBefore(x, todo, found);
    }
  }

  predicate NoneBefore<K(!new)>(k: K, todo: set<K>, found: K -> FoundRow) {
    forall m :: m in todo ==> found(k).rank <= found(m).rank
  }

  /** All rows but those of `todo`, best rank first, and none of `todo` before any of them. */
  ghost predicate Selected<K(!new)>(keys: seq<K>, matching: set<K>, todo: set<K>, found: K -> FoundRow) {
    && IsListing(keys, matching - todo) && ByRank(Map(found, keys))
    && forall i :: 0 <= i < |keys| ==> NoneBefore(keys[i], todo, found)
  }

  lemma SelectOne<K(!new)>(keys: seq<K>, matching: set<K>, todo: set<K>, found: K -> FoundRow, k: K)
    requires Selected(keys, matching, todo, found) && k in todo && todo <= matching && NoneBefore(k, todo, found)
    ensures Selected(keys + [k], matching, todo - {k}, found)
  {
    MapAppend(found, keys, k);
    assert matching - (todo - {k}) == (matching - todo) + {k};
  }

  /** How SQLite fares with a query: whether it can be prepared and runs to its end, and after how
      many rows it stops if it does not. */
  datatype Outcome = Outcome(prepared: bool, done: bool, stepped: nat)

  /** Runs a query: rows come best rank first, until the limit or a failure. */
  method RunQuery<K(!new, ==)>(matching: set<K>, found: K -> FoundRow, limit: nat, outcome: Outcome)
    returns (stage: Stage)
    ensures Answers(stage, matching, found, limit)
    ensures stage.prepared == outcome.prepared && stage.done == outcome.done
  {
    var keys, todo: set<K> := [], matching;
    while todo != {}
      invariant todo <= matching && Selected(keys, matching, todo, found)
      decreases |todo|
    {
      BestExists(todo, found);
      var k: K :| k in todo && NoneBefore(k, todo, found);
      SelectOne(keys, matching, todo, found, k);
      keys, todo := keys + [k], todo - {k};
    }
    var rows := Cut(Map(found, keys), limit);
    assert matching - todo == matching;
    assert IsAnswer(keys, rows, matching, found, limit);
    if !outcome.done && outcome.stepped < |rows| {
      rows := rows[..outcome.stepped];
    }
    stage := Stage(outcome.prepared, rows, outcome.done);
  }

  /** How many matching rows score at least `x`. */
  function Reaching<K>(matching: set<K>, found: K -> FoundRow, toHit: FoundRow -> SearchHit, x: real): nat {
    |set k | k in matching && toHit(found(k)).score >= x|
  }

  lemma ReachingWithout<K(!new)>(matching: set<K>, found: K -> FoundRow, toHit: FoundRow -> SearchHit, x: real, k: K)
    requires k in matching
    ensures Reaching(matching, found, toHit, x)
         == Reaching(matching - {k}, found, toHit, x) + if toHit(found(k)).score >= x then 1 else 0
  {
    var reaching := set m | m in matching && toHit(found(m)).score >= x;
    var fewer := set m | m in matching - {k} && toHit(found(m)).score >= x;
    if toHit(found(k)).score >= x {
      assert reaching == fewer + {k};
    } else {
      assert reaching == fewer;
    }
  }

  lemma ListingWithout<K(!new)>(front: seq<K>, last: K, matching: set<K>)
    requires IsListing(front + [last], matching)
    ensures last in matching && IsListing(front, matching - {last})
  {
    var keys := front + [last];
    assert forall i :: 0 <= i < |front| ==> keys[i] == front[i];
    assert keys[|front|] == last;
  }

  lemma CountLast(hits: seq<SearchHit>, hit: SearchHit, x: real)
    ensures Count(AtLeast(x), hits + [hit]) == Count(AtLeast(x), hits) + if hit.score >= x then 1 else 0
  {
    assert (hits + [hit])[..|hits|] == hits;
  }

  lemma {:induction false} ListingCount<K(!new)>(keys: seq<K>, matching: set<K>, found: K -> FoundRow,
                                                 toHit: FoundRow -> SearchHit, x: real)
    requires IsListing(keys, matching)
    ensures Count(AtLeast(x), Map(toHit, Map(found, keys))) == Reaching(matching, found, toHit, x)
  {
    if keys == [] {
      assert matching == {};
      assert (set k | k in matching && toHit(found(k)).score >= x) == {};
      FilterEmpty(AtLeast(x));
    } else {
      hide Count, Reaching, IsListing, AtLeast;
      var front, last := keys[..|keys| - 1], keys[|keys| - 1];
      assert keys == front + [last];
      ListingWithout(front, last, matching);
      ListingCount(front, matching - {last}, found, toHit, x);
      MapAppend(found, front, last);
      MapAppend(toHit, Map(found, front), found(last));
      CountLast(Map(toHit, Map(found, front)), toHit(found(last)), x);
      ReachingWithout(matching, found, toHit, x, last);
    }
  }

  /** A better rank does not score lower. */
  ghost predicate ScoresByRank(toHit: FoundRow -> SearchHit) {
    forall a: FoundRow, b: FoundRow :: a.rank <= b.rank ==> toHit(a).score >= toHit(b).score
  }

  /** A query's hits, counted at a threshold. */
  lemma AnswerCount<K(!new)>(stage: Stage, matching: set<K>, found: K -> FoundRow, toHit: FoundRow -> SearchHit,
                             limit: nat, x: real)
    requires stage.done && 0 < limit && Answers(stage, matching, found, limit)
    requires ScoresByRank(toHit)
    ensures Count(AtLeast(x), Map(toHit, stage.rows)) == Least(limit, Reaching(matching, found, toHit, x))
  {
    var keys :| IsAnswer(keys, stage.rows, matching, found, limit);
    var hits := Map(toHit, Map(found, keys));
    assert Descending(hits);
    ListingCount(keys, matching, found, toHit, x);
    CutCount(AtLeast(x), hits, limit);
    CutIsLeast(hits, limit);
    assert Map(toHit, stage.rows) == Cut(hits, limit);
  }

  ghost predicate Different<K(!new)>(keys: seq<K>, matching: set<K>) {
    && (forall i, j :: 0 <= i < j < |keys| ==> keys[i] != keys[j])
    && (forall i :: 0 <= i < |keys| ==> keys[i] in matching)
  }

  /** The rows of a query that ran to its end are different rows of the table. */
  lemma AnswerKeys<K(!new)>(stage: Stage, matching: set<K>, found: K -> FoundRow, limit: nat) returns (keys: seq<K>)
    requires stage.done && Answers(stage, matching, found, limit)
    ensures Different(keys, matching) && stage.rows == Map(found, keys)
  {
    var all :| IsAnswer(all, stage.rows, matching, found, limit);
    keys := all[..|stage.rows|];
    assert forall k :: k in keys ==> k in all;
  }

  lemma NoAnswerNoMatch<K(!new)>(stage: Stage, matching: set<K>, found: K -> FoundRow, limit: nat)
    requires stage.done && 0 < limit && Answers(stage, matching, found, limit)
    ensures stage.rows == [] <==> matching == {}
  {
    var keys :| IsAnswer(keys, stage.rows, matching, found, limit);
    assert keys != [] ==> keys[0] in matching;
  }

  // ----- The whole search -----

  /** The sets of rows a search is over, and the rows as its queries return them. */
  datatype Sources = Sources(summaries: set<nat>, entities: set<string>, relations: set<nat>)

  datatype Found = Found(summary: nat -> FoundRow, entity: string -> FoundRow, relation: nat -> FoundRow)

  type Scoring = string -> FoundRow -> SearchHit

  ghost predicate Runs(from: Sources, found: Found, stages: Stages, limit: nat) {
    && Answers(stages.summaries, from.summaries, found.summary, limit)
    && Answers(stages.entities, from.entities, found.entity, limit)
    && Answers(stages.relations, from.relations, found.relation, limit)
  }

  /** What the full-text queries find through the indexes, and by reading every row. */
  function Matched(db: Db, query: Query, r: SearchRequest): Sources {
    Sources(MatchSummaries(db.summaryIndex, db.tables.summaries, query, r.agentId, r.sessionId),
            MatchEntities(db.entityIndex, db.tables.entities, query, r.agentId),
            MatchRelations(db.relationIndex, db.tables.relations, query, r.agentId))
  }

  function Scanned(tok: Tokenizer, db: Db, query: Query, r: SearchRequest): Sources {
    Sources(ScanSummaries(tok, db.tables.summaries, query, r.agentId, r.sessionId),
            ScanEntities(tok, db.tables.entities, query, r.agentId),
            ScanRelations(tok, db.tables.relations, query, r.agentId))
  }

  function LikeMatched(db: Db, r: SearchRequest): Sources {
    Sources(LikeSummaries(db, r), LikeEntities(db, r), LikeRelations(db, r))
  }

  function FtsFound(db: Db, engine: FtsEngine): Found {
    Found(FoundSummary(db, engine.summaryRank), FoundEntity(db, engine.entityRank),
          FoundRelation(db, engine.relationRank))
  }

  /** The LIKE queries rank nothing. */
  function LikeFound(db: Db): Found {
    Found(FoundSummary(db, _ => 0.0), FoundEntity(db, _ => 0.0), FoundRelation(db, _ => 0.0))
  }

  function FtsScoring(round: Rounding): Scoring {
    (hitType: string) => (row: FoundRow) => FtsHit(round, hitType, row)
  }

  function LikeScoring(round: Rounding): Scoring {
    (hitType: string) => (row: FoundRow) => LikeHit(round, hitType, row)
  }

  /** What the queries return of a row: its name, its text and its sources. */
  lemma FoundShowsRow(db: Db, engine: FtsEngine, i: nat, id: string)
    ensures 1 <= i <= |db.tables.summaries| ==>
      var row := db.tables.summaries[i - 1];
      FtsFound(db, engine).summary(i)
      == FoundRow("summary:" + ToText(AsInt32(i)), row.level + ": " + row.topic + ": " + row.summary, row.sourceRefs,
                  engine.summaryRank(i))
    ensures id in db.tables.entities ==>
      var row := db.tables.entities[id];
      FtsFound(db, engine).entity(id)
      == FoundRow(id, row.entityType + ": " + row.name + ": " + row.summary, row.sourceRefs,
                  engine.entityRank(row.rowid))
    ensures 1 <= i <= |db.tables.relations| ==>
      var row := db.tables.relations[i - 1];
      FtsFound(db, engine).relation(i)
      == FoundRow("relation:" + ToText(AsInt32(i)), row.fromEntity + " " + row.relation + " " + row.toEntity,
                  row.sourceRefs, engine.relationRank(i))
  {
    hide ToText, AsInt32;
  }

  lemma LikeFindsTheSame(db: Db, engine: FtsEngine, i: nat, id: string)
    ensures LikeFound(db).summary(i) == FtsFound(db, engine).summary(i).(rank := 0.0)
    ensures LikeFound(db).entity(id) == FtsFound(db, engine).entity(id).(rank := 0.0)
    ensures LikeFound(db).relation(i) == FtsFound(db, engine).relation(i).(rank := 0.0)
  {
    hide ToText, AsInt32;
  }

  /** A hit is its row with a score: by rank and type from the full-text queries, by type alone from the
      fallback. */
  lemma HitsShowRows(round: Rounding, hitType: string, row: FoundRow)
    ensures FtsScoring(round)(hitType)(row)
         == SearchHit(row.id, hitType, row.content, round(ExactScore(hitType, row.rank)), row.sourceRefs, FtsBm25)
    ensures LikeScoring(round)(hitType)(row)
         == SearchHit(row.id, hitType, row.content,
                      round(if hitType == "summary" then 0.30 else if hitType == "entity" then 0.25 else 0.20),
                      row.sourceRefs, LikeFallback)
  {
    hide ExactScore;
  }

  function HitsOf(stages: Stages, toHit: Scoring): seq<SearchHit> {
    Map(toHit("summary"), stages.summaries.rows) + Map(toHit("entity"), stages.entities.rows)
      + Map(toHit("relation"), stages.relations.rows)
  }

  /** A row of one of the three tables. */
  datatype RowKey = OfSummary(id: nat) | OfEntity(key: string) | OfRelation(id: nat)

  predicate Belongs(k: RowKey, from: Sources) {
    match k
    case OfSummary(id) => id in from.summaries
    case OfEntity(key) => key in from.entities
    case OfRelation(id) => id in from.relations
  }

  function HitFor(k: RowKey, found: Found, toHit: Scoring): SearchHit {
    match k
    case OfSummary(id) => toHit("summary")(found.summary(id))
    case OfEntity(key) => toHit("entity")(found.entity(key))
    case OfRelation(id) => toHit("relation")(found.relation(id))
  }

  ghost predicate StandFor(hits: seq<SearchHit>, keys: seq<RowKey>, from: Sources, found: Found, toHit: Scoring) {
    && |keys| == |hits|
    && (forall i, j :: 0 <= i < j < |keys| ==> keys[i] != keys[j])
    && (forall i :: 0 <= i < |keys| ==> Belongs(keys[i], from) && hits[i] == HitFor(keys[i], found, toHit))
  }

  /** The hits stand for different rows, all of them from the given sets. */
  ghost predicate Sound(hits: seq<SearchHit>, from: Sources, found: Found, toHit: Scoring) {
    exists keys :: StandFor(hits, keys, from, found, toHit)
  }

  function ReachingInAll(from: Sources, found: Found, toHit: Scoring, x: real): nat {
    Reaching(from.summaries, found.summary, toHit("summary"), x)
      + Reaching(from.entities, found.entity, toHit("entity"), x)
      + Reaching(from.relations, found.relation, toHit("relation"), x)
  }

  /** For every threshold there are as many hits as rows, up to the limit: the best rows were found. */
  ghost predicate Best(hits: seq<SearchHit>, from: Sources, found: Found, toHit: Scoring, limit: nat) {
    forall x :: Count(AtLeast(x), hits) == Least(limit, ReachingInAll(from, found, toHit, x))
  }

  lemma TopCounts(hits: seq<SearchHit>, limit: nat, x: real)
    requires 0 < limit
    ensures Count(AtLeast(x), TopHits(hits, limit)) == Least(limit, Count(AtLeast(x), hits))
  {
    SortOrdered(hits);
    SortCount(AtLeast(x), hits);
    CutCount(AtLeast(x), SortHits(hits), limit);
    CutIsLeast(SortHits(hits), limit);
  }

  /** Merging three queries that ran to their end gives the best of all their rows. */
  lemma MergeIsBest(from: Sources, found: Found, stages: Stages, toHit: Scoring, limit: nat)
    requires 0 < limit && Runs(from, found, stages, limit)
    requires stages.summaries.done && stages.entities.done && stages.relations.done
    requires forall hitType :: ScoresByRank(toHit(hitType))
    ensures Best(TopHits(HitsOf(stages, toHit), limit), from, found, toHit, limit)
  {
    hide Count, TopHits, Reaching, Answers, ScoresByRank;
    var hits := TopHits(HitsOf(stages, toHit), limit);
    forall x ensures Count(AtLeast(x), hits) == Least(limit, ReachingInAll(from, found, toHit, x))
    {
      TopCounts(HitsOf(stages, toHit), limit, x);
      CountThree(AtLeast(x), Map(toHit("summary"), stages.summaries.rows), Map(toHit("entity"), stages.entities.rows),
                 Map(toHit("relation"), stages.relations.rows));
      AnswerCount(stages.summaries, from.summaries, found.summary, toHit("summary"), limit, x);
      AnswerCount(stages.entities, from.entities, found.entity, toHit("entity"), limit, x);
      AnswerCount(stages.relations, from.relations, found.relation, toHit("relation"), limit, x);
    }
  }

  /** What three queries return stands for different rows, since each returns different ones. */
  lemma QueriesStandFor(from: Sources, found: Found, stages: Stages, toHit: Scoring, limit: nat)
    returns (keys: seq<RowKey>)
    requires Runs(from, found, stages, limit)
    requires stages.summaries.done && stages.entities.done && stages.relations.done
    ensures StandFor(HitsOf(stages, toHit), keys, from, found, toHit)
  {
    var ss := AnswerKeys(stages.summaries, from.summaries, found.summary, limit);
    var es := AnswerKeys(stages.entities, from.entities, found.entity, limit);
    var rs := AnswerKeys(stages.relations, from.relations, found.relation, limit);
    hide Answers, Runs, StandFor;
    var one, two, three := Map((id: nat) => OfSummary(id), ss), Map((key: string) => OfEntity(key), es),
                           Map((id: nat) => OfRelation(id), rs);
    SummariesStandFor(ss, one, from, found, toHit);
    EntitiesStandFor(es, two, from, found, toHit);
    RelationsStandFor(rs, three, from, found, toHit);
    keys := one + two + three;
    JoinStandFor(Map(toHit("summary"), stages.summaries.rows), one, Map(toHit("entity"), stages.entities.rows), two,
                 from, found, toHit);
    JoinStandFor(Map(toHit("summary"), stages.summaries.rows) + Map(toHit("entity"), stages.entities.rows), one + two,
                 Map(toHit("relation"), stages.relations.rows), three, from, found, toHit);
  }

  lemma SummariesStandFor(ids: seq<nat>, keys: seq<RowKey>, from: Sources, found: Found, toHit: Scoring)
    requires Different(ids, from.summaries)
    requires |keys| == |ids| && forall i :: 0 <= i < |ids| ==> keys[i] == OfSummary(ids[i])
    ensures StandFor(Map(toHit("summary"), Map(found.summary, ids)), keys, from, found, toHit)
    ensures forall k :: k in keys ==> k.OfSummary?
  {
  }

  lemma EntitiesStandFor(ids: seq<string>, keys: seq<RowKey>, from: Sources, found: Found, toHit: Scoring)
    requires Different(ids, from.entities)
    requires |keys| == |ids| && forall i :: 0 <= i < |ids| ==> keys[i] == OfEntity(ids[i])
    ensures StandFor(Map(toHit("entity"), Map(found.entity, ids)), keys, from, found, toHit)
    ensures forall k :: k in keys ==> k.OfEntity?
  {
  }

  lemma RelationsStandFor(ids: seq<nat>, keys: seq<RowKey>, from: Sources, found: Found, toHit: Scoring)
    requires Different(ids, from.relations)
    requires |keys| == |ids| && forall i :: 0 <= i < |ids| ==> keys[i] == OfRelation(ids[i])
    ensures StandFor(Map(toHit("relation"), Map(found.relation, ids)), keys, from, found, toHit)
    ensures forall k :: k in keys ==> k.OfRelation?
  {
  }

  lemma JoinStandFor(a: seq<SearchHit>, ks: seq<RowKey>, b: seq<SearchHit>, ls: seq<RowKey>, from: Sources,
                     found: Found, toHit: Scoring)
    requires StandFor(a, ks, from, found, toHit) && StandFor(b, ls, from, found, toHit)
    requires forall k :: k in ks ==> k !in ls
    ensures StandFor(a + b, ks + ls, from, found, toHit)
  {
    hide Belongs, HitFor;
    var keys := ks + ls;
    forall i, j | 0 <= i < j < |keys| ensures keys[i] != keys[j] {
      assert i < |ks| ==> keys[i] in ks;
      assert j >= |ks| ==> keys[j] in ls;
    }
  }

  lemma Without<T>(s: seq<T>, i: nat)
    requires i < |s|
    ensures multiset(s[..i] + s[i + 1..]) == multiset(s) - multiset{s[i]}
  {
    assert s == s[..i] + [s[i]] + s[i + 1..];
  }

  lemma PositionOfLast<T>(s: seq<T>, some: seq<T>) returns (i: nat)
    requires some != [] && multiset(some) <= multiset(s)
    ensures i < |s| && s[i] == some[|some| - 1]
    ensures multiset(some[..|some| - 1]) <= multiset(s[..i] + s[i + 1..])
  {
    var last := some[|some| - 1];
    assert some == some[..|some| - 1] + [last];
    assert last in multiset(s);
    i :| 0 <= i < |s| && s[i] == last;
    Without(s, i);
  }

  lemma OneMoreStandsFor(some: seq<SearchHit>, chosen: seq<RowKey>, k: RowKey, from: Sources, found: Found,
                         toHit: Scoring)
    requires some != [] && StandFor(some[..|some| - 1], chosen, from, found, toHit)
    requires k !in chosen && Belongs(k, from) && some[|some| - 1] == HitFor(k, found, toHit)
    ensures StandFor(some, chosen + [k], from, found, toHit)
  {
    hide Belongs, HitFor;
  }

  /** Whatever is taken from such hits stands for some of the same rows. */
  lemma {:induction false} Chosen(hits: seq<SearchHit>, keys: seq<RowKey>, some: seq<SearchHit>, from: Sources,
                                  found: Found, toHit: Scoring) returns (chosen: seq<RowKey>)
    requires StandFor(hits, keys, from, found, toHit) && multiset(some) <= multiset(hits)
    ensures StandFor(some, chosen, from, found, toHit) && forall k :: k in chosen ==> k in keys
    decreases |some|
  {
    if some == [] {
      chosen := [];
    } else {
      var i := PositionOfLast(hits, some);
      OthersStandFor(hits, keys, i, from, found, toHit);
      hide StandFor;
      chosen := Chosen(hits[..i] + hits[i + 1..], keys[..i] + keys[i + 1..], some[..|some| - 1], from, found, toHit);
      OneMoreStandsFor(some, chosen, keys[i], from, found, toHit);
      chosen := chosen + [keys[i]];
    }
  }

  lemma OthersStandFor(hits: seq<SearchHit>, keys: seq<RowKey>, i: nat, from: Sources, found: Found, toHit: Scoring)
    requires StandFor(hits, keys, from, found, toHit) && i < |hits|
    ensures StandFor(hits[..i] + hits[i + 1..], keys[..i] + keys[i + 1..], from, found, toHit)
    ensures |keys| == |hits| && keys[i] !in keys[..i] + keys[i + 1..]
    ensures Belongs(keys[i], from) && hits[i] == HitFor(keys[i], found, toHit)
    ensures forall k :: k in keys[..i] + keys[i + 1..] ==> k in keys
  {
    hide Belongs, HitFor;
  }

  lemma MergeIsSound(from: Sources, found: Found, stages: Stages, toHit: Scoring, limit: nat)
    requires Runs(from, found, stages, limit)
    requires stages.summaries.done && stages.entities.done && stages.relations.done
    ensures Sound(TopHits(HitsOf(stages, toHit), limit), from, found, toHit)
  {
    hide Runs, TopHits, StandFor;
    var keys := QueriesStandFor(from, found, stages, toHit, limit);
    TopFacts(HitsOf(stages, toHit), limit);
    var chosen := Chosen(HitsOf(stages, toHit), keys, TopHits(HitsOf(stages, toHit), limit), from, found, toHit);
  }

  lemma NothingFound(from: Sources, found: Found, fts: Stages, r: SearchRequest, round: Rounding)
    requires Runs(from, found, fts, Limit(r.limit))
    ensures FtsQuery.Sanitised(r.query) != "" && fts.summaries.done && fts.entities.done && fts.relations.done ==>
      (FtsAnswer(round, r.query, fts) == [] <==> from == Sources({}, {}, {}))
  {
    hide Answers;
    if fts.summaries.done && fts.entities.done && fts.relations.done {
      NoAnswerNoMatch(fts.summaries, from.summaries, found.summary, Limit(r.limit));
      NoAnswerNoMatch(fts.entities, from.entities, found.entity, Limit(r.limit));
      NoAnswerNoMatch(fts.relations, from.relations, found.relation, Limit(r.limit));
    }
  }

  lemma MatchedIsScanned(store: MemorySqliteStore, query: Query, r: SearchRequest)
    requires store.Valid()
    ensures Matched(store.Contents(), query, r) == Scanned(store.tokenize, store.Contents(), query, r)
  {
    SearchIsScan(store, query, r.agentId, r.sessionId);
  }

  lemma ScoringsByRank(round: Rounding, hitType: string)
    ensures Monotone(round) ==> ScoresByRank(FtsScoring(round)(hitType))
    ensures ScoresByRank(LikeScoring(round)(hitType))
  {
    if Monotone(round) {
      forall a: FoundRow, b: FoundRow | a.rank <= b.rank
        ensures FtsHit(round, hitType, a).score >= FtsHit(round, hitType, b).score
      {
        ScoreRange(hitType, a.rank, b.rank);
      }
    }
  }

  /** A successful search of a valid store returns the best of the rows that a scan finds with the
      full-text query; or, if there are none or a full-text query failed, of the rows that contain the
      text. Each hit stands for such a row. Unless one failed, the full-text queries give nothing
      precisely when a scan finds nothing. */
  lemma SearchIsBestOfScan(store: MemorySqliteStore, engine: FtsEngine, r: SearchRequest, round: Rounding, fts: Stages,
                           like: Stages)
    requires store.Valid() && Monotone(round)
    requires var query := engine.parse(FtsQuery.Sanitised(r.query));
      Runs(Matched(store.Contents(), query, r), FtsFound(store.Contents(), engine), fts, Limit(r.limit))
    requires Runs(LikeMatched(store.Contents(), r), LikeFound(store.Contents()), like, Limit(r.limit))
    ensures var query, answer := engine.parse(FtsQuery.Sanitised(r.query)), FtsAnswer(round, r.query, fts);
      var scanned, found := Scanned(store.tokenize, store.Contents(), query, r), FtsFound(store.Contents(), engine);
      answer != [] ==>
        && Best(TopHits(answer, Limit(r.limit)), scanned, found, FtsScoring(round), Limit(r.limit))
        && Sound(TopHits(answer, Limit(r.limit)), scanned, found, FtsScoring(round))
    ensures FtsQuery.Sanitised(r.query) != "" && fts.summaries.done && fts.entities.done && fts.relations.done ==>
      (FtsAnswer(round, r.query, fts) == [] <==>
        Scanned(store.tokenize, store.Contents(), engine.parse(FtsQuery.Sanitised(r.query)), r) == Sources({}, {}, {}))
    ensures var matched, found := LikeMatched(store.Contents(), r), LikeFound(store.Contents());
      !LikeBreaks(like) ==>
        && Best(TopHits(LikeAnswer(round, like), Limit(r.limit)), matched, found, LikeScoring(round), Limit(r.limit))
        && Sound(TopHits(LikeAnswer(round, like), Limit(r.limit)), matched, found, LikeScoring(round))
  {
    var db, limit, query := store.Contents(), Limit(r.limit), engine.parse(FtsQuery.Sanitised(r.query));
    MatchedIsScanned(store, query, r);
    forall hitType ensures ScoresByRank(FtsScoring(round)(hitType)) && ScoresByRank(LikeScoring(round)(hitType)) {
      ScoringsByRank(round, hitType);
    }
    NothingFound(Matched(db, query, r), FtsFound(db, engine), fts, r, round);
    hide Runs, Matched, Scanned, LikeMatched, TopHits, Best, Sound, ScoresByRank, FtsFound, LikeFound,
      MemorySqliteStore.Valid, MemorySqliteStore.Contents;
    if FtsAnswer(round, r.query, fts) != [] {
      AnswersAreHits(round, r.query, fts, like);
      MergeIsBest(Matched(db, query, r), FtsFound(db, engine), fts, FtsScoring(round), limit);
      MergeIsSound(Matched(db, query, r), FtsFound(db, engine), fts, FtsScoring(round), limit);
    }
    if !LikeBreaks(like) {
      AnswersAreHits(round, r.query, fts, like);
      MergeIsBest(LikeMatched(db, r), LikeFound(db), like, LikeScoring(round), limit);
      MergeIsSound(LikeMatched(db, r), LikeFound(db), like, LikeScoring(round), limit);
    }
  }

  // ----- The method -----

  datatype Outcomes = Outcomes(summaries: Outcome, entities: Outcome, relations: Outcome)

  predicate AllDone(o: Outcomes) {
    o.summaries.done && o.entities.done && o.relations.done
  }

  predicate AllRan(o: Outcomes) {
    AllDone(o) && o.summaries.prepared && o.entities.prepared && o.relations.prepared
  }

  /** A full-text query that was reached could not be prepared, which ends the search. */
  predicate FtsAborts(query: string, o: Outcomes) {
    FtsQuery.Sanitised(query) != "" &&
    (!o.summaries.prepared ||
     (o.summaries.done && (!o.entities.prepared || (o.entities.done && !o.relations.prepared))))
  }

  ghost predicate Follow(stages: Stages, o: Outcomes) {
    && stages.summaries.prepared == o.summaries.prepared && stages.summaries.done == o.summaries.done
    && stages.entities.prepared == o.entities.prepared && stages.entities.done == o.entities.done
    && stages.relations.prepared == o.relations.prepared && stages.relations.done == o.relations.done
  }

  method RunQueries(from: Sources, found: Found, limit: nat, o: Outcomes) returns (stages: Stages)
    ensures Runs(from, found, stages, limit) && Follow(stages, o)
  {
    hide Answers;
    var summaries := RunQuery(from.summaries, found.summary, limit, o.summaries);
    var entities := RunQuery(from.entities, found.entity, limit, o.entities);
    var relations := RunQuery(from.relations, found.relation, limit, o.relations);
    stages := Stages(summaries, entities, relations);
  }

  lemma OutcomesDecide(query: string, round: Rounding, fts: Stages, o: Outcomes)
    requires Follow(fts, o)
    ensures FtsBreaks(query, fts) <==> FtsAborts(query, o)
    ensures LikeBreaks(fts) <==> !AllRan(o)
    ensures !AllDone(o) || FtsQuery.Sanitised(query) == "" ==> FtsAnswer(round, query, fts) == []
    ensures AllDone(o) <==> fts.summaries.done && fts.entities.done && fts.relations.done
  {
  }

  /** Whether the full-text queries give the answer: they all ran, and a scan finds something. */
  ghost predicate FullTextAnswers(store: MemorySqliteStore, engine: FtsEngine, r: SearchRequest, fts: Outcomes)
    reads store
  {
    var sanitised := FtsQuery.Sanitised(r.query);
    var scanned := Scanned(store.tokenize, store.Contents(), engine.parse(sanitised), r);
    sanitised != "" && AllDone(fts) && scanned != Sources({}, {}, {})
  }

  /** A search from end to end, for every way its queries may fare. */
  method SearchStore(store: MemorySqliteStore, engine: FtsEngine, r: SearchRequest, round: Rounding, fts: Outcomes,
                     like: Outcomes) returns (result: SearchResult)
    requires store.Valid() && Monotone(round)
    ensures r.query == "" ==> result == SearchResult(true, [])
    ensures r.query != "" ==>
      (result.succeeded <==> !FtsAborts(r.query, fts) && (FullTextAnswers(store, engine, r, fts) || AllRan(like)))
    ensures r.query != "" && result.succeeded ==>
      var db, limit := store.Contents(), if r.limit > 0 then r.limit else 10;
      var scanned := Scanned(store.tokenize, db, engine.parse(FtsQuery.Sanitised(r.query)), r);
      && |result.results| <= limit
      && if FullTextAnswers(store, engine, r, fts) then
           && result.results != []
           && Best(result.results, scanned, FtsFound(db, engine), FtsScoring(round), limit)
           && Sound(result.results, scanned, FtsFound(db, engine), FtsScoring(round))
         else
           && Best(result.results, LikeMatched(db, r), LikeFound(db), LikeScoring(round), limit)
           && Sound(result.results, LikeMatched(db, r), LikeFound(db), LikeScoring(round))
  {
    var db, limit := store.Contents(), Limit(r.limit);
    assert limit == if r.limit > 0 then r.limit else 10;
    var query := engine.parse(FtsQuery.Sanitised(r.query));
    var texts := RunQueries(Matched(db, query, r), FtsFound(db, engine), limit, fts);
    var likes := RunQueries(LikeMatched(db, r), LikeFound(db), limit, like);
    OutcomesDecide(r.query, round, texts, fts);
    OutcomesDecide(r.query, round, likes, like);
    hide Runs, Matched, Scanned, LikeMatched, Best, Sound, FtsFound, LikeFound, Follow, AllDone, AllRan, FtsAborts,
      FtsBreaks, LikeBreaks, FtsAnswer, LikeAnswer, TopHits, FtsQuery.Sanitised, Limit, MemorySqliteStore.Valid,
      MemorySqliteStore.Contents;
    SearchIsBestOfScan(store, engine, r, round, texts, likes);
    result := SearchLongTermMemory(r.query, r.limit, round, texts, likes);
    TopSize(FtsAnswer(round, r.query, texts), limit);
    TopSize(LikeAnswer(round, likes), limit);
  }

  lemma TopSize(hits: seq<SearchHit>, limit: nat)
    requires 0 < limit
    ensures |TopHits(hits, limit)| <= limit
    ensures TopHits(hits, limit) == [] <==> hits == []
  {
    TopFacts(hits, limit);
    hide TopHits, Ordered;
  }

  lemma AnswersAreHits(round: Rounding, query: string, fts: Stages, like: Stages)
    ensures FtsAnswer(round, query, fts) != [] ==>
      && fts.summaries.done && fts.entities.done && fts.relations.done
      && FtsAnswer(round, query, fts) == HitsOf(fts, FtsScoring(round))
    ensures LikeAnswer(round, like) == HitsOf(like, LikeScoring(round))
  {
    assert FtsHits(round, "summary", fts.summaries.rows) == Map(FtsScoring(round)("summary"), fts.summaries.rows);
    assert FtsHits(round, "entity", fts.entities.rows) == Map(FtsScoring(round)("entity"), fts.entities.rows);
    assert FtsHits(round, "relation", fts.relations.rows) == Map(FtsScoring(round)("relation"), fts.relations.rows);
    assert LikeHits(round, "summary", like.summaries.rows) == Map(LikeScoring(round)("summary"), like.summaries.rows);
    assert LikeHits(round, "entity", like.entities.rows) == Map(LikeScoring(round)("entity"), like.entities.rows);
    assert LikeHits(round, "relation", like.relations.rows) == Map(LikeScoring(round)("relation"), like.relations.rows);
  }
}
