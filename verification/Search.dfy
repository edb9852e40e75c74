/** The search path: three full-text queries, or three LIKE queries when they give nothing. */
module Search {
  import opened Integers
  import opened Sequences
  import opened FtsQuery
  import opened Ranking

  /** One SQL query: whether it could be prepared, the rows it gave, already cut to the limit, and
      whether it ran to the end. */
  datatype Stage = Stage(prepared: bool, rows: seq<FoundRow>, done: bool)

  datatype Stages = Stages(summaries: Stage, entities: Stage, relations: Stage)

  datatype SearchResult = SearchResult(succeeded: bool, results: seq<SearchHit>)

  function FtsHits(round: Rounding, hitType: string, rows: seq<FoundRow>): seq<SearchHit> {
    Map((row: FoundRow) => FtsHit(round, hitType, row), rows)
  }

  function LikeHits(round: Rounding, hitType: string, rows: seq<FoundRow>): seq<SearchHit> {
    Map((row: FoundRow) => LikeHit(round, hitType, row), rows)
  }

  /** The answer of the full-text queries; a failing stage voids the ones before it. */
  function FtsAnswer(round: Rounding, query: string, fts: Stages): seq<SearchHit> {
    if Sanitised(query) == "" || !fts.summaries.done || !fts.entities.done || !fts.relations.done then []
    else
      FtsHits(round, "summary", fts.summaries.rows) + FtsHits(round, "entity", fts.entities.rows)
        + FtsHits(round, "relation", fts.relations.rows)
  }

  function LikeAnswer(round: Rounding, like: Stages): seq<SearchHit> {
    LikeHits(round, "summary", like.summaries.rows) + LikeHits(round, "entity", like.entities.rows)
      + LikeHits(round, "relation", like.relations.rows)
  }

  function Limit(limit: Int32): (n: nat)
    ensures 0 < n
  {
    if limit > 0 then limit else 10
  }

  /** All hits were scored the same way. */
  ghost predicate OneSource(hits: seq<SearchHit>) {
    forall i, j :: 0 <= i < |hits| && 0 <= j < |hits| ==> hits[i].scoreSource == hits[j].scoreSource
  }

  ghost predicate AllFrom(hits: seq<SearchHit>, source: ScoreSource) {
    forall i :: 0 <= i < |hits| ==> hits[i].scoreSource == source
  }

  /** Whether the full-text part ends the search with an error: a query it reached did not prepare. */
  predicate FtsBreaks(query: string, fts: Stages) {
    Sanitised(query) != "" &&
    (!fts.summaries.prepared
     || (fts.summaries.done &&
         (!fts.entities.prepared || (fts.entities.done && !fts.relations.prepared))))
  }

  predicate LikeBreaks(like: Stages) {
    || !like.summaries.prepared || !like.summaries.done
    || !like.entities.prepared || !like.entities.done
    || !like.relations.prepared || !like.relations.done
  }

  method CollectFts(round: Rounding, hitType: string, rows: seq<FoundRow>, results: seq<SearchHit>)
    returns (all: seq<SearchHit>)
    ensures all == results + FtsHits(round, hitType, rows)
  {
    all := results;
    for i := 0 to |rows|
      invariant all == results + FtsHits(round, hitType, rows)[..i]
    {
      all := all + [FtsHit(round, hitType, rows[i])];
    }
  }

  method CollectLike(round: Rounding, hitType: string, rows: seq<FoundRow>, results: seq<SearchHit>)
    returns (all: seq<SearchHit>)
    ensures all == results + LikeHits(round, hitType, rows)
  {
    all := results;
    for i := 0 to |rows|
      invariant all == results + LikeHits(round, hitType, rows)[..i]
    {
      all := all + [LikeHit(round, hitType, rows[i])];
    }
  }

  /** An answer is wholly full-text or wholly LIKE, even when a later full-text stage fails after
      earlier ones gave rows, and even in the partial results of an error. */
  method SearchLongTermMemory(query: string, limit: Int32, round: Rounding, fts: Stages, like: Stages)
    returns (result: SearchResult)
    ensures OneSource(result.results)
    ensures result.succeeded <==>
      query == "" || (!FtsBreaks(query, fts) && (FtsAnswer(round, query, fts) != [] || !LikeBreaks(like)))
    ensures result.succeeded && query != "" ==>
      var answer := FtsAnswer(round, query, fts);
      result.results == TopHits(if answer != [] then answer else LikeAnswer(round, like), Limit(limit))
    ensures query == "" ==> result.results == []
  {
    if query == "" {
      return SearchResult(true, []);
    }
    var effective := if limit > 0 then limit else 10;
    hide SortHits, FtsAnswer, LikeAnswer, FtsBreaks, LikeBreaks;
    var ok, results := FtsStages(query, round, fts);
    if ok && results == [] {
      ok, results := LikeStages(round, like);
      if !ok {
        return SearchResult(false, results);
      }
    }
    if !ok {
      return SearchResult(false, results);
    }
    ghost var merged := results;
    results := SortAndLimitSearchResults(results, effective);
    SortingKeepsSource(merged, results);
    result := SearchResult(true, results);
  }

  /** The full-text queries; not ok when one that was reached could not be prepared. */
  method FtsStages(query: string, round: Rounding, fts: Stages) returns (ok: bool, results: seq<SearchHit>)
    ensures AllFrom(results, FtsBm25)
    ensures ok <==> !FtsBreaks(query, fts)
    ensures ok ==> results == FtsAnswer(round, query, fts)
  {
    hide Sanitised;
    ok, results := true, [];
    var ftsQuery := Fts5EscapeQuery(query);
    if ftsQuery == "" {
      return;
    }
    if !fts.summaries.prepared {
      return false, results;
    }
    results := CollectFts(round, "summary", fts.summaries.rows, results);
    if !fts.summaries.done {
      return true, [];
    }
    if !fts.entities.prepared {
      return false, results;
    }
    results := CollectFts(round, "entity", fts.entities.rows, results);
    if !fts.entities.done {
      return true, [];
    }
    if !fts.relations.prepared {
      return false, results;
    }
    results := CollectFts(round, "relation", fts.relations.rows, results);
    if !fts.relations.done {
      return true, [];
    }
  }

  /** The fallback: stops with what it has at the first stage that fails. */
  method LikeStages(round: Rounding, like: Stages) returns (ok: bool, results: seq<SearchHit>)
    ensures AllFrom(results, LikeFallback)
    ensures ok <==> !LikeBreaks(like)
    ensures ok ==> results == LikeAnswer(round, like)
  {
    ok, results := false, [];
    if !like.summaries.prepared {
      return;
    }
    results := CollectLike(round, "summary", like.summaries.rows, results);
    if !like.summaries.done || !like.entities.prepared {
      return;
    }
    results := CollectLike(round, "entity", like.entities.rows, results);
    if !like.entities.done || !like.relations.prepared {
      return;
    }
    results := CollectLike(round, "relation", like.relations.rows, results);
    ok := like.relations.done;
  }

  lemma SortingKeepsSource(hits: seq<SearchHit>, sorted: seq<SearchHit>)
    requires multiset(sorted) <= multiset(hits)
    ensures forall source :: AllFrom(hits, source) ==> AllFrom(sorted, source)
  {
    forall i | 0 <= i < |sorted| ensures sorted[i] in hits {
      assert sorted[i] in multiset(sorted);
    }
  }

  // ----- What a limited search finds -----

  predicate ByRank(rows: seq<FoundRow>) {
    forall i, j :: 0 <= i < j < |rows| ==> rows[i].rank <= rows[j].rank
  }

  lemma RankedHitsDescend(round: Rounding, hitType: string, rows: seq<FoundRow>, k: nat)
    requires Monotone(round) && ByRank(rows)
    ensures Descending(FtsHits(round, hitType, rows))
    ensures FtsHits(round, hitType, Cut(rows, k)) == Cut(FtsHits(round, hitType, rows), k)
  {
    forall i, j | 0 <= i < j < |rows|
      ensures FtsHits(round, hitType, rows)[i].score >= FtsHits(round, hitType, rows)[j].score
    {
      ScoreRange(hitType, rows[i].rank, rows[j].rank);
    }
  }

  /** The rows of a stage are the best `limit` of all its matches. */
  predicate CutFromAll(stage: Stage, all: seq<FoundRow>, limit: nat) {
    stage.done && stage.rows == Cut(all, limit)
  }

  /** Although each type's matches are cut to the limit before they are merged, the search returns
      the scores of the best `limit` matches of all types together, for any monotone rounding. */
  lemma SearchScoresAreGlobalTop(round: Rounding, query: string, limit: Int32, fts: Stages,
                                 summaries: seq<FoundRow>, entities: seq<FoundRow>, relations: seq<FoundRow>)
    requires Monotone(round) && Sanitised(query) != ""
    requires ByRank(summaries) && ByRank(entities) && ByRank(relations)
    requires CutFromAll(fts.summaries, summaries, Limit(limit))
    requires CutFromAll(fts.entities, entities, Limit(limit))
    requires CutFromAll(fts.relations, relations, Limit(limit))
    ensures Scores(TopHits(FtsAnswer(round, query, fts), Limit(limit)))
         == Scores(TopHits(FtsHits(round, "summary", summaries) + FtsHits(round, "entity", entities)
                           + FtsHits(round, "relation", relations), Limit(limit)))
  {
    RankedHitsDescend(round, "summary", summaries, Limit(limit));
    RankedHitsDescend(round, "entity", entities, Limit(limit));
    RankedHitsDescend(round, "relation", relations, Limit(limit));
    hide FtsHits, TopHits, Scores, Descending;
    MergedTopIsGlobalTop(FtsHits(round, "summary", summaries), FtsHits(round, "entity", entities),
                         FtsHits(round, "relation", relations), Limit(limit));
  }
}
