/** Scoring, sorting and cutting search hits. */
module Ranking {
  import opened Integers
  import opened Sequences

  datatype ScoreSource = FtsBm25 | LikeFallback

  datatype SearchHit = SearchHit(
    id: string,
    hitType: string,
    content: string,
    score: real,
    sourceRefs: seq<string>,
    scoreSource: ScoreSource)

  /** A row as a query returns it; `rank` is bm25, where smaller is better. */
  datatype FoundRow = FoundRow(id: string, content: string, sourceRefs: seq<string>, rank: real)

  function TypeWeight(hitType: string): (w: real)
    ensures 0.0 < w <= 1.0
  {
    if hitType == "summary" then 1.0 else if hitType == "entity" then 0.95 else 0.90
  }

  function FallbackScore(hitType: string): real {
    if hitType == "summary" then 0.30 else if hitType == "entity" then 0.25 else 0.20
  }

  function RawRank(bm25Rank: real): real {
    if -bm25Rank > 0.0 then -bm25Rank else 0.0
  }

  /** The weighted score before it is stored as a `float`. */
  function ExactScore(hitType: string, bm25Rank: real): real {
    var raw := RawRank(bm25Rank);
    (if raw > 0.0 then raw / (raw + 1.0) else 0.0) * TypeWeight(hitType)
  }

  /** All that matters of storing a score as `float` is that rounding is monotone. */
  ghost predicate Monotone(round: Rounding) {
    forall a: real, b: real :: a <= b ==> round(a) <= round(b)
  }

  function FtsHit(round: Rounding, hitType: string, row: FoundRow): SearchHit {
    SearchHit(row.id, hitType, row.content, round(ExactScore(hitType, row.rank)), row.sourceRefs, FtsBm25)
  }

  function LikeHit(round: Rounding, hitType: string, row: FoundRow): SearchHit {
    SearchHit(row.id, hitType, row.content, round(FallbackScore(hitType)), row.sourceRefs, LikeFallback)
  }

  /** Scores lie in [0, weight) and a better rank never scores lower; summaries weigh most, relations
      least. */
  lemma ScoreRange(hitType: string, a: real, b: real)
    ensures var w := if hitType == "summary" then 1.0 else if hitType == "entity" then 0.95 else 0.90;
      && 0.0 <= ExactScore(hitType, a) < w
      && (a >= 0.0 ==> ExactScore(hitType, a) == 0.0)
      && (a < 0.0 ==> ExactScore(hitType, a) * (1.0 - a) == -a * w)
    ensures a <= b ==> ExactScore(hitType, b) <= ExactScore(hitType, a)
  {
    var w := TypeWeight(hitType);
    Normalised(RawRank(a));
    Scale(Share(RawRank(a)), 1.0, w);
    ShareTimes(RawRank(a), w);
    if a <= b {
      ShareGrows(RawRank(b), RawRank(a));
      Normalised(RawRank(b));
      ScaleWeakly(Share(RawRank(b)), Share(RawRank(a)), w);
    }
  }

  function Share(raw: real): real
    requires 0.0 <= raw
  {
    if raw > 0.0 then raw / (raw + 1.0) else 0.0
  }

  lemma Normalised(raw: real)
    requires 0.0 <= raw
    ensures 0.0 <= Share(raw) < 1.0
  {
    if raw > 0.0 {
      assert Share(raw) * (raw + 1.0) == raw;
    }
  }

  lemma ShareTimes(raw: real, w: real)
    requires 0.0 <= raw
    ensures (Share(raw) * w) * (1.0 + raw) == raw * w
  {
    if raw > 0.0 {
      assert Share(raw) * (raw + 1.0) == raw;
      assert (Share(raw) * w) * (1.0 + raw) == (Share(raw) * (raw + 1.0)) * w;
    }
  }

  lemma ShareGrows(x: real, y: real)
    requires 0.0 <= x <= y
    ensures Share(x) <= Share(y)
  {
    if x > 0.0 {
      assert Share(x) == 1.0 - 1.0 / (x + 1.0);
      assert Share(y) == 1.0 - 1.0 / (y + 1.0);
      assert 1.0 / (y + 1.0) <= 1.0 / (x + 1.0);
    } else {
      Normalised(y);
    }
  }

  lemma Scale(x: real, y: real, w: real)
    requires 0.0 <= x < y && 0.0 < w
    ensures 0.0 <= x * w < y * w
  {
  }

  lemma ScaleWeakly(x: real, y: real, w: real)
    requires x <= y && 0.0 < w
    ensures x * w <= y * w
  {
  }

  // ----- The order of results -----

  predicate LexLeq(a: string, b: string) {
    a == "" || (b != "" && (a[0] < b[0] || (a[0] == b[0] && LexLeq(a[1..], b[1..]))))
  }

  /** Ids compare at the first character in which they differ, and a prefix comes first. */
  lemma {:induction false} LexByFirstDifference(a: string, b: string, n: nat)
    requires n <= |a| && n <= |b| && a[..n] == b[..n]
    ensures n == |a| ==> LexLeq(a, b)
    ensures n == |b| < |a| ==> !LexLeq(a, b)
    ensures n < |a| && n < |b| && a[n] != b[n] ==> (LexLeq(a, b) <==> a[n] < b[n])
  {
    if n > 0 {
      assert a[0] == a[..n][0] == b[..n][0] == b[0];
      assert a[1..][..n - 1] == a[..n][1..] == b[..n][1..] == b[1..][..n - 1];
      LexByFirstDifference(a[1..], b[1..], n - 1);
    }
  }

  /** Score descending, then id ascending. */
  predicate NotAfter(a: SearchHit, b: SearchHit) {
    a.score > b.score || (a.score == b.score && LexLeq(a.id, b.id))
  }

  ghost predicate Ordered(hits: seq<SearchHit>) {
    forall i, j :: 0 <= i < j < |hits| ==> NotAfter(hits[i], hits[j])
  }

  lemma {:induction false} LexTotal(a: string, b: string)
    ensures LexLeq(a, b) || LexLeq(b, a)
  {
    if a != "" && b != "" {
      LexTotal(a[1..], b[1..]);
    }
  }

  lemma {:induction false} LexTransitive(a: string, b: string, c: string)
    requires LexLeq(a, b) && LexLeq(b, c)
    ensures LexLeq(a, c)
  {
    if a != "" && a[0] == b[0] && b[0] == c[0] {
      LexTransitive(a[1..], b[1..], c[1..]);
    }
  }

  lemma NotAfterTransitive(a: SearchHit, b: SearchHit, c: SearchHit)
    requires NotAfter(a, b) && NotAfter(b, c)
    ensures NotAfter(a, c)
  {
    if a.score == b.score == c.score {
      LexTransitive(a.id, b.id, c.id);
    }
  }

  function Insert(hit: SearchHit, sorted: seq<SearchHit>): (r: seq<SearchHit>)
    ensures multiset(r) == multiset(sorted) + multiset{hit}
  {
    if sorted == [] || NotAfter(sorted[|sorted| - 1], hit) then sorted + [hit]
    else
      var front, last := sorted[..|sorted| - 1], sorted[|sorted| - 1];
      assert sorted == front + [last];
      Insert(hit, front) + [last]
  }

  /** The library sort, as the sorted permutation it returns. */
  function SortHits(hits: seq<SearchHit>): (r: seq<SearchHit>)
    ensures multiset(r) == multiset(hits)
  {
    if hits == [] then []
    else
      assert hits == hits[..|hits| - 1] + [hits[|hits| - 1]];
      Insert(hits[|hits| - 1], SortHits(hits[..|hits| - 1]))
  }

  function Cut<T>(s: seq<T>, limit: int): seq<T> {
    if 0 < limit < |s| then s[..limit] else s
  }

  function TopHits(hits: seq<SearchHit>, limit: int): seq<SearchHit> {
    Cut(SortHits(hits), limit)
  }

  lemma {:induction false} InsertOrdered(hit: SearchHit, sorted: seq<SearchHit>)
    requires Ordered(sorted)
    ensures Ordered(Insert(hit, sorted))
  {
    if sorted != [] {
      var front, last := sorted[..|sorted| - 1], sorted[|sorted| - 1];
      if NotAfter(last, hit) {
        forall i | 0 <= i < |sorted| ensures NotAfter(sorted[i], hit) {
          if i < |front| {
            NotAfterTransitive(sorted[i], last, hit);
          }
        }
      } else {
        LexTotal(last.id, hit.id);
        InsertOrdered(hit, front);
        var r := Insert(hit, front);
        forall i | 0 <= i < |r| ensures NotAfter(r[i], last) {
          assert r[i] in multiset(r);
          assert r[i] == hit || r[i] in front;
        }
      }
    }
  }

  lemma {:induction false} SortOrdered(hits: seq<SearchHit>)
    ensures Ordered(SortHits(hits))
  {
    if hits != [] {
      SortOrdered(hits[..|hits| - 1]);
      InsertOrdered(hits[|hits| - 1], SortHits(hits[..|hits| - 1]));
    }
  }

  /** The best hits in order, all from the input, as many as the limit allows. */
  lemma TopFacts(hits: seq<SearchHit>, limit: int)
    ensures Ordered(TopHits(hits, limit))
    ensures multiset(TopHits(hits, limit)) <= multiset(hits)
    ensures |SortHits(hits)| == |hits|
    ensures |TopHits(hits, limit)| == if 0 < limit < |hits| then limit else |hits|
  {
    var sorted := SortHits(hits);
    SortOrdered(hits);
    hide SortHits, NotAfter;
    assert |multiset(sorted)| == |multiset(hits)|;
    if 0 < limit < |sorted| {
      assert sorted == sorted[..limit] + sorted[limit..];
    }
  }

  lemma SortOneMore(hits: seq<SearchHit>, i: nat)
    requires i < |hits|
    ensures SortHits(hits[..i + 1]) == Insert(hits[i], SortHits(hits[..i]))
  {
    assert hits[..i + 1][..i] == hits[..i];
  }

  lemma SortNone()
    ensures SortHits([]) == []
  {
  }

  lemma TopIsCut(hits: seq<SearchHit>, limit: int)
    ensures var sorted := SortHits(hits);
      TopHits(hits, limit) == if limit > 0 && |sorted| > limit then sorted[..limit] else sorted
  {
  }

  /** An insertion sort in place of the library's, and the cut. */
  method SortAndLimitSearchResults(hits: seq<SearchHit>, limit: int) returns (result: seq<SearchHit>)
    ensures result == TopHits(hits, limit)
    ensures Ordered(result)
    ensures forall i, j :: 0 <= i < j < |result| ==>
      result[i].score > result[j].score
      || (result[i].score == result[j].score && LexLeq(result[i].id, result[j].id))
    ensures multiset(result) <= multiset(hits)
    ensures |result| == if 0 < limit < |hits| then limit else |hits|
  {
    hide *;
    result := [];
    var i := 0;
    SortNone();
    while i < |hits|
      invariant 0 <= i <= |hits| && result == SortHits(hits[..i])
    {
      SortOneMore(hits, i);
      result := Insert(hits[i], result);
      i := i + 1;
    }
    assert hits[..|hits|] == hits;
    TopFacts(hits, limit);
    TopIsCut(hits, limit);
    if limit > 0 && |result| > limit {
      result := result[..limit];
    }
    OrderedMeans(result);
  }

  lemma OrderedMeans(hits: seq<SearchHit>)
    requires Ordered(hits)
    ensures forall i, j :: 0 <= i < j < |hits| ==>
      hits[i].score > hits[j].score || (hits[i].score == hits[j].score && LexLeq(hits[i].id, hits[j].id))
  {
    hide LexLeq;
  }

  // ----- Merging lists that were cut before -----

  predicate Descending(hits: seq<SearchHit>) {
    forall i, j :: 0 <= i < j < |hits| ==> hits[i].score >= hits[j].score
  }

  function AtLeast(x: real): SearchHit -> bool {
    (hit: SearchHit) => hit.score >= x
  }

  function UpTo(x: SearchHit): SearchHit -> bool {
    (hit: SearchHit) => NotAfter(hit, x)
  }

  function Count(p: SearchHit -> bool, hits: seq<SearchHit>): nat {
    |Filter(p, hits)|
  }

  lemma CountConcat(p: SearchHit -> bool, a: seq<SearchHit>, b: seq<SearchHit>)
    ensures Count(p, a + b) == Count(p, a) + Count(p, b)
  {
    FilterConcat(p, a, b);
  }

  lemma CountThree(p: SearchHit -> bool, a: seq<SearchHit>, b: seq<SearchHit>, c: seq<SearchHit>)
    ensures Count(p, a + b + c) == Count(p, a) + Count(p, b) + Count(p, c)
  {
    CountConcat(p, a + b, c);
    CountConcat(p, a, b);
  }

  lemma {:induction false} InsertCount(p: SearchHit -> bool, hit: SearchHit, sorted: seq<SearchHit>)
    ensures Count(p, Insert(hit, sorted)) == Count(p, sorted) + Count(p, [hit])
  {
    hide Count, NotAfter;
    CountConcat(p, sorted, [hit]);
    if sorted != [] && !NotAfter(sorted[|sorted| - 1], hit) {
      var front, last := sorted[..|sorted| - 1], sorted[|sorted| - 1];
      InsertCount(p, hit, front);
      CountConcat(p, Insert(hit, front), [last]);
      CountConcat(p, front, [last]);
      assert front + [last] == sorted;
    }
  }

  lemma {:induction false} SortCount(p: SearchHit -> bool, hits: seq<SearchHit>)
    ensures Count(p, SortHits(hits)) == Count(p, hits)
  {
    hide Count, Insert;
    if hits != [] {
      var front, last := hits[..|hits| - 1], hits[|hits| - 1];
      SortCount(p, front);
      InsertCount(p, last, SortHits(front));
      CountConcat(p, front, [last]);
      assert front + [last] == hits;
    }
  }

  /** `p` holds of a head of the list. */
  ghost predicate HoldsOfHead(p: SearchHit -> bool, hits: seq<SearchHit>) {
    forall i, j :: 0 <= i < j < |hits| && p(hits[j]) ==> p(hits[i])
  }

  /** Such a head is as long as the count. */
  lemma {:induction false} CountIsPosition(p: SearchHit -> bool, hits: seq<SearchHit>, j: nat)
    requires HoldsOfHead(p, hits) && j < |hits|
    ensures p(hits[j]) <==> j < Count(p, hits)
  {
    var front, last := hits[..|hits| - 1], hits[|hits| - 1];
    if p(last) {
      FilterAll(p, hits);
    } else if j < |front| {
      CountIsPosition(p, front, j);
    }
  }

  function Least(a: nat, b: nat): nat {
    if a <= b then a else b
  }

  lemma {:induction false} CutCount(p: SearchHit -> bool, hits: seq<SearchHit>, k: nat)
    requires HoldsOfHead(p, hits)
    ensures Count(p, hits[..Least(k, |hits|)]) == Least(k, Count(p, hits))
  {
    if |hits| <= k {
      assert hits[..|hits|] == hits;
    } else {
      var front, last := hits[..|hits| - 1], hits[|hits| - 1];
      CutCount(p, front, k);
      assert front[..k] == hits[..k];
      if p(last) {
        FilterAll(p, hits);
        FilterAll(p, hits[..k]);
      }
    }
  }

  function Scores(hits: seq<SearchHit>): seq<real> {
    Map((hit: SearchHit) => hit.score, hits)
  }

  lemma CutIsLeast(a: seq<SearchHit>, k: nat)
    requires 0 < k
    ensures Cut(a, k) == a[..Least(k, |a|)]
  {
    if |a| <= k {
      assert a[..|a|] == a;
    }
  }

  lemma SortSize(hits: seq<SearchHit>)
    ensures |SortHits(hits)| == |hits|
  {
    assert |multiset(SortHits(hits))| == |multiset(hits)|;
  }

  lemma TopSize(hits: seq<SearchHit>, k: nat)
    requires 0 < k
    ensures |SortHits(hits)| == |hits| && |TopHits(hits, k)| == Least(k, |hits|)
    ensures forall j :: 0 <= j < |TopHits(hits, k)| ==> TopHits(hits, k)[j] == SortHits(hits)[j]
  {
    SortSize(hits);
  }

  /** The order of results respects `p`: whatever comes before a hit with `p` has it too. */
  ghost predicate Respected(p: SearchHit -> bool) {
    forall a, b :: NotAfter(a, b) && p(b) ==> p(a)
  }

  lemma Respects(p: SearchHit -> bool, x: SearchHit)
    requires p == AtLeast(x.score) || p == UpTo(x)
    ensures Respected(p)
  {
    forall a, b | NotAfter(a, b) && p(b) ensures p(a) {
      if p == UpTo(x) {
        NotAfterTransitive(a, b, x);
      }
    }
  }

  /** Which of the best hits satisfy such a `p` is a matter of how many do. */
  lemma TopCount(p: SearchHit -> bool, hits: seq<SearchHit>, k: nat, j: nat)
    requires Respected(p) && 0 < k && j < |TopHits(hits, k)|
    ensures p(TopHits(hits, k)[j]) <==> j < Count(p, hits)
  {
    TopSize(hits, k);
    SortOrdered(hits);
    SortCount(p, hits);
    OrderedHead(p, SortHits(hits));
    hide SortHits, Count, NotAfter, TopHits, Ordered, Respected, HoldsOfHead;
    CountIsPosition(p, SortHits(hits), j);
  }

  /** Cutting each list first does not change how many of the best `k` reach a threshold. */
  lemma CutMergeCount(a: seq<SearchHit>, b: seq<SearchHit>, c: seq<SearchHit>, k: nat, x: real)
    requires 0 < k && Descending(a) && Descending(b) && Descending(c)
    ensures Least(k, Count(AtLeast(x), Cut(a, k) + Cut(b, k) + Cut(c, k))) == Least(k, Count(AtLeast(x), a + b + c))
  {
    var p := AtLeast(x);
    CountThree(p, a, b, c);
    CountThree(p, Cut(a, k), Cut(b, k), Cut(c, k));
    CutIsLeast(a, k);
    CutIsLeast(b, k);
    CutIsLeast(c, k);
    CutCount(p, a, k);
    CutCount(p, b, k);
    CutCount(p, c, k);
  }

  /** Merged top-k is global top-k: sorting and cutting the union of three lists, each already cut
      to the limit in score order, gives the scores of sorting and cutting all matches. */
  lemma MergedTopIsGlobalTop(a: seq<SearchHit>, b: seq<SearchHit>, c: seq<SearchHit>, k: nat)
    requires 0 < k && Descending(a) && Descending(b) && Descending(c)
    ensures Scores(TopHits(Cut(a, k) + Cut(b, k) + Cut(c, k), k)) == Scores(TopHits(a + b + c, k))
  {
    var part, all := Cut(a, k) + Cut(b, k) + Cut(c, k), a + b + c;
    TopSize(part, k);
    TopSize(all, k);
    assert |TopHits(part, k)| == |TopHits(all, k)|;
    hide TopHits, SortHits, Cut, Count, Respected, NotAfter;
    forall j | 0 <= j < |TopHits(all, k)| ensures TopHits(part, k)[j].score == TopHits(all, k)[j].score {
      var x, y := TopHits(part, k)[j], TopHits(all, k)[j];
      CutMergeCount(a, b, c, k, x.score);
      CutMergeCount(a, b, c, k, y.score);
      Respects(AtLeast(x.score), x);
      Respects(AtLeast(y.score), y);
      TopCount(AtLeast(x.score), part, k, j);
      TopCount(AtLeast(x.score), all, k, j);
      TopCount(AtLeast(y.score), part, k, j);
      TopCount(AtLeast(y.score), all, k, j);
    }
  }

  // ----- When the hits themselves agree -----

  /** What the order of results looks at. */
  function Keys(hits: seq<SearchHit>): seq<(real, string)> {
    Map((hit: SearchHit) => (hit.score, hit.id), hits)
  }

  /** What a cut drops. */
  function Dropped(s: seq<SearchHit>, k: nat): seq<SearchHit> {
    if 0 < k < |s| then s[k..] else []
  }

  lemma {:induction false} LexAntisymmetric(a: string, b: string)
    requires LexLeq(a, b) && LexLeq(b, a)
    ensures a == b
  {
    if a != "" && b != "" {
      LexAntisymmetric(a[1..], b[1..]);
      assert a == [a[0]] + a[1..] && b == [b[0]] + b[1..];
    }
  }

  lemma SameKey(x: SearchHit, y: SearchHit)
    ensures NotAfter(x, y) && NotAfter(y, x) <==> x.score == y.score && x.id == y.id
    ensures NotAfter(x, y) || NotAfter(y, x)
  {
    LexTotal(x.id, y.id);
    LexTotal(x.id, x.id);
    if x.score == y.score && LexLeq(x.id, y.id) && LexLeq(y.id, x.id) {
      LexAntisymmetric(x.id, y.id);
    }
  }

  lemma KeptOrDropped(p: SearchHit -> bool, a: seq<SearchHit>, b: seq<SearchHit>, c: seq<SearchHit>, k: nat)
    ensures Count(p, a + b + c)
         == Count(p, Cut(a, k) + Cut(b, k) + Cut(c, k)) + Count(p, Dropped(a, k) + Dropped(b, k) + Dropped(c, k))
  {
    hide Count, Cut, Dropped;
    CountThree(p, a, b, c);
    CountThree(p, Cut(a, k), Cut(b, k), Cut(c, k));
    CountThree(p, Dropped(a, k), Dropped(b, k), Dropped(c, k));
    CountCut(p, a, k);
    CountCut(p, b, k);
    CountCut(p, c, k);
  }

  lemma CountCut(p: SearchHit -> bool, s: seq<SearchHit>, k: nat)
    ensures Count(p, s) == Count(p, Cut(s, k)) + Count(p, Dropped(s, k))
  {
    assert Cut(s, k) + Dropped(s, k) == s;
    hide Count;
    CountConcat(p, Cut(s, k), Dropped(s, k));
  }

  lemma CountMember(p: SearchHit -> bool, hits: seq<SearchHit>)
    ensures Count(p, hits) > 0 <==> exists d :: d in hits && p(d)
  {
    if Count(p, hits) > 0 {
      FilterMember(p, hits, Filter(p, hits)[0]);
    }
    if d :| d in hits && p(d) {
      FilterMember(p, hits, d);
    }
  }

  /** A hit was dropped only if enough others were kept. */
  lemma DroppedMeansFull(a: seq<SearchHit>, b: seq<SearchHit>, c: seq<SearchHit>, k: nat)
    requires 0 < k && Dropped(a, k) + Dropped(b, k) + Dropped(c, k) != []
    ensures |TopHits(Cut(a, k) + Cut(b, k) + Cut(c, k), k)| == k
  {
    TopSize(Cut(a, k) + Cut(b, k) + Cut(c, k), k);
  }

  /** No dropped hit precedes the last merged one. */
  ghost predicate NothingMissed(a: seq<SearchHit>, b: seq<SearchHit>, c: seq<SearchHit>, k: nat) {
    var merged := TopHits(Cut(a, k) + Cut(b, k) + Cut(c, k), k);
    forall d :: d in Dropped(a, k) + Dropped(b, k) + Dropped(c, k) ==>
      merged != [] && NotAfter(merged[|merged| - 1], d)
  }

  lemma SameSize(a: seq<SearchHit>, b: seq<SearchHit>, c: seq<SearchHit>, k: nat)
    requires 0 < k
    ensures |TopHits(Cut(a, k) + Cut(b, k) + Cut(c, k), k)| == |TopHits(a + b + c, k)|
  {
    TopSize(Cut(a, k) + Cut(b, k) + Cut(c, k), k);
    TopSize(a + b + c, k);
  }

  /** The global list is nowhere behind the merged one, nor ahead of it if nothing was missed. */
  lemma CompareAt(a: seq<SearchHit>, b: seq<SearchHit>, c: seq<SearchHit>, k: nat, j: nat)
    requires 0 < k && j < |TopHits(a + b + c, k)| == |TopHits(Cut(a, k) + Cut(b, k) + Cut(c, k), k)|
    ensures var x, y := TopHits(Cut(a, k) + Cut(b, k) + Cut(c, k), k)[j], TopHits(a + b + c, k)[j];
      NotAfter(y, x) && (NothingMissed(a, b, c, k) ==> NotAfter(x, y))
  {
    var part, all := Cut(a, k) + Cut(b, k) + Cut(c, k), a + b + c;
    var dropped := Dropped(a, k) + Dropped(b, k) + Dropped(c, k);
    hide TopHits, Cut, Dropped, Count, Respected, NotAfter;
    var merged, global := TopHits(part, k), TopHits(all, k);
    var x, y, last := merged[j], global[j], |merged| - 1;
    SameKey(x, x);
    SameKey(y, y);
    Respects(UpTo(x), x);
    Respects(UpTo(y), y);
    KeptOrDropped(UpTo(x), a, b, c, k);
    KeptOrDropped(UpTo(y), a, b, c, k);
    TopCount(UpTo(x), part, k, j);
    TopCount(UpTo(x), all, k, j);
    TopCount(UpTo(y), part, k, j);
    TopCount(UpTo(y), all, k, j);
    if NothingMissed(a, b, c, k) && !NotAfter(x, y) {
      CountMember(UpTo(y), dropped);
      var d :| d in dropped && NotAfter(d, y);
      NotAfterTransitive(merged[last], d, y);
      TopCount(UpTo(y), part, k, last);
    }
  }

  /** A missed hit shows: where the merged list passes it, the global one does not yet. */
  lemma MissedShows(a: seq<SearchHit>, b: seq<SearchHit>, c: seq<SearchHit>, k: nat, d: SearchHit)
    requires 0 < k && d in Dropped(a, k) + Dropped(b, k) + Dropped(c, k)
    ensures var merged, global := TopHits(Cut(a, k) + Cut(b, k) + Cut(c, k), k), TopHits(a + b + c, k);
      |merged| == |global| == k &&
      (NotAfter(merged[k - 1], d) || exists j :: 0 <= j < k && !NotAfter(merged[j], d) && NotAfter(global[j], d))
  {
    DroppedMeansFull(a, b, c, k);
    SameSize(a, b, c, k);
    DroppedCounts(a, b, c, k, d);
    hide *;
    FirstDifference(Cut(a, k) + Cut(b, k) + Cut(c, k), a + b + c, k, d);
  }

  lemma DroppedCounts(a: seq<SearchHit>, b: seq<SearchHit>, c: seq<SearchHit>, k: nat, d: SearchHit)
    requires d in Dropped(a, k) + Dropped(b, k) + Dropped(c, k)
    ensures Count(UpTo(d), Cut(a, k) + Cut(b, k) + Cut(c, k)) < Count(UpTo(d), a + b + c)
  {
    SameKey(d, d);
    hide Cut, Dropped, Count, NotAfter;
    CountMember(UpTo(d), Dropped(a, k) + Dropped(b, k) + Dropped(c, k));
    KeptOrDropped(UpTo(d), a, b, c, k);
  }

  lemma FirstDifference(part: seq<SearchHit>, all: seq<SearchHit>, k: nat, d: SearchHit)
    requires 0 < k == |TopHits(part, k)| == |TopHits(all, k)|
    requires Count(UpTo(d), part) < Count(UpTo(d), all)
    ensures NotAfter(TopHits(part, k)[k - 1], d) ||
      exists j :: 0 <= j < k && !NotAfter(TopHits(part, k)[j], d) && NotAfter(TopHits(all, k)[j], d)
  {
    hide TopHits, Count, Respected, NotAfter;
    Respects(UpTo(d), d);
    TopCount(UpTo(d), part, k, k - 1);
    var j := Count(UpTo(d), part);
    if j < k {
      TopCount(UpTo(d), part, k, j);
      TopCount(UpTo(d), all, k, j);
      assert !NotAfter(TopHits(part, k)[j], d) && NotAfter(TopHits(all, k)[j], d);
    }
  }

  lemma KeysAgree(a: seq<SearchHit>, b: seq<SearchHit>, c: seq<SearchHit>, k: nat)
    requires 0 < k && NothingMissed(a, b, c, k)
    ensures Keys(TopHits(Cut(a, k) + Cut(b, k) + Cut(c, k), k)) == Keys(TopHits(a + b + c, k))
  {
    SameSize(a, b, c, k);
    hide NothingMissed, TopHits, Cut, Dropped, NotAfter;
    var merged, global := TopHits(Cut(a, k) + Cut(b, k) + Cut(c, k), k), TopHits(a + b + c, k);
    forall j | 0 <= j < |global| ensures merged[j].score == global[j].score && merged[j].id == global[j].id {
      CompareAt(a, b, c, k, j);
      SameKey(merged[j], global[j]);
    }
  }

  lemma KeysDiffer(a: seq<SearchHit>, b: seq<SearchHit>, c: seq<SearchHit>, k: nat)
    requires 0 < k && !NothingMissed(a, b, c, k)
    ensures Keys(TopHits(Cut(a, k) + Cut(b, k) + Cut(c, k), k)) != Keys(TopHits(a + b + c, k))
  {
    hide TopHits, Cut, Dropped, NotAfter;
    var merged, global := TopHits(Cut(a, k) + Cut(b, k) + Cut(c, k), k), TopHits(a + b + c, k);
    var d :| d in Dropped(a, k) + Dropped(b, k) + Dropped(c, k)
      && !(merged != [] && NotAfter(merged[|merged| - 1], d));
    hide NothingMissed;
    MissedShows(a, b, c, k, d);
    var j :| 0 <= j < k && !NotAfter(merged[j], d) && NotAfter(global[j], d);
    KeyDecides(merged[j], global[j], d);
    assert Keys(merged)[j] != Keys(global)[j];
  }

  /** Scores and ids of the merged list are those of the global one precisely when no dropped hit
      precedes the last merged hit. */
  lemma MergedKeysAgreeIff(a: seq<SearchHit>, b: seq<SearchHit>, c: seq<SearchHit>, k: nat)
    requires 0 < k
    ensures var merged, global := TopHits(Cut(a, k) + Cut(b, k) + Cut(c, k), k), TopHits(a + b + c, k);
      Keys(merged) == Keys(global) <==> NothingMissed(a, b, c, k)
  {
    hide *;
    if NothingMissed(a, b, c, k) {
      KeysAgree(a, b, c, k);
    } else {
      KeysDiffer(a, b, c, k);
    }
  }

  lemma KeyDecides(x: SearchHit, y: SearchHit, d: SearchHit)
    ensures x.score == y.score && x.id == y.id ==> (NotAfter(x, d) <==> NotAfter(y, d))
  {
  }

  /** The same for the hits, wherever an id belongs to only one of them. */
  lemma MergedHitsAgreeIff(a: seq<SearchHit>, b: seq<SearchHit>, c: seq<SearchHit>, k: nat)
    requires 0 < k && forall x, y :: x in a + b + c && y in a + b + c && x.id == y.id ==> x == y
    ensures TopHits(Cut(a, k) + Cut(b, k) + Cut(c, k), k) == TopHits(a + b + c, k) <==> NothingMissed(a, b, c, k)
  {
    MergedKeysAgreeIff(a, b, c, k);
    SameSize(a, b, c, k);
    var part, all := Cut(a, k) + Cut(b, k) + Cut(c, k), a + b + c;
    hide TopHits, Cut, NothingMissed;
    var merged, global := TopHits(part, k), TopHits(all, k);
    if Keys(merged) == Keys(global) {
      forall j | 0 <= j < |global| ensures merged[j] == global[j] {
        assert Keys(merged)[j] == Keys(global)[j];
        TopFrom(part, k, j);
        TopFrom(all, k, j);
        CutFrom(a, b, c, k, merged[j]);
      }
    }
  }

  /** For lists in score order only ties at the last merged hit matter. */
  lemma OnlyTiesAreMissed(a: seq<SearchHit>, b: seq<SearchHit>, c: seq<SearchHit>, k: nat)
    requires 0 < k && Descending(a) && Descending(b) && Descending(c)
    ensures var merged := TopHits(Cut(a, k) + Cut(b, k) + Cut(c, k), k);
      NothingMissed(a, b, c, k) <==>
        forall d :: d in Dropped(a, k) + Dropped(b, k) + Dropped(c, k) ==>
          merged != [] && (d.score == merged[|merged| - 1].score ==> LexLeq(merged[|merged| - 1].id, d.id))
  {
    hide TopHits, Cut, Dropped, Count, Respected;
    forall d | d in Dropped(a, k) + Dropped(b, k) + Dropped(c, k)
      ensures var merged := TopHits(Cut(a, k) + Cut(b, k) + Cut(c, k), k);
        |merged| == k && d.score <= merged[k - 1].score
    {
      DroppedMeansFull(a, b, c, k);
      EnoughAbove(AtLeast(d.score), a, b, c, k, d);
      Respects(AtLeast(d.score), d);
      TopCount(AtLeast(d.score), Cut(a, k) + Cut(b, k) + Cut(c, k), k, k - 1);
    }
  }

  /** When a list respects `p` and a hit with `p` was dropped from it, `k` hits with `p` were kept. */
  lemma EnoughAbove(p: SearchHit -> bool, a: seq<SearchHit>, b: seq<SearchHit>, c: seq<SearchHit>, k: nat,
                    d: SearchHit)
    requires HoldsOfHead(p, a) && HoldsOfHead(p, b) && HoldsOfHead(p, c)
    requires 0 < k && p(d) && d in Dropped(a, k) + Dropped(b, k) + Dropped(c, k)
    ensures k <= Count(p, Cut(a, k) + Cut(b, k) + Cut(c, k))
  {
    CountThree(p, Cut(a, k), Cut(b, k), Cut(c, k));
    if d in Dropped(a, k) {
      AllKept(p, a, k, d);
    } else if d in Dropped(b, k) {
      AllKept(p, b, k, d);
    } else {
      AllKept(p, c, k, d);
    }
  }

  lemma AllKept(p: SearchHit -> bool, a: seq<SearchHit>, k: nat, d: SearchHit)
    requires HoldsOfHead(p, a) && p(d) && d in Dropped(a, k)
    ensures Count(p, Cut(a, k)) == k
  {
    var i :| k <= i < |a| && a[i] == d;
    FilterAll(p, a[..k]);
  }

  lemma OrderedHead(p: SearchHit -> bool, hits: seq<SearchHit>)
    requires Respected(p) && Ordered(hits)
    ensures HoldsOfHead(p, hits)
  {
    hide NotAfter;
  }

  /** Queries that break ties as the merge does would always agree with the global list. */
  lemma OrderedCutsMissNothing(a: seq<SearchHit>, b: seq<SearchHit>, c: seq<SearchHit>, k: nat)
    requires 0 < k && Ordered(a) && Ordered(b) && Ordered(c)
    ensures NothingMissed(a, b, c, k)
  {
    hide TopHits, Cut, Dropped, Count, Respected, NotAfter, Ordered, HoldsOfHead;
    forall d | d in Dropped(a, k) + Dropped(b, k) + Dropped(c, k)
      ensures var merged := TopHits(Cut(a, k) + Cut(b, k) + Cut(c, k), k);
        merged != [] && NotAfter(merged[|merged| - 1], d)
    {
      DroppedMeansFull(a, b, c, k);
      Respects(UpTo(d), d);
      SameKey(d, d);
      OrderedHead(UpTo(d), a);
      OrderedHead(UpTo(d), b);
      OrderedHead(UpTo(d), c);
      EnoughAbove(UpTo(d), a, b, c, k, d);
      TopCount(UpTo(d), Cut(a, k) + Cut(b, k) + Cut(c, k), k, k - 1);
    }
  }

  /** Two summaries of equal score, the newer first as the query returns them: cut to one, the merge
      gives the newer, the global order the one with the smaller id. */
  lemma TiedSummariesDisagree(hit: SearchHit)
    ensures var newer, older := hit.(id := "summary:2"), hit.(id := "summary:1");
      && TopHits(Cut([newer, older], 1) + Cut([], 1) + Cut([], 1), 1) == [newer]
      && TopHits([newer, older] + [] + [], 1) == [older]
  {
    var newer, older := hit.(id := "summary:2"), hit.(id := "summary:1");
    OlderFirst();
    hide LexLeq, SortHits;
    SortedPair(newer, older);
    assert [newer, older][..1] == [newer] && [older, newer][..1] == [older];
    assert [newer, older] + [] + [] == [newer, older] && [newer] + [] + [] == [newer];
  }

  lemma OlderFirst()
    ensures !LexLeq("summary:2", "summary:1")
  {
    CommonPrefix("summary:", "2", "1");
    assert "summary:" + "2" == "summary:2" && "summary:" + "1" == "summary:1";
  }

  lemma SortedPair(x: SearchHit, y: SearchHit)
    requires !NotAfter(x, y)
    ensures SortHits([x]) == [x] && SortHits([x, y]) == [y, x]
  {
    hide NotAfter;
    SortNone();
    assert [x][..0] == [] && [x, y][..1] == [x];
    assert Insert(x, []) == [x] && Insert(y, []) == [y];
    assert Insert(y, [x]) == [y] + [x];
  }

  lemma {:induction false} CommonPrefix(p: string, a: string, b: string)
    ensures LexLeq(p + a, p + b) <==> LexLeq(a, b)
  {
    if p == "" {
      assert p + a == a && p + b == b;
    } else {
      CommonPrefix(p[1..], a, b);
      assert (p + a)[1..] == p[1..] + a && (p + b)[1..] == p[1..] + b;
    }
  }

  /** In particular the hits agree as soon as no two different matches share a score. */
  lemma MergedTopIsGlobalTopWithoutTies(a: seq<SearchHit>, b: seq<SearchHit>, c: seq<SearchHit>, k: nat)
    requires 0 < k && Descending(a) && Descending(b) && Descending(c)
    requires forall x, y :: x in a + b + c && y in a + b + c && x.score == y.score ==> x == y
    ensures TopHits(Cut(a, k) + Cut(b, k) + Cut(c, k), k) == TopHits(a + b + c, k)
  {
    var part, all := Cut(a, k) + Cut(b, k) + Cut(c, k), a + b + c;
    MergedTopIsGlobalTop(a, b, c, k);
    hide TopHits, SortHits, Descending, Cut;
    var p, q := TopHits(part, k), TopHits(all, k);
    assert |Scores(p)| == |p| && |Scores(q)| == |q|;
    forall j | 0 <= j < |q| ensures p[j] == q[j] {
      assert Scores(p)[j] == Scores(q)[j];
      TopFrom(part, k, j);
      TopFrom(all, k, j);
      CutFrom(a, b, c, k, p[j]);
    }
  }

  lemma CutFrom(a: seq<SearchHit>, b: seq<SearchHit>, c: seq<SearchHit>, k: nat, hit: SearchHit)
    requires hit in Cut(a, k) + Cut(b, k) + Cut(c, k)
    ensures hit in a + b + c
  {
    assert hit in a || hit in b || hit in c;
  }

  lemma TopFrom(hits: seq<SearchHit>, k: nat, j: nat)
    requires 0 < k && j < |TopHits(hits, k)|
    ensures TopHits(hits, k)[j] in hits
  {
    TopSize(hits, k);
    assert SortHits(hits)[j] in multiset(SortHits(hits));
  }
}
