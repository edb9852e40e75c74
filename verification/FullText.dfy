/** The full-text indexes: inverted maps kept in step with their content tables by row triggers. */
module FullText {
  import opened Sequences
  import opened Kernel

  /** The terms a tokenizer finds in one column, in order. */
  type Tokenizer = string -> seq<string>

  /** One occurrence of a term in a row, and the same as the index records it for a row id. */
  datatype Token = Token(term: string, column: nat, position: nat)

  datatype Posting = Posting(rowid: nat, column: nat, position: nat)

  type Index = map<string, set<Posting>>

  /** Whether a row matches a full-text query is a function of which terms occur where in the row:
      words, prefixes, phrases, and their combinations. */
  type Query = set<Token> -> bool

  function Tokens(tok: Tokenizer, columns: seq<string>): set<Token> {
    set c, p | 0 <= c < |columns| && 0 <= p < |tok(columns[c])| :: Token(tok(columns[c])[p], c, p)
  }

  function Postings(ix: Index, t: string): set<Posting> {
    if t in ix then ix[t] else {}
  }

  /** The index records the occurrence `k` for row `r`. */
  predicate Posts(ix: Index, r: nat, k: Token) {
    Posting(r, k.column, k.position) in Postings(ix, k.term)
  }

  /** What a row with these tokens contributes to the entry of `t`. */
  function RowPostings(rowid: nat, tokens: set<Token>, t: string): set<Posting> {
    set k | k in tokens && k.term == t :: Posting(rowid, k.column, k.position)
  }

  function TermsOf(tokens: set<Token>): set<string> {
    set k | k in tokens :: k.term
  }

  function IndexInsert(ix: Index, rowid: nat, tokens: set<Token>): Index {
    map t | t in ix.Keys + TermsOf(tokens) :: Postings(ix, t) + RowPostings(rowid, tokens, t)
  }

  function IndexDelete(ix: Index, rowid: nat, tokens: set<Token>): Index {
    map t | t in ix :: ix[t] - RowPostings(rowid, tokens, t)
  }

  /** The AFTER UPDATE trigger: forget the old columns, then index the new ones. */
  function IndexUpdate(tok: Tokenizer, ix: Index, rowid: nat, before: seq<string>, now: seq<string>): Index {
    IndexInsert(IndexDelete(ix, rowid, Tokens(tok, before)), rowid, Tokens(tok, now))
  }

  // ----- The content tables -----

  function EntityColumns(row: EntityRow): seq<string> {
    [row.entityType, row.name, row.summary]
  }

  function RelationColumns(row: RelationRow): seq<string> {
    [row.fromEntity, row.relation, row.toEntity]
  }

  function SummaryColumns(row: SummaryRow): seq<string> {
    [row.level, row.topic, row.summary]
  }

  /** What the index records for a row is exactly what occurs in its columns. */
  ghost predicate RowIndexed(tok: Tokenizer, ix: Index, row: EntityRow) {
    forall k :: Posts(ix, row.rowid, k) <==> k in Tokens(tok, EntityColumns(row))
  }

  ghost predicate IsRowId(m: Entities, r: nat) {
    exists id :: id in m && m[id].rowid == r
  }

  /** Every term is mapped to exactly its occurrences in the columns of the entity rows. */
  ghost predicate EntitiesIndexed(tok: Tokenizer, ix: Index, m: Entities) {
    && EntityRowIds(m)
    && (forall id :: id in m ==> RowIndexed(tok, ix, m[id]))
    && (forall k, r: nat :: Posts(ix, r, k) ==> IsRowId(m, r))
  }

  /** The same for a table whose rows are numbered from one in order of insertion. */
  ghost predicate Indexed(tok: Tokenizer, ix: Index, docs: seq<seq<string>>) {
    forall k, r: nat :: Posts(ix, r, k) <==> 1 <= r <= |docs| && k in Tokens(tok, docs[r - 1])
  }

  lemma IndexInsertPosts(ix: Index, rowid: nat, tokens: set<Token>, k: Token, r: nat)
    ensures Posts(IndexInsert(ix, rowid, tokens), r, k) <==> Posts(ix, r, k) || (r == rowid && k in tokens)
  {
  }

  lemma IndexDeletePosts(ix: Index, rowid: nat, tokens: set<Token>, k: Token, r: nat)
    ensures Posts(IndexDelete(ix, rowid, tokens), r, k) <==> Posts(ix, r, k) && !(r == rowid && k in tokens)
  {
  }

  lemma AppendKeepsIndexed(tok: Tokenizer, ix: Index, docs: seq<seq<string>>, columns: seq<string>)
    requires Indexed(tok, ix, docs)
    ensures Indexed(tok, IndexInsert(ix, |docs| + 1, Tokens(tok, columns)), docs + [columns])
  {
    hide Tokens, Posts, IndexInsert;
    var next, docs' := IndexInsert(ix, |docs| + 1, Tokens(tok, columns)), docs + [columns];
    forall k, r: nat ensures Posts(next, r, k) <==> 1 <= r <= |docs'| && k in Tokens(tok, docs'[r - 1]) {
      IndexInsertPosts(ix, |docs| + 1, Tokens(tok, columns), k, r);
    }
  }

  /** An update that leaves the indexed columns alone re-indexes the row to where it was. */
  lemma TouchKeepsIndexed(tok: Tokenizer, ix: Index, docs: seq<seq<string>>, rowid: nat)
    requires Indexed(tok, ix, docs) && 1 <= rowid <= |docs|
    ensures Indexed(tok, IndexUpdate(tok, ix, rowid, docs[rowid - 1], docs[rowid - 1]), docs)
  {
    hide Tokens, Posts, IndexInsert, IndexDelete;
    var tokens := Tokens(tok, docs[rowid - 1]);
    var forgotten := IndexDelete(ix, rowid, tokens);
    forall k, r: nat
      ensures Posts(IndexInsert(forgotten, rowid, tokens), r, k) <==> 1 <= r <= |docs| && k in Tokens(tok, docs[r - 1])
    {
      IndexDeletePosts(ix, rowid, tokens, k, r);
      IndexInsertPosts(forgotten, rowid, tokens, k, r);
    }
  }

  /** Once a row's old tokens are forgotten, inserting it indexes it and disturbs no other row. */
  lemma InsertRow(tok: Tokenizer, ix: Index, row: EntityRow, other: EntityRow)
    requires forall k :: !Posts(ix, row.rowid, k)
    requires other.rowid != row.rowid && RowIndexed(tok, ix, other)
    ensures RowIndexed(tok, IndexInsert(ix, row.rowid, Tokens(tok, EntityColumns(row))), other)
  {
    hide Tokens, EntityColumns, IndexInsert, Posts;
    forall k {
      IndexInsertPosts(ix, row.rowid, Tokens(tok, EntityColumns(row)), k, other.rowid);
    }
  }

  lemma InsertedRow(tok: Tokenizer, ix: Index, row: EntityRow)
    requires forall k :: !Posts(ix, row.rowid, k)
    ensures RowIndexed(tok, IndexInsert(ix, row.rowid, Tokens(tok, EntityColumns(row))), row)
  {
    hide Tokens, EntityColumns, IndexInsert, Posts;
    forall k {
      IndexInsertPosts(ix, row.rowid, Tokens(tok, EntityColumns(row)), k, row.rowid);
    }
  }

  lemma ForgetRow(tok: Tokenizer, ix: Index, row: EntityRow)
    requires RowIndexed(tok, ix, row)
    ensures forall k :: !Posts(IndexDelete(ix, row.rowid, Tokens(tok, EntityColumns(row))), row.rowid, k)
  {
    hide Tokens, EntityColumns, IndexDelete, Posts;
    forall k {
      IndexDeletePosts(ix, row.rowid, Tokens(tok, EntityColumns(row)), k, row.rowid);
    }
  }

  lemma ForgetKeepsOther(tok: Tokenizer, ix: Index, row: EntityRow, other: EntityRow)
    requires other.rowid != row.rowid && RowIndexed(tok, ix, other)
    ensures RowIndexed(tok, IndexDelete(ix, row.rowid, Tokens(tok, EntityColumns(row))), other)
  {
    hide Tokens, EntityColumns, IndexDelete, Posts;
    forall k {
      IndexDeletePosts(ix, row.rowid, Tokens(tok, EntityColumns(row)), k, other.rowid);
    }
  }

  lemma DistinctRowIds(m: Entities, a: string, b: string)
    requires EntityRowIds(m) && a in m && b in m && a != b
    ensures m[a].rowid != m[b].rowid
  {
  }

  /** An index in which `id`'s row id is free, and which is in step for all other rows, becomes in
      step by inserting the row. */
  lemma InsertKeepsRest(tok: Tokenizer, ix: Index, m: Entities, id: string, row: EntityRow)
    requires EntityRowIds(m[id := row])
    requires forall k :: !Posts(ix, row.rowid, k)
    requires forall x :: x in m && x != id ==> RowIndexed(tok, ix, m[x])
    requires forall k, r: nat :: Posts(ix, r, k) ==> IsRowId(m[id := row], r)
    ensures EntitiesIndexed(tok, IndexInsert(ix, row.rowid, Tokens(tok, EntityColumns(row))), m[id := row])
  {
    hide Tokens, EntityColumns, IndexInsert, Posts, RowIndexed, EntityRowIds;
    var tokens := Tokens(tok, EntityColumns(row));
    var m' := m[id := row];
    forall x | x in m' ensures RowIndexed(tok, IndexInsert(ix, row.rowid, tokens), m'[x]) {
      if x == id {
        InsertedRow(tok, ix, row);
      } else {
        DistinctRowIds(m', x, id);
        InsertRow(tok, ix, row, m[x]);
      }
    }
    forall k, r: nat | Posts(IndexInsert(ix, row.rowid, tokens), r, k) ensures IsRowId(m', r) {
      IndexInsertPosts(ix, row.rowid, tokens, k, r);
      assert m'[id].rowid == row.rowid;
    }
  }

  lemma SameRowIds(m: Entities, id: string, row: EntityRow)
    requires EntityRowIds(m)
    requires row.rowid == if id in m then m[id].rowid else |m| + 1
    ensures EntityRowIds(m[id := row])
    ensures forall r: nat :: IsRowId(m, r) ==> IsRowId(m[id := row], r)
  {
    var m' := m[id := row];
    assert m'.Keys == m.Keys + {id};
    assert |m'| == |m'.Keys|;
    ReplaceKeepsRowIds(m, id, row);
    forall r: nat | IsRowId(m, r) ensures IsRowId(m', r) {
      var x :| x in m && m[x].rowid == r;
      assert m'[x].rowid == r;
    }
  }

  lemma UpdateKeepsEntitiesIndexed(tok: Tokenizer, ix: Index, m: Entities, id: string, row: EntityRow)
    requires EntitiesIndexed(tok, ix, m) && id in m && row.rowid == m[id].rowid
    ensures var next := IndexUpdate(tok, ix, row.rowid, EntityColumns(m[id]), EntityColumns(row));
      EntitiesIndexed(tok, next, m[id := row])
  {
    SameRowIds(m, id, row);
    var tokens := Tokens(tok, EntityColumns(m[id]));
    var forgotten := IndexDelete(ix, row.rowid, tokens);
    hide Tokens, EntityColumns, IndexDelete, Posts, RowIndexed, EntityRowIds, IsRowId;
    ForgetRow(tok, ix, m[id]);
    forall x | x in m && x != id ensures RowIndexed(tok, forgotten, m[x]) {
      DistinctRowIds(m, x, id);
      ForgetKeepsOther(tok, ix, m[id], m[x]);
    }
    forall k, r: nat | Posts(forgotten, r, k) ensures IsRowId(m[id := row], r) {
      IndexDeletePosts(ix, row.rowid, tokens, k, r);
      assert Posts(ix, r, k);
      assert IsRowId(m, r);
    }
    InsertKeepsRest(tok, forgotten, m, id, row);
  }

  lemma InsertKeepsEntitiesIndexed(tok: Tokenizer, ix: Index, m: Entities, id: string, row: EntityRow)
    requires EntitiesIndexed(tok, ix, m) && id !in m && row.rowid == |m| + 1
    ensures EntitiesIndexed(tok, IndexInsert(ix, row.rowid, Tokens(tok, EntityColumns(row))), m[id := row])
  {
    SameRowIds(m, id, row);
    assert !IsRowId(m, row.rowid);
    hide Tokens, EntityColumns, Posts, RowIndexed, EntityRowIds, IsRowId;
    forall k, r: nat | Posts(ix, r, k) ensures IsRowId(m[id := row], r) && r != row.rowid {
      assert IsRowId(m, r);
    }
    InsertKeepsRest(tok, ix, m, id, row);
  }

  // ----- Searching -----

  /** What the index records for a row. */
  function IndexedTokens(ix: Index, rowid: nat): set<Token> {
    set t, p | t in ix && p in ix[t] && p.rowid == rowid :: Token(t, p.column, p.position)
  }

  lemma IndexedTokensPosts(ix: Index, rowid: nat, k: Token)
    ensures k in IndexedTokens(ix, rowid) <==> Posts(ix, rowid, k)
  {
    if Posts(ix, rowid, k) {
      assert Posting(rowid, k.column, k.position) in ix[k.term];
    }
  }

  /** The entity search: MATCH through the index joined on the row id, then the active and agent
      filter; and the same rows found by reading every row. */
  function MatchEntities(ix: Index, m: Entities, query: Query, agentId: string): set<string> {
    set id | id in m && query(IndexedTokens(ix, m[id].rowid)) && m[id].active && m[id].agentId == agentId
  }

  function ScanEntities(tok: Tokenizer, m: Entities, query: Query, agentId: string): set<string> {
    set id | id in m && query(Tokens(tok, EntityColumns(m[id]))) && m[id].active && m[id].agentId == agentId
  }

  function MatchRelations(ix: Index, rows: seq<RelationRow>, query: Query, agentId: string): set<nat> {
    set i | 0 <= i < |rows| && query(IndexedTokens(ix, i + 1)) && rows[i].active && rows[i].agentId == agentId :: i + 1
  }

  function ScanRelations(tok: Tokenizer, rows: seq<RelationRow>, query: Query, agentId: string): set<nat> {
    set i | 0 <= i < |rows| && query(Tokens(tok, RelationColumns(rows[i])))
            && rows[i].active && rows[i].agentId == agentId :: i + 1
  }

  function MatchSummaries(ix: Index, rows: seq<SummaryRow>, query: Query, agentId: string,
                          sessionId: string): set<nat> {
    set i | 0 <= i < |rows| && query(IndexedTokens(ix, i + 1)) && rows[i].agentId == agentId
            && (sessionId == "" || rows[i].sessionId == sessionId) :: i + 1
  }

  function ScanSummaries(tok: Tokenizer, rows: seq<SummaryRow>, query: Query, agentId: string,
                         sessionId: string): set<nat> {
    set i | 0 <= i < |rows| && query(Tokens(tok, SummaryColumns(rows[i]))) && rows[i].agentId == agentId
            && (sessionId == "" || rows[i].sessionId == sessionId) :: i + 1
  }

  /** An index in step gives each query the rows a scan of the table gives. */
  lemma EntityMatchIsScan(tok: Tokenizer, ix: Index, m: Entities, query: Query, agentId: string)
    requires EntitiesIndexed(tok, ix, m)
    ensures MatchEntities(ix, m, query, agentId) == ScanEntities(tok, m, query, agentId)
  {
    hide Tokens, IndexedTokens, EntityColumns, Posts;
    forall id | id in m ensures IndexedTokens(ix, m[id].rowid) == Tokens(tok, EntityColumns(m[id])) {
      assert RowIndexed(tok, ix, m[id]);
      forall k ensures k in IndexedTokens(ix, m[id].rowid) <==> k in Tokens(tok, EntityColumns(m[id])) {
        IndexedTokensPosts(ix, m[id].rowid, k);
      }
    }
  }

  lemma IndexedTokensAreTokens(tok: Tokenizer, ix: Index, docs: seq<seq<string>>, r: nat)
    requires Indexed(tok, ix, docs) && 1 <= r <= |docs|
    ensures IndexedTokens(ix, r) == Tokens(tok, docs[r - 1])
  {
    hide Tokens, IndexedTokens, Posts;
    forall k ensures k in IndexedTokens(ix, r) <==> k in Tokens(tok, docs[r - 1]) {
      IndexedTokensPosts(ix, r, k);
    }
  }

  lemma RelationMatchIsScan(tok: Tokenizer, ix: Index, rows: seq<RelationRow>, query: Query, agentId: string)
    requires Indexed(tok, ix, Map(RelationColumns, rows))
    ensures MatchRelations(ix, rows, query, agentId) == ScanRelations(tok, rows, query, agentId)
  {
    forall i | 0 <= i < |rows| ensures IndexedTokens(ix, i + 1) == Tokens(tok, RelationColumns(rows[i])) {
      IndexedTokensAreTokens(tok, ix, Map(RelationColumns, rows), i + 1);
    }
  }

  lemma SummaryMatchIsScan(tok: Tokenizer, ix: Index, rows: seq<SummaryRow>, query: Query, agentId: string,
                           sessionId: string)
    requires Indexed(tok, ix, Map(SummaryColumns, rows))
    ensures MatchSummaries(ix, rows, query, agentId, sessionId) == ScanSummaries(tok, rows, query, agentId, sessionId)
  {
    forall i | 0 <= i < |rows| ensures IndexedTokens(ix, i + 1) == Tokens(tok, SummaryColumns(rows[i])) {
      IndexedTokensAreTokens(tok, ix, Map(SummaryColumns, rows), i + 1);
    }
  }

  // ----- Phrases -----

  predicate PhraseAt(tokens: set<Token>, phrase: seq<string>, column: nat, position: nat) {
    forall i :: 0 <= i < |phrase| ==> Token(phrase[i], column, position + i) in tokens
  }

  /** The query for a phrase, which a single word of the query text may also stand for. */
  function Phrase(phrase: seq<string>): Query {
    (tokens: set<Token>) => exists k :: k in tokens && PhraseAt(tokens, phrase, k.column, k.position)
  }

  predicate RunsAt(terms: seq<string>, phrase: seq<string>, p: int) {
    0 <= p <= |terms| - |phrase| && terms[p..p + |phrase|] == phrase
  }

  /** The terms of one column contain the phrase without a gap. */
  ghost predicate ContainsPhrase(terms: seq<string>, phrase: seq<string>) {
    exists p :: RunsAt(terms, phrase, p)
  }

  /** Positions are enough to decide phrases: a row matches precisely when the phrase runs through
      one of its columns. */
  lemma PhraseIsSublist(tok: Tokenizer, columns: seq<string>, phrase: seq<string>)
    requires phrase != []
    ensures Phrase(phrase)(Tokens(tok, columns))
       <==> exists c :: 0 <= c < |columns| && ContainsPhrase(tok(columns[c]), phrase)
  {
    var tokens := Tokens(tok, columns);
    if k :| k in tokens && PhraseAt(tokens, phrase, k.column, k.position) {
      PhraseRuns(tok, columns, phrase, k.column, k.position);
    }
    if c :| 0 <= c < |columns| && ContainsPhrase(tok(columns[c]), phrase) {
      var p :| RunsAt(tok(columns[c]), phrase, p);
      RunIsPhrase(tok, columns, phrase, c, p);
    }
  }

  lemma PhraseRuns(tok: Tokenizer, columns: seq<string>, phrase: seq<string>, c: nat, p: nat)
    requires phrase != [] && PhraseAt(Tokens(tok, columns), phrase, c, p)
    ensures c < |columns| && RunsAt(tok(columns[c]), phrase, p)
  {
    assert Token(phrase[0], c, p + 0) in Tokens(tok, columns);
    assert Token(phrase[|phrase| - 1], c, p + (|phrase| - 1)) in Tokens(tok, columns);
    forall i | 0 <= i < |phrase| ensures p + i < |tok(columns[c])| && tok(columns[c])[p + i] == phrase[i] {
      assert Token(phrase[i], c, p + i) in Tokens(tok, columns);
    }
  }

  lemma RunIsPhrase(tok: Tokenizer, columns: seq<string>, phrase: seq<string>, c: nat, p: nat)
    requires phrase != [] && c < |columns| && RunsAt(tok(columns[c]), phrase, p)
    ensures Token(phrase[0], c, p) in Tokens(tok, columns) && PhraseAt(Tokens(tok, columns), phrase, c, p)
  {
    forall i | 0 <= i < |phrase| ensures Token(phrase[i], c, p + i) in Tokens(tok, columns) {
      assert tok(columns[c])[p..p + |phrase|][i] == tok(columns[c])[p + i];
    }
  }

  // ----- Which fields are searched -----

  /** The word of a token stands at its place in the text. */
  predicate StandsIn(tok: Tokenizer, k: Token, text: string) {
    k.position < |tok(text)| && tok(text)[k.position] == k.term
  }

  lemma TokensOfThree(tok: Tokenizer, a: string, b: string, c: string, k: Token)
    ensures k in Tokens(tok, [a, b, c])
       <==> (k.column == 0 && StandsIn(tok, k, a)) || (k.column == 1 && StandsIn(tok, k, b))
            || (k.column == 2 && StandsIn(tok, k, c))
  {
    var columns := [a, b, c];
    assert columns[0] == a && columns[1] == b && columns[2] == c;
  }

  /** What a full-text query sees of a row: the words of its type, name and summary for an entity, of both
      ends and the type for a relation, of level, topic and text for a summary. */
  lemma SearchedFields(tok: Tokenizer, e: EntityRow, r: RelationRow, s: SummaryRow, k: Token)
    ensures k in Tokens(tok, EntityColumns(e))
       <==> (k.column == 0 && StandsIn(tok, k, e.entityType)) || (k.column == 1 && StandsIn(tok, k, e.name))
            || (k.column == 2 && StandsIn(tok, k, e.summary))
    ensures k in Tokens(tok, RelationColumns(r))
       <==> (k.column == 0 && StandsIn(tok, k, r.fromEntity)) || (k.column == 1 && StandsIn(tok, k, r.relation))
            || (k.column == 2 && StandsIn(tok, k, r.toEntity))
    ensures k in Tokens(tok, SummaryColumns(s))
       <==> (k.column == 0 && StandsIn(tok, k, s.level)) || (k.column == 1 && StandsIn(tok, k, s.topic))
            || (k.column == 2 && StandsIn(tok, k, s.summary))
  {
    TokensOfThree(tok, e.entityType, e.name, e.summary, k);
    TokensOfThree(tok, r.fromEntity, r.relation, r.toEntity, k);
    TokensOfThree(tok, s.level, s.topic, s.summary, k);
    hide Tokens, StandsIn;
  }

  lemma PhraseInThree(tok: Tokenizer, a: string, b: string, c: string, phrase: seq<string>)
    requires phrase != []
    ensures Phrase(phrase)(Tokens(tok, [a, b, c]))
       <==> ContainsPhrase(tok(a), phrase) || ContainsPhrase(tok(b), phrase) || ContainsPhrase(tok(c), phrase)
  {
    PhraseIsSublist(tok, [a, b, c], phrase);
    hide Phrase, Tokens, ContainsPhrase;
    var columns := [a, b, c];
    assert columns[0] == a && columns[1] == b && columns[2] == c;
  }

  /** A phrase search finds an entity exactly if it is active, the agent's, and the phrase runs through
      its type, name or summary. */
  lemma EntityPhraseSearch(tok: Tokenizer, m: Entities, phrase: seq<string>, agentId: string, id: string)
    requires phrase != []
    ensures id in ScanEntities(tok, m, Phrase(phrase), agentId)
       <==> id in m && m[id].active && m[id].agentId == agentId
            && (ContainsPhrase(tok(m[id].entityType), phrase) || ContainsPhrase(tok(m[id].name), phrase)
                || ContainsPhrase(tok(m[id].summary), phrase))
  {
    if id in m {
      PhraseInThree(tok, m[id].entityType, m[id].name, m[id].summary, phrase);
    }
    hide Phrase, Tokens, ContainsPhrase;
  }

  lemma RelationPhraseSearch(tok: Tokenizer, rows: seq<RelationRow>, phrase: seq<string>, agentId: string, id: nat)
    requires phrase != []
    ensures id in ScanRelations(tok, rows, Phrase(phrase), agentId)
       <==> 1 <= id <= |rows| && rows[id - 1].active && rows[id - 1].agentId == agentId
            && (ContainsPhrase(tok(rows[id - 1].fromEntity), phrase)
                || ContainsPhrase(tok(rows[id - 1].relation), phrase)
                || ContainsPhrase(tok(rows[id - 1].toEntity), phrase))
  {
    if 1 <= id <= |rows| {
      PhraseInThree(tok, rows[id - 1].fromEntity, rows[id - 1].relation, rows[id - 1].toEntity, phrase);
    }
    hide Phrase, Tokens, ContainsPhrase;
  }

  lemma SummaryPhraseSearch(tok: Tokenizer, rows: seq<SummaryRow>, phrase: seq<string>, agentId: string,
                            sessionId: string, id: nat)
    requires phrase != []
    ensures id in ScanSummaries(tok, rows, Phrase(phrase), agentId, sessionId)
       <==> 1 <= id <= |rows| && rows[id - 1].agentId == agentId
            && (sessionId == "" || rows[id - 1].sessionId == sessionId)
            && (ContainsPhrase(tok(rows[id - 1].level), phrase) || ContainsPhrase(tok(rows[id - 1].topic), phrase)
                || ContainsPhrase(tok(rows[id - 1].summary), phrase))
  {
    if 1 <= id <= |rows| {
      PhraseInThree(tok, rows[id - 1].level, rows[id - 1].topic, rows[id - 1].summary, phrase);
    }
    hide Phrase, Tokens, ContainsPhrase;
  }

  /** Two texts with the same terms in another order: a phrase matches one of them. */
  lemma PhraseSeesOrder(tok: Tokenizer, a: string, b: string, x: string, y: string)
    requires x != y && tok(a) == [x, y] && tok(b) == [y, x]
    ensures TermsOf(Tokens(tok, [a])) == TermsOf(Tokens(tok, [b])) == {x, y}
    ensures Phrase([x, y])(Tokens(tok, [a])) && !Phrase([x, y])(Tokens(tok, [b]))
  {
    TermsOfPair(tok, a, x, y);
    TermsOfPair(tok, b, y, x);
    PhraseInText(tok, a, [x, y]);
    PhraseInText(tok, b, [x, y]);
    PairContains(x, y);
    hide Phrase, Tokens, TermsOf, ContainsPhrase;
  }

  lemma PhraseInText(tok: Tokenizer, text: string, phrase: seq<string>)
    requires phrase != []
    ensures Phrase(phrase)(Tokens(tok, [text])) <==> ContainsPhrase(tok(text), phrase)
  {
    PhraseIsSublist(tok, [text], phrase);
    hide Phrase, Tokens, ContainsPhrase;
    assert [text][0] == text;
  }

  lemma PairContains(x: string, y: string)
    requires x != y
    ensures ContainsPhrase([x, y], [x, y]) && !ContainsPhrase([y, x], [x, y])
  {
    assert RunsAt([x, y], [x, y], 0);
    assert [y, x][0..2] == [y, x];
    assert [y, x][0] != [x, y][0];
  }

  lemma TermsOfPair(tok: Tokenizer, text: string, x: string, y: string)
    requires tok(text) == [x, y]
    ensures TermsOf(Tokens(tok, [text])) == {x, y}
  {
    var tokens := Tokens(tok, [text]);
    assert Token(tok([text][0])[0], 0, 0) in tokens && Token(tok([text][0])[1], 0, 1) in tokens;
    forall k | k in tokens ensures k.term in {x, y} {
    }
    forall t ensures t in TermsOf(tokens) <==> t in {x, y} {
      assert Token(x, 0, 0) in tokens && Token(y, 0, 1) in tokens;
    }
  }
}
