/** The sanitiser that turns free text into a full-text query. Characters are bytes. */
module FtsQuery {
  import opened Sequences
  import opened CursorText

  predicate IsAlnum(c: char) {
    '0' <= c <= '9' || 'A' <= c <= 'Z' || 'a' <= c <= 'z'
  }

  predicate IsWord(c: char) {
    IsAlnum(c) || c == '_'
  }

  /** What is always kept: word characters, white space and every non-ASCII byte. */
  predicate Plain(c: char) {
    IsWord(c) || IsSpace(c) || c as int >= 0x80
  }

  /** The effect of one more character on what has been kept so far. */
  function Keep(kept: string, c: char): string {
    if Plain(c) || (c == '*' && kept != "" && IsWord(kept[|kept| - 1])) then kept + [c] else kept
  }

  function Sanitised(query: string): string {
    if query == "" then "" else Keep(Sanitised(query[..|query| - 1]), query[|query| - 1])
  }

  /** Sanitising goes character by character: letters, digits, '_', white space and non-ASCII bytes are kept,
      a '*' if a letter, digit or '_' was kept last, and anything else is dropped. */
  lemma SanitisedOneMore(query: string, c: char)
    ensures Sanitised("") == ""
    ensures var kept := Sanitised(query);
      Sanitised(query + [c])
      == if 'a' <= c <= 'z' || 'A' <= c <= 'Z' || '0' <= c <= '9' || c == '_' || c == ' ' || '\t' <= c <= '\r'
            || c as int >= 0x80
            || (c == '*' && kept != ""
                && var last := kept[|kept| - 1];
                   ('a' <= last <= 'z' || 'A' <= last <= 'Z' || '0' <= last <= '9' || last == '_'))
         then kept + [c] else kept
  {
    assert (query + [c])[..|query|] == query;
  }

  /** What the second scan would recover if the first kept nothing. */
  predicate Recovered(c: char) {
    IsWord(c) || c == ' '
  }

  /** The second scan, for the case that the first kept nothing, never adds a character. */
  method Fts5EscapeQuery(query: string) returns (escaped: string)
    ensures escaped == Sanitised(query)
  {
    escaped := "";
    var i := 0;
    while i < |query|
      invariant 0 <= i <= |query| && escaped == Sanitised(query[..i])
    {
      var c := query[i];
      assert query[..i + 1][..i] == query[..i];
      i := i + 1;
      if IsAlnum(c) || c == '_' || IsSpace(c) || c as int >= 0x80 {
        escaped := escaped + [c];
        continue;
      }
      if c == '*' {
        if escaped == "" {
          continue;
        }
        var prev := escaped[|escaped| - 1];
        if !IsAlnum(prev) && prev != '_' {
          continue;
        }
        escaped := escaped + [c];
      }
    }
    assert query[..|query|] == query;
    if escaped == "" {
      i := 0;
      while i < |query|
        invariant 0 <= i <= |query| && escaped == Filter(Recovered, query[..i])
      {
        FilterOneMore(Recovered, query, i);
        if IsAlnum(query[i]) || query[i] == '_' || query[i] == ' ' {
          escaped := escaped + [query[i]];
        }
        i := i + 1;
      }
      assert query[..|query|] == query;
      NothingToRecover(query);
    }
  }

  lemma {:induction false} EmptyMeansNothingPlain(query: string)
    ensures Sanitised(query) == "" ==> forall i :: 0 <= i < |query| ==> !Plain(query[i])
  {
    if query != "" {
      EmptyMeansNothingPlain(query[..|query| - 1]);
    }
  }

  lemma NothingToRecover(query: string)
    ensures Sanitised(query) == "" ==> Filter(Recovered, query) == ""
  {
    EmptyMeansNothingPlain(query);
    if Sanitised(query) == "" {
      FilterNone(Recovered, query);
    }
  }

  predicate CleanAt(s: string, i: nat)
    requires i < |s|
  {
    Plain(s[i]) || (s[i] == '*' && i > 0 && IsWord(s[i - 1]))
  }

  /** Only plain characters and well-placed stars: no quotes, colons or parentheses, and every '*' ends
      a word. A word may still stand for a phrase, when the tokenizer splits it. */
  ghost predicate Clean(s: string) {
    forall i :: 0 <= i < |s| ==> CleanAt(s, i)
  }

  lemma {:induction false} SanitisedIsClean(query: string)
    ensures Clean(Sanitised(query))
  {
    if query != "" {
      var front := Sanitised(query[..|query| - 1]);
      SanitisedIsClean(query[..|query| - 1]);
      forall i | 0 <= i < |Sanitised(query)| ensures CleanAt(Sanitised(query), i) {
        assert i < |front| ==> CleanAt(front, i);
      }
    }
  }

  /** The sanitiser changes nothing precisely in what is already clean; in particular it is
      idempotent. */
  lemma {:induction false} SanitisedFixpoints(query: string)
    ensures Sanitised(query) == query <==> Clean(query)
    ensures Sanitised(Sanitised(query)) == Sanitised(query)
  {
    CleanIsKept(query);
    SanitisedIsClean(query);
    CleanIsKept(Sanitised(query));
  }

  lemma CleanFront(s: string)
    requires s != "" && Clean(s)
    ensures Clean(s[..|s| - 1]) && Keep(s[..|s| - 1], s[|s| - 1]) == s
  {
    hide Plain, IsWord;
    var front, n := s[..|s| - 1], |s| - 1;
    assert CleanAt(s, n);
    assert front + [s[n]] == s;
    forall i | 0 <= i < n ensures CleanAt(front, i) {
      assert CleanAt(s, i);
    }
  }

  lemma {:induction false} CleanIsKept(s: string)
    ensures Clean(s) ==> Sanitised(s) == s
  {
    if s != "" && Clean(s) {
      CleanFront(s);
      hide Clean, Keep;
      CleanIsKept(s[..|s| - 1]);
    }
  }

  predicate Subsequence(a: string, b: string) {
    if a == "" then true
    else if b == "" then false
    else if a[|a| - 1] == b[|b| - 1] then Subsequence(a[..|a| - 1], b[..|b| - 1])
    else Subsequence(a, b[..|b| - 1])
  }

  lemma {:induction false} SkipLast(a: string, b: string, c: char)
    requires Subsequence(a, b)
    ensures Subsequence(a, b + [c])
    decreases |a| + |b|, 1
  {
    assert (b + [c])[..|b|] == b;
    if a != "" && a[|a| - 1] == c {
      DropLast(a, b);
    }
  }

  lemma {:induction false} DropLast(a: string, b: string)
    requires a != "" && Subsequence(a, b)
    ensures Subsequence(a[..|a| - 1], b)
    decreases |a| + |b|, 0
  {
    var front := b[..|b| - 1];
    if a[|a| - 1] == b[|b| - 1] {
      SkipLast(a[..|a| - 1], front, b[|b| - 1]);
      assert front + [b[|b| - 1]] == b;
    } else {
      DropLast(a, front);
      SkipLast(a[..|a| - 1], front, b[|b| - 1]);
      assert front + [b[|b| - 1]] == b;
    }
  }

  /** Sanitising only deletes: the output is a subsequence of the query, and of its characters all
      but some stars and punctuation survive. */
  lemma {:induction false} SanitisedOnlyDeletes(query: string)
    ensures Subsequence(Sanitised(query), query)
    ensures Filter(Plain, Sanitised(query)) == Filter(Plain, query)
  {
    if query != "" {
      var front, c := query[..|query| - 1], query[|query| - 1];
      SanitisedOnlyDeletes(front);
      assert front + [c] == query;
      SkipLast(Sanitised(front), front, c);
      assert (Sanitised(front) + [c])[..|Sanitised(front)|] == Sanitised(front);
    }
  }
}
