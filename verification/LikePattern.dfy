/** LIKE patterns: the escaper used for substring search and the matcher it is written for. */
module LikePattern {

  /** LIKE ignores the case of ASCII letters only. */
  function Fold(c: char): char {
    if 'A' <= c <= 'Z' then c - 'A' + 'a' else c
  }

  predicate SameFold(a: string, b: string) {
    |a| == |b| && forall i :: 0 <= i < |a| ==> Fold(a[i]) == Fold(b[i])
  }

  /** The LIKE predicate of section 8.5 of SQL-92 (ISO/IEC 9075:1992) with ESCAPE '\': '%' matches any
      sequence, '_' any one character, and an escaped character itself. */
  predicate Like(pattern: string, s: string)
    decreases |pattern| + |s|
  {
    if pattern == "" then s == ""
    else if pattern[0] == '\\' then
      |pattern| >= 2 && s != "" && Fold(pattern[1]) == Fold(s[0]) && Like(pattern[2..], s[1..])
    else if pattern[0] == '%' then
      Like(pattern[1..], s) || (s != "" && Like(pattern, s[1..]))
    else if pattern[0] == '_' then
      s != "" && Like(pattern[1..], s[1..])
    else
      s != "" && Fold(pattern[0]) == Fold(s[0]) && Like(pattern[1..], s[1..])
  }

  /** What the matcher makes of single characters: '%' matches any text, '_' any one character, and other
      characters, escaped ones included, themselves in either case. */
  lemma {:induction false} SingleMatches(c: char, s: string)
    ensures Like("%", s)
    ensures Like("_", s) <==> |s| == 1
    ensures var same := |s| == 1 && (s[0] == c || ('A' <= c <= 'Z' && s[0] as int == c as int + 32)
                                     || ('A' <= s[0] <= 'Z' && c as int == s[0] as int + 32));
      && (c != '%' && c != '_' && c != '\\' ==> (Like([c], s) <==> same))
      && (Like(['\\', c], s) <==> same)
  {
    if s != "" {
      SingleMatches(c, s[1..]);
    }
  }

  predicate NeedsEscape(c: char) {
    c == '\\' || c == '%' || c == '_'
  }

  function Escaped(value: string): string {
    if value == "" then ""
    else EscapedChar(value[0]) + Escaped(value[1..])
  }

  function EscapedChar(c: char): string {
    if NeedsEscape(c) then ['\\', c] else [c]
  }

  lemma EscapedOneMore(value: string, i: nat, done: string)
    requires i < |value| && done + Escaped(value[i..]) == Escaped(value)
    ensures done + EscapedChar(value[i]) + Escaped(value[i + 1..]) == Escaped(value)
  {
    hide Escaped, EscapedChar;
    EscapedHead(value[i..]);
    assert value[i..][0] == value[i] && value[i..][1..] == value[i + 1..];
    var head, rest := EscapedChar(value[i]), Escaped(value[i + 1..]);
    assert done + (head + rest) == done + head + rest;
  }

  lemma EscapedHead(value: string)
    requires value != ""
    ensures Escaped(value) == EscapedChar(value[0]) + Escaped(value[1..])
  {
  }

  method EscapeLikePattern(value: string) returns (escaped: string)
    ensures escaped == Escaped(value)
  {
    escaped := "";
    var i := 0;
    while i < |value|
      invariant 0 <= i <= |value|
      invariant escaped + Escaped(value[i..]) == Escaped(value)
    {
      var ch := value[i];
      EscapedOneMore(value, i, escaped);
      ghost var next := escaped + EscapedChar(ch);
      if ch == '\\' || ch == '%' || ch == '_' {
        escaped := escaped + ['\\'];
      }
      escaped := escaped + [ch];
      assert escaped == next;
      i := i + 1;
    }
  }

  /** `q` occurs at position `i`, up to case. */
  predicate OccursAt(q: string, s: string, i: nat) {
    i + |q| <= |s| && SameFold(q, s[i..i + |q|])
  }

  ghost predicate Contains(q: string, s: string) {
    exists i: nat :: OccursAt(q, s, i)
  }

  /** An escaped character consumes exactly itself. */
  lemma EscapedCharMatches(c: char, rest: string, s: string)
    ensures Like(EscapedChar(c) + rest, s) <==> s != "" && Fold(c) == Fold(s[0]) && Like(rest, s[1..])
  {
    var pattern := EscapedChar(c) + rest;
    assert pattern[|EscapedChar(c)|..] == rest;
  }

  /** An escaped text consumes exactly itself. */
  lemma {:induction false} EscapedMatchesLiterally(q: string, rest: string, s: string)
    ensures Like(Escaped(q) + rest, s) <==> OccursAt(q, s, 0) && Like(rest, s[|q|..])
  {
    if q == "" {
      assert Escaped(q) + rest == rest && s[0..] == s;
    } else {
      EscapedHead(q);
      var tail := Escaped(q[1..]) + rest;
      assert Escaped(q) + rest == EscapedChar(q[0]) + tail;
      EscapedCharMatches(q[0], tail, s);
      hide Like, Escaped, EscapedChar, SameFold;
      if |q| <= |s| {
        EscapedMatchesLiterally(q[1..], rest, s[1..]);
        assert s[1..][|q| - 1..] == s[|q|..];
        assert s[0..|q|][1..] == s[1..][0..|q| - 1];
        FoldHead(q, s[0..|q|]);
      } else if s != "" {
        EscapedMatchesLiterally(q[1..], rest, s[1..]);
      }
    }
  }

  lemma FoldHead(a: string, b: string)
    requires |a| == |b| > 0
    ensures SameFold(a, b) <==> Fold(a[0]) == Fold(b[0]) && SameFold(a[1..], b[1..])
  {
    if Fold(a[0]) == Fold(b[0]) && SameFold(a[1..], b[1..]) {
      forall i | 0 <= i < |a| ensures Fold(a[i]) == Fold(b[i]) {
        if i > 0 {
          assert Fold(a[1..][i - 1]) == Fold(b[1..][i - 1]);
        }
      }
    }
  }

  lemma {:induction false} PercentMatchesAll(s: string)
    ensures Like("%", s)
  {
    if s != "" {
      PercentMatchesAll(s[1..]);
    } else {
      assert Like("%"[1..], "");
    }
  }

  /** A leading '%' tries every suffix. */
  lemma {:induction false} PercentTriesSuffixes(p: string, s: string)
    ensures Like("%" + p, s) <==> exists i :: 0 <= i <= |s| && Like(p, s[i..])
  {
    assert ("%" + p)[1..] == p && s[0..] == s;
    if s != "" {
      PercentTriesSuffixes(p, s[1..]);
      if i :| 0 <= i <= |s| && Like(p, s[i..]) && i > 0 {
        assert s[1..][i - 1..] == s[i..];
      }
      if j :| 0 <= j <= |s[1..]| && Like(p, s[1..][j..]) {
        assert s[j + 1..] == s[1..][j..];
      }
    }
  }

  /** Escaping is exact: the search pattern matches precisely the texts that contain the query. */
  lemma SearchPatternIsSubstring(q: string, s: string)
    ensures Like("%" + Escaped(q) + "%", s) <==> Contains(q, s)
  {
    assert "%" + Escaped(q) + "%" == "%" + (Escaped(q) + "%");
    PercentTriesSuffixes(Escaped(q) + "%", s);
    forall i | 0 <= i <= |s| ensures Like(Escaped(q) + "%", s[i..]) <==> OccursAt(q, s, i) {
      EscapedMatchesLiterally(q, "%", s[i..]);
      if |q| <= |s[i..]| {
        PercentMatchesAll(s[i..][|q|..]);
        assert s[i..][0..|q|] == s[i..i + |q|];
      }
    }
  }
}
