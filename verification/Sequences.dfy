/** Sequence vocabulary shared by the model: filtering, mapping and cutting sorted lists. */
module Sequences {

  datatype Option<+T> = None | Some(value: T)

  /** The elements of `s` that satisfy `p`, in order. */
  function Filter<T>(p: T -> bool, s: seq<T>): (r: seq<T>)
    ensures |r| <= |s|
  {
    if s == [] then []
    else
      var front := Filter(p, s[..|s| - 1]);
      if p(s[|s| - 1]) then front + [s[|s| - 1]] else front
  }

  function Map<T, U>(f: T -> U, s: seq<T>): (r: seq<U>)
    ensures |r| == |s|
    ensures forall i :: 0 <= i < |s| ==> r[i] == f(s[i])
  {
    seq(|s|, i requires 0 <= i < |s| => f(s[i]))
  }

  lemma FilterEmpty<T>(p: T -> bool)
    ensures Filter(p, []) == []
  {
  }

  lemma MapAppend<T, U>(f: T -> U, s: seq<T>, x: T)
    ensures Map(f, s + [x]) == Map(f, s) + [f(x)]
  {
  }

  lemma TakeAndDrop<T>(s: seq<T>, n: nat)
    requires n <= |s|
    ensures s[..n] + s[n..] == s
  {
  }

  lemma CancelHead<T>(a: seq<T>, b: seq<T>, c: seq<T>)
    ensures a + b == a + c <==> b == c
  {
    if a + b == a + c {
      assert (a + b)[|a|..] == b && (a + c)[|a|..] == c;
    }
  }

  lemma NothingAdded<T>(a: seq<T>, b: seq<T>, c: seq<T>)
    ensures (a + b) + c == a <==> b == [] && c == []
  {
    assert |(a + b) + c| == |a| + |b| + |c|;
  }

  lemma {:induction false} FilterMember<T>(p: T -> bool, s: seq<T>, x: T)
    ensures x in Filter(p, s) <==> x in s && p(x)
  {
    if s != [] {
      assert s == s[..|s| - 1] + [s[|s| - 1]];
      FilterMember(p, s[..|s| - 1], x);
    }
  }

  lemma {:induction false} FilterConcat<T>(p: T -> bool, a: seq<T>, b: seq<T>)
    ensures Filter(p, a + b) == Filter(p, a) + Filter(p, b)
  {
    if b == [] {
      assert a + b == a;
    } else {
      var b' := b[..|b| - 1];
      FilterConcat(p, a, b');
      assert (a + b)[..|a + b| - 1] == a + b';
    }
  }

  lemma {:induction false} FilterTwice<T>(p: T -> bool, q: T -> bool, both: T -> bool, s: seq<T>)
    requires forall i :: 0 <= i < |s| ==> (both(s[i]) <==> p(s[i]) && q(s[i]))
    ensures Filter(q, Filter(p, s)) == Filter(both, s)
  {
    if s != [] {
      var front := s[..|s| - 1];
      FilterTwice(p, q, both, front);
      if p(s[|s| - 1]) {
        var kept := Filter(p, front) + [s[|s| - 1]];
        assert kept[..|kept| - 1] == Filter(p, front);
      }
    }
  }

  lemma {:induction false} FilterAgree<T>(p: T -> bool, q: T -> bool, s: seq<T>)
    requires forall i :: 0 <= i < |s| ==> (p(s[i]) <==> q(s[i]))
    ensures Filter(p, s) == Filter(q, s)
  {
    if s != [] {
      FilterAgree(p, q, s[..|s| - 1]);
    }
  }

  lemma {:induction false} FilterNone<T>(p: T -> bool, s: seq<T>)
    requires forall i :: 0 <= i < |s| ==> !p(s[i])
    ensures Filter(p, s) == []
  {
    if s != [] {
      FilterNone(p, s[..|s| - 1]);
    }
  }

  lemma {:induction false} FilterAll<T>(p: T -> bool, s: seq<T>)
    requires forall i :: 0 <= i < |s| ==> p(s[i])
    ensures Filter(p, s) == s
  {
    if s != [] {
      FilterAll(p, s[..|s| - 1]);
    }
  }

  lemma {:induction false} FilterFull<T>(p: T -> bool, s: seq<T>)
    requires |Filter(p, s)| == |s|
    ensures forall x :: x in s ==> p(x)
  {
    if s != [] {
      FilterFull(p, s[..|s| - 1]);
    }
  }

  lemma FilterOneMore<T>(p: T -> bool, s: seq<T>, i: nat)
    requires i < |s|
    ensures Filter(p, s[..i + 1]) == if p(s[i]) then Filter(p, s[..i]) + [s[i]] else Filter(p, s[..i])
  {
    assert s[..i + 1][..i] == s[..i];
  }

  /** When `p` holds of exactly the first `n` elements, filtering takes that prefix. */
  lemma FilterIsPrefix<T>(p: T -> bool, s: seq<T>, n: nat)
    requires n <= |s|
    requires forall i :: 0 <= i < |s| ==> (p(s[i]) <==> i < n)
    ensures Filter(p, s) == s[..n]
  {
    hide Filter;
    TakeAndDrop(s, n);
    FilterConcat(p, s[..n], s[n..]);
    FilterAll(p, s[..n]);
    FilterNone(p, s[n..]);
  }

  predicate Increasing<T>(key: T -> int, s: seq<T>) {
    forall i, j :: 0 <= i < j < |s| ==> key(s[i]) < key(s[j])
  }

  lemma {:induction false} FilterIncreasing<T>(key: T -> int, p: T -> bool, s: seq<T>)
    requires Increasing(key, s)
    ensures Increasing(key, Filter(p, s))
  {
    if s != [] {
      var front := s[..|s| - 1];
      FilterIncreasing(key, p, front);
      var kept := Filter(p, front);
      forall i | 0 <= i < |kept| ensures key(kept[i]) < key(s[|s| - 1]) {
        FilterMember(p, front, kept[i]);
        var j :| 0 <= j < |front| && front[j] == kept[i];
      }
    }
  }

  /** In a sorted list, what lies at or below a cut comes before what lies above it. */
  lemma {:induction false} FilterCut<T>(key: T -> int, cut: int, all: T -> bool, low: T -> bool, high: T -> bool,
                                        s: seq<T>)
    requires Increasing(key, s)
    requires forall i :: 0 <= i < |s| ==> (all(s[i]) <==> low(s[i]) || high(s[i]))
    requires forall i :: 0 <= i < |s| ==> (low(s[i]) ==> key(s[i]) <= cut) && (high(s[i]) ==> cut < key(s[i]))
    ensures Filter(all, s) == Filter(low, s) + Filter(high, s)
  {
    if s != [] {
      var front := s[..|s| - 1];
      FilterCut(key, cut, all, low, high, front);
      if low(s[|s| - 1]) {
        FilterNone(high, front);
      }
    }
  }
}
