/** Rows of a table that satisfy a condition, in table order. */
module Filters {

  function Filter<T>(s: seq<T>, p: T -> bool): seq<T> {
    if s == [] then []
    else if p(s[0]) then [s[0]] + Filter(s[1..], p)
    else Filter(s[1..], p)
  }

  lemma {:induction false} FilterIn<T>(s: seq<T>, p: T -> bool, x: T)
    ensures x in Filter(s, p) <==> x in s && p(x)
  {
    if s != [] {
      FilterIn(s[1..], p, x);
      assert x in s <==> x == s[0] || x in s[1..];
    }
  }

  lemma FilterIsExactly<T(!new)>(s: seq<T>, p: T -> bool)
    ensures forall x :: x in Filter(s, p) <==> x in s && p(x)
  {
    forall x
      ensures x in Filter(s, p) <==> x in s && p(x)
    {
      FilterIn(s, p, x);
    }
  }

  /** Where the rows that satisfy the condition are. */
  function Where<T>(s: seq<T>, p: T -> bool): set<nat> {
    set i | 0 <= i < |s| && p(s[i])
  }

  lemma {:induction false} FilterCounts<T>(s: seq<T>, p: T -> bool)
    ensures |Filter(s, p)| == |Where(s, p)|
    decreases |s|
  {
    if s == [] {
      assert Where(s, p) == {};
    } else {
      var n := |s| - 1;
      FilterCounts(s[..n], p);
      FilterSnoc(s[..n], s[n], p);
      assert s[..n] + [s[n]] == s;
      assert Where(s, p) == Where(s[..n], p) + if p(s[n]) then {n} else {};
    }
  }

  lemma {:induction false} FilterAppend<T>(s: seq<T>, t: seq<T>, p: T -> bool)
    ensures Filter(s + t, p) == Filter(s, p) + Filter(t, p)
  {
    if s == [] {
      assert s + t == t;
    } else {
      assert (s + t)[0] == s[0] && (s + t)[1..] == s[1..] + t;
      FilterAppend(s[1..], t, p);
      var rest := Filter(s[1..], p);
      assert ([s[0]] + rest) + Filter(t, p) == [s[0]] + (rest + Filter(t, p));
    }
  }

  lemma FilterSnoc<T>(s: seq<T>, x: T, p: T -> bool)
    ensures Filter(s + [x], p) == if p(x) then Filter(s, p) + [x] else Filter(s, p)
  {
    FilterAppend(s, [x], p);
    assert Filter([x], p) == if p(x) then [x] else [];
  }

  lemma {:induction false} FilterTwice<T>(s: seq<T>, p: T -> bool, q: T -> bool, both: T -> bool)
    requires forall x :: x in s ==> (both(x) <==> p(x) && q(x))
    ensures Filter(Filter(s, p), q) == Filter(s, both)
  {
    if s != [] {
      FilterTwice(s[1..], p, q, both);
      assert p(s[0]) ==> ([s[0]] + Filter(s[1..], p))[1..] == Filter(s[1..], p);
    }
  }

  lemma {:induction false} FilterAll<T>(s: seq<T>, p: T -> bool)
    requires forall x :: x in s ==> p(x)
    ensures Filter(s, p) == s
  {
    if s != [] {
      FilterAll(s[1..], p);
    }
  }

  /** Removing rows first never leaves more of the rest. */
  lemma {:induction false} FilterShrinks<T>(s: seq<T>, p: T -> bool, q: T -> bool)
    ensures |Filter(Filter(s, p), q)| <= |Filter(s, q)| <= |s|
  {
    if s != [] {
      FilterShrinks(s[1..], p, q);
      assert p(s[0]) ==> ([s[0]] + Filter(s[1..], p))[1..] == Filter(s[1..], p);
    }
  }
}
