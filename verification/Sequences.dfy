/** Filtering and folding, defined from the end so that appending one element unfolds once. */
module Sequences {

  ghost function Filter<T>(s: seq<T>, keep: T -> bool): seq<T> {
    if s == [] then []
    else Filter(s[..|s| - 1], keep) + (if keep(s[|s| - 1]) then [s[|s| - 1]] else [])
  }

  lemma FilterAppend<T>(s: seq<T>, x: T, keep: T -> bool)
    ensures Filter(s + [x], keep) == Filter(s, keep) + (if keep(x) then [x] else [])
  {
    assert (s + [x])[..|s|] == s;
  }

  lemma {:induction false} FilterConcat<T>(a: seq<T>, b: seq<T>, keep: T -> bool)
    ensures Filter(a + b, keep) == Filter(a, keep) + Filter(b, keep)
  {
    if b == [] {
      assert a + b == a;
    } else {
      var b', x := b[..|b| - 1], b[|b| - 1];
      assert b == b' + [x];
      assert a + b == (a + b') + [x];
      FilterConcat(a, b', keep);
      FilterAppend(a + b', x, keep);
      FilterAppend(b', x, keep);
    }
  }

  lemma {:induction false} FilterCommutes<T>(s: seq<T>, p: T -> bool, q: T -> bool)
    ensures Filter(Filter(s, p), q) == Filter(Filter(s, q), p)
  {
    if s != [] {
      var s', x := s[..|s| - 1], s[|s| - 1];
      FilterCommutes(s', p, q);
      FilterAppend(Filter(s', p), x, q);
      FilterAppend(Filter(s', q), x, p);
      assert !p(x) ==> Filter(s, p) == Filter(s', p);
      assert !q(x) ==> Filter(s, q) == Filter(s', q);
    }
  }

  /** Filtering by a condition every element meets changes nothing. */
  lemma {:induction false} FilterAll<T>(s: seq<T>, keep: T -> bool)
    requires forall x | x in s :: keep(x)
    ensures Filter(s, keep) == s
  {
    if s != [] {
      FilterAll(s[..|s| - 1], keep);
      assert s == s[..|s| - 1] + [s[|s| - 1]];
    }
  }

  /** Filters that agree on the elements agree on the sequence. */
  lemma {:induction false} FilterSame<T>(s: seq<T>, p: T -> bool, q: T -> bool)
    requires forall x | x in s :: p(x) == q(x)
    ensures Filter(s, p) == Filter(s, q)
  {
    if s != [] {
      FilterSame(s[..|s| - 1], p, q);
    }
  }

  lemma {:induction false} FilterNone<T>(s: seq<T>, keep: T -> bool)
    requires forall x | x in s :: !keep(x)
    ensures Filter(s, keep) == []
  {
    if s != [] {
      FilterNone(s[..|s| - 1], keep);
    }
  }

  /** A filtered sequence holds exactly the kept elements. */
  lemma {:induction false} FilterMembers<T>(s: seq<T>, keep: T -> bool)
    ensures forall x | x in Filter(s, keep) :: x in s && keep(x)
    ensures forall x | x in s && keep(x) :: x in Filter(s, keep)
  {
    if s != [] {
      FilterMembers(s[..|s| - 1], keep);
      assert s == s[..|s| - 1] + [s[|s| - 1]];
    }
  }

  ghost function Fold<A, B>(f: (A, B) -> A, init: A, s: seq<B>): A {
    if s == [] then init else f(Fold(f, init, s[..|s| - 1]), s[|s| - 1])
  }

  lemma FoldAppend<A, B>(f: (A, B) -> A, init: A, s: seq<B>, x: B)
    ensures Fold(f, init, s + [x]) == f(Fold(f, init, s), x)
  {
    assert (s + [x])[..|s|] == s;
  }

  /** Filtering a prefix gives a prefix. */
  lemma FilterPrefix<T>(a: seq<T>, b: seq<T>, keep: T -> bool)
    requires a <= b
    ensures Filter(a, keep) <= Filter(b, keep)
  {
    FilterConcat(a, b[|a|..], keep);
    assert b == a + b[|a|..];
  }
}
