/** What a Java stream pipeline `filter(p).collect(toList())` computes, and the subsequence order. */
module Seqs {

  /** The elements of `s` that satisfy `p`, in the order `s` has them. */
  function Filter<T(==)>(p: T -> bool, s: seq<T>): (r: seq<T>)
    ensures |r| <= |s|
  {
    if s == [] then []
    else
      var last := s[|s| - 1];
      Filter(p, s[..|s| - 1]) + (if p(last) then [last] else [])
  }

  /**
   * Exactly the elements of `s` satisfying `p` are kept, each as often as `s` holds it:
   * the occurrences of everything else are dropped.
   */
  lemma {:induction false} FilterCounts<T(!new)>(p: T -> bool, s: seq<T>)
    ensures forall x :: multiset(Filter(p, s))[x] == if p(x) then multiset(s)[x] else 0
    ensures forall x :: x in Filter(p, s) <==> x in s && p(x)
  {
    if s != [] {
      var init, last := s[..|s| - 1], s[|s| - 1];
      FilterCounts(p, init);
      assert s == init + [last];
      assert multiset(s) == multiset(init) + multiset{last};
    }
  }

  /** `a` is `b` with some elements left out (matched greedily from the back). */
  predicate IsSubsequence<T(==)>(a: seq<T>, b: seq<T>)
    decreases |b|
  {
    if a == [] then true
    else if b == [] then false
    else if a[|a| - 1] == b[|b| - 1] then IsSubsequence(a[..|a| - 1], b[..|b| - 1])
    else IsSubsequence(a, b[..|b| - 1])
  }

  /** Filtering keeps the survivors in their original relative order. */
  lemma {:induction false} FilterIsSubsequence<T(!new)>(p: T -> bool, s: seq<T>)
    ensures IsSubsequence(Filter(p, s), s)
  {
    if s != [] {
      var init, last := s[..|s| - 1], s[|s| - 1];
      FilterIsSubsequence(p, init);
      var r := Filter(p, s);
      if p(last) {
        assert r[..|r| - 1] == Filter(p, init);
      } else {
        assert r == Filter(p, init);
        if r != [] {
          FilterCounts(p, init);
          assert r[|r| - 1] in r;
        }
      }
    }
  }

  /** Filtering a concatenation filters each part. */
  lemma {:induction false} FilterAppend<T(!new)>(p: T -> bool, a: seq<T>, b: seq<T>)
    ensures Filter(p, a + b) == Filter(p, a) + Filter(p, b)
  {
    if b == [] {
      assert a + b == a;
    } else {
      var init, last := b[..|b| - 1], b[|b| - 1];
      FilterAppend(p, a, init);
      var ab := a + b;
      assert ab[..|ab| - 1] == a + init && ab[|ab| - 1] == last;
      calc {
        Filter(p, ab);
        Filter(p, a + init) + (if p(last) then [last] else []);
        Filter(p, a) + Filter(p, init) + (if p(last) then [last] else []);
        Filter(p, a) + Filter(p, b);
      }
    }
  }

  /** Filtering around one element filters each side of it. */
  lemma FilterAround<T(!new)>(p: T -> bool, a: seq<T>, x: T, b: seq<T>)
    ensures Filter(p, a + [x] + b) == Filter(p, a) + (if p(x) then [x] else []) + Filter(p, b)
  {
    FilterAppend(p, a + [x], b);
    FilterAppend(p, a, [x]);
    assert [x][..0] == [];
  }

  /** A filter nothing in `s` passes is empty. */
  lemma {:induction false} FilterNone<T(!new)>(p: T -> bool, s: seq<T>)
    requires forall i :: 0 <= i < |s| ==> !p(s[i])
    ensures Filter(p, s) == []
  {
    if s != [] {
      FilterNone(p, s[..|s| - 1]);
    }
  }

  /**
   * Putting `x` in front of a part `b` where nothing passes the filter puts it, as far as the
   * filter can tell, at the end.
   */
  lemma FilterInsertBefore<T(!new)>(p: T -> bool, a: seq<T>, x: T, b: seq<T>)
    requires p(x) ==> forall i :: 0 <= i < |b| ==> !p(b[i])
    ensures Filter(p, a + [x] + b) == Filter(p, a + b) + (if p(x) then [x] else [])
  {
    FilterAround(p, a, x, b);
    FilterAppend(p, a, b);
    if p(x) {
      FilterNone(p, b);
    }
  }
}
