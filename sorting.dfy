/**
 * `list.sort(Comparator.comparing(Employee::getName))`. Java's `List.sort` is stable, so its
 * result is fully determined: the permutation ordered by `String.compareTo` on names that keeps
 * employees of equal name in their previous order. `SortByName` builds that permutation by
 * inserting each employee after every earlier one whose name is not greater.
 */
module Sorting {
  import opened Names
  import opened Seqs
  import opened Employees

  predicate SortedByName(s: seq<Employee>)
  {
    forall i, j :: 0 <= i < j < |s| ==> NameLeq(s[i].name, s[j].name)
  }

  /** The employees called `n`, in the order `s` has them. */
  function WithName(s: seq<Employee>, n: string): seq<Employee>
  {
    Filter((e: Employee) => e.name == n, s)
  }

  /** Where `x` goes: after the last employee whose name is not greater than `x`'s. */
  function InsertionPoint(s: seq<Employee>, x: Employee): (p: nat)
    ensures p <= |s|
    ensures forall i :: p <= i < |s| ==> !NameLeq(s[i].name, x.name)
    ensures p > 0 ==> NameLeq(s[p - 1].name, x.name)
  {
    if s == [] then 0
    else if NameLeq(s[|s| - 1].name, x.name) then |s|
    else InsertionPoint(s[..|s| - 1], x)
  }

  /** In a sorted sequence everything before the insertion point is not greater than `x`. */
  lemma InsertionPointBelow(s: seq<Employee>, x: Employee)
    requires SortedByName(s)
    ensures forall i :: 0 <= i < InsertionPoint(s, x) ==> NameLeq(s[i].name, x.name)
  {
    var p := InsertionPoint(s, x);
    if p > 0 {
      var top := s[p - 1];
      assert NameLeq(top.name, x.name);
      forall i | 0 <= i < p - 1
        ensures NameLeq(s[i].name, x.name)
      {
        assert NameLeq(s[i].name, top.name);
        NameLeqTransitive(s[i].name, top.name, x.name);
      }
    }
  }

  function Insert(s: seq<Employee>, x: Employee): (r: seq<Employee>)
    ensures |r| == |s| + 1
  {
    var p := InsertionPoint(s, x);
    s[..p] + [x] + s[p..]
  }

  function SortByName(s: seq<Employee>): (r: seq<Employee>)
    ensures |r| == |s|
  {
    if s == [] then [] else Insert(SortByName(s[..|s| - 1]), s[|s| - 1])
  }

  lemma InsertSorted(s: seq<Employee>, x: Employee)
    requires SortedByName(s)
    ensures SortedByName(Insert(s, x))
  {
    var p := InsertionPoint(s, x);
    var r := Insert(s, x);
    InsertionPointBelow(s, x);
    forall i, j | 0 <= i < j < |r|
      ensures NameLeq(r[i].name, r[j].name)
    {
      if i == p {
        NameLeqTotal(x.name, s[j - 1].name);
      } else if j == p {
        assert r[i] == s[i];
      } else if i < p && j > p {
        assert r[i] == s[i] && r[j] == s[j - 1];
      }
    }
  }

  lemma InsertPermutes(s: seq<Employee>, x: Employee)
    ensures multiset(Insert(s, x)) == multiset(s) + multiset{x}
  {
    var p := InsertionPoint(s, x);
    assert s == s[..p] + s[p..];
  }

  /** Inserting `x` adds it after every employee of the same name. */
  lemma InsertStable(s: seq<Employee>, x: Employee, n: string)
    ensures WithName(Insert(s, x), n) == WithName(s, n) + (if x.name == n then [x] else [])
  {
    var p := InsertionPoint(s, x);
    var left, right := s[..p], s[p..];
    assert s == left + right;
    GreaterNamesDiffer(s, x);
    FilterInsertBefore((e: Employee) => e.name == n, left, x, right);
  }

  /** Past the insertion point no employee has the inserted employee's name. */
  lemma GreaterNamesDiffer(s: seq<Employee>, x: Employee)
    ensures forall i :: 0 <= i < |s[InsertionPoint(s, x)..]| ==> s[InsertionPoint(s, x)..][i].name != x.name
  {
    var p := InsertionPoint(s, x);
    CompareToAntisymmetric(x.name, x.name);
    forall i | 0 <= i < |s[p..]|
      ensures s[p..][i].name != x.name
    {
      assert s[p..][i] == s[p + i];
    }
  }

  /** The sorted list is ordered by name. */
  lemma {:induction false} SortByNameSorted(s: seq<Employee>)
    ensures SortedByName(SortByName(s))
  {
    if s != [] {
      SortByNameSorted(s[..|s| - 1]);
      InsertSorted(SortByName(s[..|s| - 1]), s[|s| - 1]);
    }
  }

  /** The sorted list holds exactly the employees the list held, each as often. */
  lemma {:induction false} SortByNamePermutes(s: seq<Employee>)
    ensures multiset(SortByName(s)) == multiset(s)
  {
    if s != [] {
      var init, last := s[..|s| - 1], s[|s| - 1];
      var sorted := SortByName(init);
      calc {
        multiset(SortByName(s));
        multiset(Insert(sorted, last));
        { InsertPermutes(sorted, last); }
        multiset(sorted) + multiset{last};
        { SortByNamePermutes(init); }
        multiset(init) + multiset{last};
        { assert s == init + [last]; }
        multiset(s);
      }
    }
  }

  /** Employees that share a name keep their relative order: sorting is stable. */
  lemma {:induction false} SortByNameStable(s: seq<Employee>, n: string)
    ensures WithName(SortByName(s), n) == WithName(s, n)
  {
    if s != [] {
      var init, last := s[..|s| - 1], s[|s| - 1];
      SortByNameStable(init, n);
      InsertStable(SortByName(init), last, n);
    }
  }
}
