/** The natural order of Java strings, `String.compareTo`, which sorting by name uses. */
module Names {

  /**
   * `a.compareTo(b)`: at the first position where the strings differ, the difference of
   * the characters there; when one is a prefix of the other, the difference of the lengths.
   */
  function CompareTo(a: string, b: string): (c: int)
    ensures c == 0 <==> a == b
    ensures a <= b ==> c == |a| - |b|
  {
    if a == [] || b == [] then |a| - |b|
    else if a[0] != b[0] then a[0] as int - b[0] as int
    else
      assert a == [a[0]] + a[1..] && b == [b[0]] + b[1..];
      CompareTo(a[1..], b[1..])
  }

  /** `a.compareTo(b) <= 0` */
  predicate NameLeq(a: string, b: string)
  {
    CompareTo(a, b) <= 0
  }

  /** Swapping the arguments negates the comparison; only equal strings compare as zero. */
  lemma {:induction false} CompareToAntisymmetric(a: string, b: string)
    ensures CompareTo(b, a) == -CompareTo(a, b)
    ensures CompareTo(a, b) == 0 <==> a == b
  {
    if a != [] && b != [] && a[0] == b[0] {
      CompareToAntisymmetric(a[1..], b[1..]);
      if a[1..] == b[1..] {
        assert a == [a[0]] + a[1..] && b == [b[0]] + b[1..];
      }
    }
  }

  /** Any two strings are ordered one way or the other. */
  lemma NameLeqTotal(a: string, b: string)
    ensures NameLeq(a, b) || NameLeq(b, a)
  {
    CompareToAntisymmetric(a, b);
  }

  /** The order is transitive. */
  lemma {:induction false} NameLeqTransitive(a: string, b: string, c: string)
    requires NameLeq(a, b) && NameLeq(b, c)
    ensures NameLeq(a, c)
  {
    if a != [] && b != [] && c != [] && a[0] == b[0] && b[0] == c[0] {
      NameLeqTransitive(a[1..], b[1..], c[1..]);
    }
  }
}
