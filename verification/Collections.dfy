/** Facts about sequences and sets that the solver should not have to find. */
module Collections {

  /** No element occurs twice. */
  predicate Distinct<T(==)>(s: seq<T>) {
    forall i, j :: 0 <= i < j < |s| ==> s[i] != s[j]
  }

  lemma Associative<T>(x: seq<T>, y: seq<T>, z: seq<T>)
    ensures (x + y) + z == x + (y + z) && x + [] == x && [] + x == x && [] + z == z
  {
  }

  lemma {:induction false} SubsetOfSameSize<T>(a: set<T>, b: set<T>)
    requires a <= b && |a| == |b|
    ensures a == b
  {
    if x :| x in a {
      SubsetOfSameSize(a - {x}, b - {x});
    }
  }

  lemma SplitAt<T>(s: seq<T>, i: nat, x: T)
    requires i <= |s|
    ensures x in s <==> x in s[..i] || x in s[i..]
  {
    assert s == s[..i] + s[i..];
  }

  lemma DistinctWith<T>(s: seq<T>, x: T)
    requires Distinct(s) && x !in s
    ensures Distinct(s + [x]) && s + [] == s
  {
  }
}
