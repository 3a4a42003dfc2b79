/** Sequences without repetitions and sequences with the same elements. */
module Permutations {
  predicate Distinct<T(==)>(s: seq<T>) {
    forall i, j :: 0 <= i < j < |s| ==> s[i] != s[j]
  }

  lemma SameLength<T>(s: seq<T>, p: seq<T>)
    requires multiset(s) == multiset(p)
    ensures |s| == |p|
  {
    assert |multiset(s)| == |s| && |multiset(p)| == |p|;
  }

  lemma SameElements<T>(s: seq<T>, p: seq<T>)
    requires multiset(s) == multiset(p)
    ensures forall x :: x in s <==> x in p
  {
    assert forall x :: x in s <==> x in multiset(s);
    assert forall x :: x in p <==> x in multiset(p);
  }

  lemma DuplicateCounts<T>(p: seq<T>, i: nat, j: nat)
    requires i < j < |p| && p[i] == p[j]
    ensures multiset(p)[p[i]] >= 2
  {
    assert p == p[..j] + [p[j]] + p[j + 1..];
    assert multiset(p) == multiset(p[..j]) + multiset{p[j]} + multiset(p[j + 1..]);
    assert p[..j][i] == p[i];
  }

  lemma {:induction false} DistinctCounts<T>(s: seq<T>, x: T)
    requires Distinct(s)
    ensures multiset(s)[x] <= 1
  {
    if s == [] {
    } else {
      assert s == [s[0]] + s[1..];
      DistinctCounts(s[1..], x);
    }
  }
}
