/** A stable sort by an integer key, in increasing order of the key. */
module StableSort {
  predicate Ordered<T>(s: seq<T>, key: T -> int) {
    forall i, j :: 0 <= i <= j < |s| ==> key(s[i]) <= key(s[j])
  }

  /** Behind every element whose key is not greater. */
  function Inserted<T>(s: seq<T>, x: T, key: T -> int): seq<T> {
    if s == [] || key(s[|s| - 1]) <= key(x) then s + [x]
    else Inserted(s[..|s| - 1], x, key) + [s[|s| - 1]]
  }

  function Sorted<T>(s: seq<T>, key: T -> int): seq<T> {
    if s == [] then [] else Inserted(Sorted(s[..|s| - 1], key), s[|s| - 1], key)
  }

  lemma {:induction false} InsertedKeeps<T>(s: seq<T>, x: T, key: T -> int)
    ensures multiset(Inserted(s, x, key)) == multiset(s) + multiset{x}
  {
    if s == [] || key(s[|s| - 1]) <= key(x) {
    } else {
      InsertedKeeps(s[..|s| - 1], x, key);
      assert s == s[..|s| - 1] + [s[|s| - 1]];
    }
  }

  /** An upper bound of all keys stays one, and the order is kept. */
  lemma {:induction false} InsertedIsOrdered<T>(s: seq<T>, x: T, key: T -> int, bound: int)
    requires Ordered(s, key) && key(x) <= bound && forall i :: 0 <= i < |s| ==> key(s[i]) <= bound
    ensures var t := Inserted(s, x, key);
      Ordered(t, key) && forall i :: 0 <= i < |t| ==> key(t[i]) <= bound
  {
    if s == [] || key(s[|s| - 1]) <= key(x) {
    } else {
      InsertedIsOrdered(s[..|s| - 1], x, key, key(s[|s| - 1]));
    }
  }

  lemma {:induction false} SortedKeeps<T>(s: seq<T>, key: T -> int)
    ensures multiset(Sorted(s, key)) == multiset(s)
  {
    if s == [] {
    } else {
      SortedKeeps(s[..|s| - 1], key);
      InsertedKeeps(Sorted(s[..|s| - 1], key), s[|s| - 1], key);
      assert s == s[..|s| - 1] + [s[|s| - 1]];
    }
  }

  lemma {:induction false} SortedIsOrdered<T>(s: seq<T>, key: T -> int)
    ensures Ordered(Sorted(s, key), key)
  {
    if s == [] {
    } else {
      var front, last := Sorted(s[..|s| - 1], key), s[|s| - 1];
      SortedIsOrdered(s[..|s| - 1], key);
      var bound := if front != [] && key(front[|front| - 1]) > key(last) then key(front[|front| - 1]) else key(last);
      InsertedIsOrdered(front, last, key, bound);
    }
  }

  lemma SameMembers<T>(s: seq<T>, key: T -> int, x: T)
    ensures x in Sorted(s, key) <==> x in s
  {
    SortedKeeps(s, key);
    assert x in multiset(s) <==> x in multiset(Sorted(s, key));
  }

  /** The elements of one key, in order. */
  function WithKey<T>(s: seq<T>, key: T -> int, k: int): seq<T> {
    if s == [] then []
    else WithKey(s[..|s| - 1], key, k) + if key(s[|s| - 1]) == k then [s[|s| - 1]] else []
  }

  lemma {:induction false} InsertedIsStable<T>(s: seq<T>, x: T, key: T -> int, k: int)
    ensures WithKey(Inserted(s, x, key), key, k) == WithKey(s, key, k) + if key(x) == k then [x] else []
  {
    if s == [] || key(s[|s| - 1]) <= key(x) {
      assert (s + [x])[..|s|] == s;
    } else {
      var front, last := s[..|s| - 1], s[|s| - 1];
      InsertedIsStable(front, x, key, k);
      assert (Inserted(front, x, key) + [last])[..|Inserted(front, x, key)|] == Inserted(front, x, key);
    }
  }

  /** Elements of equal key keep their order. */
  lemma {:induction false} SortedIsStable<T>(s: seq<T>, key: T -> int, k: int)
    ensures WithKey(Sorted(s, key), key, k) == WithKey(s, key, k)
  {
    if s == [] {
    } else {
      SortedIsStable(s[..|s| - 1], key, k);
      InsertedIsStable(Sorted(s[..|s| - 1], key), s[|s| - 1], key, k);
    }
  }

  lemma {:induction false} WithKeyOnly<T>(s: seq<T>, key: T -> int, k: int)
    ensures forall x :: x in WithKey(s, key, k) <==> x in s && key(x) == k
  {
    if s == [] {
    } else {
      WithKeyOnly(s[..|s| - 1], key, k);
      assert s == s[..|s| - 1] + [s[|s| - 1]];
    }
  }

  /** Elements of equal key come in the order of `g`. */
  predicate TiesIn<T>(s: seq<T>, key: T -> int, g: T -> int) {
    forall i, j :: 0 <= i < j < |s| && key(s[i]) == key(s[j]) ==> g(s[i]) < g(s[j])
  }

  lemma {:induction false} InsertedTies<T>(s: seq<T>, x: T, key: T -> int, g: T -> int)
    requires TiesIn(s, key, g) && forall i :: 0 <= i < |s| ==> g(s[i]) < g(x)
    ensures TiesIn(Inserted(s, x, key), key, g)
  {
    if s == [] || key(s[|s| - 1]) <= key(x) {
    } else {
      var front, last := s[..|s| - 1], s[|s| - 1];
      InsertedTies(front, x, key, g);
      InsertedKeeps(front, x, key);
      var t := Inserted(front, x, key);
      forall i | 0 <= i < |t| && key(t[i]) == key(last) ensures g(t[i]) < g(last) {
        assert t[i] in multiset(front) + multiset{x};
        assert t[i] in front;
      }
      hide Inserted;
    }
  }

  /** Sorting what is in the order of `g` leaves elements of equal key in that order. */
  lemma {:induction false} SortedTies<T>(s: seq<T>, key: T -> int, g: T -> int)
    requires forall i, j :: 0 <= i < j < |s| ==> g(s[i]) < g(s[j])
    ensures TiesIn(Sorted(s, key), key, g)
  {
    if s == [] {
    } else {
      var front, last := s[..|s| - 1], s[|s| - 1];
      SortedTies(front, key, g);
      var t := Sorted(front, key);
      forall i | 0 <= i < |t| ensures g(t[i]) < g(last) {
        SameMembers(front, key, t[i]);
      }
      InsertedTies(t, last, key, g);
    }
  }
}
