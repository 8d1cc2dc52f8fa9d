/** The stable sort behind `sorted` and `list.sort`. */
module Sorting {

  type Key<!T> = T -> real

  predicate SortedBy<T>(key: Key<T>, s: seq<T>) {
    forall i, j | 0 <= i < j < |s| :: key(s[i]) <= key(s[j])
  }

  /** Puts `x` behind everything whose key is not larger. */
  function Insert<T>(key: Key<T>, s: seq<T>, x: T): seq<T> {
    if s == [] then [x]
    else if key(s[|s| - 1]) <= key(x) then s + [x]
    else Insert(key, s[..|s| - 1], x) + [s[|s| - 1]]
  }

  function StableSort<T>(key: Key<T>, s: seq<T>): seq<T> {
    if s == [] then [] else Insert(key, StableSort(key, s[..|s| - 1]), s[|s| - 1])
  }

  lemma {:induction false} InsertElements<T>(key: Key<T>, s: seq<T>, x: T)
    ensures multiset(Insert(key, s, x)) == multiset(s) + multiset{x}
  {
    if s != [] && !(key(s[|s| - 1]) <= key(x)) {
      var front, last := s[..|s| - 1], s[|s| - 1];
      InsertElements(key, front, x);
      assert s == front + [last];
    }
  }

  lemma {:induction false} InsertBounded<T>(key: Key<T>, s: seq<T>, x: T, bound: real)
    requires key(x) <= bound && forall i | 0 <= i < |s| :: key(s[i]) <= bound
    ensures forall i | 0 <= i < |Insert(key, s, x)| :: key(Insert(key, s, x)[i]) <= bound
  {
    if s != [] {
      InsertBounded(key, s[..|s| - 1], x, bound);
    }
  }

  lemma {:induction false} InsertSorted<T>(key: Key<T>, s: seq<T>, x: T)
    requires SortedBy(key, s)
    ensures SortedBy(key, Insert(key, s, x))
  {
    if s != [] && !(key(s[|s| - 1]) <= key(x)) {
      var front, last := s[..|s| - 1], s[|s| - 1];
      SortedFront(key, s);
      InsertSorted(key, front, x);
      InsertBounded(key, front, x, key(last));
      SortedSnoc(key, Insert(key, front, x), last);
    } else if s != [] {
      SortedFront(key, s);
      SortedSnoc(key, s, x);
    }
    hide SortedBy;
  }

  lemma SortedFront<T>(key: Key<T>, s: seq<T>)
    requires s != [] && SortedBy(key, s)
    ensures SortedBy(key, s[..|s| - 1]) && forall i | 0 <= i < |s| :: key(s[i]) <= key(s[|s| - 1])
  {
  }

  lemma SortedSnoc<T>(key: Key<T>, s: seq<T>, x: T)
    requires SortedBy(key, s) && forall i | 0 <= i < |s| :: key(s[i]) <= key(x)
    ensures SortedBy(key, s + [x])
  {
  }

  lemma {:induction false} SortElements<T>(key: Key<T>, s: seq<T>)
    ensures multiset(StableSort(key, s)) == multiset(s)
    ensures |StableSort(key, s)| == |s|
    ensures forall x :: x in StableSort(key, s) <==> x in s
  {
    if s != [] {
      var front, last := s[..|s| - 1], s[|s| - 1];
      assert s == front + [last];
      SortElements(key, front);
      InsertElements(key, StableSort(key, front), last);
    }
    var t := StableSort(key, s);
    assert |t| == |multiset(t)| == |multiset(s)| == |s|;
    forall x ensures x in t <==> x in s {
      assert x in t <==> x in multiset(t);
      assert x in s <==> x in multiset(s);
    }
  }

  lemma {:induction false} SortSorted<T>(key: Key<T>, s: seq<T>)
    ensures SortedBy(key, StableSort(key, s))
  {
    if s != [] {
      SortSorted(key, s[..|s| - 1]);
      InsertSorted(key, StableSort(key, s[..|s| - 1]), s[|s| - 1]);
    }
  }

  // ---------------------------------------------------------------- stability

  /** The elements with one key, in order. */
  function WithKey<T>(key: Key<T>, s: seq<T>, k: real): seq<T> {
    if s == [] then []
    else WithKey(key, s[..|s| - 1], k) + if key(s[|s| - 1]) == k then [s[|s| - 1]] else []
  }

  lemma WithKeySnoc<T>(key: Key<T>, s: seq<T>, x: T, k: real)
    ensures WithKey(key, s + [x], k) == WithKey(key, s, k) + if key(x) == k then [x] else []
  {
    assert (s + [x])[..|s|] == s;
  }

  lemma {:induction false} InsertKeepsOrder<T>(key: Key<T>, s: seq<T>, x: T, k: real)
    requires SortedBy(key, s)
    ensures WithKey(key, Insert(key, s, x), k) == WithKey(key, s + [x], k)
  {
    WithKeySnoc(key, s, x, k);
    if s != [] && !(key(s[|s| - 1]) <= key(x)) {
      var front, last := s[..|s| - 1], s[|s| - 1];
      InsertKeepsOrder(key, front, x, k);
      WithKeySnoc(key, front, x, k);
      WithKeySnoc(key, Insert(key, front, x), last, k);
    }
  }

  /** Elements with equal keys keep their order. */
  lemma {:induction false} SortStable<T>(key: Key<T>, s: seq<T>, k: real)
    ensures WithKey(key, StableSort(key, s), k) == WithKey(key, s, k)
  {
    if s != [] {
      var front, last := s[..|s| - 1], s[|s| - 1];
      SortStable(key, front, k);
      SortSorted(key, front);
      InsertKeepsOrder(key, StableSort(key, front), last, k);
      WithKeySnoc(key, StableSort(key, front), last, k);
    }
  }

  // ---------------------------------------------------------------- strict order

  predicate StrictBy<T>(key: Key<T>, s: seq<T>) {
    forall i, j | 0 <= i < j < |s| :: key(s[i]) < key(s[j])
  }

  predicate NoDup<T(==)>(s: seq<T>) {
    forall i, j | 0 <= i < j < |s| :: s[i] != s[j]
  }

  /** Strictly ordered lists with the same elements are the same list. */
  lemma {:induction false} StrictUnique<T>(key: Key<T>, a: seq<T>, b: seq<T>)
    requires StrictBy(key, a) && StrictBy(key, b)
    requires forall x :: x in a <==> x in b
    ensures a == b
  {
    assert a == [] <==> b == [] by {
      if a != [] {
        assert a[0] in a;
      }
      if b != [] {
        assert b[0] in b;
      }
    }
    if a != [] {
      var front, front' := a[..|a| - 1], b[..|b| - 1];
      var x, y := a[|a| - 1], b[|b| - 1];
      assert x in b && y in a;
      assert a == front + [x] && b == front' + [y];
      assert x == y;
      forall z ensures z in front <==> z in front' {
        assert z in front ==> z in a && key(z) < key(x);
        assert z in front' ==> z in b && key(z) < key(y);
      }
      StrictUnique(key, front, front');
    }
  }

  lemma {:induction false} NoDupCounts<T>(s: seq<T>, x: T)
    requires NoDup(s)
    ensures multiset(s)[x] <= 1
  {
    if s != [] {
      var front, last := s[..|s| - 1], s[|s| - 1];
      assert s == front + [last];
      NoDupCounts(front, x);
      assert x == last ==> x !in front;
      assert x !in front ==> multiset(front)[x] == 0;
    }
  }

  lemma TwiceCounted<T>(s: seq<T>, i: nat, j: nat)
    requires i < j < |s|
    ensures s[i] == s[j] ==> multiset(s)[s[i]] >= 2
  {
    assert s == s[..i] + [s[i]] + s[i + 1..j] + [s[j]] + s[j + 1..];
  }

  /** A rearrangement of a list without duplicates has none. */
  lemma NoDupRearranged<T>(a: seq<T>, b: seq<T>)
    requires NoDup(a) && multiset(a) == multiset(b)
    ensures NoDup(b)
  {
    forall i, j | 0 <= i < j < |b| ensures b[i] != b[j] {
      NoDupCounts(a, b[i]);
      TwiceCounted(b, i, j);
    }
  }
}
