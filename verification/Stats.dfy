/** The median, and how many values can exceed it. */
module Stats {
  import opened Sorting

  function Same(x: real): real { x }

  function Sorted(s: seq<real>): seq<real> { StableSort(Same, s) }

  lemma SortedFacts(s: seq<real>)
    ensures |Sorted(s)| == |s| && multiset(Sorted(s)) == multiset(s)
    ensures Ascending(Sorted(s))
  {
    SortElements(Same, s);
    SortSorted(Same, s);
    var t := Sorted(s);
    forall i, j | 0 <= i <= j < |s| ensures t[i] <= t[j] {
      assert i < j ==> Same(t[i]) <= Same(t[j]);
    }
  }

  /** `statistics.median`. */
  function Median(s: seq<real>): real
    requires s != []
  {
    SortedFacts(s);
    var t, n := Sorted(s), |s|;
    if n % 2 == 1 then t[n / 2] else (t[n / 2 - 1] + t[n / 2]) / 2.0
  }

  predicate Ascending(s: seq<real>) { forall i, j | 0 <= i <= j < |s| :: s[i] <= s[j] }

  lemma LastIsGreatest(s: seq<real>, x: real)
    requires Ascending(s) && x in multiset(s)
    ensures s != [] && x <= s[|s| - 1]
  {
    assert x in s;
    var i :| 0 <= i < |s| && s[i] == x;
  }

  lemma DropLast(s: seq<real>)
    requires s != [] && Ascending(s)
    ensures var n := |s| - 1;
            multiset(s[..n]) == multiset(s) - multiset{s[n]} && Ascending(s[..n]) && s == s[..n] + [s[n]]
  {
    assert s == s[..|s| - 1] + [s[|s| - 1]];
  }

  lemma {:induction false} AscendingUnique(a: seq<real>, b: seq<real>)
    requires multiset(a) == multiset(b) && Ascending(a) && Ascending(b)
    ensures a == b
  {
    hide Ascending;
    SameSize(a, b);
    if a != [] {
      var n := |a| - 1;
      SameLast(a, b);
      DropLast(a);
      DropLast(b);
      AscendingUnique(a[..n], b[..n]);
    }
  }

  lemma SameSize(a: seq<real>, b: seq<real>)
    requires multiset(a) == multiset(b)
    ensures |a| == |b|
  {
    assert |a| == |multiset(a)| == |multiset(b)| == |b|;
  }

  lemma SameLast(a: seq<real>, b: seq<real>)
    requires a != [] && |a| == |b| && multiset(a) == multiset(b) && Ascending(a) && Ascending(b)
    ensures a[|a| - 1] == b[|b| - 1]
  {
    hide Ascending;
    var n := |a| - 1;
    assert a[n] in multiset(a) && b[n] in multiset(b);
    LastIsGreatest(a, b[n]);
    LastIsGreatest(b, a[n]);
  }

  lemma MedianOfAscending(s: seq<real>)
    requires s != [] && Ascending(s)
    ensures Median(s) == if |s| % 2 == 1 then s[|s| / 2] else (s[|s| / 2 - 1] + s[|s| / 2]) / 2.0
  {
    SortedFacts(s);
    AscendingUnique(Sorted(s), s);
  }

  /** The median does not depend on the order of the values. */
  lemma MedianOfRearranged(a: seq<real>, b: seq<real>)
    requires a != [] && multiset(a) == multiset(b)
    ensures b != [] && Median(a) == Median(b)
  {
    assert |a| == |multiset(a)| == |multiset(b)| == |b|;
    SortedFacts(a);
    SortedFacts(b);
    AscendingUnique(Sorted(a), Sorted(b));
  }

  /** How many values exceed a bound. */
  function CountAbove(s: seq<real>, bound: real): nat {
    if s == [] then 0 else CountAbove(s[..|s| - 1], bound) + if s[|s| - 1] > bound then 1 else 0
  }

  lemma CountAboveSnoc(s: seq<real>, x: real, bound: real)
    ensures CountAbove(s + [x], bound) == CountAbove(s, bound) + if x > bound then 1 else 0
  {
    assert (s + [x])[..|s|] == s;
  }

  lemma {:induction false} CountAboveInsert(s: seq<real>, x: real, bound: real)
    ensures CountAbove(Insert(Same, s, x), bound) == CountAbove(s + [x], bound)
  {
    CountAboveSnoc(s, x, bound);
    if s != [] && !(Same(s[|s| - 1]) <= Same(x)) {
      var front, last := s[..|s| - 1], s[|s| - 1];
      CountAboveInsert(front, x, bound);
      CountAboveSnoc(front, x, bound);
      CountAboveSnoc(Insert(Same, front, x), last, bound);
    }
  }

  lemma {:induction false} CountAboveSorted(s: seq<real>, bound: real)
    ensures CountAbove(Sorted(s), bound) == CountAbove(s, bound)
  {
    if s != [] {
      var front, last := s[..|s| - 1], s[|s| - 1];
      CountAboveSorted(front, bound);
      CountAboveInsert(Sorted(front), last, bound);
      CountAboveSnoc(Sorted(front), last, bound);
    }
  }

  lemma {:induction false} CountAboveRank(t: seq<real>, k: nat, bound: real)
    requires k < |t| && forall i | 0 <= i <= k :: t[i] <= bound
    ensures CountAbove(t, bound) <= |t| - k - 1
    decreases |t|
  {
    if k < |t| - 1 {
      CountAboveRank(t[..|t| - 1], k, bound);
    } else {
      NoneAbove(t, bound);
    }
  }

  lemma {:induction false} NoneAbove(t: seq<real>, bound: real)
    requires forall i | 0 <= i < |t| :: t[i] <= bound
    ensures CountAbove(t, bound) == 0
  {
    if t != [] {
      NoneAbove(t[..|t| - 1], bound);
    }
  }

  /** Fewer than half of the values exceed the upper middle one. */
  lemma MinorityAboveMiddle(s: seq<real>)
    requires s != []
    ensures |Sorted(s)| == |s| && 2 * CountAbove(s, Sorted(s)[|s| / 2]) < |s|
  {
    SortedFacts(s);
    var t, k := Sorted(s), |s| / 2;
    CountAboveSorted(s, t[k]);
    CountAboveRank(t, k, t[k]);
  }

  lemma SortedNotNegative(s: seq<real>)
    requires forall i | 0 <= i < |s| :: s[i] >= 0.0
    ensures forall i | 0 <= i < |Sorted(s)| :: Sorted(s)[i] >= 0.0
  {
    SortedFacts(s);
    forall i | 0 <= i < |Sorted(s)| ensures Sorted(s)[i] >= 0.0 {
      assert Sorted(s)[i] in multiset(Sorted(s));
      assert Sorted(s)[i] in s;
    }
  }

  /** Among values that are not negative, more than twice the median is more than the upper middle value. */
  lemma FarAboveMedian(s: seq<real>, v: real)
    requires s != [] && (forall i | 0 <= i < |s| :: s[i] >= 0.0) && v > 2.0 * Median(s)
    ensures |Sorted(s)| == |s| && v > Sorted(s)[|s| / 2]
  {
    SortedFacts(s);
    SortedNotNegative(s);
    hide Sorted;
  }
}
