/** Entries whose time or size is far above the capture's median. */
module Outliers {
  import opened Entries
  import opened Json
  import opened Sorting
  import opened Stats

  const MIN_SAMPLE_SIZE := 5
  const TIMING_OUTLIER_MULTIPLE := 5.0
  const SIZE_OUTLIER_MULTIPLE := 10.0

  datatype OutlierInfo = OutlierInfo(value: real, median: real, multiple: real)

  /** `round(x, 1)`: the nearest tenth, and of two the even one. */
  function RoundTenth(x: real): (r: real)
    ensures -0.05 <= r - x <= 0.05
  {
    var tenths := (x * 10.0).Floor;
    var past := x * 10.0 - tenths as real;
    var up := past > 0.5 || (past == 0.5 && tenths % 2 == 1);
    (if up then tenths + 1 else tenths) as real / 10.0
  }

  type Measure = ClassifiedEntry -> real

  function Values(cs: seq<ClassifiedEntry>, value: Measure): (vs: seq<real>)
    ensures |vs| == |cs|
  {
    if cs == [] then [] else Values(cs[..|cs| - 1], value) + [value(cs[|cs| - 1])]
  }

  lemma {:induction false} ValueAt(cs: seq<ClassifiedEntry>, value: Measure, i: nat)
    requires i < |cs|
    ensures Values(cs, value)[i] == value(cs[i])
  {
    if i < |cs| - 1 {
      ValueAt(cs[..|cs| - 1], value, i);
    }
  }

  /** There are enough entries and the median is positive. */
  ghost predicate Judged(cs: seq<ClassifiedEntry>, value: Measure) {
    |cs| >= MIN_SAMPLE_SIZE && Median(Values(cs, value)) > 0.0
  }

  predicate Reaches(v: real, median: real, threshold: real)
    requires median > 0.0
  {
    v / median >= threshold
  }

  function InfoOf(v: real, median: real): OutlierInfo
    requires median > 0.0
  {
    OutlierInfo(v, median, RoundTenth(v / median))
  }

  /** Exactly the entries that reach the multiple of the median are reported, each with its figures. */
  ghost predicate Reports(
      cs: seq<ClassifiedEntry>, value: Measure, median: real, threshold: real, report: map<nat, OutlierInfo>)
    requires median > 0.0
  {
    && (forall x | x in report :: exists c :: c in cs && c.index == x)
    && (forall c | c in cs :: c.index in report <==> Reaches(value(c), median, threshold))
    && (forall c | c in cs && c.index in report :: report[c.index] == InfoOf(value(c), median))
  }

  /** The report of a capture; it is empty if there is nothing to compare with. */
  ghost predicate AreOutliers(
      cs: seq<ClassifiedEntry>, value: Measure, threshold: real, report: map<nat, OutlierInfo>) {
    if !Judged(cs, value) then report == map[] else Reports(cs, value, Median(Values(cs, value)), threshold, report)
  }

  lemma ReportsNext(
      cs: seq<ClassifiedEntry>, i: nat, value: Measure, median: real, threshold: real, report: map<nat, OutlierInfo>)
    requires median > 0.0 && i < |cs| && DistinctIndices(cs) && Reports(cs[..i], value, median, threshold, report)
    ensures var c := cs[i];
            Reports(cs[..i + 1], value, median, threshold,
                    if Reaches(value(c), median, threshold) then report[c.index := InfoOf(value(c), median)]
                    else report)
  {
    hide Reaches, InfoOf;
    var front, c := cs[..i], cs[i];
    assert cs[..i + 1] == front + [c];
    assert forall d | d in front :: d.index != c.index;
    assert c.index !in report;
  }

  /** `_compute_outliers`. */
  method ComputeOutliers(cs: seq<ClassifiedEntry>, value: Measure, threshold: real)
      returns (report: map<nat, OutlierInfo>)
    requires DistinctIndices(cs)
    ensures AreOutliers(cs, value, threshold, report)
  {
    hide Median, Values, Reports, RoundTenth;
    if |cs| < MIN_SAMPLE_SIZE {
      return map[];
    }
    var values := Values(cs, value);
    var median := Median(values);
    if median <= 0.0 {
      return map[];
    }
    report := map[];
    NothingReported(value, median, threshold);
    assert cs[..0] == [];
    for i := 0 to |cs|
      invariant Reports(cs[..i], value, median, threshold, report)
    {
      ValueAt(cs, value, i);
      ReportsNext(cs, i, value, median, threshold, report);
      var multiple := values[i] / median;
      if multiple >= threshold {
        report := report[cs[i].index := OutlierInfo(values[i], median, RoundTenth(multiple))];
      }
    }
    assert cs[..|cs|] == cs;
  }

  lemma NothingReported(value: Measure, median: real, threshold: real)
    requires median > 0.0
    ensures Reports([], value, median, threshold, map[])
  {
  }

  predicate IsDynamic(c: ClassifiedEntry) { c.category != StaticAsset }

  function Millis(c: ClassifiedEntry): real { RealOf(c.entry.timeMs) }

  /** `compute_timing_outliers`. */
  method ComputeTimingOutliers(classified: seq<ClassifiedEntry>) returns (report: map<nat, OutlierInfo>)
    requires DistinctIndices(classified)
    ensures AreOutliers(Filter(IsDynamic, classified), Millis, TIMING_OUTLIER_MULTIPLE, report)
  {
    FilterKeepsDistinct(IsDynamic, classified);
    report := ComputeOutliers(Filter(IsDynamic, classified), Millis, TIMING_OUTLIER_MULTIPLE);
  }

  function ResponseSize(c: ClassifiedEntry): real { |c.entry.response.body| as real }

  /** `compute_size_outliers`. */
  method ComputeSizeOutliers(classified: seq<ClassifiedEntry>) returns (report: map<nat, OutlierInfo>)
    requires DistinctIndices(classified)
    ensures AreOutliers(Filter(IsDynamic, classified), ResponseSize, SIZE_OUTLIER_MULTIPLE, report)
  {
    FilterKeepsDistinct(IsDynamic, classified);
    report := ComputeOutliers(Filter(IsDynamic, classified), ResponseSize, SIZE_OUTLIER_MULTIPLE);
  }

  // ---------------------------------------------------------------- what a report can look like

  function Flagged(cs: seq<ClassifiedEntry>, value: Measure, bound: real): set<nat> {
    if cs == [] then {}
    else Flagged(cs[..|cs| - 1], value, bound) + if value(cs[|cs| - 1]) > bound then {cs[|cs| - 1].index} else {}
  }

  lemma {:induction false} FlaggedFacts(cs: seq<ClassifiedEntry>, value: Measure, bound: real)
    ensures |Flagged(cs, value, bound)| <= CountAbove(Values(cs, value), bound)
    ensures forall c | c in cs && value(c) > bound :: c.index in Flagged(cs, value, bound)
  {
    if cs != [] {
      var front, last := cs[..|cs| - 1], cs[|cs| - 1];
      FlaggedFacts(front, value, bound);
      CountAboveSnoc(Values(front, value), value(last), bound);
      assert cs == front + [last];
    }
  }

  lemma SubsetIsSmaller<T>(a: set<T>, b: set<T>)
    requires a <= b
    ensures |a| <= |b|
  {
    var rest := b - a;
    assert b == a + rest;
  }

  /** Reaching a multiple above two is exceeding twice. */
  lemma DivisionReaches(v: real, m: real, threshold: real)
    requires m > 0.0 && v / m >= threshold > 2.0
    ensures v > 2.0 * m
  {
    assert v == v / m * m;
    assert (v / m - 2.0) * m > 0.0;
  }

  /** For values that are not negative and a threshold above two, fewer than half of the entries are reported. */
  lemma OutliersAreAMinority(cs: seq<ClassifiedEntry>, value: Measure, threshold: real, report: map<nat, OutlierInfo>)
    requires AreOutliers(cs, value, threshold, report) && threshold > 2.0
    requires forall c | c in cs :: value(c) >= 0.0
    ensures cs != [] ==> 2 * |report| < |cs|
  {
    if Judged(cs, value) {
      var vs := Values(cs, value);
      forall i | 0 <= i < |vs| ensures vs[i] >= 0.0 {
        ValueAt(cs, value, i);
      }
      MinorityAboveMiddle(vs);
      var bound := Sorted(vs)[|vs| / 2];
      FlaggedFacts(cs, value, bound);
      forall x | x in report ensures x in Flagged(cs, value, bound) {
        ReportedExceeds(cs, value, threshold, report, x);
      }
      hide *;
      SubsetIsSmaller(report.Keys, Flagged(cs, value, bound));
    }
  }

  lemma ReportedExceeds(
      cs: seq<ClassifiedEntry>, value: Measure, threshold: real, report: map<nat, OutlierInfo>, x: nat)
    requires AreOutliers(cs, value, threshold, report) && threshold > 2.0 && x in report
    requires forall c | c in cs :: value(c) >= 0.0
    ensures var vs := Values(cs, value);
            vs != [] && |Sorted(vs)| == |vs| && x in Flagged(cs, value, Sorted(vs)[|vs| / 2])
  {
    var vs := Values(cs, value);
    var c :| c in cs && c.index == x;
    hide Median, Sorted, Values;
    DivisionReaches(value(c), Median(vs), threshold);
    forall i | 0 <= i < |vs| ensures vs[i] >= 0.0 {
      ValueAt(cs, value, i);
    }
    FarAboveMedian(vs, value(c));
    FlaggedFacts(cs, value, Sorted(vs)[|vs| / 2]);
  }

  lemma {:induction false} ValuesRearranged(a: seq<ClassifiedEntry>, b: seq<ClassifiedEntry>, value: Measure)
    requires multiset(a) == multiset(b)
    ensures multiset(Values(a, value)) == multiset(Values(b, value))
  {
    assert |a| == |multiset(a)| == |multiset(b)| == |b|;
    if a != [] {
      var n := |a| - 1;
      var last := a[n];
      assert a == a[..n] + [last];
      assert last in multiset(b);
      var i :| 0 <= i < |b| && b[i] == last;
      var left, right := b[..i], b[i + 1..];
      assert b == left + [last] + right;
      assert multiset(a[..n]) == multiset(a) - multiset{last};
      assert multiset(left + right) == multiset(b) - multiset{last};
      ValuesRearranged(a[..n], left + right, value);
      ValuesWith(left, right, last, value);
    }
  }

  /** An element more in the middle is a value more. */
  lemma ValuesWith(left: seq<ClassifiedEntry>, right: seq<ClassifiedEntry>, c: ClassifiedEntry, value: Measure)
    ensures multiset(Values(left + [c] + right, value)) == multiset(Values(left + right, value)) + multiset{value(c)}
  {
    ValuesAppend(left + [c], right, value);
    ValuesAppend(left, [c], value);
    ValuesAppend(left, right, value);
    assert Values([c], value) == [value(c)];
    hide Values;
  }

  lemma {:induction false} ValuesAppend(a: seq<ClassifiedEntry>, b: seq<ClassifiedEntry>, value: Measure)
    ensures Values(a + b, value) == Values(a, value) + Values(b, value)
  {
    if b == [] {
      assert a + b == a;
    } else {
      assert (a + b)[..|a + b| - 1] == a + b[..|b| - 1];
      ValuesAppend(a, b[..|b| - 1], value);
    }
  }

  /** The report does not depend on the order in which the entries are listed. */
  lemma OutliersOfRearranged(
      a: seq<ClassifiedEntry>, b: seq<ClassifiedEntry>, value: Measure, threshold: real,
      reportA: map<nat, OutlierInfo>, reportB: map<nat, OutlierInfo>)
    requires multiset(a) == multiset(b)
    requires AreOutliers(a, value, threshold, reportA) && AreOutliers(b, value, threshold, reportB)
    ensures reportA == reportB
  {
    assert |a| == |multiset(a)| == |multiset(b)| == |b|;
    assert forall c :: c in a <==> c in b by {
      forall c ensures c in a <==> c in b {
        assert c in a <==> c in multiset(a);
        assert c in b <==> c in multiset(b);
      }
    }
    if |a| >= MIN_SAMPLE_SIZE {
      ValuesRearranged(a, b, value);
      MedianOfRearranged(Values(a, value), Values(b, value));
    }
    hide Median, Values;
    assert reportA.Keys == reportB.Keys;
  }

  /** Two is not enough: of six entries with these values half are reported. */
  lemma HalfCanReachTwice(cs: seq<ClassifiedEntry>, value: Measure, report: map<nat, OutlierInfo>)
    requires DistinctIndices(cs) && Values(cs, value) == [0.0, 0.0, 0.0, 1.0, 1.0, 1.0]
    requires AreOutliers(cs, value, 2.0, report)
    ensures 2 * |report| == |cs|
  {
    hide Median, AreOutliers, RoundTenth, Values, Reports, Reaches, InfoOf, DistinctIndices;
    HalfMedian();
    ReportOfJudged(cs, value, 2.0, report);
    forall i | 0 <= i < 6 ensures cs[i].index in report <==> i >= 3 {
      ValueAt(cs, value, i);
      ReportedIff(cs, value, 0.5, 2.0, report, i);
    }
    assert forall x | x in report :: exists i :: 0 <= i < 6 && cs[i].index == x by {
      ReportedAreEntries(cs, value, 0.5, 2.0, report);
    }
    LastThree(cs, report);
  }

  lemma LastThree(cs: seq<ClassifiedEntry>, report: map<nat, OutlierInfo>)
    requires |cs| == 6 && DistinctIndices(cs)
    requires forall i | 0 <= i < 6 :: cs[i].index in report <==> i >= 3
    requires forall x | x in report :: exists i :: 0 <= i < 6 && cs[i].index == x
    ensures |report| == 3
  {
    assert report.Keys == {cs[3].index, cs[4].index, cs[5].index};
    ThreeElements(cs[3].index, cs[4].index, cs[5].index);
  }

  lemma HalfMedian()
    ensures Median([0.0, 0.0, 0.0, 1.0, 1.0, 1.0]) == 0.5
  {
    hide Median;
    MedianOfAscending([0.0, 0.0, 0.0, 1.0, 1.0, 1.0]);
  }

  lemma ReportedIff(
      cs: seq<ClassifiedEntry>, value: Measure, median: real, threshold: real, report: map<nat, OutlierInfo>, i: nat)
    requires median > 0.0 && Reports(cs, value, median, threshold, report) && i < |cs|
    ensures cs[i].index in report <==> value(cs[i]) / median >= threshold
  {
    assert cs[i] in cs;
  }

  lemma ReportedAreEntries(
      cs: seq<ClassifiedEntry>, value: Measure, median: real, threshold: real, report: map<nat, OutlierInfo>)
    requires median > 0.0 && Reports(cs, value, median, threshold, report)
    ensures forall x | x in report :: exists i :: 0 <= i < |cs| && cs[i].index == x
  {
    hide InfoOf, Reaches;
  }

  lemma ReportOfJudged(cs: seq<ClassifiedEntry>, value: Measure, threshold: real, report: map<nat, OutlierInfo>)
    requires AreOutliers(cs, value, threshold, report) && Judged(cs, value)
    ensures Reports(cs, value, Median(Values(cs, value)), threshold, report)
  {
  }

  lemma ThreeElements(x: nat, y: nat, z: nat)
    requires x != y && x != z && y != z
    ensures |{x, y, z}| == 3
  {
  }

  // ---------------------------------------------------------------- which entries, and which figures

  /** Rounding gives a whole number of tenths, the nearest one, and of two as near the even one. */
  lemma RoundTenthIs(x: real, tenths: int)
    ensures RoundTenth(x) == tenths as real / 10.0 <==>
            var away := x * 10.0 - tenths as real;
            -0.5 < away < 0.5 || ((away == 0.5 || away == -0.5) && tenths % 2 == 0)
  {
    var low := (x * 10.0).Floor;
    assert low as real <= x * 10.0 < low as real + 1.0;
    if RoundTenth(x) == tenths as real / 10.0 {
      assert tenths == low || tenths == low + 1;
    }
    var away := x * 10.0 - tenths as real;
    if -0.5 <= away <= 0.5 {
      assert tenths == low || tenths == low + 1;
    }
  }

  /** Static assets are left out, and nothing else is. */
  lemma DynamicEntries(classified: seq<ClassifiedEntry>)
    ensures forall c :: c in Filter(IsDynamic, classified) <==> c in classified && c.category != StaticAsset
  {
    FilterElements(IsDynamic, classified);
  }

  /** A large response: among five or more entries that are not static, ten times the median body or more. */
  lemma SizeOutliersIff(classified: seq<ClassifiedEntry>, report: map<nat, OutlierInfo>, c: ClassifiedEntry)
    requires AreOutliers(Filter(IsDynamic, classified), ResponseSize, SIZE_OUTLIER_MULTIPLE, report)
    requires c in classified && c.category != StaticAsset
    ensures var cs := Filter(IsDynamic, classified);
            |cs| >= 1 && c.index in report <==>
            && |cs| >= 5
            && var m := Median(Values(cs, ResponseSize)); m > 0.0 && |c.entry.response.body| as real / m >= 10.0
  {
    DynamicEntries(classified);
    hide Median, Values, Filter;
  }

  /** A slow response: the same for its time and five times the median. */
  lemma TimingOutliersIff(classified: seq<ClassifiedEntry>, report: map<nat, OutlierInfo>, c: ClassifiedEntry)
    requires AreOutliers(Filter(IsDynamic, classified), Millis, TIMING_OUTLIER_MULTIPLE, report)
    requires c in classified && c.category != StaticAsset
    ensures var cs := Filter(IsDynamic, classified);
            |cs| >= 1 && c.index in report <==>
            && |cs| >= 5
            && var m := Median(Values(cs, Millis)); m > 0.0 && RealOf(c.entry.timeMs) / m >= 5.0
  {
    DynamicEntries(classified);
    hide Median, Values, Filter, RealOf;
  }
}
