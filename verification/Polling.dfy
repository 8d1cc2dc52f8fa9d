/** Polling groups: repeated, regularly spaced requests with an unchanged response. */
module Polling {
  import opened Basics
  import opened Har
  import opened Sorting
  import opened Runs
  import opened Stats
  import opened Entries

  const MIN_OCCURRENCES := 3
  const MICROS_PER_SECOND := 1_000_000.0

  datatype Signature = Signature(verb: string, path: string, referer: Option<string>)

  datatype PollingGroup = PollingGroup(firstIndex: nat, occurrenceIndices: seq<nat>, intervalSeconds: real)

  function SignatureOf(web: Web, c: ClassifiedEntry): Signature {
    Signature(c.entry.request.verb, web.Path(c.entry.request.url), Referer(c))
  }

  /** The XHR entries in time order. */
  function Xhrs(entries: seq<ClassifiedEntry>): seq<ClassifiedEntry> { ByTime(Filter(IsXhr, entries)) }

  /** Equal as JSON values if both are JSON, otherwise equal as bytes. */
  predicate BodiesMatch(web: Web, a: bytes, b: bytes) {
    if web.JsonValue(a).Some? && web.JsonValue(b).Some? then web.JsonValue(a) == web.JsonValue(b) else a == b
  }

  predicate SameBody(web: Web, c: ClassifiedEntry, d: ClassifiedEntry) {
    BodiesMatch(web, c.entry.response.body, d.entry.response.body)
  }

  lemma SameBodyIsEquivalence(web: Web, c: ClassifiedEntry, d: ClassifiedEntry, e: ClassifiedEntry)
    ensures SameBody(web, c, c)
    ensures SameBody(web, c, d) ==> SameBody(web, d, c)
    ensures SameBody(web, c, d) && SameBody(web, d, e) ==> SameBody(web, c, e)
  {
  }

  // ---------------------------------------------------------------- specification

  function Bucket(web: Web, xs: seq<ClassifiedEntry>, sig: Signature): seq<ClassifiedEntry> {
    if xs == [] then []
    else
      var last := xs[|xs| - 1];
      Bucket(web, xs[..|xs| - 1], sig) + if SignatureOf(web, last) == sig then [last] else []
  }

  /** The signatures in order of first appearance. */
  function Signatures(web: Web, xs: seq<ClassifiedEntry>): seq<Signature> {
    if xs == [] then []
    else
      var front, sig := Signatures(web, xs[..|xs| - 1]), SignatureOf(web, xs[|xs| - 1]);
      if sig in front then front else front + [sig]
  }

  /** A new run starts where the body changes from one occurrence to the next. */
  function BodyMarks(web: Web, bucket: seq<ClassifiedEntry>): (marks: seq<bool>)
    ensures |marks| == |bucket|
    ensures forall k | 0 < k < |bucket| :: marks[k] <==> !SameBody(web, bucket[k - 1], bucket[k])
  {
    seq(|bucket|, k requires 0 <= k < |bucket| => k == 0 || !SameBody(web, bucket[k - 1], bucket[k]))
  }

  function RunsOf(web: Web, bucket: seq<ClassifiedEntry>): seq<seq<ClassifiedEntry>> {
    Segments(bucket, BodyMarks(web, bucket))
  }

  /** The seconds between neighbours. */
  function Gaps(run: seq<ClassifiedEntry>): (gaps: seq<real>)
    ensures |gaps| == if run == [] then 0 else |run| - 1
    ensures forall i | 0 <= i < |gaps| :: gaps[i] == (At(run[i + 1]) - At(run[i])) as real / MICROS_PER_SECOND
  {
    seq(if run == [] then 0 else |run| - 1,
        i requires 0 <= i < |run| - 1 => (At(run[i + 1]) - At(run[i])) as real / MICROS_PER_SECOND)
  }

  /** Within a fifth of the median. */
  predicate NearMedian(gap: real, median: real) { -0.2 * median <= gap - median <= 0.2 * median }

  predicate Reportable(run: seq<ClassifiedEntry>): (b: bool)
    ensures b ==> |run| >= MIN_OCCURRENCES
  {
    && |run| >= MIN_OCCURRENCES
    && Median(Gaps(run)) > 0.0
    && forall i | 0 <= i < |Gaps(run)| :: NearMedian(Gaps(run)[i], Median(Gaps(run)))
  }

  function IndicesOf(run: seq<ClassifiedEntry>): (indices: seq<nat>)
    ensures |indices| == |run|
    ensures forall i | 0 <= i < |run| :: indices[i] == run[i].index
  {
    seq(|run|, i requires 0 <= i < |run| => run[i].index)
  }

  function GroupOf(run: seq<ClassifiedEntry>): PollingGroup
    requires |run| >= MIN_OCCURRENCES
  {
    PollingGroup(run[0].index, IndicesOf(run), Median(Gaps(run)))
  }

  function GroupsOf(runs: seq<seq<ClassifiedEntry>>): seq<PollingGroup> {
    if runs == [] then []
    else
      var last := runs[|runs| - 1];
      GroupsOf(runs[..|runs| - 1]) + if Reportable(last) then [GroupOf(last)] else []
  }

  function AllRuns(web: Web, xs: seq<ClassifiedEntry>, sigs: seq<Signature>): seq<seq<ClassifiedEntry>> {
    if sigs == [] then []
    else AllRuns(web, xs, sigs[..|sigs| - 1]) + RunsOf(web, Bucket(web, xs, sigs[|sigs| - 1]))
  }

  function FirstKey(g: PollingGroup): real { g.firstIndex as real }

  function PollingGroups(web: Web, entries: seq<ClassifiedEntry>): seq<PollingGroup> {
    var xs := Xhrs(entries);
    StableSort(FirstKey, GroupsOf(AllRuns(web, xs, Signatures(web, xs))))
  }

  // ---------------------------------------------------------------- the detector

  lemma GroupsOfSnoc(runs: seq<seq<ClassifiedEntry>>, last: seq<ClassifiedEntry>)
    ensures GroupsOf(runs + [last]) == GroupsOf(runs) + if Reportable(last) then [GroupOf(last)] else []
  {
    assert (runs + [last])[..|runs|] == runs;
    hide Reportable, GroupOf;
  }

  lemma {:induction false} GroupsOfAppend(a: seq<seq<ClassifiedEntry>>, b: seq<seq<ClassifiedEntry>>)
    ensures GroupsOf(a + b) == GroupsOf(a) + GroupsOf(b)
  {
    hide Reportable, GroupOf;
    if b == [] {
      assert a + b == a;
    } else {
      var front, last := b[..|b| - 1], b[|b| - 1];
      GroupsOfAppend(a, front);
      GroupsOfSnoc(a + front, last);
      assert a + b == (a + front) + [last];
    }
  }

  /** `_finalize_run`. */
  method FinalizeRun(run: seq<ClassifiedEntry>, groups: seq<PollingGroup>) returns (r: seq<PollingGroup>)
    ensures r == groups + if Reportable(run) then [GroupOf(run)] else []
  {
    r := groups;
    if |run| < MIN_OCCURRENCES {
      return;
    }
    var gaps := Gaps(run);
    hide Median;
    var medianGap := Median(gaps);
    if medianGap <= 0.0 {
      return;
    }
    if !(forall i | 0 <= i < |gaps| :: NearMedian(gaps[i], medianGap)) {
      return;
    }
    r := groups + [PollingGroup(run[0].index, IndicesOf(run), medianGap)];
  }

  /** The loop over one bucket in `detect_polling_groups`. */
  method ScanBucket(
      web: Web, occurrences: seq<ClassifiedEntry>, groups: seq<PollingGroup>) returns (r: seq<PollingGroup>)
    ensures r == groups + GroupsOf(RunsOf(web, occurrences))
  {
    hide *;
    r := groups;
    var run: seq<ClassifiedEntry> := [];
    ghost var marks := BodyMarks(web, occurrences);
    ghost var closed: seq<seq<ClassifiedEntry>> := [];
    BucketEnds(web, occurrences);
    for i := 0 to |occurrences|
      invariant r == groups + GroupsOf(closed)
      invariant i == 0 <==> run == []
      invariant Segments(occurrences[..i], marks[..i]) == if i == 0 then [] else closed + [run]
      invariant i > 0 ==> run[|run| - 1] == occurrences[i - 1]
      invariant forall k | 0 <= k < |run| :: SameBody(web, run[0], run[k])
      invariant i == 0 ==> closed == []
    {
      var occurrence := occurrences[i];
      SegmentsStep(occurrences, marks, i);
      if run != [] {
        SameBodyIsEquivalence(web, run[0], occurrences[i - 1], occurrence);
        SameBodyIsEquivalence(web, occurrences[i - 1], run[0], occurrence);
        SameBodyIsEquivalence(web, run[0], run[|run| - 1], occurrence);
      }
      SameBodyIsEquivalence(web, occurrence, occurrence, occurrence);
      if run != [] && !SameBody(web, run[0], occurrence) {
        r := FinalizeRun(run, r);
        GroupsOfSnoc(closed, run);
        closed := closed + [run];
        run := [occurrence];
      } else {
        if run != [] {
          ExtendSnoc(closed, run, occurrence);
        }
        assert [] + [occurrence] == [occurrence];
        run := run + [occurrence];
      }
    }
    r := FinalizeRun(run, r);
    GroupsOfSnoc(closed, run);
    EmptyRun(web);
  }

  lemma BucketEnds(web: Web, s: seq<ClassifiedEntry>)
    ensures Segments(s[..0], BodyMarks(web, s)[..0]) == []
    ensures Segments(s[..|s|], BodyMarks(web, s)[..|s|]) == RunsOf(web, s)
    ensures GroupsOf([]) == []
  {
    assert s[..|s|] == s && BodyMarks(web, s)[..|s|] == BodyMarks(web, s);
  }

  lemma EmptyRun(web: Web)
    ensures !Reportable([]) && RunsOf(web, []) == []
  {
  }

  /** `detect_polling_groups`. */
  method DetectPollingGroups(web: Web, entries: seq<ClassifiedEntry>) returns (groups: seq<PollingGroup>)
    ensures groups == PollingGroups(web, entries)
  {
    var xhrEntries := Xhrs(entries);
    hide Bucket, Signatures, SignatureOf, Xhrs, AllRuns, GroupsOf, RunsOf;
    var bySignature: map<Signature, seq<ClassifiedEntry>> := map[];
    var order: seq<Signature> := [];
    NoBuckets(web);
    for i := 0 to |xhrEntries|
      invariant order == Signatures(web, xhrEntries[..i])
      invariant forall sig :: sig in bySignature <==> sig in order
      invariant forall sig :: Bucket(web, xhrEntries[..i], sig) == if sig in bySignature then bySignature[sig] else []
    {
      var c := xhrEntries[i];
      var signature := SignatureOf(web, c);
      BucketStep(web, xhrEntries, i);
      if signature !in bySignature {
        bySignature := bySignature[signature := []];
        order := order + [signature];
      }
      bySignature := bySignature[signature := bySignature[signature] + [c]];
    }
    assert xhrEntries[..|xhrEntries|] == xhrEntries;
    groups := [];
    for i := 0 to |order|
      invariant groups == GroupsOf(AllRuns(web, xhrEntries, order[..i]))
    {
      AllRunsStep(web, xhrEntries, order, i);
      GroupsOfAppend(AllRuns(web, xhrEntries, order[..i]), RunsOf(web, bySignature[order[i]]));
      groups := ScanBucket(web, bySignature[order[i]], groups);
    }
    assert order[..|order|] == order;
    groups := StableSort(FirstKey, groups);
  }

  lemma NoBuckets(web: Web)
    ensures Signatures(web, []) == [] && forall sig :: Bucket(web, [], sig) == []
    ensures GroupsOf(AllRuns(web, [], [])) == []
    ensures forall xs :: AllRuns(web, xs, []) == [] && GroupsOf([]) == []
  {
  }

  lemma BucketStep(web: Web, xs: seq<ClassifiedEntry>, i: nat)
    requires i < |xs|
    ensures var sig := SignatureOf(web, xs[i]);
            && Signatures(web, xs[..i + 1]) ==
               Signatures(web, xs[..i]) + (if sig in Signatures(web, xs[..i]) then [] else [sig])
            && forall s :: Bucket(web, xs[..i + 1], s) == Bucket(web, xs[..i], s) + if s == sig then [xs[i]] else []
  {
    assert xs[..i + 1][..i] == xs[..i];
    hide SignatureOf;
  }

  lemma AllRunsStep(web: Web, xs: seq<ClassifiedEntry>, sigs: seq<Signature>, i: nat)
    requires i < |sigs|
    ensures AllRuns(web, xs, sigs[..i + 1]) == AllRuns(web, xs, sigs[..i]) + RunsOf(web, Bucket(web, xs, sigs[i]))
  {
    assert sigs[..i + 1][..i] == sigs[..i];
    hide RunsOf, Bucket;
  }

  // ---------------------------------------------------------------- what the groups are

  /**
   The runs of a bucket are its maximal stretches of one body: joined they are the bucket, and they are cut
   exactly where the body changes.
   */
  lemma RunsAreMaximal(web: Web, bucket: seq<ClassifiedEntry>, k: nat)
    requires k < |bucket|
    ensures var runs := RunsOf(web, bucket);
            && Flatten(runs) == bucket && NonEmptyRuns(runs)
            && (IsStart(runs, k) <==> k == 0 || !SameBody(web, bucket[k - 1], bucket[k]))
  {
    SegmentsBasic(bucket, BodyMarks(web, bucket));
    StartIffMarked(bucket, BodyMarks(web, bucket), k);
    hide SameBody, IsStart, Segments;
  }

  lemma {:induction false} GroupsOfMembers(runs: seq<seq<ClassifiedEntry>>, g: PollingGroup)
    ensures g in GroupsOf(runs) <==> exists run :: run in runs && Reportable(run) && g == GroupOf(run)
  {
    hide Reportable, GroupOf;
    if runs != [] {
      GroupsOfMembers(runs[..|runs| - 1], g);
      assert runs == runs[..|runs| - 1] + [runs[|runs| - 1]];
    }
  }

  lemma {:induction false} BucketElements(web: Web, xs: seq<ClassifiedEntry>, sig: Signature)
    ensures forall c :: c in Bucket(web, xs, sig) <==> c in xs && SignatureOf(web, c) == sig
    ensures Bucket(web, xs, sig) != [] <==> sig in Signatures(web, xs)
  {
    hide SignatureOf;
    if xs != [] {
      BucketElements(web, xs[..|xs| - 1], sig);
      assert xs == xs[..|xs| - 1] + [xs[|xs| - 1]];
    }
  }

  ghost predicate RunIn(web: Web, xs: seq<ClassifiedEntry>, sig: Signature, run: seq<ClassifiedEntry>) {
    run in RunsOf(web, Bucket(web, xs, sig))
  }

  lemma {:induction false} AllRunsMembers(
      web: Web, xs: seq<ClassifiedEntry>, sigs: seq<Signature>, run: seq<ClassifiedEntry>)
    ensures run in AllRuns(web, xs, sigs) <==> exists sig :: sig in sigs && RunIn(web, xs, sig, run)
  {
    hide RunsOf, Bucket;
    if sigs != [] {
      var front, last := sigs[..|sigs| - 1], sigs[|sigs| - 1];
      AllRunsMembers(web, xs, front, run);
      assert sigs == front + [last];
      assert run in AllRuns(web, xs, sigs) <==> run in AllRuns(web, xs, front) || RunIn(web, xs, last, run);
      hide RunIn, AllRuns;
      assert last in sigs;
    }
  }

  /** A group is reported exactly for each run, in any signature's bucket, that is long, regular and positive enough. */
  lemma GroupIffReportableRun(web: Web, entries: seq<ClassifiedEntry>, g: PollingGroup)
    ensures g in PollingGroups(web, entries) <==>
      exists sig, run :: RunIn(web, Xhrs(entries), sig, run) && Reportable(run) && g == GroupOf(run)
  {
    var xs := Xhrs(entries);
    var sigs := Signatures(web, xs);
    var runs := AllRuns(web, xs, sigs);
    SortElements(FirstKey, GroupsOf(runs));
    GroupsOfMembers(runs, g);
    hide Reportable, GroupOf, RunIn, AllRuns, GroupsOf, Signatures, Xhrs;
    if g in GroupsOf(runs) {
      var run :| run in runs && Reportable(run) && g == GroupOf(run);
      AllRunsMembers(web, xs, sigs, run);
    }
    forall sig, run | RunIn(web, xs, sig, run) && Reportable(run) && g == GroupOf(run)
      ensures g in GroupsOf(runs)
    {
      SignatureOfRun(web, xs, sig, run);
      AllRunsMembers(web, xs, sigs, run);
    }
  }

  lemma SignatureOfRun(web: Web, xs: seq<ClassifiedEntry>, sig: Signature, run: seq<ClassifiedEntry>)
    requires RunIn(web, xs, sig, run)
    ensures sig in Signatures(web, xs)
  {
    BucketElements(web, xs, sig);
    NoRunsOfNothing(web);
    hide Bucket, RunsOf, Signatures;
  }

  lemma NoRunsOfNothing(web: Web)
    ensures RunsOf(web, []) == []
  {
  }

  // ---------------------------------------------------------------- no entry in two groups

  lemma {:induction false} BucketDistinct(web: Web, xs: seq<ClassifiedEntry>, sig: Signature)
    requires DistinctIndices(xs)
    ensures DistinctIndices(Bucket(web, xs, sig))
  {
    hide SignatureOf;
    if xs != [] {
      var front, last := xs[..|xs| - 1], xs[|xs| - 1];
      BucketDistinct(web, front, sig);
      BucketElements(web, front, sig);
      forall c | c in front ensures c.index != last.index {
      }
    }
  }

  lemma DistinctAppend(a: seq<ClassifiedEntry>, b: seq<ClassifiedEntry>)
    requires DistinctIndices(a) && DistinctIndices(b)
    requires forall c, d | c in a && d in b :: c.index != d.index
    ensures DistinctIndices(a + b)
  {
  }

  /** The buckets side by side hold no index twice, and only entries of these signatures. */
  lemma {:induction false} AllRunsDistinct(web: Web, xs: seq<ClassifiedEntry>, sigs: seq<Signature>)
    requires DistinctIndices(xs) && NoDup(sigs)
    ensures DistinctIndices(Flatten(AllRuns(web, xs, sigs)))
    ensures forall c | c in Flatten(AllRuns(web, xs, sigs)) :: c in xs && SignatureOf(web, c) in sigs
  {
    hide SignatureOf, RunsOf, Bucket, DistinctIndices;
    if sigs != [] {
      var front, last := sigs[..|sigs| - 1], sigs[|sigs| - 1];
      AllRunsDistinct(web, xs, front);
      var bucket := Bucket(web, xs, last);
      FlattenAppend(AllRuns(web, xs, front), RunsOf(web, bucket));
      FlattenRuns(web, bucket);
      BucketElements(web, xs, last);
      BucketDistinct(web, xs, last);
      var before := Flatten(AllRuns(web, xs, front));
      forall c, d | c in before && d in bucket ensures c.index != d.index {
        assert SignatureOf(web, c) in front && SignatureOf(web, d) == last;
        assert c != d;
        SameIndexSameEntry(xs, c, d);
      }
      DistinctAppend(before, bucket);
      assert sigs == front + [last];
    } else {
      NothingDistinct();
    }
  }

  lemma NothingDistinct()
    ensures DistinctIndices([])
  {
  }

  lemma FlattenRuns(web: Web, bucket: seq<ClassifiedEntry>)
    ensures Flatten(RunsOf(web, bucket)) == bucket
  {
    SegmentsBasic(bucket, BodyMarks(web, bucket));
  }

  lemma SameIndexSameEntry(xs: seq<ClassifiedEntry>, c: ClassifiedEntry, d: ClassifiedEntry)
    requires DistinctIndices(xs) && c in xs && d in xs
    ensures c.index == d.index ==> c == d
  {
  }

  lemma {:induction false} SignaturesNoDup(web: Web, xs: seq<ClassifiedEntry>)
    ensures NoDup(Signatures(web, xs))
  {
    hide SignatureOf;
    if xs != [] {
      SignaturesNoDup(web, xs[..|xs| - 1]);
    }
  }

  /** Two runs of a list without repeated indices share none. */
  lemma RunsShareNothing(runs: seq<seq<ClassifiedEntry>>, a: nat, b: nat, i: nat, j: nat)
    requires DistinctIndices(Flatten(runs)) && a < b < |runs| && i < |runs[a]| && j < |runs[b]|
    ensures runs[a][i].index != runs[b][j].index
  {
    FlattenAt(runs, a, i);
    FlattenAt(runs, b, j);
    OffsetsGrow(runs, a, b);
    hide Flatten;
  }

  lemma FlattenAt(runs: seq<seq<ClassifiedEntry>>, a: nat, i: nat)
    requires a < |runs| && i < |runs[a]|
    ensures var k := Offset(runs, a) + i; k < |Flatten(runs)| && Flatten(runs)[k] == runs[a][i]
  {
    assert runs == runs[..a] + ([runs[a]] + runs[a + 1..]);
    FlattenAppend(runs[..a], [runs[a]] + runs[a + 1..]);
  }

  lemma OffsetsGrow(runs: seq<seq<ClassifiedEntry>>, a: nat, b: nat)
    requires a < b < |runs|
    ensures Offset(runs, a) + |runs[a]| <= Offset(runs, b)
  {
    assert runs[..b] == runs[..a] + ([runs[a]] + runs[a + 1..b]);
    FlattenAppend(runs[..a], [runs[a]] + runs[a + 1..b]);
  }

  /** The runs two different entries of the group list stem from. */
  lemma {:induction false} GroupSources(runs: seq<seq<ClassifiedEntry>>, p: nat, q: nat) returns (a: nat, b: nat)
    requires p < q < |GroupsOf(runs)|
    ensures a < b < |runs| && Reportable(runs[a]) && Reportable(runs[b])
    ensures GroupsOf(runs)[p] == GroupOf(runs[a]) && GroupsOf(runs)[q] == GroupOf(runs[b])
  {
    hide Reportable, GroupOf;
    var front, last := runs[..|runs| - 1], runs[|runs| - 1];
    if q < |GroupsOf(front)| {
      a, b := GroupSources(front, p, q);
    } else {
      var gs := GroupsOf(front);
      assert gs[p] in gs;
      GroupsOfMembers(front, gs[p]);
      var run :| run in front && Reportable(run) && gs[p] == GroupOf(run);
      a :| 0 <= a < |front| && front[a] == run;
      b := |runs| - 1;
    }
  }

  ghost predicate ShareNothing(g: PollingGroup, h: PollingGroup) {
    forall x :: !(x in g.occurrenceIndices && x in h.occurrenceIndices)
  }

  lemma OccurrencesOf(run: seq<ClassifiedEntry>)
    requires Reportable(run)
    ensures var g := GroupOf(run);
            && |g.occurrenceIndices| == |run| && g.firstIndex in g.occurrenceIndices
            && (forall x | x in g.occurrenceIndices :: exists i :: 0 <= i < |run| && run[i].index == x)
  {
    hide Reportable, Median;
    var g := GroupOf(run);
    assert g.occurrenceIndices[0] == g.firstIndex;
    forall x | x in g.occurrenceIndices ensures exists i :: 0 <= i < |run| && run[i].index == x {
      var i :| 0 <= i < |g.occurrenceIndices| && g.occurrenceIndices[i] == x;
      assert run[i].index == x;
    }
  }

  lemma GroupsApart(runs: seq<seq<ClassifiedEntry>>, p: nat, q: nat)
    requires DistinctIndices(Flatten(runs)) && p < q < |GroupsOf(runs)|
    ensures var gs := GroupsOf(runs);
            ShareNothing(gs[p], gs[q]) && gs[p] != gs[q] && gs[p].firstIndex != gs[q].firstIndex
  {
    hide Reportable, GroupOf, GroupsOf, DistinctIndices, Flatten;
    var a, b := GroupSources(runs, p, q);
    OccurrencesOf(runs[a]);
    OccurrencesOf(runs[b]);
    forall i, j | 0 <= i < |runs[a]| && 0 <= j < |runs[b]| ensures runs[a][i].index != runs[b][j].index {
      RunsShareNothing(runs, a, b, i, j);
    }
  }

  /** The groups before they are sorted. */
  lemma RawGroups(web: Web, entries: seq<ClassifiedEntry>) returns (runs: seq<seq<ClassifiedEntry>>)
    requires DistinctIndices(entries)
    ensures PollingGroups(web, entries) == StableSort(FirstKey, GroupsOf(runs))
    ensures DistinctIndices(Flatten(runs))
  {
    var xs := Xhrs(entries);
    runs := AllRuns(web, xs, Signatures(web, xs));
    XhrsDistinct(entries);
    SignaturesNoDup(web, xs);
    AllRunsDistinct(web, xs, Signatures(web, xs));
    hide Xhrs, Signatures, AllRuns, GroupsOf, DistinctIndices, Flatten, SignatureOf, StableSort, NoDup;
  }

  /** Groups share no occurrence, and are listed by strictly increasing first index. */
  lemma GroupsAreDisjoint(web: Web, entries: seq<ClassifiedEntry>, p: nat, q: nat)
    requires DistinctIndices(entries) && p < q < |PollingGroups(web, entries)|
    ensures var gs := PollingGroups(web, entries);
            ShareNothing(gs[p], gs[q]) && gs[p].firstIndex < gs[q].firstIndex
  {
    hide PollingGroups, GroupsOf, DistinctIndices, Flatten, StableSort;
    var runs := RawGroups(web, entries);
    var raw, gs := GroupsOf(runs), PollingGroups(web, entries);
    forall i, j | 0 <= i < j < |raw| ensures raw[i] != raw[j] {
      GroupsApart(runs, i, j);
    }
    SortElements(FirstKey, raw);
    SortSorted(FirstKey, raw);
    NoDupRearranged(raw, gs);
    assert gs[p] in gs && gs[q] in gs && gs[p] != gs[q];
    assert FirstKey(gs[p]) <= FirstKey(gs[q]);
    var i :| 0 <= i < |raw| && raw[i] == gs[p];
    var j :| 0 <= j < |raw| && raw[j] == gs[q];
    if i < j {
      GroupsApart(runs, i, j);
    } else {
      GroupsApart(runs, j, i);
    }
  }

  lemma XhrsDistinct(entries: seq<ClassifiedEntry>)
    requires DistinctIndices(entries)
    ensures DistinctIndices(Xhrs(entries)) && SortedBy(StartKey, Xhrs(entries))
    ensures forall c :: c in Xhrs(entries) <==> c in entries && IsXhr(c)
  {
    FilterKeepsDistinct(IsXhr, entries);
    FilterElements(IsXhr, entries);
    ByTimeFacts(Filter(IsXhr, entries));
    hide DistinctIndices, SortedBy, ByTime, Filter;
  }

  // ---------------------------------------------------------------- the timing of a group

  /** Each gap of a reported run lies between 0.8 and 1.2 medians, so the run is strictly increasing in time. */
  lemma ReportedGaps(run: seq<ClassifiedEntry>, i: nat)
    requires Reportable(run) && i + 1 < |run|
    ensures var m := GroupOf(run).intervalSeconds;
            m > 0.0 && 0.8 * m <= Seconds(run[i], run[i + 1]) <= 1.2 * m && At(run[i]) < At(run[i + 1])
  {
    assert Gaps(run)[i] == (At(run[i + 1]) - At(run[i])) as real / MICROS_PER_SECOND;
    hide Median;
  }

  function Seconds(c: ClassifiedEntry, d: ClassifiedEntry): real { (At(d) - At(c)) as real / MICROS_PER_SECOND }

  lemma OneMore(x: real, k: nat)
    requires k > 0
    ensures x * k as real == x * (k - 1) as real + x
  {
    assert k as real == (k - 1) as real + 1.0;
  }

  lemma OneMoreGap(low: real, high: real, k: nat, before: real, gap: real)
    requires k > 0 && low * (k - 1) as real <= before <= high * (k - 1) as real && low <= gap <= high
    ensures low * k as real <= before + gap <= high * k as real
  {
    OneMore(low, k);
    OneMore(high, k);
  }

  lemma {:induction false} ReportedSpan(run: seq<ClassifiedEntry>, i: nat, k: nat)
    requires Reportable(run) && i + k < |run|
    ensures var m := GroupOf(run).intervalSeconds;
            0.8 * m * k as real <= Seconds(run[i], run[i + k]) <= 1.2 * m * k as real
    ensures k > 0 ==> At(run[i]) < At(run[i + k])
    decreases k
  {
    hide Reportable, GroupOf, At, Seconds;
    var m := GroupOf(run).intervalSeconds;
    var low, high := 0.8 * m, 1.2 * m;
    if k > 0 {
      ReportedSpan(run, i, k - 1);
      ReportedGaps(run, i + k - 1);
      SecondsAdd(run[i], run[i + k - 1], run[i + k]);
      OneMoreGap(low, high, k, Seconds(run[i], run[i + k - 1]), Seconds(run[i + k - 1], run[i + k]));
    } else {
      NoSpan(run[i], run[i + k], low, high, k as real);
    }
  }

  lemma NoSpan(c: ClassifiedEntry, d: ClassifiedEntry, low: real, high: real, none: real)
    requires c == d && none == 0.0
    ensures Seconds(c, d) == 0.0 && low * none == 0.0 && high * none == 0.0
  {
    hide At;
  }

  lemma SecondsAdd(c: ClassifiedEntry, d: ClassifiedEntry, e: ClassifiedEntry)
    ensures Seconds(c, e) == Seconds(c, d) + Seconds(d, e)
  {
    hide At;
  }

  /**
   The `n` occurrences of a group span between 0.8 (n - 1) and 1.2 (n - 1) of its intervals, strictly increasing
   in time.
   */
  lemma GroupSpan(run: seq<ClassifiedEntry>)
    requires Reportable(run)
    ensures var g, n := GroupOf(run), |run| - 1;
            && |g.occurrenceIndices| == |run|
            && var span := (run[n].entry.startedAt - run[0].entry.startedAt) as real / 1_000_000.0;
               0.8 * g.intervalSeconds * n as real <= span <= 1.2 * g.intervalSeconds * n as real
    ensures StrictBy(StartKey, run)
    ensures forall i, j | 0 <= i < j < |run| :: run[i].entry.startedAt < run[j].entry.startedAt
  {
    hide *;
    OccurrencesOf(run);
    ReportedSpan(run, 0, |run| - 1);
    ReportedIncreases(run);
    SecondsAre(run[0], run[|run| - 1]);
    StrictTimes(run);
  }

  lemma SecondsAre(c: ClassifiedEntry, d: ClassifiedEntry)
    ensures Seconds(c, d) == (d.entry.startedAt - c.entry.startedAt) as real / 1_000_000.0
  {
  }

  lemma StrictTimes(run: seq<ClassifiedEntry>)
    requires StrictBy(StartKey, run)
    ensures forall i, j | 0 <= i < j < |run| :: run[i].entry.startedAt < run[j].entry.startedAt
  {
    forall i, j | 0 <= i < j < |run| ensures run[i].entry.startedAt < run[j].entry.startedAt {
      assert StartKey(run[i]) < StartKey(run[j]);
    }
  }

  lemma ReportedIncreases(run: seq<ClassifiedEntry>)
    requires Reportable(run)
    ensures StrictBy(StartKey, run)
  {
    hide Reportable, GroupOf;
    forall i, j | 0 <= i < j < |run| ensures StartKey(run[i]) < StartKey(run[j]) {
      ReportedSpan(run, i, j - i);
    }
  }

  // ---------------------------------------------------------------- what a group is made of

  /** Bodies are the same JSON value, or, unless both are JSON, the same bytes. */
  lemma SameBodyIff(web: Web, c: ClassifiedEntry, d: ClassifiedEntry)
    ensures var a, b := c.entry.response.body, d.entry.response.body;
            var json := web.JsonValue(a).Some? && web.JsonValue(b).Some?;
            SameBody(web, c, d) <==> (json && web.JsonValue(a).value == web.JsonValue(b).value) || (!json && a == b)
  {
  }

  /** Requests of one signature: the same method, path of the URL, and referer. */
  predicate SameRequest(web: Web, c: ClassifiedEntry, d: ClassifiedEntry) {
    && c.entry.request.verb == d.entry.request.verb
    && web.Path(c.entry.request.url) == web.Path(d.entry.request.url)
    && HeaderValue(c.entry.request.headers, "referer") == HeaderValue(d.entry.request.headers, "referer")
  }

  lemma SignatureIff(web: Web, c: ClassifiedEntry, d: ClassifiedEntry)
    ensures SignatureOf(web, c) == SignatureOf(web, d) <==> SameRequest(web, c, d)
  {
    hide HeaderValue;
  }

  /** Long enough, and every gap, in seconds, within a fifth of a median that is positive. */
  lemma ReportableIff(run: seq<ClassifiedEntry>)
    ensures Reportable(run) <==>
      && |run| >= 3 && Median(Gaps(run)) > 0.0
      && forall i | 0 <= i < |run| - 1 ::
           var gap := (run[i + 1].entry.startedAt - run[i].entry.startedAt) as real / 1_000_000.0;
           var m := Median(Gaps(run));
           -m <= 5.0 * (gap - m) <= m
    ensures Reportable(run) ==> GroupOf(run) == PollingGroup(run[0].index, IndicesOf(run), Median(Gaps(run)))
  {
    hide Median;
    if |run| >= 3 {
      var gaps := Gaps(run);
      forall i | 0 <= i < |run| - 1
        ensures gaps[i] == (run[i + 1].entry.startedAt - run[i].entry.startedAt) as real / 1_000_000.0
        ensures forall m :: NearMedian(gaps[i], m) <==> -m <= 5.0 * (gaps[i] - m) <= m
      {
      }
      hide Gaps, NearMedian, GroupOf;
    }
  }

  /**
   The occurrences of a group are XHR entries of one request and one response body, neighbours among those of
   the request.
   */
  lemma GroupMembers(web: Web, entries: seq<ClassifiedEntry>, g: PollingGroup) returns (run: seq<ClassifiedEntry>)
    requires g in PollingGroups(web, entries)
    ensures Reportable(run) && g == GroupOf(run)
    ensures forall c | c in run :: c in entries && c.category == XhrApi
    ensures forall c, d | c in run && d in run :: SameRequest(web, c, d) && SameBody(web, c, d)
  {
    GroupIffReportableRun(web, entries, g);
    hide PollingGroups, Reportable, GroupOf, SameRequest, SameBody;
    var sig;
    sig, run :| RunIn(web, Xhrs(entries), sig, run) && Reportable(run) && g == GroupOf(run);
    XhrsAre(entries);
    RunMembers(web, Xhrs(entries), sig, run);
  }

  lemma XhrsAre(entries: seq<ClassifiedEntry>)
    ensures forall c :: c in Xhrs(entries) <==> c in entries && c.category == XhrApi
  {
    FilterElements(IsXhr, entries);
    ByTimeFacts(Filter(IsXhr, entries));
    hide ByTime, Filter;
  }

  lemma RunMembers(web: Web, xs: seq<ClassifiedEntry>, sig: Signature, run: seq<ClassifiedEntry>)
    requires RunIn(web, xs, sig, run)
    ensures forall c | c in run :: c in xs
    ensures forall c, d | c in run && d in run :: SameRequest(web, c, d) && SameBody(web, c, d)
  {
    hide SameRequest, SameBody, SignatureOf;
    var bucket := Bucket(web, xs, sig);
    var i :| 0 <= i < |RunsOf(web, bucket)| && RunsOf(web, bucket)[i] == run;
    FlattenRuns(web, bucket);
    BucketElements(web, xs, sig);
    hide Bucket, RunsOf;
    forall j | 0 <= j < |run| ensures run[j] in bucket {
      FlattenAt(RunsOf(web, bucket), i, j);
    }
    forall c, d | c in run && d in run ensures SameRequest(web, c, d) && SameBody(web, c, d) {
      SignatureIff(web, c, d);
      var j :| 0 <= j < |run| && run[j] == c;
      var k :| 0 <= k < |run| && run[k] == d;
      SameInRun(web, bucket, i, j, k);
    }
  }

  lemma SameInRun(web: Web, bucket: seq<ClassifiedEntry>, i: nat, j: nat, k: nat)
    requires i < |RunsOf(web, bucket)| && j < |RunsOf(web, bucket)[i]| && k < |RunsOf(web, bucket)[i]|
    ensures SameBody(web, RunsOf(web, bucket)[i][j], RunsOf(web, bucket)[i][k])
  {
    var run := RunsOf(web, bucket)[i];
    forall m: nat | 0 < m < |run| ensures SameBody(web, run[m - 1], run[m]) {
      NextIsSame(web, bucket, i, m);
    }
    hide RunsOf, SameBody;
    var low, high := if j < k then j else k, if j < k then k else j;
    SameFrom(web, run, low, high);
    SameBodyIsEquivalence(web, run[low], run[high], run[low]);
  }

  lemma {:induction false} SameFrom(web: Web, run: seq<ClassifiedEntry>, j: nat, k: nat)
    requires j <= k < |run| && forall m: nat | 0 < m < |run| :: SameBody(web, run[m - 1], run[m])
    ensures SameBody(web, run[j], run[k])
  {
    hide SameBody;
    if j == k {
      SameBodyIsEquivalence(web, run[j], run[j], run[j]);
    } else {
      SameFrom(web, run, j, k - 1);
      SameBodyIsEquivalence(web, run[j], run[k - 1], run[k]);
    }
  }

  lemma NextIsSame(web: Web, bucket: seq<ClassifiedEntry>, i: nat, k: nat)
    requires i < |RunsOf(web, bucket)| && 0 < k < |RunsOf(web, bucket)[i]|
    ensures SameBody(web, RunsOf(web, bucket)[i][k - 1], RunsOf(web, bucket)[i][k])
  {
    hide SameBody, Segments, Flatten, Offset, IsStart, BodyMarks;
    var runs := RunsOf(web, bucket);
    var marks, at := BodyMarks(web, bucket), Offset(runs, i) + k;
    FlattenRuns(web, bucket);
    FlattenAt(runs, i, k - 1);
    FlattenAt(runs, i, k);
    StartIffMarked(bucket, marks, at);
    InsideIsNoStart(runs, i, k);
  }

  lemma InsideIsNoStart(runs: seq<seq<ClassifiedEntry>>, i: nat, k: nat)
    requires i < |runs| && 0 < k < |runs[i]|
    ensures !IsStart(runs, Offset(runs, i) + k)
  {
    if IsStart(runs, Offset(runs, i) + k) {
      var n :| 0 <= n < |runs| && Offset(runs, n) == Offset(runs, i) + k;
      OffsetsOrder(runs, n, i);
    }
  }

  lemma OffsetsOrder(runs: seq<seq<ClassifiedEntry>>, n: nat, i: nat)
    requires n < |runs| && i < |runs|
    ensures n < i ==> Offset(runs, n) <= Offset(runs, i)
    ensures n > i ==> Offset(runs, n) >= Offset(runs, i) + |runs[i]|
  {
    if n < i {
      OffsetsGrow(runs, n, i);
    } else if n > i {
      OffsetsGrow(runs, i, n);
    }
  }
}
