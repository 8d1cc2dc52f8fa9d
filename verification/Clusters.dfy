/** Grouping entries into clusters: one operator action and what followed from it. */
module Clusters {
  import opened Basics
  import opened Har
  import opened Sorting
  import opened Entries
  import opened Runs

  const MICROS_PER_MS := 1000

  /** What a follow-on of this entry must carry as its referer: its URL if it is a navigation, else its own referer. */
  function KeyOf(c: ClassifiedEntry): Option<string> {
    if IsNavigation(c) then Some(c.entry.request.url) else Referer(c)
  }

  /** The local rule: entry `k` of a time-sorted list starts a cluster. */
  predicate Starts(s: seq<ClassifiedEntry>, k: nat, windowMs: int)
    requires k < |s|
  {
    || k == 0
    || IsNavigation(s[k])
    || At(s[k]) - At(s[k - 1]) > windowMs * MICROS_PER_MS
    || Referer(s[k]) != KeyOf(s[k - 1])
  }

  function Marks(s: seq<ClassifiedEntry>, windowMs: int): (marks: seq<bool>)
    ensures |marks| == |s|
  {
    seq(|s|, k requires 0 <= k < |s| => Starts(s, k, windowMs))
  }

  /** The clusters of a time-sorted list. */
  function ClustersOf(s: seq<ClassifiedEntry>, windowMs: int): seq<seq<ClassifiedEntry>> {
    Segments(s, Marks(s, windowMs))
  }

  class Cluster {
    const anchor: ClassifiedEntry
    var members: seq<ClassifiedEntry>
    const referer: Option<string>
    var lastActivity: int

    constructor (anchor: ClassifiedEntry)
      ensures this.anchor == anchor && members == [] && Contents() == [anchor]
      ensures referer == KeyOf(anchor) && lastActivity == At(anchor)
    {
      this.anchor, members := anchor, [];
      referer := if IsNavigation(anchor) then Some(anchor.entry.request.url) else Referer(anchor);
      lastActivity := At(anchor);
    }

    method Add(c: ClassifiedEntry)
      modifies this
      ensures members == old(members) + [c] && lastActivity == At(c)
      ensures Contents() == old(Contents()) + [c]
    {
      members := members + [c];
      lastActivity := At(c);
    }

    function Contents(): seq<ClassifiedEntry>
      reads this
    {
      [anchor] + members
    }
  }

  ghost function Views(clusters: seq<Cluster>): (views: seq<seq<ClassifiedEntry>>)
    reads clusters
    ensures |views| == |clusters|
  {
    if clusters == [] then []
    else Views(clusters[..|clusters| - 1]) + [clusters[|clusters| - 1].Contents()]
  }

  lemma ViewsSnoc(front: seq<Cluster>, last: Cluster)
    ensures Views(front + [last]) == Views(front) + [last.Contents()]
  {
    assert (front + [last])[..|front|] == front;
  }

  /** The mark of an entry is the local rule, and an entry without a mark has the key of the entry before it. */
  lemma StartsRule(s: seq<ClassifiedEntry>, k: nat, windowMs: int)
    requires k < |s|
    ensures Marks(s, windowMs)[k] <==>
      || k == 0 || IsNavigation(s[k])
      || At(s[k]) - At(s[k - 1]) > windowMs * MICROS_PER_MS
      || Referer(s[k]) != KeyOf(s[k - 1])
    ensures !Marks(s, windowMs)[k] ==> KeyOf(s[k]) == KeyOf(s[k - 1])
  {
    hide At, Referer;
  }

  lemma NoRuns(s: seq<ClassifiedEntry>, windowMs: int)
    ensures Segments(s[..0], Marks(s, windowMs)[..0]) == [] == Views([])
    ensures Segments(s[..|s|], Marks(s, windowMs)[..|s|]) == ClustersOf(s, windowMs)
  {
    assert s[..|s|] == s && Marks(s, windowMs)[..|s|] == Marks(s, windowMs);
  }

  /** `cluster_entries`. */
  method ClusterEntries(entries: seq<ClassifiedEntry>, windowMs: int) returns (clusters: seq<Cluster>)
    ensures fresh(clusters)
    ensures Views(clusters) == ClustersOf(ByTime(entries), windowMs)
  {
    hide *;
    var window := windowMs * MICROS_PER_MS;
    var sorted := ByTime(entries);
    ghost var marks := Marks(sorted, windowMs);
    clusters := [];
    var current: Cluster? := null;
    NoRuns(sorted, windowMs);
    for i := 0 to |sorted|
      invariant fresh(clusters)
      invariant forall a, b | 0 <= a < b < |clusters| :: clusters[a] != clusters[b]
      invariant i == 0 <==> current == null
      invariant i == 0 <==> clusters == []
      invariant i > 0 ==>
        && current == clusters[|clusters| - 1] && current.lastActivity == At(sorted[i - 1])
        && current.referer == KeyOf(sorted[i - 1])
      invariant Views(clusters) == Segments(sorted[..i], marks[..i])
    {
      var c := sorted[i];
      SegmentsStep(sorted, marks, i);
      var joins := false;
      if !IsNavigation(c) && current != null {
        joins := At(c) - current.lastActivity <= window && Referer(c) == current.referer;
      }
      StartsRule(sorted, i, windowMs);
      ghost var before := Views(clusters);
      if joins {
        ghost var front, run := clusters[..|clusters| - 1], current.Contents();
        assert clusters == front + [current] && current !in front;
        ghost var rest := Views(front);
        ViewsSnoc(front, current);
        ExtendSnoc(rest, run, c);
        current.Add(c);
        assert Views(front) == rest && current.Contents() == run + [c];
        ViewsSnoc(front, current);
      } else {
        current := new Cluster(c);
        assert Views(clusters) == before && current.Contents() == [c];
        ViewsSnoc(clusters, current);
        clusters := clusters + [current];
      }
    }
  }

  /**
   Where the clusters are cut: joined they are the time-sorted input, and a cluster starts at entry `k`
   exactly by the local rule.
   */
  lemma ClusterBoundaries(entries: seq<ClassifiedEntry>, windowMs: int, k: nat)
    requires k < |entries|
    ensures var s, groups := ByTime(entries), ClustersOf(ByTime(entries), windowMs);
            && Flatten(groups) == s && |s| == |entries| && NonEmptyRuns(groups)
            && (IsStart(groups, k) <==>
                || k == 0
                || s[k].category == Navigation
                || s[k].entry.startedAt - s[k - 1].entry.startedAt > windowMs * 1000
                || Referer(s[k]) !=
                   (if s[k - 1].category == Navigation then Some(s[k - 1].entry.request.url) else Referer(s[k - 1])))
  {
    var s := ByTime(entries);
    ByTimeFacts(entries);
    SegmentsBasic(s, Marks(s, windowMs));
    StartIffMarked(s, Marks(s, windowMs), k);
  }

  /** A wider window only joins neighbouring clusters. */
  lemma WiderWindowJoins(entries: seq<ClassifiedEntry>, narrow: int, wide: int)
    requires narrow <= wide
    ensures Joins(ClustersOf(ByTime(entries), wide), ClustersOf(ByTime(entries), narrow))
  {
    var s := ByTime(entries);
    FewerMarksJoin(s, Marks(s, wide), Marks(s, narrow));
  }
}
