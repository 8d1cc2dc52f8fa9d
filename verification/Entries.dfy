/** Classified capture entries: what the analysis passes work on. */
module Entries {
  import opened Basics
  import opened Strings
  import opened Har
  import opened Sorting

  datatype Category = Navigation | XhrApi | StaticAsset | Other

  /** `index` is the entry's position in raw.har. */
  datatype ClassifiedEntry = ClassifiedEntry(index: nat, entry: HarEntry, category: Category, confirmed: bool)

  /**
   What the analysis takes from libraries: resolving a Location, the path of a URL, and which JSON value a body
   holds.
   */
  datatype Web = Web(
    UrlJoin: (string, string) -> string,
    Path: string -> string,
    JsonValue: bytes -> Option<nat>)

  function At(c: ClassifiedEntry): int { c.entry.startedAt }

  function StartKey(c: ClassifiedEntry): real { At(c) as real }

  /** `sorted(entries, key=started_at)`. */
  function ByTime(entries: seq<ClassifiedEntry>): seq<ClassifiedEntry> { StableSort(StartKey, entries) }

  function Referer(c: ClassifiedEntry): Option<string> { HeaderValue(c.entry.request.headers, "referer") }

  predicate IsNavigation(c: ClassifiedEntry) { c.category == Navigation }

  predicate IsXhr(c: ClassifiedEntry) { c.category == XhrApi }

  predicate DistinctIndices(entries: seq<ClassifiedEntry>) {
    forall i, j | 0 <= i < j < |entries| :: entries[i].index != entries[j].index
  }

  /** `classify_entries`, for a given classification of one entry. */
  function ClassifyEntries(classify: HarEntry -> (Category, bool), entries: seq<HarEntry>): (r: seq<ClassifiedEntry>)
    ensures |r| == |entries| && DistinctIndices(r)
    ensures forall i | 0 <= i < |r| :: r[i].index == i && r[i].entry == entries[i]
    ensures forall i | 0 <= i < |r| :: (r[i].category, r[i].confirmed) == classify(entries[i])
  {
    seq(|entries|, i requires 0 <= i < |entries| =>
      ClassifiedEntry(i, entries[i], classify(entries[i]).0, classify(entries[i]).1))
  }

  function Filter<T>(p: T -> bool, s: seq<T>): seq<T> {
    if s == [] then [] else Filter(p, s[..|s| - 1]) + if p(s[|s| - 1]) then [s[|s| - 1]] else []
  }

  lemma {:induction false} FilterElements<T>(p: T -> bool, s: seq<T>)
    ensures forall x :: x in Filter(p, s) <==> x in s && p(x)
  {
    if s != [] {
      FilterElements(p, s[..|s| - 1]);
      assert s == s[..|s| - 1] + [s[|s| - 1]];
    }
  }

  lemma {:induction false} FilterKeepsDistinct(p: ClassifiedEntry -> bool, s: seq<ClassifiedEntry>)
    requires DistinctIndices(s)
    ensures DistinctIndices(Filter(p, s))
  {
    if s != [] {
      var front, last := s[..|s| - 1], s[|s| - 1];
      FilterKeepsDistinct(p, front);
      FilterElements(p, front);
      forall x | x in front ensures x.index != last.index {
      }
    }
  }

  lemma {:induction false} FilterBounded<T>(key: Key<T>, p: T -> bool, s: seq<T>, bound: real)
    requires forall i | 0 <= i < |s| :: key(s[i]) <= bound
    ensures forall i | 0 <= i < |Filter(p, s)| :: key(Filter(p, s)[i]) <= bound
  {
    if s != [] {
      FilterBounded(key, p, s[..|s| - 1], bound);
    }
  }

  lemma {:induction false} FilterKeepsSorted<T>(key: Key<T>, p: T -> bool, s: seq<T>)
    requires SortedBy(key, s)
    ensures SortedBy(key, Filter(p, s))
  {
    if s != [] {
      var front, last := s[..|s| - 1], s[|s| - 1];
      FilterKeepsSorted(key, p, front);
      FilterBounded(key, p, front, key(last));
    }
  }

  /** Sorting by time is a rearrangement: same entries, distinct indices stay distinct, times never decrease. */
  lemma ByTimeFacts(entries: seq<ClassifiedEntry>)
    ensures var s := ByTime(entries);
            && |s| == |entries|
            && (forall c :: c in s <==> c in entries)
            && SortedBy(StartKey, s)
            && (forall i, j | 0 <= i < j < |s| :: s[i].entry.startedAt <= s[j].entry.startedAt)
            && (DistinctIndices(entries) ==> DistinctIndices(s))
  {
    SortElements(StartKey, entries);
    SortSorted(StartKey, entries);
    KeysAreTimes(ByTime(entries));
    if DistinctIndices(entries) {
      InsertionKeepsDistinct(entries);
    }
  }

  lemma KeysAreTimes(s: seq<ClassifiedEntry>)
    requires SortedBy(StartKey, s)
    ensures forall i, j | 0 <= i < j < |s| :: s[i].entry.startedAt <= s[j].entry.startedAt
  {
    forall i, j | 0 <= i < j < |s| ensures s[i].entry.startedAt <= s[j].entry.startedAt {
      assert StartKey(s[i]) <= StartKey(s[j]);
    }
  }

  /** The referer is the request's own, whatever the case its name is written in. */
  lemma RefererIff(c: ClassifiedEntry, v: string)
    ensures Referer(c) == Some(v) <==>
            exists i: nat :: FirstNamed(c.entry.request.headers, "referer", i) &&
                             c.entry.request.headers[i].value == v
    ensures Referer(c) == None <==> forall h | h in c.entry.request.headers :: !SameButCase(h.name, "referer")
  {
    HeaderValueIff(c.entry.request.headers, "referer", v);
    hide HeaderValue, SameButCase;
  }

  lemma {:induction false} InsertionKeepsDistinct(entries: seq<ClassifiedEntry>)
    requires DistinctIndices(entries)
    ensures DistinctIndices(ByTime(entries))
  {
    if entries != [] {
      var front, last := entries[..|entries| - 1], entries[|entries| - 1];
      InsertionKeepsDistinct(front);
      SortElements(StartKey, front);
      forall c | c in ByTime(front) ensures c.index != last.index {
        assert c in front;
      }
      InsertKeepsDistinct(ByTime(front), last);
    }
  }

  lemma {:induction false} InsertKeepsDistinct(s: seq<ClassifiedEntry>, x: ClassifiedEntry)
    requires DistinctIndices(s) && forall c | c in s :: c.index != x.index
    ensures DistinctIndices(Insert(StartKey, s, x))
    ensures forall c | c in Insert(StartKey, s, x) :: c in s || c == x
  {
    if s != [] && !(StartKey(s[|s| - 1]) <= StartKey(x)) {
      var front, last := s[..|s| - 1], s[|s| - 1];
      InsertKeepsDistinct(front, x);
      forall c | c in Insert(StartKey, front, x) ensures c.index != last.index {
        assert c in front || c == x;
      }
    }
  }
}
