/** Reuse of one parameter value by several requests: which entry is noted, and what is counted there. */
module IdReuse {
  import opened Har
  import opened Entries

  datatype Pair = Pair(name: string, value: string)

  datatype IdValueReuseNote =
    IdValueReuseNote(name: string, value: string, firstSeenIndex: nat, furtherOccurrences: nat)

  /** The pairs one entry counts for: none when it is a static asset. */
  datatype Sighting = Sighting(index: nat, pairs: set<Pair>)

  type Extract = HarEntry -> set<Pair>

  function SightingOf(extract: Extract, c: ClassifiedEntry): Sighting {
    Sighting(c.index, if c.category == StaticAsset then {} else extract(c.entry))
  }

  function Sightings(extract: Extract, classified: seq<ClassifiedEntry>): (ss: seq<Sighting>)
    ensures DistinctIndices(classified) ==> Apart(ss)
  {
    seq(|classified|, i requires 0 <= i < |classified| => SightingOf(extract, classified[i]))
  }

  /** The entries that carry a pair, in list order. */
  function Carriers(ss: seq<Sighting>, p: Pair): seq<nat> {
    if ss == [] then []
    else
      var last := ss[|ss| - 1];
      Carriers(ss[..|ss| - 1], p) + if p in last.pairs then [last.index] else []
  }

  /** The pair is first reused at entry `x`. */
  predicate FirstReusedAt(ss: seq<Sighting>, p: Pair, x: nat) { |Carriers(ss, p)| >= 2 && Carriers(ss, p)[1] == x }

  /** Those of the pairs that an earlier entry `x` was the first to reuse. */
  function Repeated(ss: seq<Sighting>, pairs: set<Pair>, x: nat): set<Pair> {
    set p | p in pairs && FirstReusedAt(ss, p, x)
  }

  /** How often a pair first reused at `x` is carried again later, over all such pairs together. */
  function Repeats(ss: seq<Sighting>, x: nat): nat {
    if ss == [] then 0
    else
      var front, last := ss[..|ss| - 1], ss[|ss| - 1];
      Repeats(front, x) + |Repeated(front, last.pairs, x)|
  }

  predicate Apart(ss: seq<Sighting>) {
    forall i, j | 0 <= i < j < |ss| :: ss[i].index != ss[j].index
  }

  /** One entry is noted: for a pair first reused there, with that pair's origin and the shared count. */
  predicate NoteFits(ss: seq<Sighting>, x: nat, note: IdValueReuseNote) {
    var p := Pair(note.name, note.value);
    && FirstReusedAt(ss, p, x) && note.firstSeenIndex == Carriers(ss, p)[0]
    && note.furtherOccurrences == Repeats(ss, x)
  }

  /** The notes are at exactly the entries where some pair is first reused. */
  ghost predicate AreNotes(ss: seq<Sighting>, notes: map<nat, IdValueReuseNote>) {
    && (forall x :: x in notes <==> exists p :: FirstReusedAt(ss, p, x))
    && (forall x | x in notes :: NoteFits(ss, x, notes[x]))
  }

  ghost predicate Tracks(ss: seq<Sighting>, firstSeen: map<Pair, nat>, noteAt: map<Pair, nat>) {
    && (forall p :: p in firstSeen <==> Carriers(ss, p) != [])
    && (forall p | p in firstSeen :: firstSeen[p] == Carriers(ss, p)[0])
    && (forall p :: p in noteAt <==> |Carriers(ss, p)| >= 2)
    && (forall p | p in noteAt :: noteAt[p] == Carriers(ss, p)[1])
  }

  // ---------------------------------------------------------------- one more pair of the entry at hand

  lemma Snoc(ss: seq<Sighting>, s: Sighting, p: Pair, x: nat)
    ensures Carriers(ss + [s], p) == Carriers(ss, p) + if p in s.pairs then [s.index] else []
    ensures Repeats(ss + [s], x) == Repeats(ss, x) + |Repeated(ss, s.pairs, x)|
  {
    assert (ss + [s])[..|ss|] == ss;
  }

  lemma MorePairs(ss: seq<Sighting>, x: nat, done: set<Pair>, p: Pair, q: Pair)
    requires p !in done
    ensures var before, after := Carriers(ss + [Sighting(x, done)], q), Carriers(ss + [Sighting(x, done + {p})], q);
            after == before + if q == p then [x] else []
    ensures Carriers(ss + [Sighting(x, done)], p) == Carriers(ss, p)
  {
    Snoc(ss, Sighting(x, done), q, 0);
    Snoc(ss, Sighting(x, done), p, 0);
    Snoc(ss, Sighting(x, done + {p}), q, 0);
  }

  lemma MoreRepeats(ss: seq<Sighting>, x: nat, done: set<Pair>, p: Pair, y: nat)
    requires p !in done
    ensures Repeats(ss + [Sighting(x, done + {p})], y) ==
            Repeats(ss + [Sighting(x, done)], y) + if FirstReusedAt(ss, p, y) then 1 else 0
  {
    Snoc(ss, Sighting(x, done), p, y);
    Snoc(ss, Sighting(x, done + {p}), p, y);
    var before, after := Repeated(ss, done, y), Repeated(ss, done + {p}, y);
    assert after == before + if FirstReusedAt(ss, p, y) then {p} else {};
  }

  lemma {:induction false} CarriersAreSeen(ss: seq<Sighting>, p: Pair)
    ensures forall x | x in Carriers(ss, p) :: exists i :: 0 <= i < |ss| && ss[i].index == x
  {
    if ss != [] {
      var front, last := ss[..|ss| - 1], ss[|ss| - 1];
      CarriersAreSeen(front, p);
      forall x | x in Carriers(ss, p) ensures exists i :: 0 <= i < |ss| && ss[i].index == x {
        if x in Carriers(front, p) {
          var i :| 0 <= i < |front| && front[i].index == x;
          assert ss[i].index == x;
        } else {
          assert ss[|ss| - 1].index == x;
        }
      }
    }
  }

  /** Nothing is repeated yet for an entry the list has not reached. */
  lemma {:induction false} NoRepeatsYet(ss: seq<Sighting>, x: nat)
    requires forall i | 0 <= i < |ss| :: ss[i].index != x
    ensures Repeats(ss, x) == 0 && forall p :: !FirstReusedAt(ss, p, x)
  {
    forall p ensures !FirstReusedAt(ss, p, x) {
      CarriersAreSeen(ss, p);
      assert FirstReusedAt(ss, p, x) ==> x in Carriers(ss, p);
    }
    if ss != [] {
      var front := ss[..|ss| - 1];
      NoRepeatsYet(front, x);
      assert Repeated(front, ss[|ss| - 1].pairs, x) == {};
    }
  }

  /** Nor for the entry at hand, whatever part of its pairs has been seen. */
  lemma NoRepeatsHere(ss: seq<Sighting>, x: nat, done: set<Pair>)
    requires forall i | 0 <= i < |ss| :: ss[i].index != x
    ensures Repeats(ss + [Sighting(x, done)], x) == 0
  {
    NoRepeatsYet(ss, x);
    Snoc(ss, Sighting(x, done), Pair("", ""), x);
    assert Repeated(ss, done, x) == {};
  }

  /** One pair more of the entry at hand: the carriers of that pair grow by the entry. */
  lemma CarriersGrow(ss: seq<Sighting>, x: nat, done: set<Pair>, p: Pair)
    requires p !in done
    ensures var before, after := ss + [Sighting(x, done)], ss + [Sighting(x, done + {p})];
            forall q :: Carriers(after, q) == Carriers(before, q) + if q == p then [x] else []
    ensures Carriers(ss + [Sighting(x, done)], p) == Carriers(ss, p)
  {
    var before, after := ss + [Sighting(x, done)], ss + [Sighting(x, done + {p})];
    forall q ensures Carriers(after, q) == Carriers(before, q) + (if q == p then [x] else []) {
      MorePairs(ss, x, done, p, q);
    }
    MorePairs(ss, x, done, p, p);
  }

  /** A pair that was not carried before is only remembered. */
  lemma FirstSight(
      ss: seq<Sighting>, x: nat, done: set<Pair>, p: Pair,
      firstSeen: map<Pair, nat>, noteAt: map<Pair, nat>, notes: map<nat, IdValueReuseNote>)
    requires p !in done && p !in firstSeen
    requires Tracks(ss + [Sighting(x, done)], firstSeen, noteAt) && AreNotes(ss + [Sighting(x, done)], notes)
    ensures Tracks(ss + [Sighting(x, done + {p})], firstSeen[p := x], noteAt)
    ensures AreNotes(ss + [Sighting(x, done + {p})], notes)
  {
    hide Carriers, Repeats, AreNotes;
    var before, after := ss + [Sighting(x, done)], ss + [Sighting(x, done + {p})];
    CarriersGrow(ss, x, done, p);
    forall y ensures Repeats(after, y) == Repeats(before, y) {
      MoreRepeats(ss, x, done, p, y);
    }
    SameNotes(before, after, p, notes);
  }

  /** Notes stand when only a pair that was not carried before is carried once. */
  lemma SameNotes(before: seq<Sighting>, after: seq<Sighting>, p: Pair, notes: map<nat, IdValueReuseNote>)
    requires AreNotes(before, notes)
    requires forall q | q != p :: Carriers(after, q) == Carriers(before, q)
    requires Carriers(before, p) == [] && |Carriers(after, p)| <= 1
    requires forall y :: Repeats(after, y) == Repeats(before, y)
    ensures AreNotes(after, notes)
  {
    hide Carriers, Repeats, FirstReusedAt, NoteFits;
    forall y, q ensures FirstReusedAt(after, q, y) <==> FirstReusedAt(before, q, y) {
      SameReuse(before, after, p, q, y);
    }
    forall y | y in notes ensures NoteFits(after, y, notes[y]) {
      SameNote(before, after, p, y, notes[y]);
    }
  }

  lemma SameReuse(before: seq<Sighting>, after: seq<Sighting>, p: Pair, q: Pair, x: nat)
    requires q != p ==> Carriers(after, q) == Carriers(before, q)
    requires |Carriers(before, p)| <= 1 && |Carriers(after, p)| <= 1
    ensures FirstReusedAt(after, q, x) <==> FirstReusedAt(before, q, x)
  {
    hide Carriers;
  }

  lemma SameNote(before: seq<Sighting>, after: seq<Sighting>, p: Pair, x: nat, note: IdValueReuseNote)
    requires NoteFits(before, x, note) && Carriers(before, p) == []
    requires forall q | q != p :: Carriers(after, q) == Carriers(before, q)
    requires Repeats(after, x) == Repeats(before, x)
    ensures NoteFits(after, x, note)
  {
    hide Carriers, Repeats;
  }

  /** A pair carried once before is noted here, in place of whatever was noted here. */
  lemma SecondSight(
      ss: seq<Sighting>, x: nat, done: set<Pair>, p: Pair,
      firstSeen: map<Pair, nat>, noteAt: map<Pair, nat>, notes: map<nat, IdValueReuseNote>)
    requires p !in done && p in firstSeen && p !in noteAt && forall i | 0 <= i < |ss| :: ss[i].index != x
    requires Tracks(ss + [Sighting(x, done)], firstSeen, noteAt) && AreNotes(ss + [Sighting(x, done)], notes)
    ensures Tracks(ss + [Sighting(x, done + {p})], firstSeen, noteAt[p := x])
    ensures AreNotes(ss + [Sighting(x, done + {p})], notes[x := IdValueReuseNote(p.name, p.value, firstSeen[p], 0)])
  {
    hide Carriers, Repeats, AreNotes;
    var before, after := ss + [Sighting(x, done)], ss + [Sighting(x, done + {p})];
    CarriersGrow(ss, x, done, p);
    NoRepeatsHere(ss, x, done + {p});
    forall y ensures Repeats(after, y) == Repeats(before, y) {
      MoreRepeats(ss, x, done, p, y);
    }
    NewNote(before, after, x, p, notes);
  }

  /** The pair carried a second time is noted at its second carrier, where nothing is repeated yet. */
  lemma NewNote(before: seq<Sighting>, after: seq<Sighting>, x: nat, p: Pair, notes: map<nat, IdValueReuseNote>)
    requires AreNotes(before, notes)
    requires forall q | q != p :: Carriers(after, q) == Carriers(before, q)
    requires |Carriers(before, p)| == 1 && Carriers(after, p) == Carriers(before, p) + [x]
    requires forall y :: Repeats(after, y) == Repeats(before, y)
    requires Repeats(after, x) == 0
    ensures AreNotes(after, notes[x := IdValueReuseNote(p.name, p.value, Carriers(before, p)[0], 0)])
  {
    hide Carriers, Repeats;
    var notes' := notes[x := IdValueReuseNote(p.name, p.value, Carriers(before, p)[0], 0)];
    forall y, q ensures FirstReusedAt(after, q, y) <==> FirstReusedAt(before, q, y) || (q == p && y == x) {
    }
    assert FirstReusedAt(after, p, x);
    forall y | y in notes' ensures NoteFits(after, y, notes'[y]) {
      if y != x {
        assert NoteFits(before, y, notes[y]);
      }
    }
  }

  /** A pair carried twice or more before adds to the note where it was first reused. */
  lemma LaterSight(
      ss: seq<Sighting>, x: nat, done: set<Pair>, p: Pair,
      firstSeen: map<Pair, nat>, noteAt: map<Pair, nat>, notes: map<nat, IdValueReuseNote>)
    requires p !in done && p in noteAt
    requires Tracks(ss + [Sighting(x, done)], firstSeen, noteAt) && AreNotes(ss + [Sighting(x, done)], notes)
    ensures noteAt[p] in notes
    ensures Tracks(ss + [Sighting(x, done + {p})], firstSeen, noteAt)
    ensures var n := notes[noteAt[p]];
            AreNotes(ss + [Sighting(x, done + {p})],
                     notes[noteAt[p] := n.(furtherOccurrences := n.furtherOccurrences + 1)])
  {
    hide Carriers, Repeats, AreNotes;
    var before, after := ss + [Sighting(x, done)], ss + [Sighting(x, done + {p})];
    CarriersGrow(ss, x, done, p);
    forall y ensures Repeats(after, y) == Repeats(before, y) + if y == noteAt[p] then 1 else 0 {
      MoreRepeats(ss, x, done, p, y);
    }
    MoreOfNote(before, after, noteAt[p], p, notes);
  }

  /** One later carrier of the pair adds one where the pair was first reused. */
  lemma MoreOfNote(before: seq<Sighting>, after: seq<Sighting>, at: nat, p: Pair, notes: map<nat, IdValueReuseNote>)
    requires AreNotes(before, notes) && FirstReusedAt(before, p, at)
    requires forall q :: Carriers(before, q) <= Carriers(after, q)
    requires forall q | q != p :: Carriers(after, q) == Carriers(before, q)
    requires forall y :: Repeats(after, y) == Repeats(before, y) + if y == at then 1 else 0
    ensures at in notes
    ensures var n := notes[at]; AreNotes(after, notes[at := n.(furtherOccurrences := n.furtherOccurrences + 1)])
  {
    hide Carriers, Repeats;
    var n := notes[at];
    var notes' := notes[at := n.(furtherOccurrences := n.furtherOccurrences + 1)];
    forall y, q ensures FirstReusedAt(after, q, y) <==> FirstReusedAt(before, q, y) {
    }
    forall y | y in notes' ensures NoteFits(after, y, notes'[y]) {
      assert NoteFits(before, y, notes[y]);
    }
  }

  // ---------------------------------------------------------------- the pass

  lemma SightingsStep(extract: Extract, classified: seq<ClassifiedEntry>, i: nat)
    requires i < |classified|
    ensures var c := classified[i];
            Sightings(extract, classified[..i + 1]) == Sightings(extract, classified[..i]) +
              [Sighting(c.index, if c.category == StaticAsset then {} else extract(c.entry))]
  {
  }

  lemma NothingSeen(extract: Extract)
    ensures Tracks(Sightings(extract, []), map[], map[]) && AreNotes(Sightings(extract, []), map[])
  {
  }

  lemma NothingMore(
      ss: seq<Sighting>, x: nat, firstSeen: map<Pair, nat>, noteAt: map<Pair, nat>, notes: map<nat, IdValueReuseNote>)
    requires Tracks(ss, firstSeen, noteAt) && AreNotes(ss, notes)
    ensures Tracks(ss + [Sighting(x, {})], firstSeen, noteAt) && AreNotes(ss + [Sighting(x, {})], notes)
  {
    var after := ss + [Sighting(x, {})];
    forall q ensures Carriers(after, q) == Carriers(ss, q) {
      Snoc(ss, Sighting(x, {}), q, 0);
    }
    forall y ensures Repeats(after, y) == Repeats(ss, y) {
      Snoc(ss, Sighting(x, {}), Pair("", ""), y);
      assert Repeated(ss, {}, y) == {};
    }
    hide Carriers, Repeats;
    forall q, y ensures FirstReusedAt(after, q, y) <==> FirstReusedAt(ss, q, y) {
    }
  }

  /** `compute_id_value_reuse`; the pairs of one entry come in any order. */
  method ComputeIdValueReuse(extract: Extract, classified: seq<ClassifiedEntry>)
      returns (reuseByIndex: map<nat, IdValueReuseNote>)
    requires DistinctIndices(classified)
    ensures AreNotes(Sightings(extract, classified), reuseByIndex)
  {
    hide *;
    var firstSeen: map<Pair, nat>, noteEntryByKey: map<Pair, nat> := map[], map[];
    reuseByIndex := map[];
    NothingSeen(extract);
    assert classified[..0] == [];
    for i := 0 to |classified|
      invariant Tracks(Sightings(extract, classified[..i]), firstSeen, noteEntryByKey)
      invariant AreNotes(Sightings(extract, classified[..i]), reuseByIndex)
    {
      var c := classified[i];
      ghost var ss := Sightings(extract, classified[..i]);
      SightingsStep(extract, classified, i);
      SightingIndices(extract, classified, i);
      NothingMore(ss, c.index, firstSeen, noteEntryByKey, reuseByIndex);
      if c.category == StaticAsset {
        continue;
      }
      var todo := extract(c.entry);
      ghost var done: set<Pair> := {};
      while todo != {}
        invariant done !! todo && done + todo == extract(c.entry)
        invariant Tracks(ss + [Sighting(c.index, done)], firstSeen, noteEntryByKey)
        invariant AreNotes(ss + [Sighting(c.index, done)], reuseByIndex)
        decreases todo
      {
        var key :| key in todo;
        todo := todo - {key};
        if key !in firstSeen {
          FirstSight(ss, c.index, done, key, firstSeen, noteEntryByKey, reuseByIndex);
          firstSeen := firstSeen[key := c.index];
        } else if key !in noteEntryByKey {
          SecondSight(ss, c.index, done, key, firstSeen, noteEntryByKey, reuseByIndex);
          noteEntryByKey := noteEntryByKey[key := c.index];
          reuseByIndex := reuseByIndex[c.index := IdValueReuseNote(key.name, key.value, firstSeen[key], 0)];
        } else {
          LaterSight(ss, c.index, done, key, firstSeen, noteEntryByKey, reuseByIndex);
          var noteIndex := noteEntryByKey[key];
          var existing := reuseByIndex[noteIndex];
          reuseByIndex := reuseByIndex[
            noteIndex := existing.(furtherOccurrences := existing.furtherOccurrences + 1)];
        }
        done := done + {key};
      }
      assert done == extract(c.entry);
    }
    assert classified[..|classified|] == classified;
  }

  lemma SightingIndices(extract: Extract, classified: seq<ClassifiedEntry>, i: nat)
    requires DistinctIndices(classified) && i < |classified|
    ensures var ss := Sightings(extract, classified[..i]);
            forall k | 0 <= k < |ss| :: ss[k].index != classified[i].index
  {
  }

  // ---------------------------------------------------------------- what the count means for one pair

  /** Later sightings of the pairs other than `p` that are first reused at the same entry. */
  function OtherRepeats(ss: seq<Sighting>, p: Pair, x: nat): nat {
    if ss == [] then 0
    else
      var front, last := ss[..|ss| - 1], ss[|ss| - 1];
      OtherRepeats(front, p, x) + |Repeated(front, last.pairs, x) - {p}|
  }

  lemma {:induction false} RepeatsSplit(ss: seq<Sighting>, p: Pair, x: nat)
    requires Apart(ss) && FirstReusedAt(ss, p, x)
    ensures Repeats(ss, x) == OtherRepeats(ss, p, x) + (|Carriers(ss, p)| - 2)
  {
    var front, last := ss[..|ss| - 1], ss[|ss| - 1];
    var again := Repeated(front, last.pairs, x);
    assert ss == front + [last];
    Snoc(front, last, p, x);
    if FirstReusedAt(front, p, x) {
      RepeatsSplit(front, p, x);
      assert p in last.pairs <==> p in again;
      hide *;
      WithAndWithout(again, p);
      OtherRepeatsStep(ss, p, x);
    } else {
      FirstReusedByLast(front, last, p, x);
      NoRepeatsHere(front, x, last.pairs);
      NoOthersYet(front, p, x);
      NoRepeatsYet(front, x);
      assert again == {};
    }
  }

  lemma WithAndWithout(s: set<Pair>, p: Pair)
    ensures |s| == |s - {p}| + if p in s then 1 else 0
  {
    if p in s {
      assert s == (s - {p}) + {p};
    } else {
      assert s - {p} == s;
    }
  }

  lemma OtherRepeatsStep(ss: seq<Sighting>, p: Pair, x: nat)
    requires ss != []
    ensures var front, last := ss[..|ss| - 1], ss[|ss| - 1];
            OtherRepeats(ss, p, x) == OtherRepeats(front, p, x) + |Repeated(front, last.pairs, x) - {p}|
  {
  }

  lemma FirstReusedByLast(front: seq<Sighting>, last: Sighting, p: Pair, x: nat)
    requires Apart(front + [last]) && FirstReusedAt(front + [last], p, x) && !FirstReusedAt(front, p, x)
    ensures last.index == x && |Carriers(front + [last], p)| == 2
    ensures forall i | 0 <= i < |front| :: front[i].index != x
  {
    Snoc(front, last, p, x);
    hide Carriers;
    forall i | 0 <= i < |front| ensures front[i].index != last.index {
      assert (front + [last])[i] == front[i] && (front + [last])[|front|] == last;
    }
  }

  lemma {:induction false} NoOthersYet(ss: seq<Sighting>, p: Pair, x: nat)
    requires forall i | 0 <= i < |ss| :: ss[i].index != x
    ensures OtherRepeats(ss, p, x) == 0
  {
    if ss != [] {
      var front := ss[..|ss| - 1];
      NoOthersYet(front, p, x);
      NoRepeatsYet(front, x);
      assert Repeated(front, ss[|ss| - 1].pairs, x) == {};
    }
  }

  ghost predicate OthersOnlyTwice(ss: seq<Sighting>, p: Pair, x: nat) {
    forall q | q != p && FirstReusedAt(ss, q, x) :: |Carriers(ss, q)| == 2
  }

  lemma {:induction false} OtherRepeatsIff(ss: seq<Sighting>, p: Pair, x: nat)
    requires Apart(ss)
    ensures OtherRepeats(ss, p, x) == 0 <==> OthersOnlyTwice(ss, p, x)
  {
    if ss != [] {
      var front, last := ss[..|ss| - 1], ss[|ss| - 1];
      OtherRepeatsIff(front, p, x);
      var others := Repeated(front, last.pairs, x) - {p};
      if OtherRepeats(ss, p, x) == 0 {
        assert others == {};
        forall q | q != p && FirstReusedAt(ss, q, x) ensures |Carriers(ss, q)| == 2 {
          assert q !in others;
        }
      }
      if OthersOnlyTwice(ss, p, x) {
        forall q | q != p && FirstReusedAt(front, q, x) ensures |Carriers(front, q)| == 2 && q !in last.pairs {
          assert Carriers(front, q) <= Carriers(ss, q);
          assert FirstReusedAt(ss, q, x);
        }
        assert others == {};
      }
    }
  }

  /**
   The count of a note is at least the number of later entries that carry its pair. It is that number
   exactly when every other pair first reused at the same entry is carried by no third entry.
   */
  lemma FurtherOccurrencesIff(ss: seq<Sighting>, x: nat, note: IdValueReuseNote)
    requires Apart(ss) && NoteFits(ss, x, note)
    ensures var p := Pair(note.name, note.value);
            && note.furtherOccurrences >= |Carriers(ss, p)| - 2
            && (note.furtherOccurrences == |Carriers(ss, p)| - 2 <==> OthersOnlyTwice(ss, p, x))
  {
    var p := Pair(note.name, note.value);
    RepeatsSplit(ss, p, x);
    OtherRepeatsIff(ss, p, x);
  }

  /** Three entries that carry the same two pairs. */
  function Together(p: Pair, q: Pair): seq<Sighting> {
    [Sighting(0, {p, q}), Sighting(1, {p, q}), Sighting(2, {p, q})]
  }

  lemma CarriersTogether(p: Pair, q: Pair, r: Pair)
    ensures Carriers(Together(p, q), r) == if r in {p, q} then [0, 1, 2] else []
  {
    var ss := Together(p, q);
    Snoc([], ss[0], r, 1);
    Snoc(ss[..1], ss[1], r, 1);
    Snoc(ss[..2], ss[2], r, 1);
    assert ss[..1] == [] + [ss[0]] && ss[..2] == ss[..1] + [ss[1]] && ss == ss[..2] + [ss[2]];
  }

  lemma RepeatsTogether(p: Pair, q: Pair)
    requires p != q
    ensures Repeats(Together(p, q), 1) == 2
  {
    var ss := Together(p, q);
    forall r ensures FirstReusedAt(ss[..2], r, 1) <==> r in {p, q} {
      Snoc([], ss[0], r, 1);
      Snoc(ss[..1], ss[1], r, 1);
      assert ss[..1] == [] + [ss[0]] && ss[..2] == ss[..1] + [ss[1]];
    }
    NoRepeatsHere(ss[..1], 1, {p, q});
    Snoc(ss[..2], ss[2], p, 1);
    assert ss[..2] == ss[..1] + [ss[1]] && ss == ss[..2] + [ss[2]];
    assert Repeated(ss[..2], {p, q}, 1) == {p, q};
    assert |{p, q}| == 2;
    hide Carriers, Repeats, FirstReusedAt;
  }

  /**
   Two pairs that always travel together: the one note there is counts the third entry twice, though it is
   the only later entry that carries the pair of the note.
   */
  lemma PairsTogetherCountTwice(p: Pair, q: Pair, notes: map<nat, IdValueReuseNote>)
    requires p != q && AreNotes(Together(p, q), notes)
    ensures notes.Keys == {1} && notes[1].furtherOccurrences == 2
    ensures |Carriers(Together(p, q), Pair(notes[1].name, notes[1].value))| - 2 == 1
  {
    var ss := Together(p, q);
    forall r ensures Carriers(ss, r) == if r in {p, q} then [0, 1, 2] else [] {
      CarriersTogether(p, q, r);
    }
    RepeatsTogether(p, q);
    hide Carriers, Repeats, Together;
    assert FirstReusedAt(ss, p, 1);
    assert NoteFits(ss, 1, notes[1]);
  }
}
