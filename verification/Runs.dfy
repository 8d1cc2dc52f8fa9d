/**
 Cutting a list into runs of neighbours. `marks[k]` says whether a new run starts at element `k`; the
 first element starts one in any case.
 */
module Runs {
  import opened Basics

  function Segments<T>(s: seq<T>, marks: seq<bool>): seq<seq<T>>
    requires |marks| == |s|
  {
    if s == [] then []
    else
      var n := |s| - 1;
      var front := Segments(s[..n], marks[..n]);
      if front == [] || marks[n] then front + [[s[n]]] else ExtendLast(front, s[n])
  }

  function ExtendLast<T>(runs: seq<seq<T>>, x: T): seq<seq<T>>
    requires runs != []
  {
    runs[..|runs| - 1] + [runs[|runs| - 1] + [x]]
  }

  lemma ExtendSnoc<T>(front: seq<seq<T>>, last: seq<T>, x: T)
    ensures ExtendLast(front + [last], x) == front + [last + [x]]
  {
  }

  lemma FlattenExtend<T>(runs: seq<seq<T>>, x: T)
    requires runs != []
    ensures Flatten(ExtendLast(runs, x)) == Flatten(runs) + [x]
  {
    var front, last := runs[..|runs| - 1], runs[|runs| - 1];
    assert runs == front + [last];
    FlattenSnoc(front, last);
    FlattenSnoc(front, last + [x]);
    hide Flatten;
    assert Flatten(front) + (last + [x]) == Flatten(front) + last + [x];
  }

  /** What one more element does to the runs so far. */
  lemma SegmentsStep<T>(s: seq<T>, marks: seq<bool>, i: nat)
    requires |marks| == |s| && i < |s|
    ensures var before, after := Segments(s[..i], marks[..i]), Segments(s[..i + 1], marks[..i + 1]);
            after == if before == [] || marks[i] then before + [[s[i]]] else ExtendLast(before, s[i])
  {
    assert s[..i + 1][..i] == s[..i] && marks[..i + 1][..i] == marks[..i];
  }

  /** Where run `i` begins in the list. */
  function Offset<T>(runs: seq<seq<T>>, i: nat): nat
    requires i <= |runs|
  {
    |Flatten(runs[..i])|
  }

  ghost predicate IsStart<T>(runs: seq<seq<T>>, k: nat) {
    exists i :: 0 <= i < |runs| && Offset(runs, i) == k
  }

  predicate NonEmptyRuns<T(==)>(runs: seq<seq<T>>) { forall i | 0 <= i < |runs| :: runs[i] != [] }

  /** The runs, joined, are the list; none is empty. */
  lemma {:induction false} SegmentsBasic<T>(s: seq<T>, marks: seq<bool>)
    requires |marks| == |s|
    ensures Flatten(Segments(s, marks)) == s
    ensures NonEmptyRuns(Segments(s, marks))
    ensures s == [] <==> Segments(s, marks) == []
  {
    hide Flatten, Segments;
    SegmentsOfLast(s, marks);
    if s != [] {
      var n := |s| - 1;
      SegmentsBasic(s[..n], marks[..n]);
      var front := Segments(s[..n], marks[..n]);
      assert s == s[..n] + [s[n]];
      if front == [] || marks[n] {
        FlattenSnoc(front, [s[n]]);
      } else {
        FlattenExtend(front, s[n]);
      }
    }
  }

  /** The runs of a list, from those of the list without its last element. */
  lemma SegmentsOfLast<T>(s: seq<T>, marks: seq<bool>)
    requires |marks| == |s|
    ensures s == [] ==> Segments(s, marks) == [] && Flatten(Segments(s, marks)) == []
    ensures s != [] ==>
      var n := |s| - 1;
      var front := Segments(s[..n], marks[..n]);
      Segments(s, marks) == if front == [] || marks[n] then front + [[s[n]]] else ExtendLast(front, s[n])
  {
    hide ExtendLast;
  }

  lemma StartInRange<T>(runs: seq<seq<T>>, k: nat)
    requires IsStart(runs, k) && NonEmptyRuns(runs)
    ensures k < |Flatten(runs)|
  {
    var i :| 0 <= i < |runs| && Offset(runs, i) == k;
    assert runs == runs[..i] + ([runs[i]] + runs[i + 1..]);
    FlattenAppend(runs[..i], [runs[i]] + runs[i + 1..]);
  }

  lemma ExtendStarts<T>(runs: seq<seq<T>>, x: T, k: nat)
    requires runs != []
    ensures IsStart(ExtendLast(runs, x), k) <==> IsStart(runs, k)
  {
    var m := |runs| - 1;
    assert runs == runs[..m] + [runs[m]];
    SnocStarts(runs[..m], runs[m], k);
    SnocStarts(runs[..m], runs[m] + [x], k);
  }

  /** Runs start exactly at the first element and at the marks. */
  lemma {:induction false} StartIffMarked<T>(s: seq<T>, marks: seq<bool>, k: nat)
    requires |marks| == |s| && k < |s|
    ensures IsStart(Segments(s, marks), k) <==> k == 0 || marks[k]
  {
    var n := |s| - 1;
    var front := Segments(s[..n], marks[..n]);
    SegmentsBasic(s[..n], marks[..n]);
    if k < n {
      StartIffMarked(s[..n], marks[..n], k);
    }
    if IsStart(front, k) {
      StartInRange(front, k);
    }
    if front == [] || marks[n] {
      SnocStarts(front, [s[n]], k);
    } else {
      ExtendStarts(front, s[n], k);
    }
    hide Flatten, IsStart;
  }

  lemma SnocStarts<T>(front: seq<seq<T>>, last: seq<T>, k: nat)
    ensures IsStart(front + [last], k) <==> IsStart(front, k) || k == |Flatten(front)|
  {
    var runs := front + [last];
    assert forall i | 0 <= i <= |front| :: runs[..i] == front[..i];
    assert front[..|front|] == front;
    if IsStart(front, k) {
      var i :| 0 <= i < |front| && Offset(front, i) == k;
      assert Offset(runs, i) == k;
    }
    if k == |Flatten(front)| {
      assert Offset(runs, |front|) == k;
    }
    if IsStart(runs, k) {
      var i :| 0 <= i < |runs| && Offset(runs, i) == k;
      if i < |front| {
        assert Offset(front, i) == k;
      }
    }
  }

  /** `coarse` arises from `fine` by joining neighbours. */
  ghost predicate Joins<T>(coarse: seq<seq<T>>, fine: seq<seq<T>>)
    decreases |coarse|
  {
    if coarse == [] then fine == []
    else exists j :: 0 <= j < |fine| && LastJoins(coarse, fine, j)
  }

  ghost predicate LastJoins<T>(coarse: seq<seq<T>>, fine: seq<seq<T>>, j: nat)
    requires coarse != [] && j < |fine|
    decreases |coarse|, 0
  {
    coarse[|coarse| - 1] == Flatten(fine[j..]) && Joins(coarse[..|coarse| - 1], fine[..j])
  }

  /** Fewer marks only join runs. */
  lemma {:induction false} FewerMarksJoin<T>(s: seq<T>, few: seq<bool>, many: seq<bool>)
    requires |few| == |many| == |s|
    requires forall k | 0 <= k < |s| :: few[k] ==> many[k]
    ensures Joins(Segments(s, few), Segments(s, many))
  {
    if s == [] {
      return;
    }
    var n := |s| - 1;
    var x := [s[n]];
    FewerMarksJoin(s[..n], few[..n], many[..n]);
    var coarse, fine := Segments(s[..n], few[..n]), Segments(s[..n], many[..n]);
    SegmentsBasic(s[..n], few[..n]);
    SegmentsBasic(s[..n], many[..n]);
    if coarse == [] {
      assert Segments(s, few) == [x] && Segments(s, many) == [x];
      JoinNew(coarse, fine, x);
      assert coarse + [x] == [x] && fine + [x] == [x];
    } else if few[n] {
      JoinNew(coarse, fine, x);
    } else if many[n] {
      JoinRun(coarse, fine, s[n]);
    } else {
      JoinBoth(coarse, fine, s[n]);
    }
  }

  lemma JoinNew<T>(coarse: seq<seq<T>>, fine: seq<seq<T>>, x: seq<T>)
    requires Joins(coarse, fine)
    ensures Joins(coarse + [x], fine + [x])
  {
    var c, f := coarse + [x], fine + [x];
    assert c[..|coarse|] == coarse && f[..|fine|] == fine && f[|fine|..] == [x];
    assert Flatten([x]) == x;
    assert LastJoins(c, f, |fine|);
  }

  lemma JoinRun<T>(coarse: seq<seq<T>>, fine: seq<seq<T>>, x: T)
    requires Joins(coarse, fine) && coarse != []
    ensures Joins(ExtendLast(coarse, x), fine + [[x]])
  {
    var j :| 0 <= j < |fine| && LastJoins(coarse, fine, j);
    var c, f := ExtendLast(coarse, x), fine + [[x]];
    assert c[..|c| - 1] == coarse[..|coarse| - 1] && f[..j] == fine[..j] && f[j..] == fine[j..] + [[x]];
    FlattenSnoc(fine[j..], [x]);
    hide Flatten, Joins;
    assert LastJoins(c, f, j);
    JoinsAt(c, f, j);
  }

  lemma JoinBoth<T>(coarse: seq<seq<T>>, fine: seq<seq<T>>, x: T)
    requires Joins(coarse, fine) && coarse != []
    ensures fine != []
    ensures Joins(ExtendLast(coarse, x), ExtendLast(fine, x))
  {
    var j :| 0 <= j < |fine| && LastJoins(coarse, fine, j);
    var c, f := ExtendLast(coarse, x), ExtendLast(fine, x);
    assert c[..|c| - 1] == coarse[..|coarse| - 1] && f[..j] == fine[..j];
    assert f[j..] == ExtendLast(fine[j..], x);
    FlattenExtend(fine[j..], x);
    hide Flatten, Joins;
    assert LastJoins(c, f, j);
    JoinsAt(c, f, j);
  }

  lemma JoinsAt<T>(coarse: seq<seq<T>>, fine: seq<seq<T>>, j: nat)
    requires coarse != [] && j < |fine| && LastJoins(coarse, fine, j)
    ensures Joins(coarse, fine)
  {
  }
}
