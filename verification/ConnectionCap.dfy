/**
 The cap on concurrent connections, over every interleaving of the handlers of arriving connections.

 Each handler is a control point in the listener's handler body. A handler yields to others only where it
 awaits, and between the check of the cap and the increment it does not; that pair is one step, and the
 rest of the body is as many steps as it has statements.
 */
module ConnectionCap {

  /** How a block of code completes: an `Exception` is caught and logged, a cancellation is not. */
  datatype Completion = Normal | Raises | Cancels

  /** Where a handler is. What is pending at a `finally` is raised again behind it. */
  datatype Point =
    | Processing                              // in the try block
    | Logging                                 // in the except block
    | Finally(pending: Completion)            // before the decrement
    | Closing(counted: bool, pending: Completion)  // before the writer is closed
    | Waiting(counted: bool, pending: Completion)  // the writer is closed, its end is awaited
    | Ended(counted: bool, how: Completion)

  /** The counter, every handler's point, the closed writers, and how often each handler has decremented the counter. */
  datatype State = State(active: int, at: map<nat, Point>, closed: set<nat>, decrements: map<nat, nat>)

  const INIT := State(0, map[], {}, map[])

  datatype Step =
    | Arrive(id: nat)
    | CloseEarly(id: nat)                   // a relay closes the writer before its handler does
    | Complete(id: nat, how: Completion)    // the block the handler is in completes
    | Decrement(id: nat)
    | CloseWriter(id: nat)
    | WriterEnds(id: nat, how: Completion)  // the wait for the writer's end completes

  /** What may happen; logging does not fail. */
  predicate Enabled(s: State, step: Step) {
    match step
    case Arrive(id) => id !in s.at
    case CloseEarly(id) => id in s.at && s.at[id].Processing?
    case Complete(id, how) => id in s.at && (s.at[id].Processing? || (s.at[id].Logging? && how.Normal?))
    case Decrement(id) => id in s.at && s.at[id].Finally?
    case CloseWriter(id) => id in s.at && s.at[id].Closing?
    case WriterEnds(id, how) => id in s.at && s.at[id].Waiting?
  }

  function Move(s: State, id: nat, to: Point): State { s.(at := s.at[id := to]) }

  /** `try`, `except Exception`, `finally`: where a completed block leads. */
  function AfterBlock(point: Point, how: Completion): Point {
    if point.Processing? && how.Raises? then Logging else Finally(how)
  }

  function Apply(max: int, s: State, step: Step): State
    requires Enabled(s, step)
  {
    match step
    case Arrive(id) =>
      if s.active >= max then Move(s, id, Closing(false, Normal)).(decrements := s.decrements[id := 0])
      else Move(s, id, Processing).(active := s.active + 1, decrements := s.decrements[id := 0])
    case CloseEarly(id) => s.(closed := s.closed + {id})
    case Complete(id, how) => Move(s, id, AfterBlock(s.at[id], how))
    case Decrement(id) =>
      var counted := Move(s, id, Closing(true, s.at[id].pending));
      counted.(active := s.active - 1,
               decrements := s.decrements[id := (if id in s.decrements then s.decrements[id] else 0) + 1])
    case CloseWriter(id) =>
      var point := s.at[id];
      if id in s.closed then Move(s, id, Ended(point.counted, point.pending))
      else Move(s, id, Waiting(point.counted, point.pending)).(closed := s.closed + {id})
    case WriterEnds(id, how) =>
      // an OSError is swallowed; a cancellation takes the place of what was pending
      var point := s.at[id];
      Move(s, id, Ended(point.counted, if how.Cancels? then Cancels else point.pending))
  }

  // ---------------------------------------------------------------- what every step keeps

  /** Between the increment and the decrement. */
  predicate Counts(point: Point) { point.Processing? || point.Logging? || point.Finally? }

  /** Past the decrement, having passed the increment. */
  predicate PastDecrement(point: Point) { (point.Closing? || point.Waiting? || point.Ended?) && point.counted }

  /** An exception is on its way out of the handler. */
  predicate Escaping(point: Point) {
    match point
    case Finally(pending) => pending.Raises?
    case Closing(_, pending) => pending.Raises?
    case Waiting(_, pending) => pending.Raises?
    case Ended(_, how) => how.Raises?
    case _ => false
  }

  function Counted(at: map<nat, Point>): set<nat> { set id | id in at && Counts(at[id]) }

  /** What holds of one handler: its decrements, its writer, and that no exception is on its way. */
  predicate Settled(point: Point, decrements: nat, closed: bool) {
    && decrements == (if PastDecrement(point) then 1 else 0)
    && (point.Waiting? || point.Ended? ==> closed)
    && !Escaping(point)
  }

  ghost predicate Safe(max: int, s: State) {
    && s.active == |Counted(s.at)|
    && (s.active <= max || s.active == 0)
    && s.decrements.Keys == s.at.Keys && s.closed <= s.at.Keys
    && (forall id | id in s.at :: Settled(s.at[id], s.decrements[id], id in s.closed))
  }

  /** A step of one handler moves that handler alone, and the count follows whether it counts before and after. */
  lemma MoveCounts(s: State, id: nat, to: Point)
    ensures var before, after := Counted(s.at), Counted(Move(s, id, to).at);
            |after| == |before| + (if Counts(to) && id !in before then 1 else 0)
                                - (if !Counts(to) && id in before then 1 else 0)
  {
    var before, after := Counted(s.at), Counted(Move(s, id, to).at);
    if Counts(to) {
      assert after == before + {id};
    } else {
      assert after == before - {id};
    }
  }

  lemma StepKeepsCount(max: int, s: State, step: Step)
    requires Safe(max, s) && Enabled(s, step)
    ensures var t := Apply(max, s, step);
            && t.active == |Counted(t.at)| && (t.active <= max || t.active == 0)
            && t.decrements.Keys == t.at.Keys && t.closed <= t.at.Keys
  {
    var t := Apply(max, s, step);
    MoveCounts(s, step.id, t.at[step.id]);
    assert t.at == Move(s, step.id, t.at[step.id]).at;
    hide Counted, Settled;
  }

  lemma StepSettles(max: int, s: State, step: Step, id: nat)
    requires Safe(max, s) && Enabled(s, step) && id in Apply(max, s, step).at
    ensures var t := Apply(max, s, step);
            id in t.decrements && Settled(t.at[id], t.decrements[id], id in t.closed)
  {
    hide Counted;
  }

  lemma StepKeepsSafe(max: int, s: State, step: Step)
    requires Safe(max, s) && Enabled(s, step)
    ensures Safe(max, Apply(max, s, step))
  {
    var t := Apply(max, s, step);
    StepKeepsCount(max, s, step);
    hide Counted, Settled, Apply;
    forall id | id in t.at ensures Settled(t.at[id], t.decrements[id], id in t.closed) {
      StepSettles(max, s, step, id);
    }
  }

  ghost predicate Reaches(max: int, s: State, run: seq<Step>, t: State)
    decreases |run|
  {
    if run == [] then s == t
    else Enabled(s, run[0]) && Reaches(max, Apply(max, s, run[0]), run[1..], t)
  }

  lemma {:induction false} RunKeepsSafe(max: int, s: State, run: seq<Step>, t: State)
    requires Safe(max, s) && Reaches(max, s, run, t)
    ensures Safe(max, t)
    decreases |run|
  {
    hide Safe, Enabled, Apply;
    if run != [] {
      StepKeepsSafe(max, s, run[0]);
      RunKeepsSafe(max, Apply(max, s, run[0]), run[1..], t);
    }
  }

  // ---------------------------------------------------------------- runs

  function Arrivals(run: seq<Step>): set<nat> { set k | 0 <= k < |run| && run[k].Arrive? :: run[k].id }

  lemma ArrivalsStep(run: seq<Step>)
    requires run != []
    ensures Arrivals(run) == Arrivals(run[1..]) + if run[0].Arrive? then {run[0].id} else {}
  {
    var later := run[1..];
    forall k | 0 <= k < |later| && later[k].Arrive? ensures later[k].id in Arrivals(run) {
      assert run[k + 1] == later[k];
    }
    forall k | 0 < k < |run| && run[k].Arrive? ensures run[k].id in Arrivals(later) {
      assert later[k - 1] == run[k];
    }
  }

  /** No arrived connection is ever lost track of. */
  lemma {:induction false} RunTracksArrivals(max: int, s: State, run: seq<Step>, t: State)
    requires Reaches(max, s, run, t)
    ensures t.at.Keys == s.at.Keys + Arrivals(run)
    decreases |run|
  {
    if run != [] {
      ArrivalsStep(run);
      RunTracksArrivals(max, Apply(max, s, run[0]), run[1..], t);
    }
  }

  /** How often a handler passes its decrement in a run. */
  function DecrementSteps(run: seq<Step>, id: nat): nat {
    if run == [] then 0 else (if run[0] == Decrement(id) then 1 else 0) + DecrementSteps(run[1..], id)
  }

  function Decrements(s: State, id: nat): nat { if id in s.decrements then s.decrements[id] else 0 }

  lemma {:induction false} DecrementsAreSteps(max: int, s: State, run: seq<Step>, t: State, id: nat)
    requires Reaches(max, s, run, t) && Safe(max, s)
    ensures Decrements(t, id) == Decrements(s, id) + DecrementSteps(run, id)
    decreases |run|
  {
    if run != [] {
      StepKeepsSafe(max, s, run[0]);
      DecrementsAreSteps(max, Apply(max, s, run[0]), run[1..], t, id);
    }
  }

  /**
   In every run of an idle listener the counter is the number of handlers between increment and decrement,
   and within the cap. A handler passes the decrement once it is past it and never again, whether it
   returned, raised or was cancelled; one that was turned away never does.
   */
  lemma CapHolds(max: int, run: seq<Step>, t: State)
    requires Reaches(max, INIT, run, t)
    ensures t.active == |Counted(t.at)| && 0 <= t.active <= if max >= 0 then max else 0
    ensures t.at.Keys == Arrivals(run)
    ensures forall id | id in t.at :: DecrementSteps(run, id) == if PastDecrement(t.at[id]) then 1 else 0
  {
    InitIsSafe(max);
    RunKeepsSafe(max, INIT, run, t);
    RunTracksArrivals(max, INIT, run, t);
    forall id | id in t.at ensures DecrementSteps(run, id) == if PastDecrement(t.at[id]) then 1 else 0 {
      DecrementsAreSteps(max, INIT, run, t, id);
    }
  }

  lemma InitIsSafe(max: int)
    ensures Safe(max, INIT)
  {
    assert Counted(INIT.at) == {};
  }

  /**
   When all handlers have ended, however they did, the counter is back at 0 and every writer is closed;
   and none ended by an exception.
   */
  lemma AllEnded(max: int, run: seq<Step>, t: State)
    requires Reaches(max, INIT, run, t) && forall id | id in t.at :: t.at[id].Ended?
    ensures t.active == 0 && t.closed == Arrivals(run)
    ensures forall id | id in t.at :: !t.at[id].how.Raises?
  {
    InitIsSafe(max);
    RunKeepsSafe(max, INIT, run, t);
    RunTracksArrivals(max, INIT, run, t);
    assert Counted(t.at) == {};
  }

  /** A newcomer is turned away exactly when the handlers being counted are as many as the cap allows. */
  lemma ArrivalIsCapped(max: int, run: seq<Step>, s: State, id: nat)
    requires Reaches(max, INIT, run, s) && Enabled(s, Arrive(id))
    ensures var t := Apply(max, s, Arrive(id));
            && id in t.at
            && Counted(t.at) == Counted(s.at) + (if |Counted(s.at)| < max then {id} else {})
            && (t.at[id] == Closing(false, Normal) <==> |Counted(s.at)| >= max)
  {
    hide *;
    CapHolds(max, run, s);
    ArrivalCounts(max, s, id);
  }

  lemma ArrivalCounts(max: int, s: State, id: nat)
    requires Enabled(s, Arrive(id)) && s.active == |Counted(s.at)|
    ensures var t := Apply(max, s, Arrive(id));
            && id in t.at
            && Counted(t.at) == Counted(s.at) + (if |Counted(s.at)| < max then {id} else {})
            && (t.at[id] == Closing(false, Normal) <==> |Counted(s.at)| >= max)
  {
  }

  /** How many steps a handler has left at most, once its try block has completed. */
  function Rank(point: Point): nat {
    match point
    case Processing => 5
    case Logging => 4
    case Finally(_) => 3
    case Closing(_, _) => 2
    case Waiting(_, _) => 1
    case Ended(_, _) => 0
  }

  /**
   A handler that has not ended can always go on, and whatever step it takes out of a block brings it nearer its
   end.
   */
  lemma HandlersEnd(max: int, s: State, id: nat)
    requires id in s.at && !s.at[id].Ended?
    ensures exists step :: Enabled(s, step) && step.id == id && !step.CloseEarly?
    ensures forall step | Enabled(s, step) && step.id == id && !step.CloseEarly? ::
      Rank(Apply(max, s, step).at[id]) < Rank(s.at[id])
  {
    var step := match s.at[id]
      case Processing => Complete(id, Normal)
      case Logging => Complete(id, Normal)
      case Finally(_) => Decrement(id)
      case Closing(_, _) => CloseWriter(id)
      case _ => WriterEnds(id, Normal);
    assert Enabled(s, step) && step.id == id;
  }

  // ---------------------------------------------------------------- how a handler ends

  /** What can happen: any connection may arrive, a body may complete in any way, and so may the wait for a writer. */
  lemma HandlerChoices(s: State, id: nat)
    ensures Enabled(s, Arrive(id)) <==> id !in s.at
    ensures id in s.at && s.at[id].Processing? ==>
      Enabled(s, CloseEarly(id)) && forall how :: Enabled(s, Complete(id, how))
    ensures id in s.at && s.at[id].Waiting? ==> forall how :: Enabled(s, WriterEnds(id, how))
  {
  }

  /** The handler is on its way out, or gone, with a cancellation. */
  predicate Cancelled(point: Point) {
    match point
    case Finally(pending) => pending.Cancels?
    case Closing(_, pending) => pending.Cancels?
    case Waiting(_, pending) => pending.Cancels?
    case Ended(_, how) => how.Cancels?
    case _ => false
  }

  predicate IsCancel(step: Step, id: nat) { step == Complete(id, Cancels) || step == WriterEnds(id, Cancels) }

  lemma StepCancels(max: int, s: State, step: Step, id: nat)
    requires Enabled(s, step)
    ensures var t := Apply(max, s, step);
            id in t.at && Cancelled(t.at[id]) <==> (id in s.at && Cancelled(s.at[id])) || IsCancel(step, id)
  {
  }

  /**
   A cancellation is not swallowed: a handler leaves with one exactly if it was cancelled in its body or while
   its writer closed.
   */
  lemma {:induction false} CancellationsGoThrough(max: int, s: State, run: seq<Step>, t: State, id: nat)
    requires Reaches(max, s, run, t)
    ensures id in t.at && Cancelled(t.at[id]) <==>
            (id in s.at && Cancelled(s.at[id])) || exists step :: step in run && IsCancel(step, id)
    decreases |run|
  {
    hide Cancelled, IsCancel, Apply;
    if run != [] {
      assert run == [run[0]] + run[1..];
      StepCancels(max, s, run[0], id);
      CancellationsGoThrough(max, Apply(max, s, run[0]), run[1..], t, id);
    }
  }
}
