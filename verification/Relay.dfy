/**
 Byte relaying between two connections, as a step system: two pumps that take turns at every await,
 errors on either side, cancellation of the slower pump, and cancellation of the relay itself.

 `blind_relay` with `splice`, and `raw_passthrough`, differ in what they replay before the pumps start,
 in whether they close the client's writer, and in whether a write to the client is one step.
 */
module Relay {
  import opened Basics
  import opened Listener

  const CHUNK := 65536

  datatype Side = Client | Remote

  datatype End = Eof | Errored | Cancelled

  /** Where a pump is suspended. */
  datatype Phase = Reading | Writing(data: bytes) | Draining | Ended(how: End)

  /**
   One direction: all the bytes its source ever sends, how many were read, and what its sink was given.
   A write is one step, unless the sink is a stream whose write awaits: that one can be cut short.
   */
  datatype Pump = Pump(source: bytes, taken: nat, written: bytes, phase: Phase, piecewise: bool)

  datatype Stage =
    | Replaying(pending: seq<Side>)
    | Abandoned // the replay failed or was cancelled
    | Waiting
    | Gathering(interrupted: bool, cut: bool) // cancelled while waiting; cancelled since
    | Exited(returned: bool)

  datatype State = State(
    toRemote: Pump, toClient: Pump, remoteReplay: bytes, clientReplay: bytes,
    closesClient: bool, clientClosed: bool, remoteClosed: bool, stage: Stage)

  datatype Action = Read(n: nat) | Write(n: nat) | Drained | SeeEof | Fail | TakeCancel

  datatype Step =
    | Replay
    | ReplayFails(n: nat)
    | Start
    | Pumps(side: Side, action: Action)
    | FirstDone // the wait for the first pump to end is over
    | Gathered  // both pumps have ended
    | Interrupt // the relay itself is cancelled

  function NewPump(source: bytes, piecewise: bool): Pump { Pump(source, 0, [], Reading, piecewise) }

  /** `blind_relay` once the destination is connected: replay the buffered bytes, then splice. */
  function BlindRelay(clientBytes: bytes, remoteBytes: bytes, prebuffered: bytes): State {
    State(NewPump(clientBytes, false), NewPump(remoteBytes, false), prebuffered, [], true, false, false,
          Replaying(if prebuffered != [] then [Remote] else []))
  }

  /** `raw_passthrough`: replay to the client, then upstream, then pump; only the upstream writer is closed. */
  function Passthrough(clientBytes: bytes, remoteBytes: bytes, toUpstream: bytes, toClient: bytes): State {
    State(NewPump(clientBytes, false), NewPump(remoteBytes, true), toUpstream, toClient, false, false, false,
          Replaying((if toClient != [] then [Client] else []) + (if toUpstream != [] then [Remote] else [])))
  }

  function SinkPump(s: State, side: Side): Pump { if side.Remote? then s.toRemote else s.toClient }

  function ReplayTo(s: State, side: Side): bytes { if side.Remote? then s.remoteReplay else s.clientReplay }

  function WithPump(s: State, side: Side, p: Pump): State {
    if side.Remote? then s.(toRemote := p) else s.(toClient := p)
  }

  predicate ActionEnabled(p: Pump, action: Action) {
    match action
    case Read(n) => p.phase.Reading? && 0 < n <= CHUNK && p.taken + n <= |p.source|
    case Write(n) => p.phase.Writing? && 0 < n <= |p.phase.data| && (p.piecewise || n == |p.phase.data|)
    case Drained => p.phase.Draining?
    case SeeEof => p.phase.Reading? && p.taken == |p.source|
    case Fail => !p.phase.Ended?
    case TakeCancel => p.phase.Reading? || p.phase.Draining? || (p.phase.Writing? && p.piecewise)
  }

  function Act(p: Pump, action: Action): Pump
    requires ActionEnabled(p, action)
  {
    match action
    case Read(n) => p.(taken := p.taken + n, phase := Writing(p.source[p.taken..p.taken + n]))
    case Write(n) =>
      var data := p.phase.data;
      p.(written := p.written + data[..n], phase := if n == |data| then Draining else Writing(data[n..]))
    case Drained => p.(phase := Reading)
    case SeeEof => p.(phase := Ended(Eof))
    case Fail => p.(phase := Ended(Errored))
    case TakeCancel => p.(phase := Ended(Cancelled))
  }

  predicate Enabled(s: State, step: Step) {
    match step
    case Replay => s.stage.Replaying? && s.stage.pending != []
    case ReplayFails(n) => s.stage.Replaying? && s.stage.pending != [] && n <= |ReplayTo(s, s.stage.pending[0])|
    case Start => s.stage.Replaying? && s.stage.pending == []
    case Pumps(side, action) =>
      && (s.stage.Waiting? || s.stage.Gathering?)
      && (action.TakeCancel? ==> s.stage.Gathering?)
      && ActionEnabled(SinkPump(s, side), action)
    case FirstDone => s.stage.Waiting? && (s.toRemote.phase.Ended? || s.toClient.phase.Ended?)
    case Gathered => s.stage.Gathering? && s.toRemote.phase.Ended? && s.toClient.phase.Ended?
    case Interrupt => !Over(s)
  }

  predicate Over(s: State) { s.stage.Abandoned? || s.stage.Exited? }

  function Apply(s: State, step: Step): State
    requires Enabled(s, step)
  {
    match step
    case Replay =>
      var side := s.stage.pending[0];
      var p := SinkPump(s, side);
      WithPump(s, side, p.(written := p.written + ReplayTo(s, side))).(stage := Replaying(s.stage.pending[1..]))
    case ReplayFails(n) =>
      var side := s.stage.pending[0];
      var p := SinkPump(s, side);
      WithPump(s, side, p.(written := p.written + ReplayTo(s, side)[..n])).(stage := Abandoned)
    case Start => s.(stage := Waiting)
    case Pumps(side, action) => WithPump(s, side, Act(SinkPump(s, side), action))
    case FirstDone => s.(stage := Gathering(false, false))
    case Gathered =>
      if s.stage.cut then s.(stage := Exited(false))
      else s.(remoteClosed := true, clientClosed := s.closesClient, stage := Exited(!s.stage.interrupted))
    case Interrupt =>
      s.(stage := if s.stage.Replaying? then Abandoned
                  else if s.stage.Waiting? then Gathering(true, false)
                  else Gathering(s.stage.interrupted, true))
  }

  // ---------------------------------------------------------------- what every step keeps

  /** What a pump has passed on, given what was replayed to its sink first. */
  ghost predicate Faithful(p: Pump, replay: bytes) {
    && p.taken <= |p.source|
    && match p.phase
       case Writing(data) => data != [] && p.written + data == replay + p.source[..p.taken]
       case Ended(Eof) => p.taken == |p.source| && p.written == replay + p.source
       case Ended(how) =>
         && p.written <= replay + p.source[..p.taken]
         && (how.Cancelled? && !p.piecewise ==> p.written == replay + p.source[..p.taken])
       case _ => p.written == replay + p.source[..p.taken]
  }

  ghost predicate Untouched(p: Pump) { p.taken == 0 && p.phase.Reading? }

  /** The pump came to an end without being cancelled. */
  predicate EndedItself(p: Pump) { p.phase.Ended? && !p.phase.how.Cancelled? }

  ghost predicate Good(s: State) {
    && (!s.stage.Exited? ==> !s.clientClosed && !s.remoteClosed)
    && match s.stage
       case Replaying(pending) =>
         && Untouched(s.toRemote) && Untouched(s.toClient)
         && s.toRemote.written == (if Remote in pending then [] else s.remoteReplay)
         && s.toClient.written == (if Client in pending then [] else s.clientReplay)
         && (pending == [] || pending == [Remote] || pending == [Client] || pending == [Client, Remote])
       case Abandoned =>
         && Untouched(s.toRemote) && Untouched(s.toClient)
         && s.toRemote.written <= s.remoteReplay && s.toClient.written <= s.clientReplay
       case _ =>
         Faithful(s.toRemote, s.remoteReplay) && Faithful(s.toClient, s.clientReplay) && GoodEnds(s)
  }

  /** Which pumps have ended, and how, while they run and after. */
  ghost predicate GoodEnds(s: State) {
    var someItself := EndedItself(s.toRemote) || EndedItself(s.toClient);
    match s.stage
    case Waiting =>
      (s.toRemote.phase.Ended? ==> EndedItself(s.toRemote)) && (s.toClient.phase.Ended? ==> EndedItself(s.toClient))
    case Gathering(interrupted, _) => interrupted || someItself
    case Exited(returned) =>
      s.toRemote.phase.Ended? && s.toClient.phase.Ended? && (returned ==> someItself && s.remoteClosed)
    case _ => true
  }

  lemma ActKeepsFaithful(p: Pump, replay: bytes, action: Action)
    requires Faithful(p, replay) && ActionEnabled(p, action)
    ensures Faithful(Act(p, action), replay)
    ensures p.written <= Act(p, action).written && Act(p, action).source == p.source
  {
    match action
    case Read(n) =>
      assert p.source[..p.taken] + p.source[p.taken..p.taken + n] == p.source[..p.taken + n];
      var a, b, c := replay, p.source[..p.taken], p.source[p.taken..p.taken + n];
      assert a + b + c == a + (b + c);
    case Write(n) =>
      var data := p.phase.data;
      assert p.written + data == p.written + data[..n] + data[n..];
      assert n == |data| ==> data[..n] == data;
    case SeeEof =>
      assert p.source[..p.taken] == p.source;
    case _ =>
  }

  lemma PumpingKeepsGood(s: State, side: Side, action: Action)
    requires Good(s) && Enabled(s, Pumps(side, action))
    ensures Keeps(s, Apply(s, Pumps(side, action)))
  {
    ActKeepsFaithful(SinkPump(s, side), ReplayTo(s, side), action);
    hide Faithful;
  }

  lemma ReplayKeepsGood(s: State)
    requires Good(s) && Enabled(s, Replay)
    ensures Keeps(s, Apply(s, Replay))
  {
    hide Faithful, GoodEnds;
    var side := s.stage.pending[0];
    assert [] + ReplayTo(s, side) == ReplayTo(s, side);
    assert s.stage.pending[1..] == if s.stage.pending == [Client, Remote] then [Remote] else [];
  }

  lemma ReplayFailsKeepsGood(s: State, n: nat)
    requires Good(s) && Enabled(s, ReplayFails(n))
    ensures Keeps(s, Apply(s, ReplayFails(n)))
  {
    hide Faithful, GoodEnds;
    var part := ReplayTo(s, s.stage.pending[0])[..n];
    assert [] + part == part;
  }

  lemma StartingKeepsGood(s: State)
    requires Good(s) && Enabled(s, Start)
    ensures Keeps(s, Apply(s, Start))
  {
    FreshIsFaithful(s.toRemote, s.remoteReplay);
    FreshIsFaithful(s.toClient, s.clientReplay);
    hide Faithful;
  }

  lemma FreshIsFaithful(p: Pump, replay: bytes)
    requires Untouched(p) && p.written == replay
    ensures Faithful(p, replay)
  {
    assert p.source[..0] == [] && replay + [] == replay;
  }

  /** Every step keeps the invariant, and never takes back a byte. */
  lemma StepKeepsGood(s: State, step: Step)
    requires Good(s) && Enabled(s, step)
    ensures Keeps(s, Apply(s, step))
  {
    if step.Pumps? {
      PumpingKeepsGood(s, step.side, step.action);
    } else if step.Start? {
      StartingKeepsGood(s);
    } else if step.Replay? {
      ReplayKeepsGood(s);
    } else if step.ReplayFails? {
      ReplayFailsKeepsGood(s, step.n);
    } else {
      hide Faithful;
    }
  }

  ghost predicate Keeps(s: State, t: State) {
    Good(t) && SameStreams(s, t) && s.toRemote.written <= t.toRemote.written && s.toClient.written <= t.toClient.written
  }

  ghost predicate SameStreams(s: State, t: State) {
    && s.toRemote.source == t.toRemote.source && s.toClient.source == t.toClient.source
    && s.remoteReplay == t.remoteReplay && s.clientReplay == t.clientReplay && s.closesClient == t.closesClient
  }

  ghost predicate Reaches(s: State, run: seq<Step>, t: State)
    decreases |run|
  {
    if run == [] then s == t
    else Enabled(s, run[0]) && Reaches(Apply(s, run[0]), run[1..], t)
  }

  lemma {:induction false} RunKeepsGood(s: State, run: seq<Step>, t: State)
    requires Good(s) && Reaches(s, run, t)
    ensures Keeps(s, t)
    decreases |run|
  {
    hide Good, SameStreams, Enabled, Apply;
    if run != [] {
      StepKeepsGood(s, run[0]);
      RunKeepsGood(Apply(s, run[0]), run[1..], t);
      SameStreamsJoin(s, Apply(s, run[0]), t);
    } else {
      SameStreamsSelf(s);
    }
  }

  lemma SameStreamsJoin(s: State, t: State, u: State)
    requires SameStreams(s, t) && SameStreams(t, u)
    ensures SameStreams(s, u)
  {
  }

  lemma SameStreamsSelf(s: State)
    ensures SameStreams(s, s)
  {
  }

  // ---------------------------------------------------------------- when the writers are closed

  /** What happens after the relay stops waiting: once the first pump has ended, or it was cancelled before that. */
  function CleanUp(run: seq<Step>): seq<Step> {
    if run == [] then [] else if run[0].FirstDone? || run[0].Interrupt? then run[1..] else CleanUp(run[1..])
  }

  /** The pumps were started, and the relay was not cancelled between the end of its wait and the end of its pumps. */
  ghost predicate CleansUp(run: seq<Step>) { Start in run && Interrupt !in CleanUp(run) }

  /** The clean-up is reached from this stage, if the rest of the run is this. */
  ghost predicate WillCleanUp(stage: Stage, rest: seq<Step>) {
    match stage
    case Replaying(_) => CleansUp(rest)
    case Waiting => Interrupt !in CleanUp(rest)
    case Gathering(_, cut) => !cut && Interrupt !in rest
    case _ => false
  }

  /** Nothing has cancelled the relay so far, and nothing does in the rest. */
  ghost predicate WillReturn(stage: Stage, rest: seq<Step>) {
    && Interrupt !in rest
    && match stage
       case Replaying(_) => Start in rest
       case Waiting => true
       case Gathering(interrupted, cut) => !interrupted && !cut
       case _ => false
  }

  lemma {:induction false} ExitDecided(s: State, run: seq<Step>, t: State)
    requires !Over(s) && !s.remoteClosed && !s.clientClosed && Reaches(s, run, t) && Over(t)
    ensures t.remoteClosed <==> WillCleanUp(s.stage, run)
    ensures t.clientClosed <==> t.remoteClosed && s.closesClient
    ensures t.stage == Exited(true) <==> WillReturn(s.stage, run)
    decreases |run|
  {
    var u := Apply(s, run[0]);
    assert run == [run[0]] + run[1..];
    hide ActionEnabled, Act, WillCleanUp, WillReturn;
    if Over(u) {
      NothingAfter(u, run[1..], t);
      LastStep(s, run);
    } else {
      ExitDecided(u, run[1..], t);
      NextStep(s, run);
    }
  }

  lemma NothingAfter(s: State, run: seq<Step>, t: State)
    requires Over(s) && Reaches(s, run, t)
    ensures run == [] && s == t
  {
  }

  lemma LastStep(s: State, run: seq<Step>)
    requires run != [] && run[1..] == [] && Enabled(s, run[0]) && !Over(s) && Over(Apply(s, run[0]))
    requires !s.remoteClosed && !s.clientClosed
    ensures var u := Apply(s, run[0]);
            && (u.remoteClosed <==> WillCleanUp(s.stage, run))
            && (u.clientClosed <==> u.remoteClosed && s.closesClient)
            && (u.stage == Exited(true) <==> WillReturn(s.stage, run))
  {
    assert run == [run[0]];
  }

  lemma NextStep(s: State, run: seq<Step>)
    requires run != [] && Enabled(s, run[0]) && !Over(s) && !Over(Apply(s, run[0]))
    requires !s.remoteClosed && !s.clientClosed
    ensures var u := Apply(s, run[0]);
            && (WillCleanUp(u.stage, run[1..]) <==> WillCleanUp(s.stage, run))
            && (WillReturn(u.stage, run[1..]) <==> WillReturn(s.stage, run))
            && u.closesClient == s.closesClient && !u.remoteClosed && !u.clientClosed
  {
    assert run == [run[0]] + run[1..];
    hide ActionEnabled, Act;
  }

  // ---------------------------------------------------------------- that it can go on

  /**
   What can happen to a pump: reads of any size up to a chunk and what is left, and an end of stream after the
   last byte.
   */
  lemma PumpChoices(p: Pump)
    requires p.taken <= |p.source|
    ensures p.phase.Reading? ==>
      && (forall n: nat :: ActionEnabled(p, Read(n)) <==> 1 <= n <= 65536 && n <= |p.source| - p.taken)
      && (ActionEnabled(p, SeeEof) <==> p.taken == |p.source|)
    ensures p.phase.Writing? ==>
      forall n: nat :: ActionEnabled(p, Write(n)) <==>
                       n == |p.phase.data| > 0 || (p.piecewise && 1 <= n <= |p.phase.data|)
    ensures p.phase.Draining? ==> ActionEnabled(p, Drained)
    ensures ActionEnabled(p, Fail) <==> !p.phase.Ended?
    ensures ActionEnabled(p, TakeCancel) <==> !p.phase.Ended? && !(p.phase.Writing? && !p.piecewise)
  {
  }

  predicate IsSmooth(action: Action) { !action.Fail? && !action.TakeCancel? }

  ghost predicate CanRun(p: Pump) { p.taken <= |p.source| && (p.phase.Writing? ==> p.phase.data != []) }

  /** How far a pump is from its end. */
  function Rank(p: Pump): nat
    requires p.taken <= |p.source|
  {
    var rest := |p.source| - p.taken;
    match p.phase
    case Reading => 4 * rest + 1
    case Writing(data) => 4 * rest + 3 + |data|
    case Draining => 4 * rest + 2
    case Ended(_) => 0
  }

  /** A pump that has not ended can go on by itself, and however it does, it comes nearer its end. */
  lemma PumpsEnd(p: Pump)
    requires CanRun(p) && !p.phase.Ended?
    ensures exists action :: ActionEnabled(p, action) && IsSmooth(action)
    ensures forall action | ActionEnabled(p, action) && IsSmooth(action) ::
      CanRun(Act(p, action)) && Rank(Act(p, action)) < Rank(p)
  {
    var action := NextAction(p);
  }

  /** One way to go on: the most there is to read, or all there is to write. */
  function NextAction(p: Pump): (action: Action)
    requires CanRun(p) && !p.phase.Ended?
    ensures ActionEnabled(p, action) && IsSmooth(action)
  {
    match p.phase
    case Reading =>
      var rest := |p.source| - p.taken;
      if rest == 0 then SeeEof else Read(if rest < CHUNK then rest else CHUNK)
    case Writing(data) => Write(|data|)
    case Draining => Drained
  }

  /** No failure, and no cancellation of a pump or of the relay. */
  predicate IsQuiet(step: Step) {
    match step
    case ReplayFails(_) => false
    case Interrupt => false
    case Pumps(_, action) => IsSmooth(action)
    case _ => true
  }

  ghost predicate QuietRun(s: State, run: seq<Step>, t: State) {
    Reaches(s, run, t) && forall step | step in run :: IsQuiet(step)
  }

  lemma QuietNext(s: State, step: Step, run: seq<Step>, t: State)
    requires Enabled(s, step) && IsQuiet(step) && QuietRun(Apply(s, step), run, t)
    ensures QuietRun(s, [step] + run, t)
  {
    assert ([step] + run)[1..] == run;
    hide Enabled, Apply, IsQuiet;
  }

  lemma QuietNothing(s: State)
    ensures QuietRun(s, [], s)
  {
  }

  lemma GoodCanRun(s: State)
    requires Good(s) && (s.stage.Waiting? || s.stage.Gathering?)
    ensures CanRun(s.toRemote) && CanRun(s.toClient)
  {
  }

  /**
   From wherever its pumps are, if none has failed, a relay can go on quietly until both have seen the end of
   their streams.
   */
  lemma {:induction false} PumpsCanFinish(s: State) returns (run: seq<Step>, t: State)
    requires Good(s) && s.stage.Waiting?
    requires forall side :: SinkPump(s, side).phase.Ended? ==> SinkPump(s, side).phase.how.Eof?
    ensures QuietRun(s, run, t) && Good(t) && t.stage.Waiting? && SameStreams(s, t)
    ensures t.toRemote.phase == Ended(Eof) && t.toClient.phase == Ended(Eof)
    decreases PumpsRank(s)
  {
    hide Good, SameStreams, Reaches, QuietRun, Enabled, Apply, IsQuiet;
    assert SinkPump(s, Remote) == s.toRemote && SinkPump(s, Client) == s.toClient;
    if s.toRemote.phase.Ended? && s.toClient.phase.Ended? {
      run, t := [], s;
      QuietNothing(s);
      SameStreamsSelf(s);
    } else {
      var step, u := PumpsGoOn(s);
      var rest;
      rest, t := PumpsCanFinish(u);
      QuietNext(s, step, rest, t);
      SameStreamsJoin(s, u, t);
      run := [step] + rest;
    }
  }

  lemma PumpsGoOn(s: State) returns (step: Step, t: State)
    requires Good(s) && s.stage.Waiting? && !(s.toRemote.phase.Ended? && s.toClient.phase.Ended?)
    requires forall side :: SinkPump(s, side).phase.Ended? ==> SinkPump(s, side).phase.how.Eof?
    ensures Enabled(s, step) && IsQuiet(step) && t == Apply(s, step)
    ensures Good(t) && t.stage.Waiting? && SameStreams(s, t) && PumpsRank(t) < PumpsRank(s)
    ensures forall side :: SinkPump(t, side).phase.Ended? ==> SinkPump(t, side).phase.how.Eof?
  {
    GoodCanRun(s);
    hide Good, SameStreams, Faithful, Act, ActionEnabled, Rank;
    var side := if s.toRemote.phase.Ended? then Client else Remote;
    var p := SinkPump(s, side);
    assert SinkPump(s, Remote) == s.toRemote && SinkPump(s, Client) == s.toClient;
    var action := NextAction(p);
    step := Pumps(side, action);
    t := Apply(s, step);
    PumpsEnd(p);
    StepKeepsGood(s, step);
    SmoothEnds(p, action);
  }

  ghost function PumpsRank(s: State): nat
    requires Good(s) && (s.stage.Waiting? || s.stage.Gathering?)
  {
    GoodCanRun(s);
    Rank(s.toRemote) + Rank(s.toClient)
  }

  lemma SmoothEnds(p: Pump, action: Action)
    requires ActionEnabled(p, action) && IsSmooth(action) && !p.phase.Ended?
    ensures Act(p, action).phase.Ended? ==> Act(p, action).phase.how.Eof?
  {
  }

  /** From any point before its pumps start, a relay can replay, deliver every byte both ways, return, and close. */
  lemma {:induction false} CanDeliver(s: State) returns (run: seq<Step>, t: State)
    requires Good(s) && s.stage.Replaying?
    ensures QuietRun(s, run, t) && t.stage == Exited(true)
    ensures t.toRemote.written == s.remoteReplay + s.toRemote.source
    ensures t.toClient.written == s.clientReplay + s.toClient.source
    ensures t.remoteClosed && t.clientClosed == s.closesClient
    decreases |s.stage.pending|
  {
    var step := if s.stage.pending != [] then Replay else Start;
    var u := Apply(s, step);
    StepKeepsGood(s, step);
    var rest;
    if step.Replay? {
      rest, t := CanDeliver(u);
    } else {
      FreshPumps(s);
      rest, t := CanFinish(u);
    }
    QuietNext(s, step, rest, t);
    run := [step] + rest;
    hide Good, QuietRun, Reaches;
  }

  lemma FreshPumps(s: State)
    requires Good(s) && Enabled(s, Start)
    ensures !s.toRemote.phase.Ended? && !s.toClient.phase.Ended?
  {
  }

  lemma CanFinish(s: State) returns (run: seq<Step>, t: State)
    requires Good(s) && s.stage.Waiting? && !s.toRemote.phase.Ended? && !s.toClient.phase.Ended?
    ensures QuietRun(s, run, t) && t.stage == Exited(true)
    ensures t.toRemote.written == s.remoteReplay + s.toRemote.source
    ensures t.toClient.written == s.clientReplay + s.toClient.source
    ensures t.remoteClosed && t.clientClosed == s.closesClient
  {
    hide Good, QuietRun, Reaches;
    var pumping, u := PumpsCanFinish(s);
    DeliveredAll(u);
    var gathering := Apply(u, FirstDone);
    t := Apply(gathering, Gathered);
    QuietNothing(t);
    QuietNext(gathering, Gathered, [], t);
    QuietNext(u, FirstDone, [Gathered] + [], t);
    run := pumping + ([FirstDone] + ([Gathered] + []));
    QuietJoin(s, pumping, u, [FirstDone] + ([Gathered] + []), t);
  }

  lemma DeliveredAll(s: State)
    requires Good(s) && s.stage.Waiting? && s.toRemote.phase == Ended(Eof) && s.toClient.phase == Ended(Eof)
    ensures s.toRemote.written == s.remoteReplay + s.toRemote.source
    ensures s.toClient.written == s.clientReplay + s.toClient.source
  {
  }

  lemma {:induction false} QuietJoin(s: State, a: seq<Step>, t: State, b: seq<Step>, u: State)
    requires QuietRun(s, a, t) && QuietRun(t, b, u)
    ensures QuietRun(s, a + b, u)
    decreases |a|
  {
    hide Enabled, Apply, IsQuiet;
    if a == [] {
      assert a + b == b;
    } else {
      assert (a + b)[1..] == a[1..] + b && (a + b)[0] == a[0];
      QuietJoin(Apply(s, a[0]), a[1..], t, b, u);
    }
  }

  /**
   Once it gathers, cancelled or not, a relay can come to its end without failing: every pump can be cancelled
   or finish its write.
   */
  lemma {:induction false} GatheringCanEnd(s: State) returns (run: seq<Step>, t: State)
    requires Good(s) && s.stage.Gathering?
    ensures Reaches(s, run, t) && Over(t)
    ensures forall step | step in run :: step.Gathered? || (step.Pumps? && !step.action.Fail?)
    decreases PumpsRank(s)
  {
    hide Good, Reaches, Enabled, Apply;
    if s.toRemote.phase.Ended? && s.toClient.phase.Ended? {
      t := LastGathered(s);
      run := [Gathered];
      Here(run, t);
      Then(s, run, 0, t);
      assert run[0..] == run;
    } else {
      var step, u := GatheringGoesOn(s);
      var rest;
      rest, t := GatheringCanEnd(u);
      run := [step] + rest;
      assert run[1..] == rest;
      Then(s, run, 0, t);
      assert run[0..] == run;
    }
  }

  lemma LastGathered(s: State) returns (t: State)
    requires s.stage.Gathering? && s.toRemote.phase.Ended? && s.toClient.phase.Ended?
    ensures Enabled(s, Gathered) && t == Apply(s, Gathered) && Over(t)
  {
    t := Apply(s, Gathered);
  }

  lemma GatheringGoesOn(s: State) returns (step: Step, t: State)
    requires Good(s) && s.stage.Gathering? && !(s.toRemote.phase.Ended? && s.toClient.phase.Ended?)
    ensures Enabled(s, step) && step.Pumps? && !step.action.Fail? && t == Apply(s, step)
    ensures Good(t) && t.stage.Gathering? && PumpsRank(t) < PumpsRank(s)
  {
    GoodCanRun(s);
    hide Good, Faithful;
    var side := if s.toRemote.phase.Ended? then Client else Remote;
    var p := SinkPump(s, side);
    var action := if ActionEnabled(p, TakeCancel) then TakeCancel else NextAction(p);
    step := Pumps(side, action);
    t := Apply(s, step);
    PumpsEnd(p);
    if action.TakeCancel? {
      CancelEnds(p);
    }
    StepKeepsGood(s, step);
    GoodCanRun(t);
    hide Act, ActionEnabled, Rank;
  }

  lemma CancelEnds(p: Pump)
    requires CanRun(p) && ActionEnabled(p, TakeCancel)
    ensures CanRun(Act(p, TakeCancel)) && Rank(Act(p, TakeCancel)) < Rank(p)
  {
  }

  // ---------------------------------------------------------------- the relays

  lemma FaithfulIsPrefix(p: Pump, replay: bytes)
    requires Faithful(p, replay)
    ensures p.written <= replay + p.source
    ensures p.phase == Ended(Eof) ==> p.written == replay + p.source
  {
    assert p.source == p.source[..p.taken] + p.source[p.taken..];
    assert replay + p.source == replay + p.source[..p.taken] + p.source[p.taken..];
  }

  /** Both peers have only been given, in order, what was replayed to them and then what the other peer sent. */
  lemma GoodIsTransparent(t: State)
    requires Good(t)
    ensures forall side :: SinkPump(t, side).written <= ReplayTo(t, side) + SinkPump(t, side).source
    ensures forall side :: SinkPump(t, side).phase == Ended(Eof) ==>
      SinkPump(t, side).written == ReplayTo(t, side) + SinkPump(t, side).source
  {
    if !t.stage.Replaying? && !t.stage.Abandoned? {
      FaithfulIsPrefix(t.toRemote, t.remoteReplay);
      FaithfulIsPrefix(t.toClient, t.clientReplay);
    }
  }

  /** Which way a relay that is over has ended: closing its writers or not, returning or raising. */
  ghost predicate EndsAsRun(run: seq<Step>, t: State) {
    && (t.remoteClosed <==> CleansUp(run))
    && (t.clientClosed <==> t.remoteClosed && t.closesClient)
    && (t.stage == Exited(true) <==> Start in run && Interrupt !in run)
    && (Start in run ==> t.toRemote.phase.Ended? && t.toClient.phase.Ended?)
    && (t.stage == Exited(true) ==> t.remoteClosed && (EndedItself(t.toRemote) || EndedItself(t.toClient)))
  }

  lemma RelayEnds(s: State, run: seq<Step>, t: State)
    requires Good(s) && s.stage.Replaying? && Reaches(s, run, t) && Over(t)
    ensures EndsAsRun(run, t)
  {
    RunKeepsGood(s, run, t);
    ExitDecided(s, run, t);
    StartedIsExited(s, run, t);
    hide Faithful, Reaches, CleansUp;
  }

  lemma {:induction false} StartedIsExited(s: State, run: seq<Step>, t: State)
    requires s.stage.Replaying? && Reaches(s, run, t) && Over(t)
    ensures t.stage.Exited? <==> Start in run
    decreases |run|
  {
    assert run == [run[0]] + run[1..];
    var u := Apply(s, run[0]);
    if u.stage.Replaying? {
      StartedIsExited(u, run[1..], t);
    } else if u.stage.Waiting? {
      NeverAbandoned(u, run[1..], t);
    } else {
      NothingAfter(u, run[1..], t);
    }
  }

  lemma {:induction false} NeverAbandoned(s: State, run: seq<Step>, t: State)
    requires !s.stage.Replaying? && !s.stage.Abandoned? && Reaches(s, run, t)
    ensures !t.stage.Abandoned?
    decreases |run|
  {
    if run != [] {
      NeverAbandoned(Apply(s, run[0]), run[1..], t);
    }
  }

  /**
   Whatever the interleaving: each peer has been given a prefix of what was replayed to it and what the
   other sent, all of it after end of stream. A relay that is over has closed both writers exactly if its
   pumps were started and it was not cancelled once they were being gathered; if it returned, it has.
   */
  lemma BlindRelayIsTransparent(clientBytes: bytes, remoteBytes: bytes, prebuffered: bytes, run: seq<Step>, t: State)
    requires Reaches(BlindRelay(clientBytes, remoteBytes, prebuffered), run, t)
    ensures t.toRemote.written <= prebuffered + clientBytes && t.toClient.written <= remoteBytes
    ensures t.toRemote.phase == Ended(Eof) ==> t.toRemote.written == prebuffered + clientBytes
    ensures t.toClient.phase == Ended(Eof) ==> t.toClient.written == remoteBytes
    ensures Over(t) ==> EndsAsRun(run, t) && t.closesClient
  {
    var s := BlindRelay(clientBytes, remoteBytes, prebuffered);
    RunKeepsGood(s, run, t);
    GoodIsTransparent(t);
    assert [] + remoteBytes == remoteBytes;
    hide EndsAsRun, Reaches, Good;
    assert t.toRemote == SinkPump(t, Remote) && t.toClient == SinkPump(t, Client);
    if Over(t) {
      assert Good(s) by { BlindRelayIsGood(clientBytes, remoteBytes, prebuffered); }
      RelayEnds(s, run, t);
    }
  }

  lemma BlindRelayIsGood(clientBytes: bytes, remoteBytes: bytes, prebuffered: bytes)
    ensures Good(BlindRelay(clientBytes, remoteBytes, prebuffered))
  {
  }

  lemma PassthroughIsGood(clientBytes: bytes, remoteBytes: bytes, toUpstream: bytes, toClient: bytes)
    ensures Good(Passthrough(clientBytes, remoteBytes, toUpstream, toClient))
  {
  }

  /** The same with replays both ways; the client's writer stays open. */
  lemma PassthroughIsTransparent(
      clientBytes: bytes, remoteBytes: bytes, toUpstream: bytes, toClient: bytes, run: seq<Step>, t: State)
    requires Reaches(Passthrough(clientBytes, remoteBytes, toUpstream, toClient), run, t)
    ensures t.toRemote.written <= toUpstream + clientBytes && t.toClient.written <= toClient + remoteBytes
    ensures t.toRemote.phase == Ended(Eof) ==> t.toRemote.written == toUpstream + clientBytes
    ensures t.toClient.phase == Ended(Eof) ==> t.toClient.written == toClient + remoteBytes
    ensures Over(t) ==> EndsAsRun(run, t) && !t.closesClient
  {
    var s := Passthrough(clientBytes, remoteBytes, toUpstream, toClient);
    PassthroughIsGood(clientBytes, remoteBytes, toUpstream, toClient);
    RunKeepsGood(s, run, t);
    GoodIsTransparent(t);
    hide EndsAsRun, Reaches, Good;
    assert t.toRemote == SinkPump(t, Remote) && t.toClient == SinkPump(t, Client);
    if Over(t) {
      RelayEnds(s, run, t);
    }
  }

  /** What can happen to a relay at each stage; cancellation can come at any time before its end. */
  lemma RelayChoices(s: State)
    ensures Enabled(s, Interrupt) <==> !Over(s)
    ensures s.stage.Waiting? ==>
      (Enabled(s, FirstDone) <==> s.toRemote.phase.Ended? || s.toClient.phase.Ended?)
    ensures s.stage.Gathering? ==>
      (Enabled(s, Gathered) <==> s.toRemote.phase.Ended? && s.toClient.phase.Ended?)
    ensures s.stage.Waiting? || s.stage.Gathering? ==> forall side, action ::
      Enabled(s, Pumps(side, action)) <==>
      ActionEnabled(SinkPump(s, side), action) && (action.TakeCancel? ==> s.stage.Gathering?)
    ensures s.stage.Replaying? && s.stage.pending != [] ==>
      Enabled(s, Replay) && forall n: nat | n <= |ReplayTo(s, s.stage.pending[0])| :: Enabled(s, ReplayFails(n))
  {
  }

  /** A quiet run of `blind_relay` delivers every byte, returns, and closes both writers. */
  lemma BlindRelayCanDeliver(clientBytes: bytes, remoteBytes: bytes, prebuffered: bytes)
      returns (run: seq<Step>, t: State)
    ensures QuietRun(BlindRelay(clientBytes, remoteBytes, prebuffered), run, t) && t.stage == Exited(true)
    ensures t.toRemote.written == prebuffered + clientBytes && t.toClient.written == remoteBytes
    ensures t.remoteClosed && t.clientClosed
  {
    BlindRelayIsGood(clientBytes, remoteBytes, prebuffered);
    run, t := CanDeliver(BlindRelay(clientBytes, remoteBytes, prebuffered));
    assert [] + remoteBytes == remoteBytes;
    hide QuietRun, Reaches;
  }

  /** And one of `raw_passthrough`; the client's writer stays open. */
  lemma PassthroughCanDeliver(clientBytes: bytes, remoteBytes: bytes, toUpstream: bytes, toClient: bytes)
      returns (run: seq<Step>, t: State)
    ensures QuietRun(Passthrough(clientBytes, remoteBytes, toUpstream, toClient), run, t) && t.stage == Exited(true)
    ensures t.toRemote.written == toUpstream + clientBytes && t.toClient.written == toClient + remoteBytes
    ensures t.remoteClosed && !t.clientClosed
  {
    PassthroughIsGood(clientBytes, remoteBytes, toUpstream, toClient);
    run, t := CanDeliver(Passthrough(clientBytes, remoteBytes, toUpstream, toClient));
    hide QuietRun, Reaches;
  }

  /** One cancellation, after a pump has ended by itself and before the other is gathered, leaves both writers open. */
  lemma CancelledWhileGathering() returns (run: seq<Step>, t: State)
    ensures Reaches(BlindRelay([], [], []), run, t) && t.stage == Exited(false)
    ensures multiset(run)[Interrupt] == 1 && t.toRemote.phase == Ended(Eof)
    ensures !t.clientClosed && !t.remoteClosed
  {
    hide Reaches;
    var eof, cancel := Pumps(Remote, SeeEof), Pumps(Client, TakeCancel);
    var s0 := BlindRelay([], [], []);
    var s1 := s0.(stage := Waiting);
    var s2 := s1.(toRemote := s1.toRemote.(phase := Ended(Eof)));
    var s3 := s2.(stage := Gathering(false, false));
    var s4 := s3.(stage := Gathering(false, true));
    var s5 := s4.(toClient := s4.toClient.(phase := Ended(Cancelled)));
    t := s5.(stage := Exited(false));
    run := [Start, eof, FirstDone, Interrupt, cancel, Gathered];
    Here(run, t);
    Then(s5, run, 5, t);
    Then(s4, run, 4, t);
    Then(s3, run, 3, t);
    Then(s2, run, 2, t);
    Then(s1, run, 1, t);
    Then(s0, run, 0, t);
    assert run[0..] == run;
  }

  /**
   A client write of `raw_passthrough` can be cancelled halfway: the client has been given a part of what was
   read.
   */
  lemma ClientWriteCanBeCut(a: byte, b: byte) returns (run: seq<Step>, t: State)
    ensures Reaches(Passthrough([], [a, b], [], []), run, t) && t.stage == Exited(true)
    ensures t.toClient.taken == 2 && t.toClient.written == [a]
  {
    hide Reaches, Enabled, Apply;
    var read, write, eof := Pumps(Client, Read(2)), Pumps(Client, Write(1)), Pumps(Remote, SeeEof);
    var s0 := Passthrough([], [a, b], [], []);
    var s1 := StartAlone(s0);
    var s2 := ReadTwo(s1, a, b);
    var s3 := WriteOne(s2, a, b);
    var s4 := RemoteEnds(s3);
    var last;
    last, t := CancelClient(s4);
    run := [Start] + ([read] + ([write] + ([eof] + last)));
    Behind(s3, eof, last, t);
    Behind(s2, write, [eof] + last, t);
    Behind(s1, read, [write] + ([eof] + last), t);
    Behind(s0, Start, [read] + ([write] + ([eof] + last)), t);
  }

  lemma Behind(s: State, step: Step, run: seq<Step>, t: State)
    requires Enabled(s, step) && Reaches(Apply(s, step), run, t)
    ensures Reaches(s, [step] + run, t)
  {
    assert ([step] + run)[1..] == run;
    hide Enabled, Apply;
  }

  lemma StartAlone(s: State) returns (t: State)
    requires s.stage == Replaying([])
    ensures Enabled(s, Start) && t == Apply(s, Start) && t == s.(stage := Waiting)
  {
    t := s.(stage := Waiting);
  }

  lemma ReadTwo(s: State, a: byte, b: byte) returns (t: State)
    requires s.stage.Waiting? && s.toClient == NewPump([a, b], true)
    ensures Enabled(s, Pumps(Client, Read(2))) && t == Apply(s, Pumps(Client, Read(2)))
    ensures t == s.(toClient := Pump([a, b], 2, [], Writing([a, b]), true))
  {
    assert [a, b][0..2] == [a, b];
    t := s.(toClient := Pump([a, b], 2, [], Writing([a, b]), true));
  }

  lemma WriteOne(s: State, a: byte, b: byte) returns (t: State)
    requires s.stage.Waiting? && s.toClient == Pump([a, b], 2, [], Writing([a, b]), true)
    ensures Enabled(s, Pumps(Client, Write(1))) && t == Apply(s, Pumps(Client, Write(1)))
    ensures t == s.(toClient := Pump([a, b], 2, [a], Writing([b]), true))
  {
    assert [] + [a, b][..1] == [a] && [a, b][1..] == [b];
    t := s.(toClient := Pump([a, b], 2, [a], Writing([b]), true));
  }

  lemma RemoteEnds(s: State) returns (t: State)
    requires s.stage.Waiting? && s.toRemote == NewPump([], false)
    ensures Enabled(s, Pumps(Remote, SeeEof)) && t == Apply(s, Pumps(Remote, SeeEof))
    ensures t == s.(toRemote := s.toRemote.(phase := Ended(Eof)))
  {
    t := s.(toRemote := s.toRemote.(phase := Ended(Eof)));
  }

  lemma CancelClient(s: State) returns (run: seq<Step>, t: State)
    requires s.stage.Waiting? && s.toRemote.phase.Ended? && s.toClient.phase.Writing? && s.toClient.piecewise
    ensures Reaches(s, run, t) && t.stage == Exited(true)
    ensures t.toClient.taken == s.toClient.taken && t.toClient.written == s.toClient.written
  {
    hide Reaches;
    var cancel := Pumps(Client, TakeCancel);
    var gathering := s.(stage := Gathering(false, false));
    var cancelled := gathering.(toClient := s.toClient.(phase := Ended(Cancelled)));
    t := Apply(cancelled, Gathered);
    run := [FirstDone, cancel, Gathered];
    Here(run, t);
    Then(cancelled, run, 2, t);
    Then(gathering, run, 1, t);
    Then(s, run, 0, t);
    assert run[0..] == run;
  }

  lemma Here(run: seq<Step>, t: State)
    ensures Reaches(t, run[|run|..], t)
  {
  }

  lemma Then(s: State, run: seq<Step>, k: nat, t: State)
    requires k < |run| && Enabled(s, run[k]) && Reaches(Apply(s, run[k]), run[k + 1..], t)
    ensures Reaches(s, run[k..], t)
  {
    assert run[k..][1..] == run[k + 1..];
    hide Enabled, Apply;
  }

  /** A replay that fails leaves both writers open. */
  lemma ReplayCanFail(b: byte) returns (run: seq<Step>, t: State)
    ensures Reaches(BlindRelay([], [], [b]), run, t) && t.stage == Abandoned
    ensures Interrupt !in run && !t.clientClosed && !t.remoteClosed
  {
    var s := BlindRelay([], [], [b]);
    t := Apply(s, ReplayFails(0));
    run := [ReplayFails(0)];
    Here(run, t);
    Then(s, run, 0, t);
    assert run[0..] == run;
  }

  /**
   An out-of-scope tunnel end to end: once the listener has routed a delivery to the relay, the
   destination is given a prefix of exactly what the client sent, however the client's bytes were cut
   into reads before and after the decision, and all of it once the client's stream has ended.
   */
  lemma TunnelIsTransparent(
      listener: ProxyListener, events: seq<ReadEvent>, host: string, port: int, route: Route, rest: seq<ReadEvent>,
      remoteBytes: bytes, run: seq<Step>, t: State)
    requires listener.Routed(events, host, port, route, rest) && route.Relay?
    requires Reaches(BlindRelay(Stream(rest), remoteBytes, route.prebuffered), run, t)
    ensures route.host == host && route.port == port
    ensures t.toRemote.written <= Stream(events) && t.toClient.written <= remoteBytes
    ensures t.toRemote.phase == Ended(Eof) ==> t.toRemote.written == Stream(events)
  {
    hide Reaches;
    BlindRelayIsTransparent(Stream(rest), remoteBytes, route.prebuffered, run, t);
  }
}
