/** The life of captures: one active at a time, recorded into a log, and written out when stopped. */
module CaptureManager {
  import opened Basics
  import opened IsoTime
  import opened Json
  import opened Har
  import opened CaptureLog
  import opened RawHar
  import opened Entries
  import opened Flows
  import Utf8

  const BUFFER_FILENAME := ".buffer.jsonl"
  const RAW_HAR := "raw.har"
  const MANIFEST := "manifest.json"
  const ANALYSIS := "ANALYSIS.md"

  datatype ActiveCapture = ActiveCapture(name: string, startedAt: Timestamp, outputDir: Path)

  datatype CaptureResult = CaptureResult(
    name: string, requestCount: nat, totalBytes: nat, outputDir: Path,
    rawHarPath: Path, manifestPath: Path, analysisPath: Path)

  /**
   What a daemon run fixes, and what it takes from outside: joining a capture's name to a directory, classifying
   an entry, and the text of the two reports.
   */
  datatype Config = Config(
    stateDir: Path, targetLabel: string, Join: (Path, string) -> Path, web: Web,
    Classify: HarEntry -> (Category, bool),
    Manifest: (ActiveCapture, Timestamp, seq<ClassifiedEntry>, seq<Flow>) -> bytes,
    Analysis: (ActiveCapture, Timestamp, seq<ClassifiedEntry>, seq<Flow>) -> bytes)

  function OutputDir(config: Config, name: string, now: Timestamp): Path {
    config.Join(config.stateDir + ["captures", FormatDate(FieldsOf(now)) + "_" + config.targetLabel], name)
  }

  function BufferPath(active: ActiveCapture): Path { active.outputDir + [BUFFER_FILENAME] }

  function TotalBytes(es: seq<HarEntry>): nat {
    if es == [] then 0
    else TotalBytes(es[..|es| - 1]) + |es[|es| - 1].request.body| + |es[|es| - 1].response.body|
  }

  lemma {:induction false} TotalBytesAppend(a: seq<HarEntry>, b: seq<HarEntry>)
    ensures TotalBytes(a + b) == TotalBytes(a) + TotalBytes(b)
  {
    if b == [] {
      assert a + b == a;
    } else {
      assert (a + b)[..|a + b| - 1] == a + b[..|b| - 1];
      TotalBytesAppend(a, b[..|b| - 1]);
    }
  }

  /** Both bodies of every entry count. */
  lemma TotalBytesOne(e: HarEntry)
    ensures TotalBytes([e]) == |e.request.body| + |e.response.body|
  {
    assert [e][..0] == [];
  }

  function ResultOf(active: ActiveCapture, es: seq<HarEntry>): CaptureResult {
    var dir := active.outputDir;
    CaptureResult(active.name, |es|, TotalBytes(es), dir, dir + [RAW_HAR], dir + [MANIFEST], dir + [ANALYSIS])
  }

  /** The result names the capture, counts its entries, and says where its outputs are. */
  predicate ResultFor(result: CaptureResult, capture: ActiveCapture, es: seq<HarEntry>) {
    && result.name == capture.name && result.outputDir == capture.outputDir
    && result.requestCount == |es| && result.totalBytes == TotalBytes(es)
    && result.rawHarPath == capture.outputDir + ["raw.har"]
    && result.manifestPath == capture.outputDir + ["manifest.json"]
    && result.analysisPath == capture.outputDir + ["ANALYSIS.md"]
  }

  // ---------------------------------------------------------------- commands as steps

  datatype State = State(active: Option<ActiveCapture>, disk: Disk, history: seq<CaptureResult>, requestCount: nat)

  /** Stopping comes with the two reports it writes. */
  datatype Command =
    | StartCapture(name: string, now: Timestamp)
    | RecordEntry(entry: HarEntry)
    | StopCapture(manifest: bytes, analysis: bytes)

  datatype Outcome =
    | Started(capture: ActiveCapture)
    | AlreadyActive(capture: ActiveCapture)
    | NameConflict(name: string, outputDir: Path)
    | NotADirectory(outputDir: Path)
    | Recorded
    | Ignored
    | Stopped(result: CaptureResult)
    | NoActiveCapture
    | Unreadable(why: LogError)

  predicate Fails(outcome: Outcome) {
    outcome.AlreadyActive? || outcome.NameConflict? || outcome.NotADirectory? || outcome.NoActiveCapture?
  }

  function WriteOutputs(disk: Disk, dir: Path, rawHar: bytes, manifest: bytes, analysis: bytes): Disk {
    var withHar := disk.WithDirs(dir).Write(dir + [RAW_HAR], rawHar);
    withHar.Write(dir + [MANIFEST], manifest).Write(dir + [ANALYSIS], analysis)
  }

  /** The disk after writing the outputs and removing the log. */
  function AfterStop(disk: Disk, dir: Path, rawHar: bytes, manifest: bytes, analysis: bytes): Disk {
    WriteOutputs(disk, dir, rawHar, manifest, analysis).Without(dir + [BUFFER_FILENAME])
  }

  function StartStep(config: Config, s: State, name: string, now: Timestamp): (State, Outcome) {
    var dir := OutputDir(config, name, now);
    if s.active.Some? then (s, AlreadyActive(s.active.value))
    else if s.disk.Exists(dir) then (s, NameConflict(name, dir))
    else if !s.disk.CanHold(dir) then (s, NotADirectory(dir))
    else
      var a := ActiveCapture(name, now, dir);
      (State(Some(a), s.disk.WithDirs(dir).Appended(BufferPath(a), []), s.history, 0), Started(a))
  }

  function RecordStep(s: State, entry: HarEntry): (State, Outcome) {
    if s.active.None? then (s, Ignored)
    else
      var line := Utf8.Encode(LineOf(entry) + "\n");
      (s.(disk := s.disk.Appended(BufferPath(s.active.value), line), requestCount := s.requestCount + 1), Recorded)
  }

  /** What stopping reads back: the log, or nothing when there is no file. */
  function Log(s: State): Result<seq<HarEntry>, LogError> {
    if s.active.None? || BufferPath(s.active.value) !in s.disk.files then Ok([])
    else ReadLog(s.disk.files[BufferPath(s.active.value)])
  }

  function StopStep(config: Config, s: State, manifest: bytes, analysis: bytes): (State, Outcome) {
    if s.active.None? then (s, NoActiveCapture)
    else if Log(s).Err? then (s, Unreadable(Log(s).error))
    else
      var a, es := s.active.value, Log(s).value;
      var disk := AfterStop(s.disk, a.outputDir, RawHarBytes(es), manifest, analysis);
      (State(None, disk, s.history + [ResultOf(a, es)], s.requestCount), Stopped(ResultOf(a, es)))
  }

  function Step(config: Config, s: State, command: Command): (State, Outcome) {
    match command
    case StartCapture(name, now) => StartStep(config, s, name, now)
    case RecordEntry(entry) => RecordStep(s, entry)
    case StopCapture(manifest, analysis) => StopStep(config, s, manifest, analysis)
  }

  // ---------------------------------------------------------------- what every command keeps

  /** An active capture whose log holds exactly these entries. */
  ghost predicate Carries(s: State, es: seq<HarEntry>) {
    && s.active.Some? && BufferPath(s.active.value) in s.disk.files
    && s.disk.files[BufferPath(s.active.value)] == LogBytes(es)
    && (forall e | e in es :: Writable(e))
    && s.requestCount == |es|
  }

  predicate FilesInDirs(disk: Disk) { forall p | p in disk.files :: p != [] && p[..|p| - 1] in disk.dirs }

  predicate HistoryApart(s: State) {
    && (forall r | r in s.history :: r.outputDir in s.disk.dirs)
    && (forall i, j | 0 <= i < j < |s.history| :: s.history[i].outputDir != s.history[j].outputDir)
  }

  /** Completed captures have directories of their own, and the active one has another, with a readable log in it. */
  ghost predicate Inv(s: State) {
    && FilesInDirs(s.disk) && HistoryApart(s)
    && (s.active.Some? ==>
          && s.active.value.outputDir in s.disk.dirs
          && (forall r | r in s.history :: r.outputDir != s.active.value.outputDir)
          && exists es :: Carries(s, es))
  }

  predicate WritableCommand(command: Command) { command.RecordEntry? ==> Writable(command.entry) }

  lemma LogIsEntries(s: State, es: seq<HarEntry>)
    requires Carries(s, es)
    ensures Log(s) == Ok(es)
  {
    hide ReadLog, LogBytes, Writable;
    ReadLogText(es);
  }

  lemma ActiveOf(s: State, es: seq<HarEntry>)
    requires Carries(s, es)
    ensures s.active.Some? && BufferPath(s.active.value) in s.disk.files
  {
    hide LogBytes, Writable;
  }

  lemma InDir(dir: Path, name: string)
    ensures (dir + [name])[..|dir + [name]| - 1] == dir
  {
  }

  lemma OtherDir(a: Path, b: Path, name: string, other: string)
    ensures a + [name] == b + [other] ==> a == b && name == other
  {
    InDir(a, name);
    InDir(b, other);
    assert (a + [name])[|a|] == name && (b + [other])[|b|] == other;
  }

  lemma DirIsThere(disk: Disk, dir: Path)
    ensures dir in disk.WithDirs(dir).dirs
  {
    assert dir[..|dir|] == dir;
  }

  lemma FileNeedsDir(disk: Disk, dir: Path, name: string)
    requires FilesInDirs(disk)
    ensures dir + [name] in disk.files ==> dir in disk.dirs
  {
    InDir(dir, name);
  }

  lemma AppendedNew(disk: Disk, path: Path)
    ensures path !in disk.files ==> disk.Appended(path, []) == disk.Write(path, [])
  {
    var nothing: bytes := [];
    assert nothing + [] == nothing;
  }

  lemma EmptyLog()
    ensures LogBytes([]) == []
  {
    assert LogText([]) == [] && Utf8.Encode([]) == [];
  }

  lemma StartKeeps(config: Config, s: State, name: string, now: Timestamp)
    requires Inv(s)
    ensures Inv(StartStep(config, s, name, now).0)
    ensures StartStep(config, s, name, now).1.Started? ==> Carries(StartStep(config, s, name, now).0, [])
  {
    var dir := OutputDir(config, name, now);
    var (t, outcome) := StartStep(config, s, name, now);
    DirIsThere(s.disk, dir);
    InDir(dir, BUFFER_FILENAME);
    hide OutputDir, LogBytes, LineOf, Writable;
    if outcome.Started? {
      EmptyLog();
      FileNeedsDir(s.disk, dir, BUFFER_FILENAME);
      AppendedNew(s.disk.WithDirs(dir), dir + [BUFFER_FILENAME]);
      assert Carries(t, []);
    }
  }

  lemma RecordKeeps(s: State, entry: HarEntry, es: seq<HarEntry>)
    requires Inv(s) && Carries(s, es) && Writable(entry)
    ensures Inv(RecordStep(s, entry).0) && Carries(RecordStep(s, entry).0, es + [entry])
  {
    hide Utf8.Encode, LineOf, LogBytes, Writable, Carries;
    ActiveOf(s, es);
    RecordCarries(s, entry, es);
    InDir(s.active.value.outputDir, BUFFER_FILENAME);
  }

  lemma RecordCarries(s: State, entry: HarEntry, es: seq<HarEntry>)
    requires Carries(s, es) && Writable(entry)
    ensures Carries(RecordStep(s, entry).0, es + [entry])
  {
    hide LogBytes, Utf8.Encode, LineOf, Writable;
    LogGrows(es, entry);
    var path, line := BufferPath(s.active.value), Utf8.Encode(LineOf(entry) + "\n");
    assert RecordStep(s, entry).0.disk.files == s.disk.files[path := s.disk.files[path] + line];
  }

  /** The three outputs are there, the log is gone, and every other file is what it was. */
  ghost predicate OutputsReplaceLog(
      before: Disk, after: Disk, dir: Path, rawHar: bytes, manifest: bytes, analysis: bytes)
  {
    var h, m, a, b := dir + ["raw.har"], dir + ["manifest.json"], dir + ["ANALYSIS.md"], dir + [".buffer.jsonl"];
    && h in after.files && after.files[h] == rawHar
    && m in after.files && after.files[m] == manifest
    && a in after.files && after.files[a] == analysis
    && b !in after.files
    && (forall p | p !in {h, m, a, b} :: p in after.files <==> p in before.files)
    && (forall p | p !in {h, m, a, b} && p in before.files :: after.files[p] == before.files[p])
    && (forall d :: d in after.dirs <==> d in before.dirs || d <= dir)
  }

  lemma AfterStopFiles(disk: Disk, dir: Path, rawHar: bytes, manifest: bytes, analysis: bytes)
    ensures OutputsReplaceLog(disk, AfterStop(disk, dir, rawHar, manifest, analysis), dir, rawHar, manifest, analysis)
  {
    OtherDir(dir, dir, RAW_HAR, MANIFEST);
    OtherDir(dir, dir, RAW_HAR, ANALYSIS);
    OtherDir(dir, dir, MANIFEST, ANALYSIS);
    OtherDir(dir, dir, RAW_HAR, BUFFER_FILENAME);
    OtherDir(dir, dir, MANIFEST, BUFFER_FILENAME);
    OtherDir(dir, dir, ANALYSIS, BUFFER_FILENAME);
    DirsAbove(disk, dir);
  }

  lemma DirsAbove(disk: Disk, dir: Path)
    ensures forall d :: d in disk.WithDirs(dir).dirs <==> d in disk.dirs || d <= dir
  {
    forall d | d <= dir ensures d in disk.WithDirs(dir).dirs {
      assert d == dir[..|d|];
    }
  }

  lemma OutputsWritten(disk: Disk, dir: Path, rawHar: bytes, manifest: bytes, analysis: bytes)
    ensures var t := AfterStop(disk, dir, rawHar, manifest, analysis);
            && disk.dirs <= t.dirs && dir in t.dirs
            && (FilesInDirs(disk) ==> FilesInDirs(t))
            && OutputsReplaceLog(disk, t, dir, rawHar, manifest, analysis)
            && (forall d, x | d != dir && d + [x] in disk.files ::
                  d + [x] in t.files && t.files[d + [x]] == disk.files[d + [x]])
  {
    hide AfterStop, OutputsReplaceLog;
    AfterStopFiles(disk, dir, rawHar, manifest, analysis);
    OtherFilesStay(disk, AfterStop(disk, dir, rawHar, manifest, analysis), dir, rawHar, manifest, analysis);
  }

  lemma OtherFilesStay(before: Disk, after: Disk, dir: Path, rawHar: bytes, manifest: bytes, analysis: bytes)
    requires OutputsReplaceLog(before, after, dir, rawHar, manifest, analysis)
    ensures before.dirs <= after.dirs && dir in after.dirs
    ensures FilesInDirs(before) ==> FilesInDirs(after)
    ensures forall d, x | d != dir && d + [x] in before.files ::
              d + [x] in after.files && after.files[d + [x]] == before.files[d + [x]]
  {
    forall d, x ensures (d + [x])[..|d + [x]| - 1] == d && d + [x] != [] {
      InDir(d, x);
    }
    forall d, x, y ensures d + [x] == dir + [y] ==> d == dir {
      OtherDir(d, dir, x, y);
    }
  }

  lemma StopStepIs(config: Config, s: State, manifest: bytes, analysis: bytes, es: seq<HarEntry>)
    requires Carries(s, es)
    ensures s.active.Some?
    ensures var a := s.active.value;
            var disk := AfterStop(s.disk, a.outputDir, RawHarBytes(es), manifest, analysis);
            StopStep(config, s, manifest, analysis) ==
              (State(None, disk, s.history + [ResultOf(a, es)], s.requestCount), Stopped(ResultOf(a, es)))
  {
    hide Log, AfterStop, RawHarBytes, ResultOf, LogBytes;
    LogIsEntries(s, es);
  }

  /** A stop has written the reports and a raw.har that reads back to the entries, in place of the log. */
  ghost predicate Written(s: State, t: State, es: seq<HarEntry>, manifest: bytes, analysis: bytes)
    requires s.active.Some?
  {
    exists rawHar ::
      && ReadRawHar(rawHar) == Some(es)
      && OutputsReplaceLog(s.disk, t.disk, s.active.value.outputDir, rawHar, manifest, analysis)
  }

  lemma RawHarOfLog(s: State, es: seq<HarEntry>)
    requires Carries(s, es)
    ensures ReadRawHar(RawHarBytes(es)) == Some(es)
  {
    hide LogBytes, Writable, RawHarBytes, ReadRawHar;
    RawHarIsRead(es);
  }

  lemma StopKeeps(config: Config, s: State, manifest: bytes, analysis: bytes, es: seq<HarEntry>)
    requires Inv(s) && Carries(s, es)
    ensures var (t, outcome) := StopStep(config, s, manifest, analysis);
            && Inv(t) && t.active.None? && outcome == Stopped(ResultOf(s.active.value, es))
            && t.history == s.history + [outcome.result]
            && ResultFor(outcome.result, s.active.value, es)
            && Written(s, t, es, manifest, analysis)
  {
    hide StopStep, AfterStop, RawHarBytes, ReadRawHar, TotalBytes, Carries, FilesInDirs, OutputsReplaceLog;
    RawHarOfLog(s, es);
    StopStepIs(config, s, manifest, analysis, es);
    OutputsWritten(s.disk, s.active.value.outputDir, RawHarBytes(es), manifest, analysis);
  }

  /** Every command keeps the invariant; one that fails, or records without an active capture, changes nothing. */
  lemma StepKeepsInv(config: Config, s: State, command: Command)
    requires Inv(s) && WritableCommand(command)
    ensures var (t, outcome) := Step(config, s, command);
            && Inv(t) && !outcome.Unreadable?
            && (Fails(outcome) || outcome.Ignored? ==> t == s)
  {
    hide StartStep, RecordStep, StopStep, Carries, Writable;
    match command
    case StartCapture(name, now) =>
      StartKeeps(config, s, name, now);
      StartOutcomes(config, s, name, now);
    case RecordEntry(entry) =>
      RecordOutcomes(s, entry);
      if s.active.Some? {
        var es :| Carries(s, es);
        RecordKeeps(s, entry, es);
      }
    case StopCapture(manifest, analysis) =>
      StopOutcomes(config, s, manifest, analysis);
      if s.active.Some? {
        var es :| Carries(s, es);
        StopKeeps(config, s, manifest, analysis, es);
      }
  }

  lemma StartOutcomes(config: Config, s: State, name: string, now: Timestamp)
    ensures var (t, outcome) := StartStep(config, s, name, now);
            && (outcome.Started? || outcome.AlreadyActive? || outcome.NameConflict? || outcome.NotADirectory?)
            && (outcome.Started? <==> t != s)
            && (outcome.Started? ==> s.active.None? && t.active == Some(outcome.capture) && t.history == s.history)
  {
    hide OutputDir;
  }

  /** Where a capture goes: under the day it starts on and the target's label. */
  lemma OutputDirIs(config: Config, name: string, now: Timestamp)
    ensures |ToIso(now)| >= 10
    ensures OutputDir(config, name, now) ==
            config.Join(config.stateDir + ["captures", ToIso(now)[..10] + "_" + config.targetLabel], name)
  {
    var f := FieldsOf(now);
    assert ToIso(now)[..10] == FormatDate(f);
    hide FormatDate, FormatTime, FormatFraction;
  }

  /** A directory for the capture with all above it, and an empty log in it; other files are what they were. */
  ghost predicate LogOpened(before: Disk, after: Disk, dir: Path) {
    var log := dir + [".buffer.jsonl"];
    && (forall d :: d in after.dirs <==> d in before.dirs || d <= dir)
    && log in after.files && (log !in before.files ==> after.files[log] == [])
    && (forall p | p != log :: p in after.files <==> p in before.files)
    && (forall p | p in before.files :: after.files[p] == before.files[p])
  }

  /** When a capture starts, what it starts as, and why it does not. */
  lemma StartIff(config: Config, s: State, name: string, now: Timestamp)
    ensures var (t, outcome) := StartStep(config, s, name, now);
            var dir := OutputDir(config, name, now);
            var taken := dir in s.disk.dirs || dir in s.disk.files;
            var blocked := exists d :: d <= dir && d in s.disk.files;
            && (outcome.Started? <==> s.active.None? && !taken && !blocked)
            && (outcome.AlreadyActive? <==> s.active.Some?)
            && (outcome.NameConflict? <==> s.active.None? && taken)
            && (outcome.NotADirectory? <==> s.active.None? && !taken && blocked)
            && (outcome.Started? ==>
                  && outcome.capture == ActiveCapture(name, now, dir) && t.active == Some(outcome.capture)
                  && t.history == s.history && t.requestCount == 0 && LogOpened(s.disk, t.disk, dir))
  {
    hide OutputDir;
    var dir := OutputDir(config, name, now);
    assert s.disk.CanHold(dir) <==> !exists d :: d <= dir && d in s.disk.files by {
      if d :| d <= dir && d in s.disk.files {
        assert d == dir[..|d|];
      }
      forall k | 0 <= k <= |dir| ensures dir[..k] <= dir {
      }
    }
    DirsAbove(s.disk, dir);
    AppendedNothing(s.disk.WithDirs(dir), dir + [BUFFER_FILENAME]);
  }

  lemma AppendedNothing(disk: Disk, path: Path)
    ensures path in disk.files ==> disk.Appended(path, []).files == disk.files
    ensures path !in disk.files ==> disk.Appended(path, []).files == disk.files[path := []]
  {
    if path in disk.files {
      assert disk.files[path] + [] == disk.files[path];
    } else {
      var nothing: bytes := [];
      assert nothing + [] == nothing;
    }
  }

  lemma RecordOutcomes(s: State, entry: HarEntry)
    ensures var (t, outcome) := RecordStep(s, entry);
            && t.active == s.active && t.history == s.history
            && if s.active.None? then outcome == Ignored && t == s else outcome == Recorded
  {
    hide Utf8.Encode, LineOf;
  }

  lemma StopOutcomes(config: Config, s: State, manifest: bytes, analysis: bytes)
    ensures var (t, outcome) := StopStep(config, s, manifest, analysis);
            && (outcome.Stopped? || outcome.NoActiveCapture? || outcome.Unreadable?)
            && (outcome.NoActiveCapture? <==> s.active.None?)
            && (!outcome.Stopped? ==> t == s)
            && (outcome.Stopped? ==> t.active.None? && t.history == s.history + [outcome.result])
  {
    hide Log, RawHarBytes, TotalBytes, AfterStop;
  }

  // ---------------------------------------------------------------- runs

  function Run(config: Config, s: State, commands: seq<Command>): State {
    if commands == [] then s
    else Step(config, Run(config, s, commands[..|commands| - 1]), commands[|commands| - 1]).0
  }

  /** The outcome of the k-th command of a run. */
  function OutcomeAt(config: Config, s: State, commands: seq<Command>, k: nat): Outcome
    requires k < |commands|
  {
    Step(config, Run(config, s, commands[..k]), commands[k]).1
  }

  predicate AllWritable(commands: seq<Command>) { forall c | c in commands :: WritableCommand(c) }

  lemma RunStep(config: Config, s: State, commands: seq<Command>, k: nat)
    requires k < |commands|
    ensures Run(config, s, commands[..k + 1]) == Step(config, Run(config, s, commands[..k]), commands[k]).0
  {
    assert commands[..k + 1][..k] == commands[..k];
    hide Step;
  }

  lemma {:induction false} RunKeepsInv(config: Config, s: State, commands: seq<Command>, k: nat)
    requires Inv(s) && AllWritable(commands) && k <= |commands|
    ensures Inv(Run(config, s, commands[..k]))
    decreases k
  {
    hide Inv, Step, WritableCommand;
    if k > 0 {
      RunKeepsInv(config, s, commands, k - 1);
      RunStep(config, s, commands, k - 1);
      assert commands[k - 1] in commands;
      StepKeepsInv(config, Run(config, s, commands[..k - 1]), commands[k - 1]);
    } else {
      assert commands[..0] == [];
    }
  }

  /** The entries that record commands bring, in order. */
  function Entered(commands: seq<Command>): seq<HarEntry> {
    if commands == [] then []
    else
      var last := commands[|commands| - 1];
      Entered(commands[..|commands| - 1]) + if last.RecordEntry? then [last.entry] else []
  }

  lemma EnteredStep(commands: seq<Command>, i: nat, k: nat)
    requires i <= k < |commands|
    ensures Entered(commands[i..k + 1]) ==
            Entered(commands[i..k]) + if commands[k].RecordEntry? then [commands[k].entry] else []
  {
    assert commands[i..k + 1][..k - i] == commands[i..k];
    assert commands[i..k + 1][k - i] == commands[k];
  }

  /** One command other than the stop that ends it, seen from an active capture. */
  lemma SessionStep(config: Config, s: State, command: Command, es: seq<HarEntry>)
    requires Inv(s) && Carries(s, es) && WritableCommand(command) && !Step(config, s, command).1.Stopped?
    ensures var t := Step(config, s, command).0;
            t.active == s.active && Carries(t, es + if command.RecordEntry? then [command.entry] else [])
  {
    hide StartStep, RecordStep, StopStep, Carries, Inv, Writable;
    assert s.active.Some? by { ActiveOf(s, es); }
    assert es + [] == es;
    match command
    case StartCapture(name, now) =>
      StartOutcomes(config, s, name, now);
    case RecordEntry(entry) =>
      RecordOutcomes(s, entry);
      RecordKeeps(s, entry, es);
    case StopCapture(manifest, analysis) =>
      StopOutcomes(config, s, manifest, analysis);
  }

  /** Between its start and its stop, the log of a capture holds what was recorded since the start. */
  lemma {:induction false} SessionCarries(config: Config, s: State, commands: seq<Command>, i: nat, k: nat)
    requires Inv(s) && AllWritable(commands) && i < k <= |commands| && OutcomeAt(config, s, commands, i).Started?
    requires forall m: nat | i < m < k :: !OutcomeAt(config, s, commands, m).Stopped?
    ensures var t := Run(config, s, commands[..k]);
            Carries(t, Entered(commands[i + 1..k])) && t.active == Some(OutcomeAt(config, s, commands, i).capture)
    decreases k
  {
    hide Inv, Step, WritableCommand, Carries;
    var before := Run(config, s, commands[..k - 1]);
    RunKeepsInv(config, s, commands, k - 1);
    RunStep(config, s, commands, k - 1);
    assert commands[k - 1] in commands;
    if k == i + 1 {
      assert commands[i + 1..k] == [];
      StartedCarries(config, before, commands[i]);
    } else {
      SessionCarries(config, s, commands, i, k - 1);
      EnteredStep(commands, i + 1, k - 1);
      assert !OutcomeAt(config, s, commands, k - 1).Stopped?;
      SessionStep(config, before, commands[k - 1], Entered(commands[i + 1..k - 1]));
    }
  }

  lemma StartedCarries(config: Config, s: State, command: Command)
    requires Inv(s) && Step(config, s, command).1.Started?
    ensures var (t, outcome) := Step(config, s, command);
            Carries(t, []) && t.active == Some(outcome.capture)
  {
    hide StartStep, RecordStep, StopStep, Carries, Inv;
    match command
    case StartCapture(name, now) =>
      StartOutcomes(config, s, name, now);
      StartKeeps(config, s, name, now);
    case RecordEntry(entry) =>
      RecordOutcomes(s, entry);
    case StopCapture(manifest, analysis) =>
      StopOutcomes(config, s, manifest, analysis);
  }

  /**
   A stop that ends the capture started by command i: the result counts exactly the entries recorded by the
   commands between the two, and reading raw.har back gives those entries.
   */
  lemma StopReportsWhatWasRecorded(config: Config, s: State, commands: seq<Command>, i: nat, j: nat)
    requires Inv(s) && AllWritable(commands) && i < j < |commands|
    requires OutcomeAt(config, s, commands, i).Started? && OutcomeAt(config, s, commands, j).Stopped?
    requires forall m: nat | i < m < j :: !OutcomeAt(config, s, commands, m).Stopped?
    ensures var recorded := Entered(commands[i + 1..j]);
            var before, after := Run(config, s, commands[..j]), Run(config, s, commands[..j + 1]);
            && ResultFor(OutcomeAt(config, s, commands, j).result, OutcomeAt(config, s, commands, i).capture, recorded)
            && commands[j].StopCapture? && before.active == Some(OutcomeAt(config, s, commands, i).capture)
            && Written(before, after, recorded, commands[j].manifest, commands[j].analysis)
  {
    hide Inv, Carries, AllWritable, Run, StartStep, RecordStep, StopStep, Written, TotalBytes, Entered;
    SessionCarries(config, s, commands, i, j);
    RunKeepsInv(config, s, commands, j);
    RunStep(config, s, commands, j);
    var before := Run(config, s, commands[..j]);
    StoppedIsStop(config, before, commands[j]);
    var command := commands[j];
    StopKeeps(config, before, command.manifest, command.analysis, Entered(commands[i + 1..j]));
  }

  lemma StoppedIsStop(config: Config, s: State, command: Command)
    requires Step(config, s, command).1.Stopped?
    ensures command.StopCapture? && s.active.Some?
  {
    hide StartStep, RecordStep, StopStep;
    match command
    case StartCapture(name, now) => StartOutcomes(config, s, name, now);
    case RecordEntry(entry) => RecordOutcomes(s, entry);
    case StopCapture(manifest, analysis) => StopOutcomes(config, s, manifest, analysis);
  }

  /**
   Who is active after a command: nobody after a stop, the new capture after a start, the same as before
   otherwise.
   */
  lemma ActiveStep(config: Config, s: State, command: Command)
    ensures var (t, outcome) := Step(config, s, command);
            && t.active == (if outcome.Started? then Some(outcome.capture)
                            else if outcome.Stopped? then None else s.active)
            && t.history == s.history + if outcome.Stopped? then [outcome.result] else []
  {
    hide StartStep, RecordStep, StopStep;
    assert s.history + [] == s.history;
    match command
    case StartCapture(name, now) => StartOutcomes(config, s, name, now);
    case RecordEntry(entry) => RecordOutcomes(s, entry);
    case StopCapture(manifest, analysis) => StopOutcomes(config, s, manifest, analysis);
  }

  /** An active capture was started by an earlier command, and not stopped since. */
  lemma {:induction false} ActiveWasStarted(config: Config, s: State, commands: seq<Command>, k: nat) returns (i: nat)
    requires s.active.None? && k <= |commands| && Run(config, s, commands[..k]).active.Some?
    ensures i < k && OutcomeAt(config, s, commands, i).Started?
    ensures forall m: nat | i < m < k :: !OutcomeAt(config, s, commands, m).Stopped?
    decreases k
  {
    hide Step;
    ActiveNeedsCommand(config, s, commands, k);
    RunStep(config, s, commands, k - 1);
    ActiveStep(config, Run(config, s, commands[..k - 1]), commands[k - 1]);
    if OutcomeAt(config, s, commands, k - 1).Started? {
      i := k - 1;
    } else {
      i := ActiveWasStarted(config, s, commands, k - 1);
    }
  }

  lemma ActiveNeedsCommand(config: Config, s: State, commands: seq<Command>, k: nat)
    requires s.active.None? && k <= |commands|
    ensures Run(config, s, commands[..k]).active.Some? ==> k > 0
  {
    hide Step;
  }

  /** Every result of a run comes from a start of that run and holds what was recorded since. */
  lemma EveryStopHasItsStart(config: Config, s: State, commands: seq<Command>, j: nat) returns (i: nat)
    requires Inv(s) && s.active.None? && AllWritable(commands) && j < |commands|
    requires OutcomeAt(config, s, commands, j).Stopped?
    ensures i < j && OutcomeAt(config, s, commands, i).Started?
    ensures ResultFor(OutcomeAt(config, s, commands, j).result, OutcomeAt(config, s, commands, i).capture,
                      Entered(commands[i + 1..j]))
  {
    StoppedIsStop(config, Run(config, s, commands[..j]), commands[j]);
    i := ActiveWasStarted(config, s, commands, j);
    hide Inv, Step, AllWritable, Run;
    StopReportsWhatWasRecorded(config, s, commands, i, j);
  }

  /** The results of a run's successful stops, in order. */
  function Results(config: Config, s: State, commands: seq<Command>): seq<CaptureResult> {
    if commands == [] then []
    else
      var n := |commands| - 1;
      var outcome := OutcomeAt(config, s, commands, n);
      Results(config, s, commands[..n]) + if outcome.Stopped? then [outcome.result] else []
  }

  /** The history is the results of the successful stops, in order, in directories that are all different. */
  lemma {:induction false} HistoryIsResults(config: Config, s: State, commands: seq<Command>)
    requires Inv(s) && AllWritable(commands)
    ensures Run(config, s, commands).history == s.history + Results(config, s, commands)
    ensures HistoryApart(Run(config, s, commands))
    decreases |commands|
  {
    hide Step, WritableCommand, HistoryApart, FilesInDirs, Carries;
    assert commands[..|commands|] == commands;
    RunKeepsInv(config, s, commands, |commands|);
    if commands != [] {
      var n := |commands| - 1;
      assert forall c | c in commands[..n] :: c in commands;
      HistoryIsResults(config, s, commands[..n]);
      ActiveStep(config, Run(config, s, commands[..n]), commands[n]);
    }
  }

  // ---------------------------------------------------------------- finished captures stay as written

  /** A file of a finished capture, other than a log. */
  ghost predicate Kept(s: State, result: CaptureResult, name: string, content: bytes) {
    var path := result.outputDir + [name];
    && Inv(s) && result in s.history && name != BUFFER_FILENAME
    && path in s.disk.files && s.disk.files[path] == content
  }

  /** Every file is still there unchanged, except logs and what lies in the directory of the active capture. */
  ghost predicate FilesStay(s: State, t: State) {
    forall dir: Path, name: string |
      dir + [name] in s.disk.files && name != BUFFER_FILENAME && (s.active.None? || dir != s.active.value.outputDir) ::
      dir + [name] in t.disk.files && t.disk.files[dir + [name]] == s.disk.files[dir + [name]]
  }

  lemma StartFilesStay(config: Config, s: State, name: string, now: Timestamp)
    ensures FilesStay(s, StartStep(config, s, name, now).0)
  {
    forall d, x ensures d + [x] == OutputDir(config, name, now) + [BUFFER_FILENAME] ==> x == BUFFER_FILENAME {
      OtherDir(d, OutputDir(config, name, now), x, BUFFER_FILENAME);
    }
    hide OutputDir;
  }

  lemma RecordFilesStay(s: State, entry: HarEntry)
    ensures FilesStay(s, RecordStep(s, entry).0)
  {
    if s.active.Some? {
      forall d, x ensures d + [x] == BufferPath(s.active.value) ==> x == BUFFER_FILENAME {
        OtherDir(d, s.active.value.outputDir, x, BUFFER_FILENAME);
      }
    }
    hide Utf8.Encode, LineOf;
  }

  lemma StopFilesStay(config: Config, s: State, manifest: bytes, analysis: bytes)
    ensures FilesStay(s, StopStep(config, s, manifest, analysis).0)
  {
    if s.active.Some? && Log(s).Ok? {
      var rawHar := RawHarBytes(Log(s).value);
      OutputsWritten(s.disk, s.active.value.outputDir, rawHar, manifest, analysis);
    }
    hide Log, RawHarBytes, AfterStop, ResultOf;
  }

  lemma StepKeepsOutputs(
      config: Config, s: State, command: Command, result: CaptureResult, name: string, content: bytes)
    requires Kept(s, result, name, content) && WritableCommand(command)
    ensures Kept(Step(config, s, command).0, result, name, content)
  {
    StepKeepsInv(config, s, command);
    ActiveStep(config, s, command);
    hide StartStep, RecordStep, StopStep, Carries, HistoryApart, FilesInDirs, Writable;
    match command
    case StartCapture(name, now) => StartFilesStay(config, s, name, now);
    case RecordEntry(entry) => RecordFilesStay(s, entry);
    case StopCapture(manifest, analysis) => StopFilesStay(config, s, manifest, analysis);
  }

  lemma {:induction false} OutputsStay(
      config: Config, s: State, commands: seq<Command>, result: CaptureResult, name: string, content: bytes)
    requires Kept(s, result, name, content) && AllWritable(commands)
    ensures Kept(Run(config, s, commands), result, name, content)
    decreases |commands|
  {
    hide Kept, Step, WritableCommand;
    if commands != [] {
      var n := |commands| - 1;
      assert commands[n] in commands && forall c | c in commands[..n] :: c in commands;
      OutputsStay(config, s, commands[..n], result, name, content);
      StepKeepsOutputs(config, Run(config, s, commands[..n]), commands[n], result, name, content);
    }
  }

  // ---------------------------------------------------------------- the manager

  lemma StepCases(config: Config, s: State)
    ensures forall name, now :: Step(config, s, StartCapture(name, now)) == StartStep(config, s, name, now)
    ensures forall entry :: Step(config, s, RecordEntry(entry)) == RecordStep(s, entry)
    ensures forall manifest, analysis ::
      Step(config, s, StopCapture(manifest, analysis)) == StopStep(config, s, manifest, analysis)
  {
    hide StartStep, RecordStep, StopStep;
  }

  /** Classifying the entries of a capture and building its flows. */
  method Analyse(config: Config, entries: seq<HarEntry>) returns (classified: seq<ClassifiedEntry>, flows: seq<Flow>)
    ensures classified == ClassifyEntries(config.Classify, entries)
    ensures AreFlowsOf(config.web, classified, flows) && Sound(classified, flows)
  {
    hide *;
    classified := ClassifyEntries(config.Classify, entries);
    flows := BuildFlows(config.web, classified);
  }

  /**
   A stop of an active capture. Its reports are made of the entries read back and the flows built of them, and
   each is in its own file; the step is that for these reports.
   */
  ghost predicate StopsWith(
      config: Config, s: State, endedAt: Timestamp, entries: seq<HarEntry>, flows: seq<Flow>, t: State,
      outcome: Outcome)
  {
    var classified := ClassifyEntries(config.Classify, entries);
    && s.active.Some? && Carries(s, entries) && AreFlowsOf(config.web, classified, flows) && Sound(classified, flows)
    && var manifest := config.Manifest(s.active.value, endedAt, classified, flows);
       var analysis := config.Analysis(s.active.value, endedAt, classified, flows);
       && (t, outcome) == Step(config, s, StopCapture(manifest, analysis))
       && outcome.Stopped? && ResultFor(outcome.result, s.active.value, entries)
       && t.active.None? && t.history == s.history + [outcome.result]
       && Written(s, t, entries, manifest, analysis)
  }

  lemma StopIsStep(
      config: Config, s: State, endedAt: Timestamp, es: seq<HarEntry>, flows: seq<Flow>, disk: Disk)
    requires Inv(s) && Carries(s, es)
    requires var classified := ClassifyEntries(config.Classify, es);
             AreFlowsOf(config.web, classified, flows) && Sound(classified, flows) &&
             s.active.Some? && disk == AfterStop(s.disk, s.active.value.outputDir, RawHarBytes(es),
               config.Manifest(s.active.value, endedAt, classified, flows),
               config.Analysis(s.active.value, endedAt, classified, flows))
    ensures var result := ResultOf(s.active.value, es);
            var t := State(None, disk, s.history + [result], s.requestCount);
            Inv(t) && StopsWith(config, s, endedAt, es, flows, t, Stopped(result))
  {
    hide Inv, Carries, AreFlowsOf, Sound, ClassifyEntries, Step, StopStep, AfterStop, RawHarBytes, ResultOf, Written;
    hide ResultFor;
    var classified := ClassifyEntries(config.Classify, es);
    var manifest := config.Manifest(s.active.value, endedAt, classified, flows);
    var analysis := config.Analysis(s.active.value, endedAt, classified, flows);
    StopKeeps(config, s, manifest, analysis, es);
    StopStepIs(config, s, manifest, analysis, es);
    StepCases(config, s);
  }

  lemma LogOfInv(s: State) returns (es: seq<HarEntry>)
    requires Inv(s) && s.active.Some?
    ensures Carries(s, es) && BufferPath(s.active.value) in s.disk.files
    ensures ReadLog(s.disk.files[BufferPath(s.active.value)]) == Ok(es)
  {
    hide LogBytes, ReadLog, Writable;
    es :| Carries(s, es);
    LogIsEntries(s, es);
  }

  lemma AppendedIs(before: Disk, after: Disk, path: Path, line: bytes)
    requires path in before.files && after.dirs == before.dirs && after.files.Keys == before.files.Keys
    requires after.files[path] == before.files[path] + line
    requires forall p | p in after.files && p != path :: after.files[p] == before.files[p]
    ensures after == before.Appended(path, line)
  {
  }

  lemma AfterStopIs(disk: Disk, dir: Path, rawHar: bytes, manifest: bytes, analysis: bytes)
    ensures WriteOutputs(disk, dir, rawHar, manifest, analysis).Without(dir + [BUFFER_FILENAME]) ==
            AfterStop(disk, dir, rawHar, manifest, analysis)
  {
    hide WriteOutputs;
  }

  class CaptureManager {
    const config: Config
    const fs: FileSystem
    var active: Option<ActiveCapture>
    var buffer: CaptureBuffer?
    var history: seq<CaptureResult>
    var activeRequestCount: nat

    ghost function Abstract(): State
      reads this, fs
    {
      State(active, fs.disk, history, activeRequestCount)
    }

    /** Active and buffer are both set or both unset. */
    ghost predicate Valid()
      reads this, fs, buffer
    {
      && (active.Some? <==> buffer != null)
      && (buffer != null ==> buffer.fs == fs && buffer.open && buffer.path == BufferPath(active.value))
      && Inv(Abstract())
    }

    constructor (config: Config, fs: FileSystem)
      requires FilesInDirs(fs.disk)
      ensures Valid() && this.config == config && this.fs == fs
      ensures Abstract() == State(None, fs.disk, [], 0)
    {
      this.config, this.fs := config, fs;
      active, buffer, history, activeRequestCount := None, null, [], 0;
    }

    method StartCapture(name: string, now: Timestamp) returns (outcome: Outcome)
      requires Valid()
      modifies this, fs
      ensures Valid() && (Abstract(), outcome) == Step(config, old(Abstract()), Command.StartCapture(name, now))
    {
      hide Inv, Step, RecordStep, StopStep, Carries, OutputDir;
      StartKeeps(config, Abstract(), name, now);
      StepCases(config, Abstract());
      if active.Some? {
        return AlreadyActive(active.value);
      }
      var outputDir := OutputDir(config, name, now);
      if fs.disk.Exists(outputDir) {
        return NameConflict(name, outputDir);
      }
      if !fs.disk.CanHold(outputDir) {
        return NotADirectory(outputDir);
      }
      buffer := new CaptureBuffer(fs, outputDir, BUFFER_FILENAME);
      active := Some(ActiveCapture(name, now, outputDir));
      activeRequestCount := 0;
      return Started(active.value);
    }

    method RecordEntry(entry: HarEntry) returns (outcome: Outcome)
      requires Valid() && Writable(entry)
      modifies this, fs
      ensures Valid() && (Abstract(), outcome) == Step(config, old(Abstract()), Command.RecordEntry(entry))
    {
      hide Inv, Step, StartStep, StopStep, Writable, LineOf, Utf8.Encode, Carries;
      StepKeepsInv(config, Abstract(), Command.RecordEntry(entry));
      StepCases(config, Abstract());
      if buffer == null {
        return Ignored;
      }
      ghost var before := Abstract();
      ghost var es := LogOfInv(before);
      buffer.Append(entry);
      AppendedIs(before.disk, fs.disk, buffer.path, Utf8.Encode(LineOf(entry) + "\n"));
      activeRequestCount := activeRequestCount + 1;
      return Recorded;
    }

    /**
     Besides the step itself: the flows in the reports were built from the entries read back, and together hold
     the index of each entry that is not a static asset exactly once.
     */
    method StopCapture(endedAt: Timestamp)
        returns (outcome: Outcome, ghost entries: seq<HarEntry>, ghost flows: seq<Flow>)
      requires Valid()
      modifies this, fs, buffer
      ensures Valid()
      ensures if old(active).None?
              then outcome == NoActiveCapture && Abstract() == old(Abstract())
              else StopsWith(config, old(Abstract()), endedAt, entries, flows, Abstract(), outcome)
    {
      hide Inv, Carries, StopsWith, AreFlowsOf, Sound, ClassifyEntries;
      hide ReadLog, WriteOutputs, AfterStop, RawHarBytes, ResultOf;
      if active.None? || buffer == null {
        return NoActiveCapture, [], [];
      }
      ghost var before := Abstract();
      ghost var es := LogOfInv(before);
      var capture := active.value;
      buffer.Close();
      var bufferPath := BufferPath(capture);
      var read: seq<HarEntry> := [];
      if bufferPath in fs.disk.files {
        var log := ReadBuffer(fs, bufferPath);
        read := log.value;
      }
      var classified, built := Analyse(config, read);
      var manifest := config.Manifest(capture, endedAt, classified, built);
      var analysis := config.Analysis(capture, endedAt, classified, built);
      var rawHar := RawHarBytes(read);
      AfterStopIs(fs.disk, capture.outputDir, rawHar, manifest, analysis);
      fs.disk := WriteOutputs(fs.disk, capture.outputDir, rawHar, manifest, analysis);
      fs.disk := fs.disk.Without(bufferPath);
      StopIsStep(config, before, endedAt, es, built, fs.disk);
      outcome := Stopped(ResultOf(capture, read));
      active, buffer, history := None, null, history + [outcome.result];
      entries, flows := read, built;
    }

    method ListCaptures() returns (captures: seq<CaptureResult>)
      ensures captures == history
    {
      return history;
    }
  }
}
