/** The append-only JSONL buffer of a capture: one line of UTF-8 JSON per entry, and reading it back. */
module CaptureLog {
  import opened Basics
  import opened Strings
  import opened Json
  import opened Har
  import Utf8

  /** The line `append` writes, without its line break. */
  function LineOf(e: HarEntry): string { Dumps(Compact, ToHarDict(e)) }

  function LogText(es: seq<HarEntry>): string {
    if es == [] then [] else LogText(es[..|es| - 1]) + LineOf(es[|es| - 1]) + "\n"
  }

  function LogBytes(es: seq<HarEntry>): bytes { Utf8.Encode(LogText(es)) }

  /** Lines as a text file yields them with universal newlines, without their ends. */
  function Lines(text: string): seq<string> { LinesFrom([], text) }

  function LinesFrom(open: string, text: string): seq<string>
    decreases |text|
  {
    if text == [] then if open == [] then [] else [open]
    else if text[0] == '\n' then [open] + LinesFrom([], text[1..])
    else if text[0] == '\r' then
      [open] + LinesFrom([], if |text| > 1 && text[1] == '\n' then text[2..] else text[1..])
    else LinesFrom(open + [text[0]], text[1..])
  }

  datatype LogError = Missing | NotUtf8 | NotJson | NotHar(why: ReadError)

  function ReadLine(line: string): Result<HarEntry, LogError> {
    match Loads(line)
    case None => Err(NotJson)
    case Some(j) =>
      match ParseHarEntry(j)
      case Ok(e) => Ok(e)
      case Err(why) => Err(NotHar(why))
  }

  /** Every line that is not blank is one entry; the first bad line fails the whole reading. */
  function ReadLines(lines: seq<string>): Result<seq<HarEntry>, LogError> {
    if lines == [] then Ok([])
    else
      var front := ReadLines(lines[..|lines| - 1]);
      var line := Strip(lines[|lines| - 1]);
      if front.Err? || line == "" then front
      else match ReadLine(line)
        case Err(why) => Err(why)
        case Ok(e) => Ok(front.value + [e])
  }

  function ReadLog(file: bytes): Result<seq<HarEntry>, LogError> {
    match Utf8.Decode(file)
    case None => Err(NotUtf8)
    case Some(text) => ReadLines(Lines(text))
  }

  // ---------------------------------------------------------------- round trip

  /** A line ends at a line feed, at a carriage return, or at both in that order. */
  predicate EndsLine(end: string, rest: string) {
    end == "\n" || end == "\r\n" || (end == "\r" && (rest == "" || rest[0] != '\n'))
  }

  lemma {:induction false} LinesStep(open: string, line: string, end: string, rest: string)
    requires '\n' !in line && '\r' !in line && EndsLine(end, rest)
    ensures LinesFrom(open, line + end + rest) == [open + line] + LinesFrom([], rest)
    decreases |line|
  {
    var text := line + end + rest;
    if line == [] {
      assert text == end + rest && open + line == open;
      assert text[1..] == end[1..] + rest;
      assert |end| == 2 ==> text[2..] == rest;
      assert |end| == 1 ==> text[1..] == rest;
    } else {
      assert text[1..] == line[1..] + end + rest;
      assert line[0] in line;
      assert forall c | c in line[1..] :: c in line;
      LinesStep(open + [line[0]], line[1..], end, rest);
      assert open + [line[0]] + line[1..] == open + line;
    }
  }

  /** The lines of a text are cut at its line ends, and the last may lack one. */
  lemma LinesOfText(line: string, end: string, rest: string)
    requires '\n' !in line && '\r' !in line
    ensures EndsLine(end, rest) ==> Lines(line + end + rest) == [line] + Lines(rest)
    ensures Lines(line) == if line == "" then [] else [line]
  {
    if EndsLine(end, rest) {
      LinesStep([], line, end, rest);
      assert [] + line == line;
    }
    OpenLine([], line);
    assert [] + line == line;
  }

  lemma {:induction false} OpenLine(open: string, line: string)
    requires '\n' !in line && '\r' !in line
    ensures LinesFrom(open, line) == if open + line == "" then [] else [open + line]
    decreases |line|
  {
    if line != [] {
      assert line[0] in line && forall c | c in line[1..] :: c in line;
      OpenLine(open + [line[0]], line[1..]);
      assert open + [line[0]] + line[1..] == open + line;
    } else {
      assert open + line == open;
    }
  }

  /** Blank lines are passed over, wherever they stand. */
  lemma {:induction false} BlankLinesAreSkipped(before: seq<string>, blank: string, after: seq<string>)
    requires Strip(blank) == ""
    ensures ReadLines(before + [blank] + after) == ReadLines(before + after)
    decreases |after|
  {
    hide ReadLine, Strip;
    var all := before + [blank] + after;
    if after == [] {
      assert all[..|all| - 1] == before && before + after == before;
    } else {
      var front := after[..|after| - 1];
      assert all[..|all| - 1] == before + [blank] + front;
      assert (before + after)[..|before + after| - 1] == before + front;
      BlankLinesAreSkipped(before, blank, front);
    }
  }

  /** The first line that is neither blank nor an entry is the error, whatever follows it. */
  lemma BadLineFails(before: seq<string>, bad: string, after: seq<string>)
    requires ReadLines(before).Ok? && Strip(bad) != "" && ReadLine(Strip(bad)).Err?
    ensures ReadLines(before + [bad] + after) == Err(ReadLine(Strip(bad)).error)
  {
    hide ReadLine, Strip;
    var all, upTo := before + [bad] + after, before + [bad];
    assert upTo[..|upTo| - 1] == before;
    assert all[..|upTo|] == upTo;
    FirstErrorStays(all, |upTo|);
  }

  function LinesOf(es: seq<HarEntry>): seq<string> { seq(|es|, i requires 0 <= i < |es| => LineOf(es[i])) }

  lemma LineIsOneLine(e: HarEntry)
    requires Writable(e)
    ensures OneLine(LineOf(e))
  {
    HarDictPrintable(e);
    PrintOneLine(ToHarDict(e));
  }

  lemma LogTextSnoc(front: seq<HarEntry>, e: HarEntry)
    ensures LogText(front + [e]) == LogText(front) + LineOf(e) + "\n"
    ensures LinesOf(front + [e]) == LinesOf(front) + [LineOf(e)]
  {
    hide LineOf;
    assert (front + [e])[..|front|] == front;
  }

  lemma LogThenRest(front: seq<HarEntry>, last: HarEntry, rest: string)
    ensures LogText(front + [last]) + rest == LogText(front) + (LineOf(last) + "\n" + rest)
  {
    LogTextSnoc(front, last);
    var a, b := LogText(front), LineOf(last);
    hide *;
    assert a + b + "\n" + rest == a + (b + "\n" + rest);
  }

  lemma {:induction false} LinesOfLog(es: seq<HarEntry>, rest: string)
    requires forall e | e in es :: Writable(e)
    ensures Lines(LogText(es) + rest) == LinesOf(es) + Lines(rest)
    decreases |es|
  {
    hide *;
    if es == [] {
      EmptyLogLines(rest);
    } else {
      var front, last := es[..|es| - 1], es[|es| - 1];
      assert es == front + [last];
      LogTextSnoc(front, last);
      LogThenRest(front, last, rest);
      LinesOfLog(front, LineOf(last) + "\n" + rest);
      LineIsOneLine(last);
      LineThenRest(LineOf(last), rest);
    }
  }

  lemma EmptyLogLines(rest: string)
    ensures LogText([]) + rest == rest && LinesOf([]) == []
    ensures [] + Lines(rest) == Lines(rest)
  {
    assert "" + rest == rest;
  }

  lemma LineThenRest(line: string, rest: string)
    requires OneLine(line)
    ensures Lines(line + "\n" + rest) == [line] + Lines(rest)
  {
    LinesStep([], line, "\n", rest);
    assert [] + line == line;
  }

  /** A dict is printed between braces, so stripping leaves it alone. */
  lemma LineIsStripped(e: HarEntry)
    ensures Strip(LineOf(e)) == LineOf(e) != ""
  {
    assert EntryDict(e) != [];
    hide EntryDict;
    BracedIsStripped(EntryDict(e));
  }

  lemma BracedIsStripped(fields: seq<Field>)
    requires fields != []
    ensures var s := Dumps(Compact, Object(fields)); Strip(s) == s != ""
  {
    hide PrintFields, Dumps, Strip;
    FieldsEndInBrace(fields);
    BracedText(fields);
    BracesStay("{" + PrintFields(Compact, 0, fields));
  }

  lemma BracedText(fields: seq<Field>)
    requires fields != []
    ensures Dumps(Compact, Object(fields)) == "{" + PrintFields(Compact, 0, fields)
  {
    hide PrintFields;
    assert "" + PrintFields(Compact, 0, fields) == PrintFields(Compact, 0, fields);
  }

  lemma BracesStay(s: string)
    requires s != [] && s[0] == '{' && s[|s| - 1] == '}'
    ensures Strip(s) == s
  {
  }

  lemma {:induction false} FieldsEndInBrace(fields: seq<Field>)
    requires fields != []
    ensures var s := PrintFields(Compact, 0, fields); s != [] && s[|s| - 1] == '}'
    decreases |fields|
  {
    hide Print, PrintString;
    if |fields| > 1 {
      FieldsEndInBrace(fields[1..]);
      var tail := PrintFields(Compact, 0, fields[1..]);
      assert PrintFields(Compact, 0, fields) ==
             PrintString(Compact, fields[0].key) + (": " + (Print(Compact, 1, fields[0].value) + ("," + (" " + tail))));
    } else {
      assert PrintFields(Compact, 0, fields) ==
             PrintString(Compact, fields[0].key) + (": " + (Print(Compact, 1, fields[0].value) + ("" + "}")));
    }
  }

  lemma LineIsRead(e: HarEntry)
    requires Writable(e)
    ensures ReadLine(LineOf(e)) == Ok(e)
  {
    HarDictPrintable(e);
    LoadsDumps(Compact, ToHarDict(e));
    ParseToHarDict(e);
    hide ToHarDict, ParseHarEntry, Loads, Dumps;
  }

  lemma ReadLinesSnoc(lines: seq<string>, es: seq<HarEntry>, line: string, e: HarEntry)
    requires ReadLines(lines) == Ok(es) && Strip(line) == line != "" && ReadLine(line) == Ok(e)
    ensures ReadLines(lines + [line]) == Ok(es + [e])
  {
    assert (lines + [line])[..|lines|] == lines;
    hide ReadLine, Strip;
  }

  lemma {:induction false} LinesAreRead(es: seq<HarEntry>)
    requires forall e | e in es :: Writable(e)
    ensures ReadLines(LinesOf(es)) == Ok(es)
    decreases |es|
  {
    hide LineOf, ReadLine;
    if es != [] {
      hide *;
      var front, last := es[..|es| - 1], es[|es| - 1];
      assert es == front + [last];
      LinesAreRead(front);
      LineIsStripped(last);
      LineIsRead(last);
      LogTextSnoc(front, last);
      ReadLinesSnoc(LinesOf(front), front, LineOf(last), last);
    }
  }

  /** Whatever list of entries was appended, reading the file gives back that list, in order. */
  lemma ReadLogText(es: seq<HarEntry>)
    requires forall e | e in es :: Writable(e)
    ensures ReadLog(LogBytes(es)) == Ok(es)
  {
    Utf8.DecodeIff(Utf8.Encode(LogText(es)), LogText(es));
    hide Utf8.Decode, Utf8.Encode, LogText, ReadLines, LineOf;
    LinesOfLog(es, []);
    LinesAreRead(es);
    assert LogText(es) + [] == LogText(es);
    assert LinesOf(es) + Lines([]) == LinesOf(es);
  }

  /** One more line is one more entry of the log. */
  lemma LogGrows(es: seq<HarEntry>, entry: HarEntry)
    ensures LogBytes(es + [entry]) == LogBytes(es) + Utf8.Encode(LineOf(entry) + "\n")
  {
    hide LogText, LineOf, Utf8.Encode;
    LogTextSnoc(es, entry);
    Utf8.EncodeAppend(LogText(es), LineOf(entry) + "\n");
    var log, line := LogText(es), LineOf(entry);
    assert log + (line + "\n") == log + line + "\n";
  }

  // ---------------------------------------------------------------- files

  type Path = seq<string>

  datatype Disk = Disk(dirs: set<Path>, files: map<Path, bytes>) {
    predicate Exists(path: Path) { path in dirs || path in files }

    /** No file stands where the directory or one above it has to be. */
    predicate CanHold(dir: Path) { forall k | 0 <= k <= |dir| :: dir[..k] !in files }

    /** The directory and those above it are there, as after mkdir with parents. */
    function WithDirs(dir: Path): Disk { this.(dirs := dirs + set k | 0 <= k <= |dir| :: dir[..k]) }

    function Write(path: Path, content: bytes): Disk { this.(files := files[path := content]) }

    function Appended(path: Path, content: bytes): Disk {
      Write(path, (if path in files then files[path] else []) + content)
    }

    function Without(path: Path): Disk { this.(files := files - {path}) }
  }

  class FileSystem {
    var disk: Disk

    constructor (disk: Disk)
      ensures this.disk == disk
    {
      this.disk := disk;
    }
  }

  class CaptureBuffer {
    const fs: FileSystem
    const path: Path
    var open: bool

    /** Opens the file for appending, creating it and the directories it needs. */
    constructor (fs: FileSystem, dir: Path, name: string)
      requires fs.disk.CanHold(dir)
      modifies fs
      ensures this.fs == fs && path == dir + [name] && open
      ensures fs.disk == old(fs.disk).WithDirs(dir).Appended(path, [])
    {
      this.fs, path, open := fs, dir + [name], true;
      new;
      fs.disk := fs.disk.WithDirs(dir);
      if path !in fs.disk.files {
        fs.disk := fs.disk.Write(path, []);
      }
      assert path in old(fs.disk.files) ==> old(fs.disk.files)[path] + [] == old(fs.disk.files)[path];
    }

    /** The file grows by one line, so a log becomes the log of one entry more; nothing else on the disk changes. */
    method Append(entry: HarEntry)
      requires open && path in fs.disk.files
      modifies fs
      ensures fs.disk.dirs == old(fs.disk).dirs && fs.disk.files.Keys == old(fs.disk).files.Keys
      ensures fs.disk.files[path] == old(fs.disk).files[path] + Utf8.Encode(LineOf(entry) + "\n")
      ensures forall p | p in fs.disk.files && p != path :: fs.disk.files[p] == old(fs.disk).files[p]
      ensures forall es | old(fs.disk).files[path] == LogBytes(es) :: fs.disk.files[path] == LogBytes(es + [entry])
    {
      hide LogBytes, LineOf, Utf8.Encode;
      var line := LineOf(entry);
      fs.disk := fs.disk.Appended(path, Utf8.Encode(line + "\n"));
      forall es ensures LogBytes(es + [entry]) == LogBytes(es) + Utf8.Encode(line + "\n") {
        LogGrows(es, entry);
      }
    }

    method Close()
      modifies this
      ensures !open
    {
      open := false;
    }
  }

  /** `read_buffer`. */
  method ReadBuffer(fs: FileSystem, path: Path) returns (r: Result<seq<HarEntry>, LogError>)
    ensures r == if path in fs.disk.files then ReadLog(fs.disk.files[path]) else Err(Missing)
  {
    hide ReadLine, Strip, Lines, Utf8.Decode;
    if path !in fs.disk.files {
      return Err(Missing);
    }
    var text := Utf8.Decode(fs.disk.files[path]);
    if text.None? {
      return Err(NotUtf8);
    }
    var lines := Lines(text.value);
    var entries: seq<HarEntry> := [];
    for i := 0 to |lines|
      invariant ReadLines(lines[..i]) == Ok(entries)
    {
      assert lines[..i + 1][..i] == lines[..i];
      var stripped := Strip(lines[i]);
      if stripped != "" {
        var e := ReadLine(stripped);
        if e.Err? {
          FirstErrorStays(lines, i + 1);
          return Err(e.error);
        }
        entries := entries + [e.value];
      }
    }
    assert lines[..|lines|] == lines;
    return Ok(entries);
  }

  lemma {:induction false} FirstErrorStays(lines: seq<string>, k: nat)
    requires k <= |lines| && ReadLines(lines[..k]).Err?
    ensures ReadLines(lines) == ReadLines(lines[..k])
    decreases |lines|
  {
    if k < |lines| {
      var front := lines[..|lines| - 1];
      assert front[..k] == lines[..k];
      FirstErrorStays(front, k);
    } else {
      assert lines[..k] == lines;
    }
  }
}
