/** raw.har: the file in which a finished capture keeps its entries. */
module RawHar {
  import opened Basics
  import opened Json
  import opened Har
  import Utf8

  function HarDicts(es: seq<HarEntry>): seq<Json> {
    if es == [] then [] else [ToHarDict(es[0])] + HarDicts(es[1..])
  }

  const CREATOR := Object([Field("name", String("secondeye")), Field("version", String("1.0.1"))])

  function LogFields(es: seq<HarEntry>): seq<Field> {
    [Field("version", String("1.2")), Field("creator", CREATOR), Field("entries", Array(HarDicts(es)))]
  }

  /** `_build_raw_har`. */
  function RawHar(es: seq<HarEntry>): Json { Object([Field("log", Object(LogFields(es)))]) }

  /** What `_write_outputs` puts into the file. */
  function RawHarBytes(es: seq<HarEntry>): bytes { Utf8.Encode(Dumps(Indented, RawHar(es))) }

  function ReadEntries(items: seq<Json>): Result<seq<HarEntry>, ReadError> {
    if items == [] then Ok([])
    else
      var first := ParseHarEntry(items[0]);
      var more := ReadEntries(items[1..]);
      if first.Err? then Err(first.error)
      else if more.Err? then more
      else Ok([first.value] + more.value)
  }

  /** The entries of a file: each of `log.entries`, through `parse_har_entry`. */
  function ReadRawHar(file: bytes): Option<seq<HarEntry>> {
    var text := Utf8.Decode(file);
    if text.None? || Loads(text.value).None? then None else EntriesOf(Loads(text.value).value)
  }

  function EntriesOf(raw: Json): Option<seq<HarEntry>> {
    if !raw.Object? || GetDict(raw.fields, "log").None? then None
    else
      var items := Get(GetDict(raw.fields, "log").value, "entries");
      if items.None? || !items.value.Array? || ReadEntries(items.value.items).Err? then None
      else Some(ReadEntries(items.value.items).value)
  }

  lemma {:induction false} HarDictsAreRead(es: seq<HarEntry>)
    ensures ReadEntries(HarDicts(es)) == Ok(es)
  {
    hide ToHarDict, ParseHarEntry;
    if es != [] {
      ParseToHarDict(es[0]);
      HarDictsAreRead(es[1..]);
      assert es == [es[0]] + es[1..];
    }
  }

  lemma {:induction false} HarDictsPrintable(es: seq<HarEntry>)
    requires forall e | e in es :: Writable(e)
    ensures forall j | j in HarDicts(es) :: Printable(j)
  {
    hide ToHarDict, Printable, Writable;
    if es != [] {
      HarDictPrintable(es[0]);
      HarDictsPrintable(es[1..]);
    }
  }

  lemma RawHarPrintable(es: seq<HarEntry>)
    requires forall e | e in es :: Writable(e)
    ensures Printable(RawHar(es))
  {
    hide Printable, Writable, HarDicts;
    HarDictsPrintable(es);
    var items := HarDicts(es);
    ArrayPrintable(items);
    AtomsPrintable();
    LogPrintable(items);
    ObjectPrintable([Field("log", Object(LogFields(es)))]);
  }

  lemma LogPrintable(items: seq<Json>)
    requires Printable(Array(items))
    ensures Printable(Object([
      Field("version", String("1.2")), Field("creator", CREATOR), Field("entries", Array(items))]))
  {
    hide Printable;
    AtomsPrintable();
    ObjectPrintable([Field("name", String("secondeye")), Field("version", String("1.0.1"))]);
    ObjectPrintable([Field("version", String("1.2")), Field("creator", CREATOR), Field("entries", Array(items))]);
  }

  lemma ArrayPrintable(items: seq<Json>)
    requires forall j | j in items :: Printable(j)
    ensures Printable(Array(items))
  {
  }

  lemma RawHarEntries(es: seq<HarEntry>)
    ensures EntriesOf(RawHar(es)) == Some(es)
  {
    HarDictsAreRead(es);
    hide HarDicts, ReadEntries;
    var fields := LogFields(es);
    GetAt(fields, 2, "entries");
    GetAt([Field("log", Object(fields))], 0, "log");
    hide Get, LogFields;
  }

  /** The file of a capture determines its entries: reading it gives back every one of them, in order. */
  lemma RawHarIsRead(es: seq<HarEntry>)
    requires forall e | e in es :: Writable(e)
    ensures ReadRawHar(RawHarBytes(es)) == Some(es)
  {
    hide RawHar, EntriesOf, Utf8.Encode, Utf8.Decode, Loads, Dumps, Writable;
    var text := Dumps(Indented, RawHar(es));
    Utf8.DecodeIff(Utf8.Encode(text), text);
    RawHarPrintable(es);
    LoadsDumps(Indented, RawHar(es));
    RawHarEntries(es);
  }

  /** Beside the entries, raw.har names the version of the format and the program that wrote it. */
  lemma RawHarHeader(es: seq<HarEntry>)
    ensures RawHar(es).Object? && GetDict(RawHar(es).fields, "log").Some?
    ensures var log := GetDict(RawHar(es).fields, "log").value;
            && Get(log, "version") == Some(String("1.2"))
            && GetDict(log, "creator").Some?
            && var creator := GetDict(log, "creator").value;
               && Get(creator, "name") == Some(String("secondeye"))
               && Get(creator, "version") == Some(String("1.0.1"))
  {
    var log := LogFields(es);
    GetAt([Field("log", Object(log))], 0, "log");
    GetAt(log, 0, "version");
    GetAt(log, 1, "creator");
    GetAt(CREATOR.fields, 0, "name");
    GetAt(CREATOR.fields, 1, "version");
    hide Get, HarDicts;
  }
}
