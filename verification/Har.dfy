/** HAR entries: their JSON form, and the way back. */
module Har {
  import opened Basics
  import opened Strings
  import opened Json
  import opened IsoTime
  import Utf8
  import Base64

  datatype HarHeader = HarHeader(name: string, value: string)

  datatype HarRequest = HarRequest(verb: string, url: string, httpVersion: string, headers: seq<HarHeader>, body: bytes)

  datatype HarResponse = HarResponse(
    status: int, statusText: string, httpVersion: string, headers: seq<HarHeader>, body: bytes)

  /** `timeMs` is a float, carried as the token it is written with. */
  datatype HarEntry = HarEntry(startedAt: Timestamp, timeMs: string, request: HarRequest, response: HarResponse)

  /** An entry a float can be written for; every float has such a token. */
  predicate Writable(e: HarEntry) { IsFloatToken(e.timeMs) }

  /** The first header of that name, whatever the case of its letters. */
  function HeaderValue(headers: seq<HarHeader>, name: string): Option<string> {
    if headers == [] then None
    else if Lower(headers[0].name) == Lower(name) then Some(headers[0].value)
    else HeaderValue(headers[1..], name)
  }

  /** Python's `value or default` for an optional string. */
  function OrElse(v: Option<string>, default: string): string {
    if v.None? || v.value == "" then default else v.value
  }

  /** The i-th header is the first with that name, whatever the case of its letters. */
  predicate FirstNamed(headers: seq<HarHeader>, name: string, i: nat) {
    && i < |headers| && SameButCase(headers[i].name, name)
    && forall j | 0 <= j < i :: !SameButCase(headers[j].name, name)
  }

  /** The value found is that of the first header of the name; none is found exactly when there is no such header. */
  lemma HeaderValueIff(headers: seq<HarHeader>, name: string, v: string)
    ensures HeaderValue(headers, name) == Some(v) <==>
            exists i: nat :: FirstNamed(headers, name, i) && headers[i].value == v
    ensures HeaderValue(headers, name) == None <==> forall h | h in headers :: !SameButCase(h.name, name)
  {
    hide SameButCase, HeaderValue;
    if HeaderValue(headers, name).Some? {
      var i := FoundHeader(headers, name);
      assert headers[i] in headers;
    } else {
      NoHeader(headers, name);
    }
    if i: nat :| FirstNamed(headers, name, i) && headers[i].value == v {
      FirstIsFound(headers, name, i);
    }
  }

  lemma {:induction false} FoundHeader(headers: seq<HarHeader>, name: string) returns (i: nat)
    requires HeaderValue(headers, name).Some?
    ensures FirstNamed(headers, name, i) && HeaderValue(headers, name) == Some(headers[i].value)
  {
    hide SameButCase, Lower;
    LowerIff(headers[0].name, name);
    if SameButCase(headers[0].name, name) {
      i := 0;
    } else {
      var k := FoundHeader(headers[1..], name);
      i := k + 1;
      forall j | 0 <= j < i ensures !SameButCase(headers[j].name, name) {
        assert j > 0 ==> headers[j] == headers[1..][j - 1];
      }
    }
  }

  lemma {:induction false} FirstIsFound(headers: seq<HarHeader>, name: string, i: nat)
    requires FirstNamed(headers, name, i)
    ensures HeaderValue(headers, name) == Some(headers[i].value)
  {
    hide SameButCase, Lower;
    LowerIff(headers[0].name, name);
    if i > 0 {
      FirstIsFound(headers[1..], name, i - 1);
    }
  }

  lemma {:induction false} NoHeader(headers: seq<HarHeader>, name: string)
    requires HeaderValue(headers, name).None?
    ensures forall h | h in headers :: !SameButCase(h.name, name)
  {
    hide SameButCase, Lower;
    if headers != [] {
      LowerIff(headers[0].name, name);
      NoHeader(headers[1..], name);
    }
  }

  // ---------------------------------------------------------------- writing

  /** Text if the body is UTF-8, otherwise base64 and a mark saying so. */
  function EncodeBody(body: bytes): seq<Field> {
    match Utf8.Decode(body)
    case Some(text) => [Field("text", String(text))]
    case None => [Field("text", String(Base64.Encode(body))), Field("encoding", String("base64"))]
  }

  function HeaderDict(h: HarHeader): Json { Object([Field("name", String(h.name)), Field("value", String(h.value))]) }

  function HeaderDicts(headers: seq<HarHeader>): seq<Json> {
    seq(|headers|, i requires 0 <= i < |headers| => HeaderDict(headers[i]))
  }

  function MimeType(headers: seq<HarHeader>): Json {
    String(OrElse(HeaderValue(headers, "content-type"), "application/octet-stream"))
  }

  function RequestDict(r: HarRequest): seq<Field> {
    [Field("method", String(r.verb)),
     Field("url", String(r.url)),
     Field("httpVersion", String("HTTP/" + r.httpVersion)),
     Field("headers", Array(HeaderDicts(r.headers))),
     Field("queryString", Array([])),
     Field("cookies", Array([])),
     Field("headersSize", Int(-1)),
     Field("bodySize", Int(|r.body|))]
    + if r.body == [] then []
      else [Field("postData", Object([Field("mimeType", MimeType(r.headers))] + EncodeBody(r.body)))]
  }

  function ContentDict(r: HarResponse): seq<Field> {
    [Field("size", Int(|r.body|)), Field("mimeType", MimeType(r.headers))] + EncodeBody(r.body)
  }

  function ResponseDict(r: HarResponse): seq<Field> {
    [Field("status", Int(r.status)),
     Field("statusText", String(r.statusText)),
     Field("httpVersion", String("HTTP/" + r.httpVersion)),
     Field("headers", Array(HeaderDicts(r.headers))),
     Field("cookies", Array([])),
     Field("content", Object(ContentDict(r))),
     Field("redirectURL", String(OrElse(HeaderValue(r.headers, "location"), ""))),
     Field("headersSize", Int(-1)),
     Field("bodySize", Int(|r.body|))]
  }

  function EntryDict(e: HarEntry): seq<Field> {
    [Field("startedDateTime", String(ToIso(e.startedAt))),
     Field("time", Float(e.timeMs)),
     Field("request", Object(RequestDict(e.request))),
     Field("response", Object(ResponseDict(e.response))),
     Field("cache", Object([])),
     Field("timings", Object(TimingsDict(e)))]
  }

  function TimingsDict(e: HarEntry): seq<Field> {
    [Field("send", Int(0)), Field("wait", Float(e.timeMs)), Field("receive", Int(0))]
  }

  /** `to_har_dict`. */
  function ToHarDict(e: HarEntry): Json { Object(EntryDict(e)) }

  // ---------------------------------------------------------------- reading

  /** `dict.get`: of several fields with one name the last counts. */
  function Get(fields: seq<Field>, key: string): Option<Json> {
    if fields == [] then None
    else if fields[|fields| - 1].key == key then Some(fields[|fields| - 1].value)
    else Get(fields[..|fields| - 1], key)
  }

  function GetText(fields: seq<Field>, key: string): Option<string> {
    match Get(fields, key)
    case Some(String(s)) => Some(s)
    case _ => None
  }

  function GetDict(fields: seq<Field>, key: string): Option<seq<Field>> {
    match Get(fields, key)
    case Some(Object(fs)) => Some(fs)
    case _ => None
  }

  datatype ReadError = WrongShape | BadBase64 | BadTime

  /** `_decode_body`; a missing dict or a missing text is an empty body. */
  function DecodeBody(data: Option<seq<Field>>): Result<bytes, ReadError> {
    if data.None? then Ok([])
    else match GetText(data.value, "text")
      case None => Ok([])
      case Some(text) =>
        if Get(data.value, "encoding") == Some(String("base64")) then
          match Base64.Decode(text)
          case Ok(body) => Ok(body)
          case Err(_) => Err(BadBase64)
        else Ok(Utf8.Encode(text))
  }

  function ParseHeader(j: Json): Option<HarHeader> {
    if !j.Object? then None
    else
      var name, value := GetText(j.fields, "name"), GetText(j.fields, "value");
      if name.None? || value.None? then None else Some(HarHeader(name.value, value.value))
  }

  function ParseHeaders(items: seq<Json>): Option<seq<HarHeader>> {
    if items == [] then Some([])
    else
      var h, rest := ParseHeader(items[0]), ParseHeaders(items[1..]);
      if h.None? || rest.None? then None else Some([h.value] + rest.value)
  }

  function ReadHeaders(fields: seq<Field>): Option<seq<HarHeader>> {
    match Get(fields, "headers")
    case Some(Array(items)) => ParseHeaders(items)
    case _ => None
  }

  function ParseRequest(d: seq<Field>): Result<HarRequest, ReadError> {
    var verb, url, version := GetText(d, "method"), GetText(d, "url"), GetText(d, "httpVersion");
    var headers := ReadHeaders(d);
    if verb.None? || url.None? || version.None? || headers.None? then Err(WrongShape)
    else match DecodeBody(GetDict(d, "postData"))
      case Err(e) => Err(e)
      case Ok(body) => Ok(HarRequest(verb.value, url.value, RemovePrefix(version.value, "HTTP/"), headers.value, body))
  }

  function ParseResponse(d: seq<Field>): Result<HarResponse, ReadError> {
    var status, text, version := Get(d, "status"), GetText(d, "statusText"), GetText(d, "httpVersion");
    var headers := ReadHeaders(d);
    if status.None? || !status.value.Int? || text.None? || version.None? || headers.None? then Err(WrongShape)
    else match DecodeBody(GetDict(d, "content"))
      case Err(e) => Err(e)
      case Ok(body) =>
        Ok(HarResponse(status.value.n, text.value, RemovePrefix(version.value, "HTTP/"), headers.value, body))
  }

  function ParseTime(j: Option<Json>): Option<string> {
    match j
    case Some(Float(token)) => Some(token)
    case Some(Int(n)) => Some(PrintInt(n) + ".0")
    case _ => None
  }

  /** `parse_har_entry`. */
  function ParseHarEntry(j: Json): Result<HarEntry, ReadError> {
    if !j.Object? then Err(WrongShape)
    else
      var request, response := GetDict(j.fields, "request"), GetDict(j.fields, "response");
      var started, time := GetText(j.fields, "startedDateTime"), ParseTime(Get(j.fields, "time"));
      if request.None? || response.None? || started.None? || time.None? then Err(WrongShape)
      else
        var req, resp, at := ParseRequest(request.value), ParseResponse(response.value), FromIso(started.value);
        if req.Err? then Err(req.error)
        else if resp.Err? then Err(resp.error)
        else if at.None? || !(0 <= at.value < DAY_LIMIT * MICROS_PER_DAY) then Err(BadTime)
        else Ok(HarEntry(at.value, time.value, req.value, resp.value))
  }

  // ---------------------------------------------------------------- round trip

  lemma GetLast(fields: seq<Field>, f: Field, key: string)
    ensures Get(fields + [f], key) == if f.key == key then Some(f.value) else Get(fields, key)
  {
    assert (fields + [f])[..|fields|] == fields;
  }

  lemma {:induction false} GetAppend(a: seq<Field>, b: seq<Field>, key: string)
    ensures Get(a + b, key) == if Get(b, key).Some? then Get(b, key) else Get(a, key)
  {
    if b == [] {
      assert a + b == a;
    } else {
      var front := b[..|b| - 1];
      assert a + b == (a + front) + [b[|b| - 1]] && b == front + [b[|b| - 1]];
      GetAppend(a, front, key);
      GetLast(a + front, b[|b| - 1], key);
      GetLast(front, b[|b| - 1], key);
    }
  }

  /** The body as text, without an encoding, if it is UTF-8; and otherwise, marked so, in base64. */
  ghost predicate ShowsBody(fields: seq<Field>, body: bytes) {
    && (forall text | Utf8.Encode(text) == body ::
          Get(fields, "text") == Some(String(text)) && Get(fields, "encoding") == None)
    && ((forall text :: Utf8.Encode(text) != body) ==>
          && Get(fields, "text") == Some(String(Base64.Encode(body)))
          && Get(fields, "encoding") == Some(String("base64")))
  }

  lemma BodyIsShown(front: seq<Field>, body: bytes)
    requires Get(front, "encoding").None?
    ensures ShowsBody(front + EncodeBody(body), body)
  {
    var fields := front + EncodeBody(body);
    forall text ensures Utf8.Encode(text) == body <==> Utf8.Decode(body) == Some(text) {
      Utf8.DecodeIff(body, text);
    }
    if Utf8.Decode(body).Some? {
      var t := Field("text", String(Utf8.Decode(body).value));
      GetLast(front, t, "text");
      GetLast(front, t, "encoding");
      assert fields == front + [t];
      assert Utf8.Encode(Utf8.Decode(body).value) == body;
    } else {
      var t, m := Field("text", String(Base64.Encode(body))), Field("encoding", String("base64"));
      assert fields == (front + [t]) + [m];
      GetLast(front + [t], m, "text");
      GetLast(front + [t], m, "encoding");
      GetLast(front, t, "text");
    }
    hide Get, Utf8.Encode, Utf8.Decode, Base64.Encode;
  }

  /** Every body is shown as it should be and comes back byte for byte, whatever stands in front of its fields. */
  lemma DecodeEncodeBody(front: seq<Field>, body: bytes)
    requires Get(front, "encoding").None?
    ensures DecodeBody(Some(front + EncodeBody(body))) == Ok(body)
    ensures ShowsBody(front + EncodeBody(body), body)
  {
    BodyIsShown(front, body);
    BodyIsRead(front, body);
    hide *;
  }

  lemma BodyIsRead(front: seq<Field>, body: bytes)
    requires Get(front, "encoding").None?
    ensures DecodeBody(Some(front + EncodeBody(body))) == Ok(body)
  {
    var fields := front + EncodeBody(body);
    match Utf8.Decode(body)
    case Some(text) =>
      GetLast(front, Field("text", String(text)), "text");
      GetLast(front, Field("text", String(text)), "encoding");
      Utf8.DecodeIff(body, text);
      assert fields == front + [Field("text", String(text))];
      hide Get;
    case None =>
      var t, m := Field("text", String(Base64.Encode(body))), Field("encoding", String("base64"));
      assert fields == (front + [t]) + [m];
      GetLast(front + [t], m, "text");
      GetLast(front + [t], m, "encoding");
      GetLast(front, t, "text");
      Base64.DecodeEncode(body);
      hide Get;
  }

  lemma {:induction false} ParseHeaderDicts(headers: seq<HarHeader>)
    ensures ParseHeaders(HeaderDicts(headers)) == Some(headers)
  {
    if headers != [] {
      assert HeaderDicts(headers)[1..] == HeaderDicts(headers[1..]);
      ParseHeaderDicts(headers[1..]);
      ParseHeaderDict(headers[0]);
      hide ParseHeader, HeaderDict;
      assert headers == [headers[0]] + headers[1..];
    }
  }

  lemma ParseHeaderDict(h: HarHeader)
    ensures ParseHeader(HeaderDict(h)) == Some(h)
  {
    var n, v := Field("name", String(h.name)), Field("value", String(h.value));
    assert HeaderDict(h) == Object([n] + [v]);
    GetLast([n], v, "name");
    GetLast([n], v, "value");
    GetLast([], n, "name");
    assert [] + [n] == [n];
    hide Get;
  }

  lemma {:induction false} GetAt(fields: seq<Field>, i: nat, key: string)
    requires i < |fields| && fields[i].key == key && forall j | i < j < |fields| :: fields[j].key != key
    ensures Get(fields, key) == Some(fields[i].value)
  {
    if i < |fields| - 1 {
      GetAt(fields[..|fields| - 1], i, key);
    }
  }

  lemma {:induction false} GetMissing(fields: seq<Field>, key: string)
    requires forall j | 0 <= j < |fields| :: fields[j].key != key
    ensures Get(fields, key) == None
  {
    if fields != [] {
      GetMissing(fields[..|fields| - 1], key);
    }
  }

  predicate Distinct(keys: seq<string>) { forall i, j | 0 <= i < j < |keys| :: keys[i] != keys[j] }

  predicate HasKeys(fields: seq<Field>, keys: seq<string>) {
    |fields| == |keys| && forall i | 0 <= i < |keys| :: fields[i].key == keys[i]
  }

  /** In a dict whose keys are known and distinct, every key finds its own field. */
  lemma Lookup(fields: seq<Field>, keys: seq<string>)
    requires HasKeys(fields, keys) && Distinct(keys)
    ensures forall i | 0 <= i < |keys| :: Get(fields, keys[i]) == Some(fields[i].value)
  {
    forall i | 0 <= i < |keys| ensures Get(fields, keys[i]) == Some(fields[i].value) {
      GetAt(fields, i, keys[i]);
    }
  }

  lemma RequestKeys(r: HarRequest) returns (keys: seq<string>)
    ensures keys == ["method", "url", "httpVersion", "headers", "queryString", "cookies", "headersSize", "bodySize"]
                    + (if r.body == [] then [] else ["postData"])
    ensures HasKeys(RequestDict(r), keys) && Distinct(keys)
    ensures r.body == [] ==> Get(RequestDict(r), "postData") == None
  {
    hide Get, HeaderDicts, EncodeBody, MimeType;
    keys := ["method", "url", "httpVersion", "headers", "queryString", "cookies", "headersSize", "bodySize"]
            + if r.body == [] then [] else ["postData"];
    assert keys[3][0] == 'h' && keys[5][0] == 'c';
    if r.body == [] {
      assert "postData"[0] == 'p';
      assert forall i | 0 <= i < 8 :: RequestDict(r)[i].key[0] != 'p';
      GetMissing(RequestDict(r), "postData");
    }
  }

  lemma RequestLookups(r: HarRequest)
    ensures var d := RequestDict(r);
            && GetText(d, "method") == Some(r.verb) && GetText(d, "url") == Some(r.url)
            && GetText(d, "httpVersion") == Some("HTTP/" + r.httpVersion)
            && Get(d, "headers") == Some(Array(HeaderDicts(r.headers)))
            && GetDict(d, "postData") ==
               if r.body == [] then None else Some([Field("mimeType", MimeType(r.headers))] + EncodeBody(r.body))
  {
    hide Get, HeaderDicts, EncodeBody, MimeType, Distinct, HasKeys;
    var keys := RequestKeys(r);
    Lookup(RequestDict(r), keys);
    assert keys[0] == "method" && keys[1] == "url" && keys[2] == "httpVersion" && keys[3] == "headers";
    assert r.body != [] ==> keys[8] == "postData";
  }

  lemma ParseRequestDict(r: HarRequest)
    ensures ParseRequest(RequestDict(r)) == Ok(r)
  {
    RequestLookups(r);
    ParseHeaderDicts(r.headers);
    VersionIsRead(r.httpVersion);
    MimeThenBody(r.headers, r.body);
    NoBody();
    hide Get, GetText, GetDict, RequestDict, ParseHeaders, HeaderDicts, RemovePrefix, DecodeBody, EncodeBody, MimeType;
  }

  lemma NoBody()
    ensures DecodeBody(None) == Ok([])
  {
  }

  lemma VersionIsRead(version: string)
    ensures RemovePrefix("HTTP/" + version, "HTTP/") == version
  {
    assert ("HTTP/" + version)[..5] == "HTTP/";
  }

  lemma MimeThenBody(headers: seq<HarHeader>, body: bytes)
    ensures DecodeBody(Some([Field("mimeType", MimeType(headers))] + EncodeBody(body))) == Ok(body)
  {
    var front := [Field("mimeType", MimeType(headers))];
    GetMissing(front, "encoding");
    DecodeEncodeBody(front, body);
  }

  lemma ResponseKeys(r: HarResponse) returns (keys: seq<string>)
    ensures keys == ["status", "statusText", "httpVersion", "headers", "cookies", "content",
                     "redirectURL", "headersSize", "bodySize"]
    ensures HasKeys(ResponseDict(r), keys) && Distinct(keys)
  {
    hide HeaderDicts, ContentDict, HeaderValue, OrElse;
    keys := ["status", "statusText", "httpVersion", "headers", "cookies", "content",
             "redirectURL", "headersSize", "bodySize"];
    assert keys[3][0] == 'h' && keys[4][1] == 'o' && keys[5][2] == 'n' && keys[4][2] == 'o';
    assert keys[2][1] == 't' && keys[6][0] == 'r' && keys[7][1] == 'e';
  }

  lemma ResponseLookups(r: HarResponse)
    ensures var d := ResponseDict(r);
            && Get(d, "status") == Some(Int(r.status)) && GetText(d, "statusText") == Some(r.statusText)
            && GetText(d, "httpVersion") == Some("HTTP/" + r.httpVersion)
            && Get(d, "headers") == Some(Array(HeaderDicts(r.headers)))
            && GetDict(d, "content") == Some(ContentDict(r))
  {
    var keys := ResponseKeys(r);
    Lookup(ResponseDict(r), keys);
    hide Get, HeaderDicts, ContentDict, HeaderValue, OrElse, Distinct, HasKeys;
    assert keys[0] == "status" && keys[1] == "statusText" && keys[2] == "httpVersion";
    assert keys[3] == "headers" && keys[5] == "content";
  }

  lemma ContentIsRead(r: HarResponse)
    ensures DecodeBody(Some(ContentDict(r))) == Ok(r.body)
  {
    var front := [Field("size", Int(|r.body|)), Field("mimeType", MimeType(r.headers))];
    GetMissing(front, "encoding");
    DecodeEncodeBody(front, r.body);
  }

  lemma ParseResponseDict(r: HarResponse)
    ensures ParseResponse(ResponseDict(r)) == Ok(r)
  {
    ResponseLookups(r);
    ParseHeaderDicts(r.headers);
    VersionIsRead(r.httpVersion);
    ContentIsRead(r);
    hide Get, GetText, GetDict, ResponseDict, ContentDict, ParseHeaders, HeaderDicts, RemovePrefix, DecodeBody;
  }

  lemma EntryKeys(e: HarEntry) returns (keys: seq<string>)
    ensures keys == ["startedDateTime", "time", "request", "response", "cache", "timings"]
    ensures HasKeys(EntryDict(e), keys) && Distinct(keys)
  {
    hide RequestDict, ResponseDict, TimingsDict, ToIso;
    keys := ["startedDateTime", "time", "request", "response", "cache", "timings"];
    assert keys[2][2] == 'q' && keys[5][0] == 't';
  }

  lemma EntryLookups(e: HarEntry)
    ensures var d := EntryDict(e);
            && GetText(d, "startedDateTime") == Some(ToIso(e.startedAt))
            && Get(d, "time") == Some(Float(e.timeMs))
            && GetDict(d, "request") == Some(RequestDict(e.request))
            && GetDict(d, "response") == Some(ResponseDict(e.response))
  {
    hide RequestDict, ResponseDict, TimingsDict, ToIso;
    var keys := EntryKeys(e);
    Lookup(EntryDict(e), keys);
    hide Get, RequestDict, ResponseDict, TimingsDict, ToIso, Distinct, HasKeys;
    assert keys[0] == "startedDateTime" && keys[1] == "time" && keys[2] == "request" && keys[3] == "response";
  }

  /** `parse_har_entry` inverts `to_har_dict`: every field, and every byte of both bodies. */
  lemma ParseToHarDict(e: HarEntry)
    ensures ParseHarEntry(ToHarDict(e)) == Ok(e)
  {
    EntryLookups(e);
    ParseRequestDict(e.request);
    ParseResponseDict(e.response);
    FromIsoToIso(e.startedAt);
    hide Get, GetText, GetDict, EntryDict, RequestDict, ResponseDict, ParseRequest, ParseResponse, FromIso, ToIso;
  }

  /** An entry without one of its four main fields is refused. */
  lemma MainFieldsNeeded(fields: seq<Field>, key: string)
    requires key in {"request", "response", "startedDateTime", "time"} && Get(fields, key) == None
    ensures ParseHarEntry(Object(fields)).Err?
  {
    hide Get, ParseRequest, ParseResponse, FromIso;
  }

  /** A body dict without a text is an empty body. */
  lemma NoTextNoBody(fields: seq<Field>)
    requires Get(fields, "text").None? || !Get(fields, "text").value.String?
    ensures DecodeBody(Some(fields)) == Ok([]) && DecodeBody(None) == Ok([])
  {
    hide Get;
  }

  /** A time written as an integer is read as that number. */
  lemma IntegerTimeIsRead(n: int)
    ensures ParseTime(Some(Int(n))).Some? && RealOf(ParseTime(Some(Int(n))).value) == n as real
  {
    RealOfWhole(n);
    hide RealOf;
  }

  /** The JSON form of an entry can be printed as soon as its time is a float token. */
  lemma HarDictPrintable(e: HarEntry)
    requires Writable(e)
    ensures Printable(ToHarDict(e))
  {
    RequestPrintable(e.request);
    ResponsePrintable(e.response);
    TimePrintable(e);
    EntryFieldsPrintable(e);
    hide *;
    ObjectPrintable(EntryDict(e));
    assert ToHarDict(e) == Object(EntryDict(e)) by { ToHarDictIsObject(e); }
  }

  lemma ToHarDictIsObject(e: HarEntry)
    ensures ToHarDict(e) == Object(EntryDict(e))
  {
    hide EntryDict;
  }

  lemma EntryFieldsPrintable(e: HarEntry)
    requires Printable(Float(e.timeMs)) && Printable(Object(TimingsDict(e)))
    requires Printable(Object(RequestDict(e.request))) && Printable(Object(ResponseDict(e.response)))
    ensures forall i | 0 <= i < |EntryDict(e)| :: Printable(EntryDict(e)[i].value)
  {
    AtomsPrintable();
    hide RequestDict, ResponseDict, TimingsDict, ToIso, Printable;
  }

  lemma TimePrintable(e: HarEntry)
    requires IsFloatToken(e.timeMs)
    ensures Printable(Float(e.timeMs)) && Printable(Object(TimingsDict(e)))
  {
    hide IsFloatToken;
  }

  lemma ObjectPrintable(fields: seq<Field>)
    requires forall i | 0 <= i < |fields| :: Printable(fields[i].value)
    ensures Printable(Object(fields))
  {
  }

  lemma AtomsPrintable()
    ensures forall s :: Printable(String(s))
    ensures forall n :: Printable(Int(n))
    ensures Printable(Array([])) && Printable(Object([]))
  {
  }

  lemma EncodeBodyPrintable(front: seq<Field>, body: bytes)
    requires forall i | 0 <= i < |front| :: Printable(front[i].value)
    ensures Printable(Object(front + EncodeBody(body)))
  {
    var fields := front + EncodeBody(body);
    forall i | 0 <= i < |fields| ensures Printable(fields[i].value) {
      assert i >= |front| ==> fields[i].value.String?;
    }
    hide EncodeBody;
    ObjectPrintable(fields);
  }

  lemma HeadersPrintable(headers: seq<HarHeader>)
    ensures Printable(Array(HeaderDicts(headers)))
  {
    forall i | 0 <= i < |headers| ensures Printable(HeaderDicts(headers)[i]) {
      var h := headers[i];
      assert HeaderDicts(headers)[i] == HeaderDict(h);
      AtomsPrintable();
      ObjectPrintable(HeaderDict(h).fields);
    }
  }

  lemma RequestPrintable(r: HarRequest)
    ensures Printable(Object(RequestDict(r)))
  {
    HeadersPrintable(r.headers);
    EncodeBodyPrintable([Field("mimeType", MimeType(r.headers))], r.body);
    RequestFieldsPrintable(r);
    hide *;
    ObjectPrintable(RequestDict(r));
  }

  lemma RequestFieldsPrintable(r: HarRequest)
    requires Printable(Array(HeaderDicts(r.headers)))
    requires Printable(Object([Field("mimeType", MimeType(r.headers))] + EncodeBody(r.body)))
    ensures forall i | 0 <= i < |RequestDict(r)| :: Printable(RequestDict(r)[i].value)
  {
    AtomsPrintable();
    hide EncodeBody, HeaderDicts, MimeType, Printable;
  }

  lemma ResponseFieldsPrintable(r: HarResponse)
    requires Printable(Array(HeaderDicts(r.headers))) && Printable(Object(ContentDict(r)))
    ensures forall i | 0 <= i < |ResponseDict(r)| :: Printable(ResponseDict(r)[i].value)
  {
    AtomsPrintable();
    hide ContentDict, HeaderDicts, HeaderValue, Printable;
  }

  lemma ResponsePrintable(r: HarResponse)
    ensures Printable(Object(ResponseDict(r)))
  {
    HeadersPrintable(r.headers);
    EncodeBodyPrintable([Field("size", Int(|r.body|)), Field("mimeType", MimeType(r.headers))], r.body);
    ResponseFieldsPrintable(r);
    hide *;
    ObjectPrintable(ResponseDict(r));
  }
}
