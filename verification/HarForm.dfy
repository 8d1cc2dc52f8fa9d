/** What the HAR form of an entry shows, field by field: also the fields that nothing here reads back. */
module HarForm {
  import opened Basics
  import opened Strings
  import opened IsoTime
  import opened Json
  import opened Har

  /** The content-type header, or the type of unknown bytes if there is none or it is empty. */
  predicate IsMimeType(headers: seq<HarHeader>, mime: string) {
    var header := HeaderValue(headers, "content-type");
    if header.None? || header.value == "" then mime == "application/octet-stream" else mime == header.value
  }

  /** What every request and response shows beside its own fields. */
  predicate ShowsCommon(d: seq<Field>, httpVersion: string, size: nat) {
    && Get(d, "httpVersion") == Some(String("HTTP/" + httpVersion))
    && Get(d, "cookies") == Some(Array([]))
    && Get(d, "headersSize") == Some(Int(-1)) && Get(d, "bodySize") == Some(Int(size))
  }

  /** The headers as name and value, in order. */
  predicate ShowsHeaders(d: seq<Field>, headers: seq<HarHeader>) {
    && Get(d, "headers").Some? && Get(d, "headers").value.Array?
    && var items := Get(d, "headers").value.items;
       && |items| == |headers|
       && forall i | 0 <= i < |headers| ::
            items[i] == Object([Field("name", String(headers[i].name)), Field("value", String(headers[i].value))])
  }

  /** The body with its media type. */
  ghost predicate ShowsContent(d: seq<Field>, headers: seq<HarHeader>, body: bytes) {
    && ShowsBody(d, body)
    && exists mime :: Get(d, "mimeType") == Some(String(mime)) && IsMimeType(headers, mime)
  }

  ghost predicate ShowsRequest(d: seq<Field>, r: HarRequest) {
    && Get(d, "method") == Some(String(r.verb)) && Get(d, "url") == Some(String(r.url))
    && Get(d, "queryString") == Some(Array([]))
    && ShowsCommon(d, r.httpVersion, |r.body|) && ShowsHeaders(d, r.headers)
    && if r.body == [] then Get(d, "postData") == None
       else GetDict(d, "postData").Some? && ShowsContent(GetDict(d, "postData").value, r.headers, r.body)
  }

  ghost predicate ShowsResponse(d: seq<Field>, r: HarResponse) {
    && Get(d, "status") == Some(Int(r.status)) && Get(d, "statusText") == Some(String(r.statusText))
    && ShowsCommon(d, r.httpVersion, |r.body|) && ShowsHeaders(d, r.headers)
    && (var location := HeaderValue(r.headers, "location");
        Get(d, "redirectURL") == Some(String(if location.Some? then location.value else "")))
    && GetDict(d, "content").Some?
    && (var content := GetDict(d, "content").value;
        Get(content, "size") == Some(Int(|r.body|)) && ShowsContent(content, r.headers, r.body))
  }

  ghost predicate ShowsEntry(d: seq<Field>, e: HarEntry) {
    && Get(d, "startedDateTime") == Some(String(ToIso(e.startedAt))) && Get(d, "time") == Some(Float(e.timeMs))
    && Get(d, "cache") == Some(Object([]))
    && GetDict(d, "timings").Some?
    && (var timings := GetDict(d, "timings").value;
        && Get(timings, "send") == Some(Int(0)) && Get(timings, "receive") == Some(Int(0))
        && Get(timings, "wait") == Some(Float(e.timeMs)))
    && GetDict(d, "request").Some? && ShowsRequest(GetDict(d, "request").value, e.request)
    && GetDict(d, "response").Some? && ShowsResponse(GetDict(d, "response").value, e.response)
  }

  lemma MimeTypeIs(headers: seq<HarHeader>)
    ensures MimeType(headers).String? && IsMimeType(headers, MimeType(headers).s)
  {
    hide HeaderValue;
  }

  lemma HeadersAreShown(d: seq<Field>, headers: seq<HarHeader>)
    requires Get(d, "headers") == Some(Array(HeaderDicts(headers)))
    ensures ShowsHeaders(d, headers)
  {
    hide Get;
  }

  /** A body behind a media type, and perhaps a field in front of that. */
  lemma ContentIsShown(front: seq<Field>, headers: seq<HarHeader>, body: bytes)
    requires forall i | 0 <= i < |front| :: front[i].key !in {"encoding", "mimeType", "text"}
    ensures ShowsContent(front + [Field("mimeType", MimeType(headers))] + EncodeBody(body), headers, body)
  {
    var mime := Field("mimeType", MimeType(headers));
    var before := front + [mime];
    MimeTypeIs(headers);
    GetMissing(front, "encoding");
    GetLast(front, mime, "encoding");
    GetLast(front, mime, "mimeType");
    BodyIsShown(before, body);
    GetAppend(before, EncodeBody(body), "mimeType");
    BodyHasNo(body, "mimeType");
    hide Get, EncodeBody, MimeType, ShowsBody, IsMimeType;
  }

  lemma BodyHasNo(body: bytes, key: string)
    requires key != "text" && key != "encoding"
    ensures Get(EncodeBody(body), key) == None
  {
    GetMissing(EncodeBody(body), key);
    hide Get;
  }

  lemma RequestIsShown(r: HarRequest)
    ensures ShowsRequest(RequestDict(r), r)
  {
    hide Get, HeaderDicts, EncodeBody, MimeType, Distinct, HasKeys, ShowsHeaders, ShowsContent;
    var d := RequestDict(r);
    var keys := RequestKeys(r);
    Lookup(d, keys);
    assert keys[0] == "method" && keys[1] == "url" && keys[2] == "httpVersion" && keys[3] == "headers";
    assert keys[4] == "queryString" && keys[5] == "cookies" && keys[6] == "headersSize" && keys[7] == "bodySize";
    HeadersAreShown(d, r.headers);
    if r.body != [] {
      assert keys[8] == "postData";
      var mime := [Field("mimeType", MimeType(r.headers))];
      assert [] + mime == mime;
      ContentIsShown([], r.headers, r.body);
    }
  }

  lemma ResponseIsShown(r: HarResponse)
    ensures ShowsResponse(ResponseDict(r), r)
  {
    hide Get, HeaderDicts, EncodeBody, MimeType, Distinct, HasKeys, ShowsHeaders, ShowsContent;
    hide HeaderValue, ContentDict;
    var d := ResponseDict(r);
    var keys := ResponseKeys(r);
    Lookup(d, keys);
    assert keys[0] == "status" && keys[1] == "statusText" && keys[2] == "httpVersion" && keys[3] == "headers";
    assert keys[4] == "cookies" && keys[5] == "content" && keys[6] == "redirectURL";
    assert keys[7] == "headersSize" && keys[8] == "bodySize";
    HeadersAreShown(d, r.headers);
    ResponseContentIsShown(r);
  }

  lemma ResponseContentIsShown(r: HarResponse)
    ensures Get(ContentDict(r), "size") == Some(Int(|r.body|)) && ShowsContent(ContentDict(r), r.headers, r.body)
  {
    hide EncodeBody, MimeType, ShowsContent;
    var size, mime := Field("size", Int(|r.body|)), Field("mimeType", MimeType(r.headers));
    ContentIsShown([size], r.headers, r.body);
    assert [size] + [mime] == [size, mime];
    GetAppend([size, mime], EncodeBody(r.body), "size");
    BodyHasNo(r.body, "size");
    GetAt([size, mime], 0, "size");
    hide Get;
  }

  lemma TimingsAreShown(e: HarEntry)
    ensures var t := TimingsDict(e);
            && Get(t, "send") == Some(Int(0)) && Get(t, "wait") == Some(Float(e.timeMs))
            && Get(t, "receive") == Some(Int(0))
  {
    var t := TimingsDict(e);
    GetAt(t, 0, "send");
    GetAt(t, 1, "wait");
    GetAt(t, 2, "receive");
    hide Get;
  }

  /** Everything the form of an entry shows. */
  lemma EntryIsShown(e: HarEntry)
    ensures ToHarDict(e).Object? && ShowsEntry(ToHarDict(e).fields, e)
  {
    hide Get, RequestDict, ResponseDict, TimingsDict, ToIso, Distinct, HasKeys, ShowsRequest, ShowsResponse;
    var keys := EntryKeys(e);
    Lookup(EntryDict(e), keys);
    assert keys[0] == "startedDateTime" && keys[1] == "time" && keys[2] == "request" && keys[3] == "response";
    assert keys[4] == "cache" && keys[5] == "timings";
    TimingsAreShown(e);
    RequestIsShown(e.request);
    ResponseIsShown(e.response);
  }
}
