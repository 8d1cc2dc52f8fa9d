/**
 The TLS ClientHello parser that extracts the SNI host name: RFC 8446 sections 5.1 and 4.1.2 for the
 record and the ClientHello, RFC 6066 section 3 for the server_name extension.

 `Parse` is a reference decoder that consumes length-prefixed fields from the front of what is left.
 The methods at the end of the module are the program's cursor loops, each proved equal to its part
 of the reference. The lemmas in between say what the reference decoder accepts.
 */
module ClientHello {
  import opened Basics

  datatype Parsed =
    | Found(sni: string)
    | NoSni
    | Malformed
    | Incomplete(bytesNeeded: nat)

  const RECORD_HEADER_LEN := 5
  const HANDSHAKE_HEADER_LEN := 4
  const HEAD_LEN := 34 // client_version and random
  const CONTENT_TYPE_HANDSHAKE: byte := 0x16
  const HANDSHAKE_TYPE_CLIENT_HELLO: byte := 0x01
  const MAX_RECORD_LEN := 65540 // header and the largest 16-bit length

  function U16(hi: byte, lo: byte): nat { hi * 256 + lo }

  function U24(a: byte, b: byte, c: byte): nat { a * 65536 + b * 256 + c }

  // ---------------------------------------------------------------- length-prefixed fields

  /** A field with a one-byte length, and what follows it. */
  function TakeVec8(s: bytes): Option<(bytes, bytes)> {
    if |s| < 1 then None
    else
      var n: nat := s[0];
      if |s| < 1 + n then None else Some((s[1..1 + n], s[1 + n..]))
  }

  /** A field with a two-byte length, and what follows it. */
  function TakeVec16(s: bytes): Option<(bytes, bytes)> {
    if |s| < 2 then None
    else
      var n := U16(s[0], s[1]);
      if |s| < 2 + n then None else Some((s[2..2 + n], s[2 + n..]))
  }

  function Vec8(d: bytes): bytes
    requires |d| < 256
  {
    [|d|] + d
  }

  function Vec16(d: bytes): bytes
    requires |d| < 65536
  {
    [|d| / 256, |d| % 256] + d
  }

  lemma TakeVec8Iff(s: bytes, d: bytes, rest: bytes)
    ensures TakeVec8(s) == Some((d, rest)) <==> |d| < 256 && s == Vec8(d) + rest
  {
    if TakeVec8(s) == Some((d, rest)) {
      var n: nat := s[0];
      assert s == [s[0]] + s[1..1 + n] + s[1 + n..];
    }
    if |d| < 256 && s == Vec8(d) + rest {
      assert s[0] == |d|;
      assert s[1..1 + |d|] == d && s[1 + |d|..] == rest;
    }
  }

  lemma TakeVec16Iff(s: bytes, d: bytes, rest: bytes)
    ensures TakeVec16(s) == Some((d, rest)) <==> |d| < 65536 && s == Vec16(d) + rest
  {
    if TakeVec16(s) == Some((d, rest)) {
      var n := U16(s[0], s[1]);
      assert n / 256 == s[0] && n % 256 == s[1];
      assert s == [s[0], s[1]] + s[2..2 + n] + s[2 + n..];
    }
    if |d| < 65536 && s == Vec16(d) + rest {
      assert s[0] == |d| / 256 && s[1] == |d| % 256;
      assert U16(s[0], s[1]) == |d|;
      assert s[2..2 + |d|] == d && s[2 + |d|..] == rest;
    }
  }

  // ---------------------------------------------------------------- tagged lists

  /** The result of looking through a tagged list for the first zero tag. */
  datatype Scan = Hit(data: bytes) | Miss | Broken

  /** One element of a tagged list: an extension (two-byte tag) or a server name (one-byte tag). */
  datatype Item = Item(tag: bytes, data: bytes)

  predicate IsZero(tag: bytes) { forall k | 0 <= k < |tag| :: tag[k] == 0 }

  function ZeroTag(width: nat): (tag: bytes)
    ensures |tag| == width && IsZero(tag)
  {
    seq(width, _ => 0)
  }

  /** The data of the first element whose tag is zero. */
  function ScanItems(s: bytes, width: nat): Scan
    decreases |s|
  {
    if s == [] then Miss
    else if |s| < width + 2 then Broken
    else match TakeVec16(s[width..])
      case None => Broken
      case Some((data, rest)) => if IsZero(s[..width]) then Hit(data) else ScanItems(rest, width)
  }

  ghost predicate ItemFits(item: Item, width: nat) { |item.tag| == width && |item.data| < 65536 }

  ghost predicate AllFit(items: seq<Item>, width: nat) { forall i | i in items :: ItemFits(i, width) }

  ghost predicate NoneZero(items: seq<Item>) { forall i | i in items :: !IsZero(i.tag) }

  ghost function ItemBytes(item: Item, width: nat): bytes
    requires ItemFits(item, width)
  {
    item.tag + Vec16(item.data)
  }

  ghost function ItemsBytes(items: seq<Item>, width: nat): bytes
    requires AllFit(items, width)
  {
    if items == [] then [] else ItemBytes(items[0], width) + ItemsBytes(items[1..], width)
  }

  /** One step of the scan over an encoded element. */
  lemma ScanStep(item: Item, rest: bytes, width: nat)
    requires ItemFits(item, width)
    ensures var r := ScanItems(ItemBytes(item, width) + rest, width);
            r == if IsZero(item.tag) then Hit(item.data) else ScanItems(rest, width)
  {
    var s := ItemBytes(item, width) + rest;
    assert s[..width] == item.tag;
    assert s[width..] == Vec16(item.data) + rest;
    TakeVec16Iff(s[width..], item.data, rest);
  }

  /** Elements with other tags are passed over, whatever follows them. */
  lemma {:induction false} ScanSkips(items: seq<Item>, rest: bytes, width: nat)
    requires AllFit(items, width) && NoneZero(items)
    ensures ScanItems(ItemsBytes(items, width) + rest, width) == ScanItems(rest, width)
    decreases |items|
  {
    if items == [] {
      assert ItemsBytes(items, width) + rest == rest;
    } else {
      var tail := ItemsBytes(items[1..], width) + rest;
      assert ItemsBytes(items, width) + rest == ItemBytes(items[0], width) + tail;
      ScanStep(items[0], tail, width);
      ScanSkips(items[1..], rest, width);
    }
  }

  lemma ConsItem(item: Item, items: seq<Item>, rest: bytes, width: nat)
    requires ItemFits(item, width) && !IsZero(item.tag) && AllFit(items, width) && NoneZero(items)
    ensures AllFit([item] + items, width) && NoneZero([item] + items)
    ensures ItemsBytes([item] + items, width) + rest == ItemBytes(item, width) + (ItemsBytes(items, width) + rest)
  {
    assert ([item] + items)[1..] == items;
  }

  /** A list that is not broken is whole elements with other tags, up to its end or to a zero tag. */
  lemma {:induction false} Walk(s: bytes, width: nat) returns (items: seq<Item>, rest: bytes)
    requires !ScanItems(s, width).Broken?
    ensures AllFit(items, width) && NoneZero(items)
    ensures s == ItemsBytes(items, width) + rest
    ensures ScanItems(s, width) == ScanItems(rest, width)
    ensures rest == [] || (|rest| >= width + 2 && IsZero(rest[..width]) && TakeVec16(rest[width..]).Some?)
    decreases |s|
  {
    if s == [] || IsZero(s[..width]) {
      items, rest := [], s;
      assert s == [] + s;
    } else {
      var item := Item(s[..width], TakeVec16(s[width..]).value.0);
      var after := TakeVec16(s[width..]).value.1;
      TakeVec16Iff(s[width..], item.data, after);
      assert s == ItemBytes(item, width) + after by {
        assert s == s[..width] + s[width..];
      }
      items, rest := Walk(after, width);
      ConsItem(item, items, rest, width);
      items := [item] + items;
    }
  }

  /** A hit means: whole elements with other tags, then an element with the zero tag, then anything. */
  ghost predicate HitShape(s: bytes, width: nat, before: seq<Item>, data: bytes, rest: bytes) {
    && AllFit(before, width) && NoneZero(before) && |data| < 65536
    && s == ItemsBytes(before, width) + (ItemBytes(Item(ZeroTag(width), data), width) + rest)
  }

  lemma ZeroItem(u: bytes, width: nat, data: bytes, rest: bytes)
    requires |u| >= width + 2 && IsZero(u[..width]) && TakeVec16(u[width..]) == Some((data, rest))
    ensures |data| < 65536 && u == ItemBytes(Item(ZeroTag(width), data), width) + rest
  {
    TakeVec16Iff(u[width..], data, rest);
    hide TakeVec16, Vec16;
    assert u[..width] == ZeroTag(width);
    assert u == u[..width] + u[width..];
  }

  lemma HitHasShape(s: bytes, width: nat, data: bytes) returns (before: seq<Item>, rest: bytes)
    requires ScanItems(s, width) == Hit(data)
    ensures HitShape(s, width, before, data, rest)
  {
    var u;
    before, u := Walk(s, width);
    rest := TakeVec16(u[width..]).value.1;
    ZeroItem(u, width, data, rest);
    hide TakeVec16, ItemsBytes, ItemBytes;
  }

  lemma ShapeIsHit(s: bytes, width: nat, before: seq<Item>, data: bytes, rest: bytes)
    requires HitShape(s, width, before, data, rest)
    ensures ScanItems(s, width) == Hit(data)
  {
    var hit := Item(ZeroTag(width), data);
    ScanSkips(before, ItemBytes(hit, width) + rest, width);
    ScanStep(hit, rest, width);
  }

  lemma HitIff(s: bytes, width: nat, data: bytes)
    ensures ScanItems(s, width) == Hit(data) <==> exists before, rest :: HitShape(s, width, before, data, rest)
  {
    if ScanItems(s, width) == Hit(data) {
      var before, rest := HitHasShape(s, width, data);
    }
    forall before, rest | HitShape(s, width, before, data, rest)
      ensures ScanItems(s, width) == Hit(data)
    {
      ShapeIsHit(s, width, before, data, rest);
    }
  }

  /** A miss means: whole elements to the very end, none with the zero tag. */
  ghost predicate MissShape(s: bytes, width: nat, items: seq<Item>) {
    AllFit(items, width) && NoneZero(items) && s == ItemsBytes(items, width)
  }

  lemma MissIff(s: bytes, width: nat)
    ensures ScanItems(s, width) == Miss <==> exists items :: MissShape(s, width, items)
  {
    if ScanItems(s, width) == Miss {
      var items, rest := Walk(s, width);
      assert s == ItemsBytes(items, width);
      assert MissShape(s, width, items);
    }
    forall items | MissShape(s, width, items) ensures ScanItems(s, width) == Miss {
      ScanSkips(items, [], width);
      assert s == ItemsBytes(items, width) + [];
    }
  }

  // ---------------------------------------------------------------- the reference decoder

  predicate IsAscii(s: bytes) { forall k | 0 <= k < |s| :: s[k] < 128 }

  /** The text of ASCII bytes. */
  function Text(s: bytes): string { seq(|s|, k requires 0 <= k < |s| => s[k] as char) }

  /** Character by character the ASCII bytes. */
  predicate Spells(text: string, host: bytes) {
    |text| == |host| && forall k | 0 <= k < |host| :: host[k] < 128 && text[k] as int == host[k]
  }

  lemma SpellsIff(text: string, host: bytes)
    ensures Spells(text, host) <==> IsAscii(host) && text == Text(host)
  {
    if Spells(text, host) {
      forall k | 0 <= k < |host| ensures text[k] == Text(host)[k] {
      }
    }
  }

  /** The server_name extension: a list of names, of which the first host_name is wanted. */
  function ParseServerName(ext: bytes): Parsed {
    match TakeVec16(ext)
    case None => Malformed
    case Some((names, _)) =>
      match ScanItems(names, 1)
      case Miss => NoSni
      case Broken => Malformed
      case Hit(host) => if IsAscii(host) then Found(Text(host)) else Malformed
  }

  /** What follows the compression methods: nothing, or a block of extensions. */
  function ParseTail(tail: bytes): Parsed {
    if tail == [] then NoSni
    else match TakeVec16(tail)
      case None => Malformed
      case Some((extensions, _)) =>
        match ScanItems(extensions, 2)
        case Miss => NoSni
        case Broken => Malformed
        case Hit(ext) => ParseServerName(ext)
  }

  /** Strips version, random, session id, cipher suites and compression methods. */
  function HelloTail(hello: bytes): Option<bytes> {
    if |hello| < HEAD_LEN then None
    else match TakeVec8(hello[HEAD_LEN..])
      case None => None
      case Some((_, r1)) =>
        match TakeVec16(r1)
        case None => None
        case Some((_, r2)) =>
          match TakeVec8(r2)
          case None => None
          case Some((_, r3)) => Some(r3)
  }

  function ParseHello(hello: bytes): Parsed {
    match HelloTail(hello)
    case None => Malformed
    case Some(tail) => ParseTail(tail)
  }

  /** The ClientHello inside a handshake record body. */
  function HelloOf(body: bytes): Option<bytes> {
    if |body| < HANDSHAKE_HEADER_LEN || body[0] != HANDSHAKE_TYPE_CLIENT_HELLO then None
    else
      var n := U24(body[1], body[2], body[3]);
      if |body| < HANDSHAKE_HEADER_LEN + n then None
      else Some(body[HANDSHAKE_HEADER_LEN..HANDSHAKE_HEADER_LEN + n])
  }

  function ParseHandshake(body: bytes): Parsed {
    match HelloOf(body)
    case None => Malformed
    case Some(hello) => ParseHello(hello)
  }

  /** How long the buffer must be before it can be judged. */
  function Needed(data: bytes): nat {
    if |data| < RECORD_HEADER_LEN || data[0] != CONTENT_TYPE_HANDSHAKE then RECORD_HEADER_LEN
    else RECORD_HEADER_LEN + U16(data[3], data[4])
  }

  function Parse(data: bytes): Parsed {
    if |data| < Needed(data) then Incomplete(Needed(data))
    else if data[0] != CONTENT_TYPE_HANDSHAKE then Malformed
    else ParseHandshake(data[RECORD_HEADER_LEN..Needed(data)])
  }

  // ---------------------------------------------------------------- a growing buffer

  /** A decided parse is final: no further byte changes it. */
  lemma DecidedIsFinal(data: bytes, more: bytes)
    requires !Parse(data).Incomplete?
    ensures Parse(data + more) == Parse(data)
  {
    hide ParseHandshake;
    assert (data + more)[RECORD_HEADER_LEN..Needed(data)] == data[RECORD_HEADER_LEN..Needed(data)];
  }

  /**
   An undecided parse asks for more than it has, never for more than one record, and nothing short of that
   decides it.
   */
  lemma UndecidedNeedsMore(data: bytes, more: bytes)
    requires Parse(data).Incomplete?
    ensures |data| < Parse(data).bytesNeeded <= MAX_RECORD_LEN
    ensures |data| < 5 ==> Parse(data).bytesNeeded == 5
    ensures |data + more| < Parse(data).bytesNeeded ==> Parse(data + more) == Parse(data)
    ensures |data| >= RECORD_HEADER_LEN && |data + more| >= Parse(data).bytesNeeded ==> !Parse(data + more).Incomplete?
  {
  }

  // ---------------------------------------------------------------- what is accepted

  function HandshakeHeader(n: nat): bytes
    requires n < 0x100_0000
  {
    [HANDSHAKE_TYPE_CLIENT_HELLO, n / 65536, n / 256 % 256, n % 256]
  }

  /** The fields around the part of the record that can hold extensions. */
  datatype Envelope = Envelope(
    recordVersion: bytes, head: bytes, sessionId: bytes, ciphers: bytes, compression: bytes,
    tail: bytes, recordPad: bytes, trailing: bytes)
  {
    ghost predicate Valid() {
      && |recordVersion| == 2 && |head| == HEAD_LEN
      && |sessionId| < 256 && |ciphers| < 65536 && |compression| < 256
      && |HelloBytes()| < 0x100_0000 && |BodyBytes()| < 65536
    }

    ghost function HelloBytes(): bytes
      requires |sessionId| < 256 && |ciphers| < 65536 && |compression| < 256
    {
      head + (Vec8(sessionId) + (Vec16(ciphers) + (Vec8(compression) + tail)))
    }

    ghost function BodyBytes(): bytes
      requires |sessionId| < 256 && |ciphers| < 65536 && |compression| < 256 && |HelloBytes()| < 0x100_0000
    {
      var n := |HelloBytes()|;
      HandshakeHeader(n) + HelloBytes() + recordPad
    }

    ghost function Bytes(): bytes
      requires Valid()
    {
      [CONTENT_TYPE_HANDSHAKE] + recordVersion + Vec16(BodyBytes()) + trailing
    }
  }

  ghost predicate HelloShape(hello: bytes, head: bytes, sid: bytes, cs: bytes, cm: bytes, tail: bytes) {
    && |head| == HEAD_LEN && |sid| < 256 && |cs| < 65536 && |cm| < 256
    && hello == head + (Vec8(sid) + (Vec16(cs) + (Vec8(cm) + tail)))
  }

  lemma HelloTailIff(hello: bytes, tail: bytes)
    ensures HelloTail(hello) == Some(tail) <==> exists head, sid, cs, cm :: HelloShape(hello, head, sid, cs, cm, tail)
  {
    if HelloTail(hello) == Some(tail) {
      var r0 := hello[HEAD_LEN..];
      var (sid, r1) := TakeVec8(r0).value;
      var (cs, r2) := TakeVec16(r1).value;
      var (cm, r3) := TakeVec8(r2).value;
      TakeVec8Iff(r0, sid, r1);
      TakeVec16Iff(r1, cs, r2);
      TakeVec8Iff(r2, cm, r3);
      assert hello == hello[..HEAD_LEN] + r0;
      assert HelloShape(hello, hello[..HEAD_LEN], sid, cs, cm, tail);
    }
    forall head, sid, cs, cm | HelloShape(hello, head, sid, cs, cm, tail)
      ensures HelloTail(hello) == Some(tail)
    {
      HelloTailOf(head, sid, cs, cm, tail);
    }
  }

  lemma HelloTailOf(head: bytes, sid: bytes, cs: bytes, cm: bytes, tail: bytes)
    requires |head| == HEAD_LEN && |sid| < 256 && |cs| < 65536 && |cm| < 256
    ensures HelloTail(head + (Vec8(sid) + (Vec16(cs) + (Vec8(cm) + tail)))) == Some(tail)
  {
    var hello := head + (Vec8(sid) + (Vec16(cs) + (Vec8(cm) + tail)));
    var r2 := Vec8(cm) + tail;
    var r1 := Vec16(cs) + r2;
    assert hello[HEAD_LEN..] == Vec8(sid) + r1;
    TakeVec8Iff(hello[HEAD_LEN..], sid, r1);
    TakeVec16Iff(r1, cs, r2);
    TakeVec8Iff(r2, cm, tail);
  }

  /** What `Parse` judges once the record, the handshake header and the fixed fields are stripped. */
  function Stripped(data: bytes): Option<bytes> {
    if |data| < Needed(data) || data[0] != CONTENT_TYPE_HANDSHAKE then None
    else match HelloOf(data[RECORD_HEADER_LEN..Needed(data)])
      case None => None
      case Some(hello) => HelloTail(hello)
  }

  lemma U24Digits(a: byte, b: byte, c: byte)
    ensures var n := U24(a, b, c);
            n < 0x100_0000 && n / 65536 == a && n / 256 % 256 == b && n % 256 == c
  {
    var n := U24(a, b, c);
    assert n == (a * 256 + b) * 256 + c;
    assert n / 256 == a * 256 + b;
  }

  lemma HelloOfSplits(body: bytes)
    requires HelloOf(body).Some?
    ensures var hello := HelloOf(body).value;
            |hello| < 0x100_0000 && body == HandshakeHeader(|hello|) + hello + body[4 + |hello|..]
  {
    var n := U24(body[1], body[2], body[3]);
    U24Digits(body[1], body[2], body[3]);
    assert body[..4] == HandshakeHeader(n);
    hide HandshakeHeader, U24;
    assert body == body[..4] + body[4..4 + n] + body[4 + n..];
  }

  lemma HelloOfJoined(hello: bytes, pad: bytes)
    requires |hello| < 0x100_0000
    ensures HelloOf(HandshakeHeader(|hello|) + hello + pad) == Some(hello)
  {
    var body := HandshakeHeader(|hello|) + hello + pad;
    assert U24(body[1], body[2], body[3]) == |hello|;
    assert body[4..4 + |hello|] == hello;
  }

  ghost predicate RecordShape(data: bytes, version: bytes, body: bytes, trailing: bytes) {
    |version| == 2 && |body| < 65536 && data == [CONTENT_TYPE_HANDSHAKE] + version + Vec16(body) + trailing
  }

  lemma RecordIff(data: bytes, body: bytes)
    ensures |data| >= Needed(data) && data[0] == CONTENT_TYPE_HANDSHAKE &&
            data[RECORD_HEADER_LEN..Needed(data)] == body <==>
      exists version, trailing :: RecordShape(data, version, body, trailing)
  {
    if |data| >= Needed(data) && data[0] == CONTENT_TYPE_HANDSHAKE && data[RECORD_HEADER_LEN..Needed(data)] == body {
      var trailing := data[Needed(data)..];
      assert data[3..] == data[3..5] + body + trailing;
      TakeVec16Iff(data[3..], body, trailing);
      assert data == [data[0]] + data[1..3] + data[3..];
      assert RecordShape(data, data[1..3], body, trailing);
    }
    forall version, trailing | RecordShape(data, version, body, trailing)
      ensures |data| >= Needed(data) && data[0] == CONTENT_TYPE_HANDSHAKE
      ensures data[RECORD_HEADER_LEN..Needed(data)] == body
    {
      assert data[3..] == Vec16(body) + trailing;
      TakeVec16Iff(data[3..], body, trailing);
    }
  }

  /** The envelope is stripped exactly when the buffer is one, around that tail. */
  lemma StrippedIff(data: bytes, tail: bytes)
    ensures Stripped(data) == Some(tail) <==>
      exists env: Envelope :: env.Valid() && env.tail == tail && data == env.Bytes()
  {
    if Stripped(data) == Some(tail) {
      var env := EnvelopeAround(data, tail);
    }
    forall env: Envelope | env.Valid() && env.tail == tail && data == env.Bytes()
      ensures Stripped(data) == Some(tail)
    {
      EnvelopeStrips(env);
    }
  }

  lemma EnvelopeAround(data: bytes, tail: bytes) returns (env: Envelope)
    requires Stripped(data) == Some(tail)
    ensures env.Valid() && env.tail == tail && data == env.Bytes()
  {
    var body := data[RECORD_HEADER_LEN..Needed(data)];
    RecordIff(data, body);
    var version, trailing :| RecordShape(data, version, body, trailing);
    var hello := HelloOf(body).value;
    HelloOfSplits(body);
    HelloTailIff(hello, tail);
    var head, sid, cs, cm :| HelloShape(hello, head, sid, cs, cm, tail);
    hide Vec16, Vec8, HelloOf, HelloTail, Needed;
    env := Envelope(version, head, sid, cs, cm, tail, body[4 + |hello|..], trailing);
    assert env.HelloBytes() == hello;
    assert env.BodyBytes() == body;
  }

  lemma EnvelopeStrips(env: Envelope)
    requires env.Valid()
    ensures Stripped(env.Bytes()) == Some(env.tail)
    ensures Parse(env.Bytes()) == ParseTail(env.tail)
  {
    var data, body, hello := env.Bytes(), env.BodyBytes(), env.HelloBytes();
    RecordIff(data, body);
    assert RecordShape(data, env.recordVersion, body, env.trailing);
    HelloOfJoined(hello, env.recordPad);
    HelloTailOf(env.head, env.sessionId, env.ciphers, env.compression, env.tail);
  }

  /** A ClientHello with a host name, taken apart: what was walked over, the name, and what was never looked at. */
  datatype Layout = Layout(
    env: Envelope, extensionsBefore: seq<Item>, namesBefore: seq<Item>, host: bytes,
    restOfNames: bytes, restOfExtension: bytes, restOfExtensions: bytes, restOfHello: bytes)
  {
    ghost predicate ValidIn(names: bytes, extension: bytes, extensions: bytes) {
      && env.Valid()
      && HitShape(names, 1, namesBefore, host, restOfNames)
      && |names| < 65536 && extension == Vec16(names) + restOfExtension
      && HitShape(extensions, 2, extensionsBefore, extension, restOfExtensions)
      && |extensions| < 65536 && env.tail == Vec16(extensions) + restOfHello
    }

    ghost predicate Valid() {
      exists names, extension, extensions :: ValidIn(names, extension, extensions)
    }
  }

  /** A name is found exactly when the buffer is a ClientHello laid out around it. */
  lemma FoundIff(data: bytes, sni: string)
    ensures Parse(data) == Found(sni) <==>
      exists l: Layout :: l.Valid() && data == l.env.Bytes() && Spells(sni, l.host)
  {
    hide Spells;
    if Parse(data) == Found(sni) {
      var tail := Stripped(data).value;
      StrippedIff(data, tail);
      var env: Envelope :| env.Valid() && env.tail == tail && data == env.Bytes();
      var l := FoundLayout(env, sni);
      SpellsIff(sni, l.host);
      assert l.Valid() && data == l.env.Bytes() && Spells(sni, l.host);
    }
    forall l: Layout | l.Valid() && data == l.env.Bytes() && Spells(sni, l.host)
      ensures Parse(data) == Found(sni)
    {
      SpellsIff(sni, l.host);
      LayoutFound(l);
    }
  }

  lemma FoundLayout(env: Envelope, sni: string) returns (l: Layout)
    requires env.Valid() && ParseTail(env.tail) == Found(sni)
    ensures l.Valid() && l.env == env && IsAscii(l.host) && sni == Text(l.host)
  {
    var (extensions, restOfHello) := TakeVec16(env.tail).value;
    TakeVec16Iff(env.tail, extensions, restOfHello);
    var extension := ScanItems(extensions, 2).data;
    HitIff(extensions, 2, extension);
    var extensionsBefore, restOfExtensions :| HitShape(extensions, 2, extensionsBefore, extension, restOfExtensions);
    var (names, restOfExtension) := TakeVec16(extension).value;
    TakeVec16Iff(extension, names, restOfExtension);
    var host := ScanItems(names, 1).data;
    HitIff(names, 1, host);
    var namesBefore, restOfNames :| HitShape(names, 1, namesBefore, host, restOfNames);
    l := Layout(env, extensionsBefore, namesBefore, host, restOfNames, restOfExtension, restOfExtensions, restOfHello);
    assert l.ValidIn(names, extension, extensions);
  }

  lemma LayoutFound(l: Layout)
    requires l.Valid()
    ensures Parse(l.env.Bytes()) == if IsAscii(l.host) then Found(Text(l.host)) else Malformed
  {
    var names, extension, extensions :| l.ValidIn(names, extension, extensions);
    EnvelopeStrips(l.env);
    TakeVec16Iff(l.env.tail, extensions, l.restOfHello);
    HitIff(extensions, 2, extension);
    TakeVec16Iff(extension, names, l.restOfExtension);
    HitIff(names, 1, l.host);
  }

  /** The three ways a complete ClientHello can lack a host name. */
  ghost predicate Nameless(tail: bytes) {
    || tail == []
    || (exists items, rest :: NoServerName(tail, items, rest))
    || (exists extension, names :: NoHostName(tail, extension, names))
  }

  ghost predicate NoServerName(tail: bytes, items: seq<Item>, rest: bytes) {
    AllFit(items, 2) && NoneZero(items) && |ItemsBytes(items, 2)| < 65536 && tail == Vec16(ItemsBytes(items, 2)) + rest
  }

  ghost predicate NoHostName(tail: bytes, extension: bytes, names: seq<Item>) {
    && (exists block, rest, before, after ::
          |block| < 65536 && tail == Vec16(block) + rest && HitShape(block, 2, before, extension, after))
    && AllFit(names, 1) && NoneZero(names) && |ItemsBytes(names, 1)| < 65536
    && Vec16(ItemsBytes(names, 1)) <= extension
  }

  /** No name is reported exactly for a ClientHello that carries none, well formed as far as it is read. */
  lemma NoSniIff(data: bytes)
    ensures Parse(data) == NoSni <==> exists env: Envelope :: env.Valid() && data == env.Bytes() && Nameless(env.tail)
  {
    if Parse(data) == NoSni {
      var tail := Stripped(data).value;
      StrippedIff(data, tail);
      var env: Envelope :| env.Valid() && env.tail == tail && data == env.Bytes();
      NamelessIff(tail);
    }
    forall env: Envelope | env.Valid() && data == env.Bytes() && Nameless(env.tail) ensures Parse(data) == NoSni {
      EnvelopeStrips(env);
      NamelessIff(env.tail);
    }
  }

  lemma NamelessIff(tail: bytes)
    ensures ParseTail(tail) == NoSni <==> Nameless(tail)
  {
    if ParseTail(tail) == NoSni && tail != [] {
      NoSniIsNameless(tail);
    }
    forall items, rest | NoServerName(tail, items, rest) ensures ParseTail(tail) == NoSni {
      var block := ItemsBytes(items, 2);
      TakeVec16Iff(tail, block, rest);
      MissIff(block, 2);
      assert MissShape(block, 2, items);
    }
    forall extension, names | NoHostName(tail, extension, names) ensures ParseTail(tail) == NoSni {
      NoHostNameIsNoSni(tail, extension, names);
    }
  }

  lemma NoSniIsNameless(tail: bytes)
    requires ParseTail(tail) == NoSni && tail != []
    ensures Nameless(tail)
  {
    var (block, rest) := TakeVec16(tail).value;
    TakeVec16Iff(tail, block, rest);
    if ScanItems(block, 2).Miss? {
      MissIff(block, 2);
      var items :| MissShape(block, 2, items);
      assert NoServerName(tail, items, rest);
    } else {
      var extension := ScanItems(block, 2).data;
      HitIff(block, 2, extension);
      var list, after := TakeVec16(extension).value.0, TakeVec16(extension).value.1;
      TakeVec16Iff(extension, list, after);
      MissIff(list, 1);
      var names :| MissShape(list, 1, names);
      assert NoHostName(tail, extension, names);
    }
  }

  lemma NoHostNameIsNoSni(tail: bytes, extension: bytes, names: seq<Item>)
    requires NoHostName(tail, extension, names)
    ensures ParseTail(tail) == NoSni
  {
    var block, rest, before, after :|
      |block| < 65536 && tail == Vec16(block) + rest && HitShape(block, 2, before, extension, after);
    TakeVec16Iff(tail, block, rest);
    ShapeIsHit(block, 2, before, extension, after);
    var list := ItemsBytes(names, 1);
    var unread := extension[|Vec16(list)|..];
    assert extension == Vec16(list) + unread;
    TakeVec16Iff(extension, list, unread);
    MissIff(list, 1);
    assert MissShape(list, 1, names);
  }

  // ---------------------------------------------------------------- encoding an abstract ClientHello

  datatype Extension = ServerName(names: seq<Item>) | Other(item: Item)

  datatype Hello = Hello(
    recordVersion: bytes, head: bytes, sessionId: bytes, ciphers: bytes, compression: bytes,
    extensions: Option<seq<Extension>>)

  ghost predicate ExtensionFits(e: Extension) {
    match e
    case ServerName(names) => AllFit(names, 1) && |ItemsBytes(names, 1)| < 65534
    case Other(item) => ItemFits(item, 2) && !IsZero(item.tag)
  }

  ghost function ExtensionItem(e: Extension): (item: Item)
    requires ExtensionFits(e)
    ensures ItemFits(item, 2) && (IsZero(item.tag) <==> e.ServerName?)
  {
    match e
    case ServerName(names) => Item(ZeroTag(2), Vec16(ItemsBytes(names, 1)))
    case Other(item) => item
  }

  ghost function ExtensionItems(es: seq<Extension>): (items: seq<Item>)
    requires forall e | e in es :: ExtensionFits(e)
    ensures |items| == |es| && AllFit(items, 2)
    ensures forall k | 0 <= k < |es| :: items[k] == ExtensionItem(es[k])
  {
    seq(|es|, k requires 0 <= k < |es| => ExtensionItem(es[k]))
  }

  ghost predicate TailFits(extensions: Option<seq<Extension>>) {
    extensions.Some? ==>
      (forall e | e in extensions.value :: ExtensionFits(e)) &&
      |ItemsBytes(ExtensionItems(extensions.value), 2)| < 65536
  }

  ghost function EncodeTail(extensions: Option<seq<Extension>>): bytes
    requires TailFits(extensions)
  {
    match extensions
    case None => []
    case Some(es) => Vec16(ItemsBytes(ExtensionItems(es), 2))
  }

  /** The ClientHello in one record, with nothing padded. */
  ghost function EnvelopeOf(h: Hello, trailing: bytes): Envelope
    requires TailFits(h.extensions)
  {
    Envelope(h.recordVersion, h.head, h.sessionId, h.ciphers, h.compression, EncodeTail(h.extensions), [], trailing)
  }

  ghost predicate Fits(h: Hello) { TailFits(h.extensions) && EnvelopeOf(h, []).Valid() }

  ghost function Encode(h: Hello): bytes
    requires Fits(h)
  {
    EnvelopeOf(h, []).Bytes()
  }

  /** The first host_name entry decides: spelt out if it is ASCII, malformed if it is not. */
  ghost predicate NamedBy(names: seq<Item>, r: Parsed) {
    if names == [] then r == NoSni
    else if IsZero(names[0].tag) then
      var host := names[0].data;
      if forall k | 0 <= k < |host| :: host[k] < 128 then r.Found? && Spells(r.sni, host) else r == Malformed
    else NamedBy(names[1..], r)
  }

  /** The first server_name extension decides, even if it holds no host_name entry. */
  ghost predicate Announced(es: seq<Extension>, r: Parsed) {
    if es == [] then r == NoSni
    else if es[0].ServerName? then NamedBy(es[0].names, r)
    else Announced(es[1..], r)
  }

  /** Parsing inverts encoding: for every ClientHello that fits one record, and any bytes behind it. */
  lemma ParseEncode(h: Hello, trailing: bytes)
    requires Fits(h)
    ensures var r := Parse(Encode(h) + trailing);
            if h.extensions.Some? then Announced(h.extensions.value, r) else r == NoSni
  {
    var env := EnvelopeOf(h, trailing);
    assert env.HelloBytes() == EnvelopeOf(h, []).HelloBytes() && env.BodyBytes() == EnvelopeOf(h, []).BodyBytes();
    assert Encode(h) + trailing == env.Bytes();
    EnvelopeStrips(env);
    if h.extensions.Some? {
      var block := ItemsBytes(ExtensionItems(h.extensions.value), 2);
      TakeVec16Iff(env.tail, block, []);
      assert env.tail == Vec16(block) + [];
      ScanAnnounced(h.extensions.value);
    }
  }

  /**
   On the wire: the smallest ClientHello with a host name of one letter, for every version and every random.
   Handshake record, ClientHello, an empty session id, one cipher suite, one compression method, and a
   server_name extension with one host_name entry.
   */
  lemma WireExample(version: bytes, random: bytes, letter: byte)
    requires |version| == 2 && |random| == 32 && letter < 128
    ensures Parse([22, 3, 1, 0, 57] + [1, 0, 0, 53] + version + random + [0] + [0, 2, 0x13, 1] + [1, 0]
                  + [0, 10] + ([0, 0, 0, 6] + [0, 4] + [0, 0, 1, letter])) == Found([letter as char])
  {
    var name := Item([0], [letter]);
    var h := Hello([3, 1], version + random, [], [0x13, 1], [0], Some([ServerName([name])]));
    WireNames(letter);
    WireBlock(letter);
    var block := [0, 0, 0, 6] + [0, 4] + [0, 0, 1, letter];
    WireBytes(h, version, random, block);
    hide Encode, ExtensionItems, ItemsBytes, Vec16, ExtensionFits, Fits, TailFits, EncodeTail, Parse;
    ParseEncode(h, []);
    var wire := Encode(h);
    assert wire + [] == wire;
    AnnouncedLetter(letter, Parse(wire));
  }

  lemma AnnouncedLetter(letter: byte, r: Parsed)
    requires letter < 128 && Announced([ServerName([Item([0], [letter])])], r)
    ensures r == Found([letter as char])
  {
    SpelledLetter(r.sni, letter);
  }

  lemma SpelledLetter(text: string, letter: byte)
    requires Spells(text, [letter])
    ensures text == [letter as char]
  {
  }

  lemma OneItem(item: Item, width: nat)
    requires ItemFits(item, width)
    ensures ItemsBytes([item], width) == item.tag + Vec16(item.data)
  {
    assert [item][1..] == [];
  }

  lemma WireNames(letter: byte)
    ensures var name := Item([0], [letter]);
            ItemFits(name, 1) && ItemsBytes([name], 1) == [0, 0, 1, letter] && ExtensionFits(ServerName([name]))
  {
    OneItem(Item([0], [letter]), 1);
  }

  lemma WireBlock(letter: byte)
    requires ExtensionFits(ServerName([Item([0], [letter])]))
    ensures var es := [ServerName([Item([0], [letter])])];
            && (forall e | e in es :: ExtensionFits(e))
            && ItemsBytes(ExtensionItems(es), 2) == [0, 0, 0, 6] + [0, 4] + [0, 0, 1, letter]
  {
    WireNames(letter);
    var e := ServerName([Item([0], [letter])]);
    hide ItemsBytes, ExtensionFits;
    var list := [0, 0, 1, letter];
    assert ExtensionItem(e).data == [0, 4] + list && ExtensionItem(e).tag == [0, 0];
    OneItem(ExtensionItem(e), 2);
    assert ExtensionItems([e]) == [ExtensionItem(e)];
  }

  lemma WireBytes(h: Hello, version: bytes, random: bytes, block: bytes)
    requires |version| == 2 && |random| == 32 && |block| == 10 && TailFits(h.extensions)
    requires h.recordVersion == [3, 1] && h.head == version + random && h.sessionId == [] && h.ciphers == [0x13, 1]
    requires h.compression == [0] && EncodeTail(h.extensions) == [0, 10] + block
    ensures Fits(h)
    ensures Encode(h) == [22, 3, 1, 0, 57] + [1, 0, 0, 53] + version + random + [0] + [0, 2, 0x13, 1] + [1, 0]
                         + [0, 10] + block
  {
    var env := EnvelopeOf(h, []);
    assert Vec8([]) == [0] && Vec8([0]) == [1, 0] && Vec16([0x13, 1]) == [0, 2, 0x13, 1];
    var hello := env.HelloBytes();
    assert hello == version + random + [0] + [0, 2, 0x13, 1] + [1, 0] + [0, 10] + block;
    assert |hello| == 53 && HandshakeHeader(53) == [1, 0, 0, 53];
    var body := env.BodyBytes();
    assert body == [1, 0, 0, 53] + hello;
    assert Vec16(body) == [0, 57] + body;
  }

  lemma {:induction false} ScanAnnounced(es: seq<Extension>)
    requires forall e | e in es :: ExtensionFits(e)
    ensures Announced(es,
      match ScanItems(ItemsBytes(ExtensionItems(es), 2), 2)
      case Hit(ext) => ParseServerName(ext)
      case Miss => NoSni
      case Broken => Malformed)
  {
    var items := ExtensionItems(es);
    if es != [] {
      assert items[1..] == ExtensionItems(es[1..]);
      ScanStep(items[0], ItemsBytes(items[1..], 2), 2);
      if es[0].ServerName? {
        assert ExtensionFits(es[0]);
        var list := ItemsBytes(es[0].names, 1);
        TakeVec16Iff(items[0].data, list, []);
        assert items[0].data == Vec16(list) + [];
        ScanNamed(es[0].names);
      } else {
        ScanAnnounced(es[1..]);
      }
    }
  }

  lemma {:induction false} ScanNamed(names: seq<Item>)
    requires AllFit(names, 1)
    ensures NamedBy(names,
      match ScanItems(ItemsBytes(names, 1), 1)
      case Hit(host) => if IsAscii(host) then Found(Text(host)) else Malformed
      case Miss => NoSni
      case Broken => Malformed)
  {
    if names != [] {
      ScanStep(names[0], ItemsBytes(names[1..], 1), 1);
      if IsZero(names[0].tag) && IsAscii(names[0].data) {
        SpellsIff(Text(names[0].data), names[0].data);
      }
      if !IsZero(names[0].tag) {
        ScanNamed(names[1..]);
      }
    }
  }

  // ---------------------------------------------------------------- the cursor loops

  /** The fields seen through a cursor into a larger buffer. */
  lemma TakeVec8At(s: bytes, pos: nat)
    requires pos < |s|
    ensures var n: nat := s[pos];
            TakeVec8(s[pos..]) ==
            if pos + 1 + n > |s| then None else Some((s[pos + 1..pos + 1 + n], s[pos + 1 + n..]))
  {
    var v := s[pos..];
    var n: nat := s[pos];
    if pos + 1 + n <= |s| {
      SliceSlice(s, pos, |s|, 1, 1 + n);
      SliceSlice(s, pos, |s|, 1 + n, |v|);
      assert s[pos..|s|] == v;
    }
  }

  lemma TakeVec16At(s: bytes, pos: nat, end: nat)
    requires pos + 2 <= end <= |s|
    ensures var n := U16(s[pos], s[pos + 1]);
            TakeVec16(s[pos..end]) ==
            if pos + 2 + n > end then None else Some((s[pos + 2..pos + 2 + n], s[pos + 2 + n..end]))
  {
    var v := s[pos..end];
    var n := U16(s[pos], s[pos + 1]);
    if pos + 2 + n <= end {
      SliceSlice(s, pos, end, 2, 2 + n);
      DropSlice(s, pos, end, 2 + n);
    }
  }

  lemma ShortVec16()
    ensures forall s: bytes | |s| < 2 :: TakeVec16(s) == None
  {
  }

  lemma ScanAt(s: bytes, pos: nat, end: nat, width: nat)
    requires pos <= end <= |s| && 1 <= width <= 2
    ensures pos == end ==> ScanItems(s[pos..end], width) == Miss
    ensures end - width - 2 < pos < end ==> ScanItems(s[pos..end], width) == Broken
    ensures pos + width + 2 <= end ==>
      var field := TakeVec16(s[pos + width..end]);
      ScanItems(s[pos..end], width) ==
      if field.None? then Broken
      else if s[pos] == 0 && s[pos + width - 1] == 0 then Hit(field.value.0)
      else ScanItems(field.value.1, width)
  {
    if pos + width + 2 <= end {
      DropSlice(s, pos, end, width);
      ZeroTagAt(s, pos, end, width);
      ScanUnfold(s[pos..end], width);
      hide *;
    }
  }

  lemma ScanUnfold(s: bytes, width: nat)
    requires |s| >= width + 2
    ensures ScanItems(s, width) ==
      var field := TakeVec16(s[width..]);
      if field.None? then Broken
      else if IsZero(s[..width]) then Hit(field.value.0)
      else ScanItems(field.value.1, width)
  {
  }

  lemma ZeroTagAt(s: bytes, pos: nat, end: nat, width: nat)
    requires pos + width <= end <= |s| && 1 <= width <= 2
    ensures IsZero(s[pos..end][..width]) <==> s[pos] == 0 && s[pos + width - 1] == 0
  {
    assert s[pos..end][..width] == if width == 1 then [s[pos]] else [s[pos], s[pos + 1]];
  }

  /** `parse_client_hello`. */
  method ParseClientHello(data: bytes) returns (r: Parsed)
    ensures r == Parse(data)
  {
    if |data| < RECORD_HEADER_LEN {
      return Incomplete(RECORD_HEADER_LEN);
    }
    if data[0] != CONTENT_TYPE_HANDSHAKE {
      return Malformed;
    }
    var recordLength := U16(data[3], data[4]);
    var totalNeeded := RECORD_HEADER_LEN + recordLength;
    if |data| < totalNeeded {
      return Incomplete(totalNeeded);
    }
    r := ParseHandshakeBody(data[RECORD_HEADER_LEN..totalNeeded]);
  }

  /** `_parse_handshake_body`: the handshake header, then the fields, then the extensions. */
  method ParseHandshakeBody(body: bytes) returns (r: Parsed)
    ensures r == ParseHandshake(body)
  {
    hide HelloTail, TakeVec16, ScanItems, ParseServerName, U24, U16;
    ShortVec16();
    if |body| < HANDSHAKE_HEADER_LEN || body[0] != HANDSHAKE_TYPE_CLIENT_HELLO {
      return Malformed;
    }
    var handshakeLength := U24(body[1], body[2], body[3]);
    if |body| < HANDSHAKE_HEADER_LEN + handshakeLength {
      return Malformed;
    }
    var hello := body[HANDSHAKE_HEADER_LEN..HANDSHAKE_HEADER_LEN + handshakeLength];
    var afterFields := SkipFields(hello);
    if afterFields.None? {
      return Malformed;
    }
    var pos := afterFields.value;
    if pos >= |hello| {
      return NoSni;
    }
    if pos + 2 > |hello| {
      return Malformed;
    }
    TakeVec16At(hello, pos, |hello|);
    assert hello[pos..|hello|] == hello[pos..];
    var extensionsLen := U16(hello[pos], hello[pos + 1]);
    pos := pos + 2;
    var extensionsEnd := pos + extensionsLen;
    if extensionsEnd > |hello| {
      return Malformed;
    }
    r := ParseExtensions(hello, pos, extensionsEnd);
  }

  /** The part of `_parse_handshake_body` that steps over version, random, session id, ciphers and compression. */
  method SkipFields(hello: bytes) returns (end: Option<nat>)
    ensures end.None? <==> HelloTail(hello).None?
    ensures end.Some? ==> end.value <= |hello| && HelloTail(hello) == Some(hello[end.value..])
  {
    var pos: nat := HEAD_LEN;
    if pos >= |hello| {
      return None;
    }
    TakeVec8At(hello, pos);
    var sessionIdLen: nat := hello[pos];
    pos := pos + 1;
    if pos + sessionIdLen > |hello| {
      return None;
    }
    pos := pos + sessionIdLen;

    if pos + 2 > |hello| {
      return None;
    }
    TakeVec16At(hello, pos, |hello|);
    assert hello[pos..|hello|] == hello[pos..];
    var cipherSuitesLen := U16(hello[pos], hello[pos + 1]);
    pos := pos + 2;
    if pos + cipherSuitesLen > |hello| {
      return None;
    }
    pos := pos + cipherSuitesLen;
    assert hello[pos..|hello|] == hello[pos..];

    if pos >= |hello| {
      return None;
    }
    TakeVec8At(hello, pos);
    var compressionMethodsLen: nat := hello[pos];
    pos := pos + 1;
    if pos + compressionMethodsLen > |hello| {
      return None;
    }
    return Some(pos + compressionMethodsLen);
  }

  /** The extension loop at the end of `_parse_handshake_body`. */
  method ParseExtensions(hello: bytes, start: nat, extensionsEnd: nat) returns (r: Parsed)
    requires start <= extensionsEnd <= |hello|
    ensures r == match ScanItems(hello[start..extensionsEnd], 2)
                 case Miss => NoSni
                 case Broken => Malformed
                 case Hit(ext) => ParseServerName(ext)
  {
    hide ScanItems, ParseServerName, TakeVec16;
    var pos := start;
    while pos < extensionsEnd
      invariant pos <= extensionsEnd
      invariant ScanItems(hello[pos..extensionsEnd], 2) == ScanItems(hello[start..extensionsEnd], 2)
    {
      ScanAt(hello, pos, extensionsEnd, 2);
      if pos + 4 > extensionsEnd {
        return Malformed;
      }
      var extType := U16(hello[pos], hello[pos + 1]);
      var extLen := U16(hello[pos + 2], hello[pos + 3]);
      var extDataStart := pos + 4;
      var extDataEnd := extDataStart + extLen;
      TakeVec16At(hello, pos + 2, extensionsEnd);
      if extDataEnd > extensionsEnd {
        return Malformed;
      }
      if extType == 0 {
        r := ParseServerNameExtension(hello[extDataStart..extDataEnd]);
        return;
      }
      pos := extDataEnd;
    }
    ScanAt(hello, pos, extensionsEnd, 2);
    return NoSni;
  }

  /** The name list of a server_name extension, as slices of it. */
  lemma ServerNameList(ext: bytes)
    ensures |ext| < 2 ==> ParseServerName(ext) == Malformed
    ensures |ext| >= 2 ==>
      var n := U16(ext[0], ext[1]);
      ParseServerName(ext) ==
      if 2 + n > |ext| then Malformed
      else match ScanItems(ext[2..2 + n], 1)
        case Miss => NoSni
        case Broken => Malformed
        case Hit(host) => if IsAscii(host) then Found(Text(host)) else Malformed
  {
    hide ScanItems, IsAscii, Text;
  }

  /** `_parse_server_name_extension`. */
  method ParseServerNameExtension(ext: bytes) returns (r: Parsed)
    ensures r == ParseServerName(ext)
  {
    hide ScanItems, TakeVec16, ParseServerName, IsAscii, Text;
    ServerNameList(ext);
    if |ext| < 2 {
      return Malformed;
    }
    var serverNameListLen := U16(ext[0], ext[1]);
    var pos: nat := 2;
    var listEnd := pos + serverNameListLen;
    if listEnd > |ext| {
      return Malformed;
    }

    while pos < listEnd
      invariant pos <= listEnd
      invariant ScanItems(ext[pos..listEnd], 1) == ScanItems(ext[2..listEnd], 1)
    {
      ScanAt(ext, pos, listEnd, 1);
      if pos + 3 > listEnd {
        return Malformed;
      }
      var nameType := ext[pos];
      var nameLen := U16(ext[pos + 1], ext[pos + 2]);
      var nameStart := pos + 3;
      var nameEnd := nameStart + nameLen;
      TakeVec16At(ext, pos + 1, listEnd);
      if nameEnd > listEnd {
        return Malformed;
      }
      var nameBytes := ext[nameStart..nameEnd];
      if nameType == 0 {
        if IsAscii(nameBytes) {
          return Found(Text(nameBytes));
        }
        return Malformed;
      }
      pos := nameEnd;
    }
    ScanAt(ext, pos, listEnd, 1);
    return NoSni;
  }
}
