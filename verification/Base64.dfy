/** Base64, RFC 4648 section 4: the encoder, and the lenient decoder behind `base64.b64decode`. */
module Base64 {
  import opened Basics

  type sextet = n: int | 0 <= n < 64

  /** The alphabet of RFC 4648, table 1. */
  function Symbol(v: sextet): char {
    if v < 26 then ('A' as int + v) as char
    else if v < 52 then ('a' as int + (v - 26)) as char
    else if v < 62 then ('0' as int + (v - 52)) as char
    else if v == 62 then '+'
    else '/'
  }

  /** The value of a character of the alphabet. */
  function Value(c: char): Option<sextet> {
    if 'A' <= c <= 'Z' then Some(c as int - 'A' as int)
    else if 'a' <= c <= 'z' then Some(c as int - 'a' as int + 26)
    else if '0' <= c <= '9' then Some(c as int - '0' as int + 52)
    else if c == '+' then Some(62)
    else if c == '/' then Some(63)
    else None
  }

  /** Three bytes become four characters; one or two left over are padded with `=`. */
  function Encode(b: bytes): string {
    if b == [] then []
    else if |b| == 1 then [Symbol(First(b[0])), Symbol(Second(b[0], 0)), '=', '=']
    else if |b| == 2 then [Symbol(First(b[0])), Symbol(Second(b[0], b[1])), Symbol(Third(b[1], 0)), '=']
    else
      [Symbol(First(b[0])), Symbol(Second(b[0], b[1])), Symbol(Third(b[1], b[2])), Symbol(Fourth(b[2]))]
      + Encode(b[3..])
  }

  /** The four sextets of three bytes. */
  function First(a: byte): sextet { a / 4 }

  function Second(a: byte, b: byte): sextet { a % 4 * 16 + b / 16 }

  function Third(b: byte, c: byte): sextet { b % 16 * 4 + c / 64 }

  function Fourth(c: byte): sextet { c % 64 }

  /** The bits a decoder keeps and writes give the bytes back. */
  lemma Regroup(a: byte, b: byte, c: byte)
    ensures First(a) * 4 + Second(a, b) / 16 == a
    ensures Second(a, b) % 16 * 16 + Third(b, c) / 4 == b
    ensures Third(b, c) % 4 * 64 + Fourth(c) == c
  {
  }

  datatype Error = NotAscii | BadPadding

  /**
   The decoder's loop. `quad` counts the characters of the current group, `left` holds the bits not yet
   written, `pads` the padding since the last character of the alphabet. Characters outside the alphabet
   are skipped; enough padding ends the input, whatever follows.
   */
  function Scan(s: string, quad: nat, left: nat, pads: nat, out: bytes): Result<bytes, Error>
    requires quad < 4
    requires left < if quad == 1 then 64 else if quad == 2 then 16 else if quad == 3 then 4 else 1
    decreases |s|
  {
    if s == [] then
      if quad == 0 then Ok(out) else Err(BadPadding)
    else if s[0] == '=' then
      if quad >= 2 && quad + pads + 1 >= 4 then Ok(out)
      else Scan(s[1..], quad, left, if quad >= 2 then pads + 1 else pads, out)
    else match Value(s[0])
      case None => Scan(s[1..], quad, left, pads, out)
      case Some(v) =>
        if quad == 0 then Scan(s[1..], 1, v, 0, out)
        else if quad == 1 then Scan(s[1..], 2, v % 16, 0, out + [left * 4 + v / 16])
        else if quad == 2 then Scan(s[1..], 3, v % 4, 0, out + [left * 16 + v / 4])
        else Scan(s[1..], 0, 0, 0, out + [left * 64 + v])
  }

  /** `base64.b64decode` of a text. */
  function Decode(s: string): Result<bytes, Error> {
    if exists c | c in s :: c as int >= 128 then Err(NotAscii) else Scan(s, 0, 0, 0, [])
  }

  lemma SymbolValue(v: sextet)
    ensures Value(Symbol(v)) == Some(v) && Symbol(v) != '=' && Symbol(v) as int < 128
  {
  }

  lemma {:induction false} EncodeIsAscii(b: bytes)
    ensures forall c | c in Encode(b) :: c as int < 128
  {
    forall v: sextet ensures Symbol(v) as int < 128 {
      SymbolValue(v);
    }
    if |b| >= 3 {
      EncodeIsAscii(b[3..]);
    }
  }

  /** One character of the alphabet, decoded. */
  lemma ScanSymbol(v: sextet, rest: string, quad: nat, left: nat, out: bytes)
    requires quad < 4
    requires left < if quad == 1 then 64 else if quad == 2 then 16 else if quad == 3 then 4 else 1
    ensures Scan([Symbol(v)] + rest, quad, left, 0, out) ==
      if quad == 0 then Scan(rest, 1, v, 0, out)
      else if quad == 1 then Scan(rest, 2, v % 16, 0, out + [left * 4 + v / 16])
      else if quad == 2 then Scan(rest, 3, v % 4, 0, out + [left * 16 + v / 4])
      else Scan(rest, 0, 0, 0, out + [left * 64 + v])
  {
    SymbolValue(v);
    hide Symbol, Value;
    var s := [Symbol(v)] + rest;
    assert s[0] == Symbol(v) && s[1..] == rest;
  }

  /** Two characters and what they leave: the start of every group. */
  lemma ScanPair(x: sextet, y: sextet, rest: string, out: bytes)
    ensures Scan([Symbol(x)] + ([Symbol(y)] + rest), 0, 0, 0, out) == Scan(rest, 2, y % 16, 0, out + [x * 4 + y / 16])
  {
    ScanSymbol(x, [Symbol(y)] + rest, 0, 0, out);
    ScanSymbol(y, rest, 1, x, out);
  }

  lemma ScanOneLeft(a: byte, out: bytes)
    ensures Scan(Encode([a]), 0, 0, 0, out) == Ok(out + [a])
  {
    var x, y := First(a), Second(a, 0);
    assert Encode([a]) == [Symbol(x)] + ([Symbol(y)] + ['=', '=']);
    Regroup(a, 0, 0);
    hide *;
    ScanPair(x, y, ['=', '='], out);
    ScanEnd(out + [a]);
  }

  lemma ScanTwoLeft(a: byte, b: byte, out: bytes)
    ensures Scan(Encode([a, b]), 0, 0, 0, out) == Ok(out + [a, b])
  {
    var x, y, z := First(a), Second(a, b), Third(b, 0);
    assert Encode([a, b]) == [Symbol(x)] + ([Symbol(y)] + ([Symbol(z)] + ['=']));
    Regroup(a, b, 0);
    hide *;
    ScanPair(x, y, [Symbol(z)] + ['='], out);
    ScanSymbol(z, ['='], 2, y % 16, out + [a]);
    ScanEnd(out + [a] + [b]);
    assert out + [a, b] == out + [a] + [b];
  }

  lemma ScanGroup(a: byte, b: byte, c: byte, rest: bytes, out: bytes)
    ensures Scan(Encode([a, b, c] + rest), 0, 0, 0, out) == Scan(Encode(rest), 0, 0, 0, out + [a, b, c])
  {
    var x, y, z, w := First(a), Second(a, b), Third(b, c), Fourth(c);
    var s, tail := [a, b, c] + rest, Encode(rest);
    assert s[3..] == rest;
    assert Encode(s) == [Symbol(x)] + ([Symbol(y)] + ([Symbol(z)] + ([Symbol(w)] + tail)));
    Regroup(a, b, c);
    hide *;
    ScanPair(x, y, [Symbol(z)] + ([Symbol(w)] + tail), out);
    ScanSymbol(z, [Symbol(w)] + tail, 2, y % 16, out + [a]);
    ScanSymbol(w, tail, 3, z % 4, out + [a] + [b]);
    assert out + [a, b, c] == out + [a] + [b] + [c];
  }

  lemma {:induction false} ScanEncode(b: bytes, out: bytes)
    ensures Scan(Encode(b), 0, 0, 0, out) == Ok(out + b)
    decreases |b|
  {
    if b == [] {
      assert out + b == out;
      return;
    }
    hide Scan, Encode;
    if |b| == 1 {
      ScanOneLeft(b[0], out);
      assert b == [b[0]];
    } else if |b| == 2 {
      ScanTwoLeft(b[0], b[1], out);
      assert b == [b[0], b[1]];
    } else {
      ScanGroup(b[0], b[1], b[2], b[3..], out);
      ScanEncode(b[3..], out + [b[0], b[1], b[2]]);
      assert b == [b[0], b[1], b[2]] + b[3..];
      assert out + b == out + [b[0], b[1], b[2]] + b[3..];
    }
  }

  /** How the input ends: with a whole group, or with the padding its last group needs. */
  lemma ScanEnd(out: bytes)
    ensures Scan([], 0, 0, 0, out) == Ok(out)
    ensures forall left: nat | left < 16 :: Scan(['=', '='], 2, left, 0, out) == Ok(out)
    ensures forall left: nat | left < 4 :: Scan(['='], 3, left, 0, out) == Ok(out)
  {
    assert ['=', '='][1..] == ['='];
    assert forall left: nat | left < 16 :: Scan(['='], 2, left, 1, out) == Ok(out);
  }

  /** Decoding inverts encoding, at every length. */
  lemma DecodeEncode(b: bytes)
    ensures Decode(Encode(b)) == Ok(b)
  {
    EncodeIsAscii(b);
    ScanEncode(b, []);
    assert [] + b == b;
  }
}
