/** Strict UTF-8, RFC 3629 sections 3 and 4: characters are Unicode scalar values. */
module Utf8 {
  import opened Basics

  predicate IsScalar(n: int) { 0 <= n < 0xD800 || 0xE000 <= n < 0x11_0000 }

  function EncodeChar(c: char): bytes {
    var n := c as int;
    if n < 0x80 then [n]
    else if n < 0x800 then [0xC0 + n / 64, 0x80 + n % 64]
    else if n < 0x1_0000 then [0xE0 + n / 64 / 64, 0x80 + n / 64 % 64, 0x80 + n % 64]
    else [0xF0 + n / 64 / 64 / 64, 0x80 + n / 64 / 64 % 64, 0x80 + n / 64 % 64, 0x80 + n % 64]
  }

  /** `str.encode("utf-8")`. */
  function Encode(text: string): bytes {
    if text == [] then [] else EncodeChar(text[0]) + Encode(text[1..])
  }

  predicate Continues(b: byte) { 0x80 <= b < 0xC0 }

  /** The length of a well-formed sequence at the front, by the table of RFC 3629 section 4; 0 if there is none. */
  function WellFormedLength(s: bytes): nat {
    if |s| >= 1 && s[0] < 0x80 then 1
    else if |s| >= 2 && 0xC2 <= s[0] < 0xE0 && Continues(s[1]) then 2
    else if |s| >= 3 && 0xE0 <= s[0] < 0xF0 && Continues(s[1]) && Continues(s[2]) &&
            (s[0] == 0xE0 ==> s[1] >= 0xA0) && (s[0] == 0xED ==> s[1] < 0xA0) then 3
    else if |s| >= 4 && 0xF0 <= s[0] < 0xF5 && Continues(s[1]) && Continues(s[2]) && Continues(s[3]) &&
            (s[0] == 0xF0 ==> s[1] >= 0x90) && (s[0] == 0xF4 ==> s[1] < 0x90) then 4
    else 0
  }

  /** The scalar value a well-formed sequence stands for. */
  function ScalarAt(s: bytes): (n: int)
    requires WellFormedLength(s) > 0
    ensures IsScalar(n)
  {
    var k, b: int := WellFormedLength(s), s[0];
    if k == 1 then b
    else if k == 2 then (b - 0xC0) * 64 + Low(s[1])
    else if k == 3 then ((b - 0xE0) * 64 + Low(s[1])) * 64 + Low(s[2])
    else (((b - 0xF0) * 64 + Low(s[1])) * 64 + Low(s[2])) * 64 + Low(s[3])
  }

  /** The six bits of a continuation byte. */
  function Low(b: byte): (n: int)
    requires Continues(b)
  {
    b as int - 0x80
  }

  /** `bytes.decode("utf-8")`; `None` is a `UnicodeDecodeError`. */
  function Decode(s: bytes): Option<string>
    decreases |s|
  {
    if s == [] then Some([])
    else
      var k := WellFormedLength(s);
      if k == 0 then None
      else match Decode(s[k..])
        case None => None
        case Some(rest) => Some([ScalarAt(s) as char] + rest)
  }

  /** Nothing overlong: a decoded sequence is the encoding of its character. */
  lemma EncodeScalarAt(s: bytes)
    requires WellFormedLength(s) > 0
    ensures EncodeChar(ScalarAt(s) as char) == s[..WellFormedLength(s)]
  {
    var k, b: int := WellFormedLength(s), s[0];
    if k == 2 {
      SixBits(b - 0xC0, Low(s[1]));
    } else if k == 3 {
      SixBits(b - 0xE0, Low(s[1]));
      SixBits((b - 0xE0) * 64 + Low(s[1]), Low(s[2]));
    } else if k == 4 {
      SixBits(b - 0xF0, Low(s[1]));
      SixBits((b - 0xF0) * 64 + Low(s[1]), Low(s[2]));
      SixBits(((b - 0xF0) * 64 + Low(s[1])) * 64 + Low(s[2]), Low(s[3]));
    }
  }

  lemma SixBits(high: int, low: int)
    requires 0 <= low < 64
    ensures (high * 64 + low) / 64 == high && (high * 64 + low) % 64 == low
  {
  }

  lemma DecodeEncodedChar(c: char, rest: bytes)
    ensures var s := EncodeChar(c) + rest;
            WellFormedLength(s) == |EncodeChar(c)| && ScalarAt(s) == c as int
  {
    var n := c as int;
    assert n == n / 64 * 64 + n % 64;
    assert n / 64 == n / 64 / 64 * 64 + n / 64 % 64;
    assert n / 64 / 64 == n / 64 / 64 / 64 * 64 + n / 64 / 64 % 64;
  }

  lemma {:induction false} EncodeDecode(s: bytes)
    requires Decode(s).Some?
    ensures Encode(Decode(s).value) == s
    decreases |s|
  {
    if s != [] {
      var k, text := WellFormedLength(s), Decode(s).value;
      EncodeScalarAt(s);
      EncodeDecode(s[k..]);
      var c := ScalarAt(s) as char;
      assert text == [c] + Decode(s[k..]).value;
      hide *;
      EncodeCons(c, text[1..]);
      assert s == s[..k] + s[k..];
    }
  }

  lemma EncodeCons(c: char, text: string)
    ensures Encode([c] + text) == EncodeChar(c) + Encode(text)
  {
    assert ([c] + text)[1..] == text;
    hide EncodeChar;
  }

  lemma {:induction false} DecodeEncode(text: string)
    ensures Decode(Encode(text)) == Some(text)
  {
    if text != [] {
      var front, rest := EncodeChar(text[0]), Encode(text[1..]);
      DecodeEncodedChar(text[0], rest);
      assert (front + rest)[|front|..] == rest;
      DecodeEncode(text[1..]);
      hide WellFormedLength, ScalarAt, EncodeChar;
      assert text == [text[0]] + text[1..];
    }
  }

  /** The decoder accepts exactly the encodings, each as the text it encodes. */
  lemma {:induction false} DecodeIff(s: bytes, text: string)
    ensures Decode(s) == Some(text) <==> s == Encode(text)
  {
    DecodeEncode(text);
    if Decode(s) == Some(text) {
      EncodeDecode(s);
    }
  }

  lemma {:induction false} EncodeAppend(a: string, b: string)
    ensures Encode(a + b) == Encode(a) + Encode(b)
  {
    if a == [] {
      assert a + b == b;
    } else {
      assert (a + b)[1..] == a[1..] + b;
      EncodeAppend(a[1..], b);
    }
  }
}
