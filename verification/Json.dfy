/**
 JSON text, RFC 8259: `json.loads`, and `json.dumps` in the two styles the program uses: on one line with
 `ensure_ascii=False`, and ASCII with `indent=2`. A float is carried as the number token it is written with.
 */
module Json {
  import opened Basics
  import opened Numerals

  datatype Json =
    | Null
    | Bool(b: bool)
    | Int(n: int)
    | Float(token: string)
    | String(s: string)
    | Array(items: seq<Json>)
    | Object(fields: seq<Field>)

  datatype Field = Field(key: string, value: Json)

  datatype Parsed<+T> = Success(value: T, rest: string) | Failure

  // ---------------------------------------------------------------- printing

  datatype Style = Compact | Indented

  /** A `\u` escape, or a pair of them beyond the basic plane. */
  function UnicodeEscape(c: char): string {
    var n := c as int;
    if n < 0x1_0000 then "\\u" + Hex4(n)
    else "\\u" + Hex4(HighPart(n)) + ("\\u" + Hex4(LowPart(n)))
  }

  function HighPart(n: int): (h: nat)
    requires 0x1_0000 <= n < 0x11_0000
    ensures IsHigh(h)
  {
    0xD800 + (n - 0x1_0000) / 1024
  }

  function LowPart(n: int): (l: nat)
    requires 0x1_0000 <= n < 0x11_0000
    ensures IsLow(l)
  {
    0xDC00 + (n - 0x1_0000) % 1024
  }

  /** One character inside a string literal, section 7. */
  function EscapeChar(style: Style, c: char): string {
    if c == '"' then "\\\""
    else if c == '\\' then "\\\\"
    else if c == '\n' then "\\n"
    else if c == '\r' then "\\r"
    else if c == '\t' then "\\t"
    else if c as int == 12 then "\\f"
    else if c as int == 8 then "\\b"
    else if c as int < 0x20 || (style.Indented? && c as int > 0x7E) then UnicodeEscape(c)
    else [c]
  }

  function Escape(style: Style, s: string): string {
    if s == [] then [] else EscapeChar(style, s[0]) + Escape(style, s[1..])
  }

  function PrintString(style: Style, s: string): string { "\"" + (Escape(style, s) + "\"") }

  function PrintInt(n: int): string {
    if n < 0 then "-" + PrintNat(-n) else PrintNat(n)
  }

  function Spaces(n: nat): string { if n == 0 then "" else " " + Spaces(n - 1) }

  /** What stands in front of a value on a line of its own, and in front of a closing bracket. */
  function Lead(style: Style, depth: nat): string {
    if style.Compact? then "" else "\n" + Spaces(2 * depth)
  }

  /** What stands between a comma and the next value. */
  function Gap(style: Style, depth: nat): string {
    if style.Compact? then " " else Lead(style, depth)
  }

  function Print(style: Style, depth: nat, v: Json): string
    decreases v, 1
  {
    match v
    case Null => "null"
    case Bool(b) => if b then "true" else "false"
    case Int(n) => PrintInt(n)
    case Float(token) => token
    case String(s) => PrintString(style, s)
    case Array(items) =>
      if items == [] then "[]" else "[" + (Lead(style, depth + 1) + PrintItems(style, depth, items))
    case Object(fields) =>
      if fields == [] then "{}" else "{" + (Lead(style, depth + 1) + PrintFields(style, depth, fields))
  }

  /** The items of an array at a depth, and its closing bracket. */
  function PrintItems(style: Style, depth: nat, items: seq<Json>): string
    requires items != []
    decreases items, 0
  {
    Print(style, depth + 1, items[0]) +
    if |items| == 1 then Lead(style, depth) + "]"
    else "," + (Gap(style, depth + 1) + PrintItems(style, depth, items[1..]))
  }

  function PrintFields(style: Style, depth: nat, fields: seq<Field>): string
    requires fields != []
    decreases fields, 0
  {
    PrintString(style, fields[0].key) + (": " + (Print(style, depth + 1, fields[0].value) +
    if |fields| == 1 then Lead(style, depth) + "}"
    else "," + (Gap(style, depth + 1) + PrintFields(style, depth, fields[1..]))))
  }

  /** `json.dumps`. */
  function Dumps(style: Style, v: Json): string { Print(style, 0, v) }

  // ---------------------------------------------------------------- parsing

  function SkipSpace(s: string): (r: string)
    ensures |r| <= |s|
  {
    if s != [] && s[0] in " \t\n\r" then SkipSpace(s[1..]) else s
  }

  function Cons(c: char, p: Parsed<string>): (r: Parsed<string>)
    ensures r.Success? <==> p.Success?
    ensures r.Success? ==> r.rest == p.rest && r.value == [c] + p.value
  {
    if p.Failure? then Failure else Success([c] + p.value, p.rest)
  }

  /** The rest of a string literal, after its opening quote. */
  function ParseChars(s: string): (p: Parsed<string>)
    ensures p.Success? ==> |p.rest| < |s|
    decreases |s|
  {
    if s == [] || s[0] as int < 0x20 then Failure
    else if s[0] == '"' then Success([], s[1..])
    else if s[0] != '\\' then Cons(s[0], ParseChars(s[1..]))
    else if |s| < 2 then Failure
    else if s[1] == 'u' then ParseUnicode(s)
    else if Unescaped(s[1]).Some? then Cons(Unescaped(s[1]).value, ParseChars(s[2..]))
    else Failure
  }

  /** The character a backslash and this letter stand for. */
  function Unescaped(letter: char): Option<char> {
    match letter
    case '"' => Some('"')
    case '\\' => Some('\\')
    case '/' => Some('/')
    case 'b' => Some(8 as char)
    case 'f' => Some(12 as char)
    case 'n' => Some('\n')
    case 'r' => Some('\r')
    case 't' => Some('\t')
    case _ => None
  }

  predicate IsHigh(n: nat) { 0xD800 <= n < 0xDC00 }

  predicate IsLow(n: nat) { 0xDC00 <= n < 0xE000 }

  /** A `\u` escape, or a surrogate pair of them; a surrogate on its own is not a character. */
  function ParseUnicode(s: string): (p: Parsed<string>)
    requires |s| >= 2
    ensures p.Success? ==> |p.rest| < |s|
    decreases |s|, 0
  {
    if !IsHex4(s[2..]) then Failure
    else
      var n := Hex4Value(s[2..]);
      if !IsHigh(n) && !IsLow(n) then Cons(n as char, ParseChars(s[6..]))
      else if IsHigh(n) && |s| >= 12 && s[6] == '\\' && s[7] == 'u' && IsHex4(s[8..]) && IsLow(Hex4Value(s[8..])) then
        Cons((0x1_0000 + (n - 0xD800) * 1024 + (Hex4Value(s[8..]) - 0xDC00)) as char, ParseChars(s[12..]))
      else Failure
  }

  /** How many leading characters are digits. */
  function DigitRun(s: string): (k: nat)
    ensures k <= |s| && AllDigits(s[..k])
    ensures k < |s| ==> !IsDigit(s[k])
  {
    if s != [] && IsDigit(s[0]) then
      var k := 1 + DigitRun(s[1..]);
      assert s[..k] == [s[0]] + s[1..][..k - 1];
      k
    else 0
  }

  /** The integer part of a number, section 6; 0 if there is none. */
  function IntLength(s: string): (k: nat)
    ensures k <= |s|
    ensures k > 0 ==> s[0] == '-' || IsDigit(s[0])
    ensures k > 0 && s[0] == '-' ==> k > 1 && AllDigits(s[1..k])
    ensures k > 0 && s[0] != '-' ==> AllDigits(s[..k])
  {
    if s != [] && s[0] == '-' then
      var k := NaturalLength(s[1..]);
      if k == 0 then 0
      else
        assert s[1..][..k] == s[1..k + 1];
        k + 1
    else NaturalLength(s)
  }

  function NaturalLength(s: string): (k: nat)
    ensures k <= |s| && AllDigits(s[..k])
  {
    if s != [] && s[0] == '0' then 1 else DigitRun(s)
  }

  function FractionLength(s: string): (k: nat)
    ensures k <= |s|
  {
    if s != [] && s[0] == '.' && DigitRun(s[1..]) > 0 then 1 + DigitRun(s[1..]) else 0
  }

  function ExponentLength(s: string): (k: nat)
    ensures k <= |s|
  {
    if s == [] || s[0] !in "eE" then 0
    else
      var sign := if |s| > 1 && s[1] in "+-" then 1 else 0;
      var k := DigitRun(s[1 + sign..]);
      if k == 0 then 0 else 1 + sign + k
  }

  function NumberLength(s: string): (k: nat)
    ensures IntLength(s) <= k <= |s|
    ensures k > 0 ==> IntLength(s) > 0
  {
    var i := IntLength(s);
    if i == 0 then 0
    else
      var f := FractionLength(s[i..]);
      i + f + ExponentLength(s[i + f..])
  }

  function IntOf(s: string): int
    requires IntLength(s) > 0
  {
    var k := IntLength(s);
    if s[0] == '-' then 0 - NatOf(s[1..k]) else NatOf(s[..k])
  }

  /** The number a token stands for: sign, digits, fraction and exponent. */
  function RealOf(s: string): real {
    var i := IntLength(s);
    if i == 0 then 0.0
    else
      var f := FractionLength(s[i..]);
      var e := ExponentLength(s[i + f..]);
      var size := NatOf(s[(if s[0] == '-' then 1 else 0)..i]) as real + FractionOf(s[i..]);
      Scale(if s[0] == '-' then 0.0 - size else size, if e == 0 then 0 else ExponentOf(s[i + f..]))
  }

  function Scale(x: real, power: int): real {
    if power >= 0 then x * Pow10(power) as real else x / Pow10(-power) as real
  }

  function FractionOf(s: string): real {
    if FractionLength(s) == 0 then 0.0
    else
      var k := DigitRun(s[1..]);
      NatOf(s[1..][..k]) as real / Pow10(k) as real
  }

  function ExponentOf(s: string): int
    requires ExponentLength(s) > 0
  {
    var sign := if s[1] in "+-" then 1 else 0;
    var n := NatOf(s[1 + sign..][..DigitRun(s[1 + sign..])]);
    if s[1] == '-' then 0 - n else n
  }

  function ParseNumber(s: string): (p: Parsed<Json>)
    ensures p.Success? ==> |p.rest| < |s|
  {
    var k := NumberLength(s);
    if k == 0 then Failure
    else if k == IntLength(s) then Success(Int(IntOf(s)), s[k..])
    else Success(Float(s[..k]), s[k..])
  }

  function ParseWord(s: string, word: string, v: Json): (p: Parsed<Json>)
    requires word != []
    ensures p.Success? ==> |p.rest| < |s|
  {
    if word <= s then Success(v, s[|word|..]) else Failure
  }

  function ParseValue(s: string): (p: Parsed<Json>)
    ensures p.Success? ==> |p.rest| < |s|
    decreases |s|, 1
  {
    if s == [] then Failure
    else if s[0] == '"' then
      var p := ParseChars(s[1..]);
      if p.Failure? then Failure else Success(String(p.value), p.rest)
    else if s[0] == '[' then
      var t := SkipSpace(s[1..]);
      if t != [] && t[0] == ']' then Success(Array([]), t[1..])
      else
        var p := ParseItems(t);
        if p.Failure? then Failure else Success(Array(p.value), p.rest)
    else if s[0] == '{' then
      var t := SkipSpace(s[1..]);
      if t != [] && t[0] == '}' then Success(Object([]), t[1..])
      else
        var p := ParseFields(t);
        if p.Failure? then Failure else Success(Object(p.value), p.rest)
    else if s[0] == 'n' then ParseWord(s, "null", Null)
    else if s[0] == 't' then ParseWord(s, "true", Bool(true))
    else if s[0] == 'f' then ParseWord(s, "false", Bool(false))
    else ParseNumber(s)
  }

  function ParseItems(s: string): (p: Parsed<seq<Json>>)
    ensures p.Success? ==> |p.rest| < |s|
    decreases |s|, 2
  {
    var v := ParseValue(s);
    if v.Failure? then Failure
    else
      var t := SkipSpace(v.rest);
      if t == [] then Failure
      else if t[0] == ']' then Success([v.value], t[1..])
      else if t[0] == ',' then
        var more := ParseItems(SkipSpace(t[1..]));
        if more.Failure? then Failure else Success([v.value] + more.value, more.rest)
      else Failure
  }

  function ParseFields(s: string): (p: Parsed<seq<Field>>)
    ensures p.Success? ==> |p.rest| < |s|
    decreases |s|, 2
  {
    if s == [] || s[0] != '"' then Failure
    else
      var key := ParseChars(s[1..]);
      if key.Failure? then Failure
      else
        var t := SkipSpace(key.rest);
        if t == [] || t[0] != ':' then Failure
        else
          var v := ParseValue(SkipSpace(t[1..]));
          if v.Failure? then Failure
          else
            var u := SkipSpace(v.rest);
            if u == [] then Failure
            else if u[0] == '}' then Success([Field(key.value, v.value)], u[1..])
            else if u[0] == ',' then
              var more := ParseFields(SkipSpace(u[1..]));
              if more.Failure? then Failure else Success([Field(key.value, v.value)] + more.value, more.rest)
            else Failure
  }

  /** `json.loads`. */
  function Loads(s: string): Option<Json> {
    var p := ParseValue(SkipSpace(s));
    if p.Success? && SkipSpace(p.rest) == [] then Some(p.value) else None
  }

  // ---------------------------------------------------------------- values that can be printed

  /** The token of a float: a whole JSON number with a fraction or an exponent. */
  predicate IsFloatToken(token: string) {
    NumberLength(token) == |token| && IntLength(token) < |token| && IntLength(token) > 0
  }

  predicate Printable(v: Json)
    decreases v
  {
    match v
    case Float(token) => IsFloatToken(token)
    case Array(items) => forall i | 0 <= i < |items| :: Printable(items[i])
    case Object(fields) => forall i | 0 <= i < |fields| :: Printable(fields[i].value)
    case _ => true
  }

  // ---------------------------------------------------------------- strings round trip

  lemma ParseHexEscape(n: nat, rest: string)
    requires n < 0x1_0000 && !IsHigh(n) && !IsLow(n)
    ensures ParseChars("\\u" + Hex4(n) + rest) == Cons(n as char, ParseChars(rest))
  {
    var s := "\\u" + Hex4(n) + rest;
    assert s[2..] == Hex4(n) + rest;
    Hex4ValueHex4(n, rest);
    hide Hex4, Hex4Value, IsHex4;
    assert s[6..] == rest;
  }

  lemma ParseSurrogatePair(n: int, rest: string)
    requires 0x1_0000 <= n < 0x11_0000
    ensures ParseChars("\\u" + Hex4(HighPart(n)) + ("\\u" + Hex4(LowPart(n))) + rest) ==
            Cons(n as char, ParseChars(rest))
  {
    hide Hex4, Hex4Value, IsHex4, Cons, ParseChars, HighPart, LowPart;
    var high, low := Hex4(HighPart(n)), Hex4(LowPart(n));
    PairValue(n);
    Hex4ValueHex4(HighPart(n), "\\u" + low + rest);
    Hex4ValueHex4(LowPart(n), rest);
    ParsePair(high, low, rest);
  }

  lemma PairValue(n: int)
    requires 0x1_0000 <= n < 0x11_0000
    ensures 0x1_0000 + (HighPart(n) - 0xD800) * 1024 + (LowPart(n) - 0xDC00) == n
  {
  }

  lemma ParsePair(high: string, low: string, rest: string)
    requires |high| == |low| == 4 && IsHex4(high + ("\\u" + low + rest)) && IsHex4(low + rest)
    requires IsHigh(Hex4Value(high + ("\\u" + low + rest))) && IsLow(Hex4Value(low + rest))
    ensures var n := (Hex4Value(high + ("\\u" + low + rest)) - 0xD800) * 1024 + (Hex4Value(low + rest) - 0xDC00);
            ParseChars("\\u" + high + ("\\u" + low) + rest) == Cons((0x1_0000 + n) as char, ParseChars(rest))
  {
    hide Hex4Value, IsHex4, Cons;
    var s := "\\u" + high + ("\\u" + low) + rest;
    assert s[2..] == high + ("\\u" + low + rest);
    assert s[8..] == low + rest;
    assert s[12..] == rest;
    assert s[0] == '\\' && s[1] == 'u' && s[6] == '\\' && s[7] == 'u';
  }

  lemma ParseUnicodeEscape(c: char, rest: string)
    ensures ParseChars(UnicodeEscape(c) + rest) == Cons(c, ParseChars(rest))
  {
    hide ParseChars, Hex4, Cons, HighPart, LowPart;
    if c as int < 0x1_0000 {
      ParseHexEscape(c as int, rest);
    } else {
      ParseSurrogatePair(c as int, rest);
    }
  }

  lemma ParseShortEscape(letter: char, c: char, rest: string)
    requires Unescaped(letter) == Some(c)
    ensures ParseChars(['\\', letter] + rest) == Cons(c, ParseChars(rest))
  {
    hide ParseUnicode, Cons;
    assert (['\\', letter] + rest)[2..] == rest;
  }

  lemma ParsePlain(c: char, rest: string)
    requires c as int >= 0x20 && c != '"' && c != '\\'
    ensures ParseChars([c] + rest) == Cons(c, ParseChars(rest))
  {
    hide ParseUnicode, Cons;
    assert ([c] + rest)[1..] == rest;
  }

  lemma ParseEscapedChar(style: Style, c: char, rest: string)
    ensures ParseChars(EscapeChar(style, c) + rest) == Cons(c, ParseChars(rest))
  {
    hide ParseChars, UnicodeEscape, Cons;
    var e := EscapeChar(style, c);
    if e == UnicodeEscape(c) {
      ParseUnicodeEscape(c, rest);
    } else if e == [c] {
      ParsePlain(c, rest);
    } else {
      assert e == ['\\', e[1]];
      ParseShortEscape(e[1], c, rest);
    }
  }

  lemma {:induction false} ParseEscaped(style: Style, text: string, rest: string)
    ensures ParseChars(Escape(style, text) + ("\"" + rest)) == Success(text, rest)
  {
    hide EscapeChar, ParseChars;
    if text == [] {
      assert Escape(style, text) + ("\"" + rest) == "\"" + rest;
      ParseQuote(rest);
    } else {
      var tail := Escape(style, text[1..]) + ("\"" + rest);
      assert Escape(style, text) + ("\"" + rest) == EscapeChar(style, text[0]) + tail;
      ParseEscapedChar(style, text[0], tail);
      ParseEscaped(style, text[1..], rest);
      assert text == [text[0]] + text[1..];
    }
  }

  lemma ParseQuote(rest: string)
    ensures ParseChars("\"" + rest) == Success([], rest)
  {
    assert ("\"" + rest)[1..] == rest;
  }

  lemma ParsePrintedString(style: Style, text: string, rest: string)
    ensures var s := PrintString(style, text) + rest;
            s != [] && s[0] == '"' && ParseChars(s[1..]) == Success(text, rest)
  {
    var s := PrintString(style, text) + rest;
    assert s[1..] == Escape(style, text) + ("\"" + rest);
    hide Escape, ParseChars;
    ParseEscaped(style, text, rest);
  }

  // ---------------------------------------------------------------- numbers round trip

  /** Nothing here can continue a number. */
  predicate Delimited(rest: string) {
    rest == [] || !(IsDigit(rest[0]) || rest[0] in ".eE+-")
  }

  lemma {:induction false} DigitRunAppend(s: string, rest: string)
    requires rest == [] || !IsDigit(rest[0])
    ensures DigitRun(s + rest) == DigitRun(s)
  {
    if s == [] {
      assert s + rest == rest;
    } else {
      assert (s + rest)[1..] == s[1..] + rest;
      DigitRunAppend(s[1..], rest);
    }
  }

  lemma IntLengthAppend(s: string, rest: string)
    requires Delimited(rest)
    ensures IntLength(s + rest) == IntLength(s)
  {
    DigitRunAppend(s, rest);
    if s == [] {
      assert s + rest == rest;
    } else {
      assert (s + rest)[1..] == s[1..] + rest;
      DigitRunAppend(s[1..], rest);
    }
  }

  lemma FractionLengthAppend(s: string, rest: string)
    requires Delimited(rest)
    ensures FractionLength(s + rest) == FractionLength(s)
  {
    if s == [] {
      assert s + rest == rest;
    } else {
      assert (s + rest)[1..] == s[1..] + rest;
      DigitRunAppend(s[1..], rest);
    }
  }

  lemma ExponentLengthAppend(s: string, rest: string)
    requires Delimited(rest)
    ensures ExponentLength(s + rest) == ExponentLength(s)
  {
    hide DigitRun;
    var t := s + rest;
    if s == [] {
      assert t == rest;
    } else {
      assert t[1..] == s[1..] + rest;
      DigitRunAppend(s[1..], rest);
      if |s| > 1 {
        assert t[2..] == s[2..] + rest;
        DigitRunAppend(s[2..], rest);
      }
    }
  }

  lemma NumberLengthAppend(s: string, rest: string)
    requires Delimited(rest)
    ensures NumberLength(s + rest) == NumberLength(s)
  {
    hide IntLength, FractionLength, ExponentLength, Delimited;
    var t := s + rest;
    IntLengthAppend(s, rest);
    var i := IntLength(s);
    DropAppend(s, i, rest);
    FractionLengthAppend(s[i..], rest);
    var f := FractionLength(s[i..]);
    DropAppend(s, i + f, rest);
    ExponentLengthAppend(s[i + f..], rest);
  }

  lemma DropAppend(s: string, k: nat, rest: string)
    requires k <= |s|
    ensures (s + rest)[k..] == s[k..] + rest
  {
  }

  lemma ParseFloat(token: string, rest: string)
    requires IsFloatToken(token) && Delimited(rest)
    ensures ParseNumber(token + rest) == Success(Float(token), rest)
  {
    NumberLengthAppend(token, rest);
    IntLengthAppend(token, rest);
  }

  lemma {:induction false} AllDigitsRun(s: string)
    requires AllDigits(s)
    ensures DigitRun(s) == |s|
  {
    if s != [] {
      AllDigitsRun(s[1..]);
    }
  }

  /** A number's integer part does not reach into what follows its digits. */
  lemma IntLengthBefore(s: string, rest: string)
    requires rest == [] || !IsDigit(rest[0])
    requires IntLength(s) > 0
    ensures IntLength(s + rest) == IntLength(s)
  {
    DigitRunAppend(s, rest);
    assert (s + rest)[1..] == s[1..] + rest;
    DigitRunAppend(s[1..], rest);
  }

  /** The sign, digits, fraction and exponent a number is written with. */
  datatype Decimal = Decimal(negative: bool, whole: nat, fraction: nat, places: nat, exponent: string, power: nat) {
    predicate Valid() {
      fraction < Pow10(places) && exponent in {"", "e", "e+", "e-", "E", "E+", "E-"}
    }

    function Whole(): string { (if negative then "-" else "") + PrintNat(whole) }

    function Fraction(): string
      requires Valid()
    {
      if places == 0 then "" else "." + Padded(fraction, places)
    }

    function Exponent(): string { if exponent == "" then "" else exponent + PrintNat(power) }

    function Signed(): real {
      var size := whole as real + fraction as real / Pow10(places) as real;
      if negative then 0.0 - size else size
    }

    function Power(): int { if exponent == "" then 0 else if '-' in exponent then 0 - power else power }

    function Token(): string
      requires Valid()
    {
      Whole() + (Fraction() + Exponent())
    }
  }

  /** A token stands for the number it spells, in every part. */
  lemma RealOfToken(d: Decimal)
    requires d.Valid()
    ensures var size := d.whole as real + d.fraction as real / Pow10(d.places) as real;
            var x := if d.negative then 0.0 - size else size;
            RealOf(d.Token()) == if d.exponent == "" then x
                                 else if '-' in d.exponent then x / Pow10(d.power) as real
                                 else x * Pow10(d.power) as real
  {
    hide IntLength, FractionLength, ExponentLength, FractionOf, ExponentOf, Pow10, NatOf, RealOf;
    var s, w, f, e := d.Token(), d.Whole(), d.Fraction(), d.Exponent();
    TokenParts(d);
    WholeIsRead(d, f + e);
    FractionIsRead(d, e);
    ExponentIsRead(d);
    hide *;
    RealOfParts(d, s, w, f, e);
    Scaled(d);
    SignedIs(d);
  }

  lemma SignedIs(d: Decimal)
    ensures d.Signed() == var size := d.whole as real + d.fraction as real / Pow10(d.places) as real;
                          if d.negative then 0.0 - size else size
  {
  }

  lemma RealOfWhole(n: int)
    ensures RealOf(PrintInt(n) + ".0") == n as real
  {
    hide RealOf, Pow10, Padded, PrintNat;
    var d := Decimal(n < 0, if n < 0 then -n else n, 0, 1, "", 0);
    OneZero();
    RealOfToken(d);
    assert d.Token() == d.Whole() + (("." + "0") + "");
    assert d.Token() == PrintInt(n) + ".0";
    assert 0 as real / Pow10(1) as real == 0.0;
  }

  lemma OneZero()
    ensures Pow10(0) == 1 && Pow10(1) == 10 && Padded(0, 1) == "0"
  {
    assert Pow10(0) == 1;
  }

  lemma TokenParts(d: Decimal)
    requires d.Valid()
    ensures var s, w, f, e := d.Token(), d.Whole(), d.Fraction(), d.Exponent();
            && s == w + (f + e) && w != "" && s[|w|..] == f + e && s[|w| + |f|..] == e
            && s[0] == w[0] && s[..|w|] == w && s[1..|w|] == w[1..] && s[0..|w|] == w[0..]
            && (f == "" || f[0] == '.') && (e == "" || e[0] in "eE") && (e == "" <==> d.exponent == "")
            && (f + e == "" || !IsDigit((f + e)[0]))
  {
    hide Padded, PrintNat, Pow10;
  }

  lemma RealOfParts(d: Decimal, s: string, w: string, f: string, e: string)
    requires d.Valid() && w != "" && |w| <= |s| && |w| + |f| <= |s|
    requires s[|w|..] == f + e && s[|w| + |f|..] == e && s[0] == w[0] && s[..|w|] == w
    requires s[1..|w|] == w[1..] && s[0..|w|] == w[0..]
    requires IntLength(s) == |w| && (w[0] == '-' <==> d.negative) && (e == "" <==> d.exponent == "")
    requires AllDigits(w[(if d.negative then 1 else 0)..])
    requires NatOf(w[(if d.negative then 1 else 0)..]) == d.whole
    requires FractionLength(f + e) == |f|
    requires FractionOf(f + e) == d.fraction as real / Pow10(d.places) as real
    requires ExponentLength(e) == |e|
    requires d.exponent != "" ==> ExponentOf(e) == if '-' in d.exponent then 0 - d.power else d.power
    ensures RealOf(s) == Scale(d.Signed(), d.Power())
  {
    hide IntLength, FractionLength, ExponentLength, FractionOf, ExponentOf, NatOf, IsDigit, Scale, Pow10;
    assert d.Power() == if |e| == 0 then 0 else ExponentOf(e);
  }

  lemma Scaled(d: Decimal)
    ensures Scale(d.Signed(), d.Power()) == if d.exponent == "" then d.Signed()
                                            else if '-' in d.exponent then d.Signed() / Pow10(d.power) as real
                                            else d.Signed() * Pow10(d.power) as real
  {
    assert Pow10(0) as real == 1.0;
    hide Pow10;
  }

  lemma WholeIsRead(d: Decimal, rest: string)
    requires rest == "" || !IsDigit(rest[0])
    ensures var w := d.Whole();
            && w != "" && IntLength(w + rest) == |w| && (w[0] == '-' <==> d.negative)
            && AllDigits(w[(if d.negative then 1 else 0)..])
            && NatOf(w[(if d.negative then 1 else 0)..]) == d.whole
  {
    var n, w := PrintNat(d.whole), d.Whole();
    NatOfPrintNat(d.whole);
    assert n[0] == '0' ==> |n| == 1;
    hide PrintNat, NatOf;
    assert d.negative ==> w[1..] == n;
    assert !d.negative ==> w == n && w[0..] == n;
    NumeralLength(n);
    IntLengthBefore(w, rest);
    hide IntLength;
  }

  lemma NumeralLength(n: string)
    requires n != "" && AllDigits(n) && (n[0] == '0' ==> |n| == 1)
    ensures IntLength(n) == |n| && IntLength("-" + n) == |n| + 1
  {
    AllDigitsRun(n);
    hide DigitRun;
    assert ("-" + n)[1..] == n;
    assert IsDigit(n[0]);
  }

  lemma FractionIsRead(d: Decimal, rest: string)
    requires d.Valid() && (rest == "" || rest[0] in "eE")
    ensures FractionLength(d.Fraction() + rest) == |d.Fraction()|
    ensures FractionOf(d.Fraction() + rest) == d.fraction as real / Pow10(d.places) as real
  {
    hide Pow10;
    if d.places > 0 {
      NatOfPadded(d.fraction, d.places);
      PointAndDigits(Padded(d.fraction, d.places), rest);
      hide Padded, FractionLength, FractionOf, NatOf;
      assert d.Fraction() + rest == "." + (Padded(d.fraction, d.places) + rest);
    } else {
      assert Pow10(0) == 1 by { OneZero(); }
      assert d.Fraction() + rest == rest;
    }
  }

  lemma PointAndDigits(digits: string, rest: string)
    requires digits != "" && AllDigits(digits) && (rest == "" || !IsDigit(rest[0]))
    ensures var s := "." + (digits + rest);
            FractionLength(s) == 1 + |digits| &&
            FractionOf(s) == NatOf(digits) as real / Pow10(|digits|) as real
  {
    var s := "." + (digits + rest);
    assert s[1..] == digits + rest;
    AllDigitsRun(digits);
    DigitRunAppend(digits, rest);
    assert (digits + rest)[..|digits|] == digits;
    hide DigitRun, NatOf, Pow10;
  }

  lemma ExponentIsRead(d: Decimal)
    requires d.Valid()
    ensures ExponentLength(d.Exponent()) == |d.Exponent()|
    ensures d.exponent != "" ==>
      ExponentOf(d.Exponent()) == if '-' in d.exponent then 0 - d.power else d.power
  {
    if d.exponent != "" {
      var digits, e := PrintNat(d.power), d.Exponent();
      NatOfPrintNat(d.power);
      AllDigitsRun(digits);
      assert IsDigit(digits[0]);
      assert e[|d.exponent|..] == digits && digits[..|digits|] == digits;
      assert d.exponent[0] in "eE";
      hide PrintNat, DigitRun, NatOf;
      assert |d.exponent| == 1 ==> e[1] == digits[0] && e[1 + 0..] == digits;
      assert |d.exponent| == 2 ==> e[1] == d.exponent[1] && e[1 + 1..] == digits;
    }
  }

  lemma NumberOfInt(s: string)
    requires IntLength(s) == |s|
    ensures NumberLength(s) == |s|
  {
    assert s[|s|..] == [];
  }

  lemma IntLengthPrinted(n: int)
    ensures IntLength(PrintInt(n)) == |PrintInt(n)| > 0
    ensures IntOf(PrintInt(n)) == n
  {
    var m := if n < 0 then -n else n;
    var s := PrintNat(m);
    NatOfPrintNat(m);
    assert s[0] == '0' ==> |s| == 1;
    NumeralLength(s);
    hide PrintNat, NatOf, IntLength;
    assert ("-" + s)[1..] == s && ("-" + s)[1..1 + |s|] == s && s[..|s|] == s;
  }

  lemma ParseInt(n: int, rest: string)
    requires Delimited(rest)
    ensures ParseNumber(PrintInt(n) + rest) == Success(Int(n), rest)
  {
    var s := PrintInt(n);
    var t := s + rest;
    IntLengthPrinted(n);
    NumberOfInt(s);
    NumberLengthAppend(s, rest);
    IntLengthAppend(s, rest);
    hide PrintInt, IntLength, NumberLength, NatOf;
    assert t[..|s|] == s && t[|s|..] == rest && s[..|s|] == s;
    assert t[1..|s|] == s[1..|s|];
  }

  // ---------------------------------------------------------------- values round trip

  predicate AllSpace(w: string) { forall i | 0 <= i < |w| :: w[i] in " \t\n\r" }

  lemma {:induction false} SpacesAreSpace(n: nat)
    ensures AllSpace(Spaces(n))
  {
    if n > 0 {
      SpacesAreSpace(n - 1);
    }
  }

  lemma LeadIsSpace(style: Style, depth: nat)
    ensures AllSpace(Lead(style, depth)) && AllSpace(Gap(style, depth))
  {
    SpacesAreSpace(2 * depth);
  }

  lemma {:induction false} SkipLead(w: string, s: string)
    requires AllSpace(w) && s != [] && s[0] !in " \t\n\r"
    ensures SkipSpace(w + s) == s
  {
    if w == [] {
      assert w + s == s;
    } else {
      assert (w + s)[1..] == w[1..] + s;
      SkipLead(w[1..], s);
    }
  }

  /** Printed values and lists of them start with a character that is neither a space nor punctuation between values. */
  predicate Starts(s: string) { s != [] && s[0] !in " \t\n\r]},:" }

  lemma PrintStarts(style: Style, depth: nat, v: Json)
    requires Printable(v)
    ensures Starts(Print(style, depth, v))
  {
    hide IntLength, NumberLength, PrintNat, Escape, PrintItems, PrintFields, Lead;
    match v
    case Float(token) => assert token[0] == '-' || IsDigit(token[0]);
    case _ =>
  }

  lemma StartsAppend(s: string, rest: string)
    requires Starts(s)
    ensures Starts(s + rest)
  {
  }

  lemma ParseScalar(style: Style, depth: nat, v: Json, rest: string)
    requires Printable(v) && Delimited(rest) && !v.Array? && !v.Object?
    ensures ParseValue(Print(style, depth, v) + rest) == Success(v, rest)
  {
    hide PrintString, ParseChars, Delimited, PrintInt, ParseNumber, IsFloatToken;
    match v
    case Null => WordPrefix("null", rest);
    case Bool(b) => WordPrefix(if b then "true" else "false", rest);
    case Int(n) =>
      IntLengthPrinted(n);
      ParseInt(n, rest);
      NumberStep(PrintInt(n), rest);
    case Float(token) =>
      ParseFloat(token, rest);
      FloatHasInt(token);
      NumberStep(token, rest);
    case String(text) =>
      ParsePrintedString(style, text, rest);
  }

  lemma FloatHasInt(token: string)
    requires IsFloatToken(token)
    ensures IntLength(token) > 0
  {
  }

  lemma WordPrefix(word: string, rest: string)
    ensures word <= word + rest && (word + rest)[|word|..] == rest
  {
  }

  lemma NumberStep(token: string, rest: string)
    requires IntLength(token) > 0
    ensures ParseValue(token + rest) == ParseNumber(token + rest)
  {
    hide IntLength, ParseNumber, ParseItems, ParseFields, ParseChars, ParseWord, SkipSpace;
    assert (token + rest)[0] == token[0];
    assert token[0] == '-' || IsDigit(token[0]);
  }

  lemma ArrayStep(lead: string, body: string, items: seq<Json>, rest: string)
    requires AllSpace(lead) && Starts(body) && ParseItems(body) == Success(items, rest)
    ensures ParseValue("[" + (lead + body)) == Success(Array(items), rest)
  {
    hide ParseItems;
    SkipLead(lead, body);
    assert ("[" + (lead + body))[1..] == lead + body;
  }

  lemma ObjectStep(lead: string, body: string, fields: seq<Field>, rest: string)
    requires AllSpace(lead) && Starts(body) && ParseFields(body) == Success(fields, rest)
    ensures ParseValue("{" + (lead + body)) == Success(Object(fields), rest)
  {
    hide ParseFields;
    SkipLead(lead, body);
    assert ("{" + (lead + body))[1..] == lead + body;
  }

  lemma LastItem(s: string, v: Json, lead: string, rest: string)
    requires AllSpace(lead) && ParseValue(s) == Success(v, lead + ("]" + rest))
    ensures ParseItems(s) == Success([v], rest)
  {
    hide ParseValue;
    SkipLead(lead, "]" + rest);
    assert ("]" + rest)[1..] == rest;
  }

  lemma NextItem(s: string, v: Json, gap: string, tail: string, items: seq<Json>, rest: string)
    requires AllSpace(gap) && ParseValue(s) == Success(v, "," + (gap + tail))
    requires Starts(tail) && ParseItems(tail) == Success(items, rest)
    ensures ParseItems(s) == Success([v] + items, rest)
  {
    hide ParseValue;
    CommaStep(gap, tail);
  }

  lemma CommaStep(gap: string, tail: string)
    requires AllSpace(gap) && Starts(tail)
    ensures var u := "," + (gap + tail);
            SkipSpace(u) == u && u[0] == ',' && SkipSpace(u[1..]) == tail
  {
    SkipLead(gap, tail);
    assert ("," + (gap + tail))[1..] == gap + tail;
  }

  /** The key, the colon, and the value behind it. */
  lemma KeyStep(style: Style, key: string, value: string)
    requires Starts(value)
    ensures var s := PrintString(style, key) + (": " + value);
            var t := ": " + value;
            && s != [] && s[0] == '"' && ParseChars(s[1..]) == Success(key, t)
            && SkipSpace(t) == t && t[0] == ':' && SkipSpace(t[1..]) == value
  {
    hide PrintString, ParseChars;
    ParsePrintedString(style, key, ": " + value);
    SkipLead(" ", value);
    assert (": " + value)[1..] == " " + value;
  }

  lemma LastField(style: Style, key: string, value: string, v: Json, lead: string, rest: string)
    requires AllSpace(lead) && Starts(value) && ParseValue(value) == Success(v, lead + ("}" + rest))
    ensures ParseFields(PrintString(style, key) + (": " + value)) == Success([Field(key, v)], rest)
  {
    hide ParseValue, ParseChars, PrintString, SkipSpace, Starts, AllSpace;
    KeyStep(style, key, value);
    SkipLead(lead, "}" + rest);
    assert ("}" + rest)[1..] == rest;
  }

  lemma NextField(
      style: Style, key: string, value: string, v: Json, gap: string, tail: string, fields: seq<Field>, rest: string)
    requires AllSpace(gap) && Starts(value) && ParseValue(value) == Success(v, "," + (gap + tail))
    requires Starts(tail) && ParseFields(tail) == Success(fields, rest)
    ensures ParseFields(PrintString(style, key) + (": " + value)) == Success([Field(key, v)] + fields, rest)
  {
    hide ParseValue, ParseChars, PrintString, SkipSpace, Starts, AllSpace;
    KeyStep(style, key, value);
    CommaStep(gap, tail);
  }

  lemma {:induction false} ParsePrinted(style: Style, depth: nat, v: Json, rest: string)
    requires Printable(v) && Delimited(rest)
    ensures ParseValue(Print(style, depth, v) + rest) == Success(v, rest)
    decreases v, 1
  {
    hide *;
    LeadIsSpace(style, depth + 1);
    if v == Array([]) || v == Object([]) {
      ParseEmpty(style, depth, rest);
    } else if v.Array? {
      PrintedArray(style, depth, v, rest);
      ParsePrintedItems(style, depth, v.items, rest);
      ArrayStep(Lead(style, depth + 1), PrintItems(style, depth, v.items) + rest, v.items, rest);
    } else if v.Object? {
      PrintedObject(style, depth, v, rest);
      ParsePrintedFields(style, depth, v.fields, rest);
      ObjectStep(Lead(style, depth + 1), PrintFields(style, depth, v.fields) + rest, v.fields, rest);
    } else {
      ParseScalar(style, depth, v, rest);
    }
  }

  lemma ParseEmpty(style: Style, depth: nat, rest: string)
    ensures ParseValue(Print(style, depth, Array([])) + rest) == Success(Array([]), rest)
    ensures ParseValue(Print(style, depth, Object([])) + rest) == Success(Object([]), rest)
  {
    assert ("[]" + rest)[1..] == "]" + rest && ("]" + rest)[1..] == rest;
    assert ("{}" + rest)[1..] == "}" + rest && ("}" + rest)[1..] == rest;
  }

  lemma PrintedArray(style: Style, depth: nat, v: Json, rest: string)
    requires Printable(v) && v.Array? && v.items != []
    ensures Print(style, depth, v) + rest == "[" + (Lead(style, depth + 1) + (PrintItems(style, depth, v.items) + rest))
    ensures forall i | 0 <= i < |v.items| :: Printable(v.items[i])
  {
    hide PrintItems, Lead;
    assert Print(style, depth, v) == "[" + (Lead(style, depth + 1) + PrintItems(style, depth, v.items));
  }

  lemma PrintedObject(style: Style, depth: nat, v: Json, rest: string)
    requires Printable(v) && v.Object? && v.fields != []
    ensures Print(style, depth, v) + rest ==
            "{" + (Lead(style, depth + 1) + (PrintFields(style, depth, v.fields) + rest))
    ensures forall i | 0 <= i < |v.fields| :: Printable(v.fields[i].value)
  {
    hide PrintFields, Lead;
    assert Print(style, depth, v) == "{" + (Lead(style, depth + 1) + PrintFields(style, depth, v.fields));
  }

  lemma PrintedItem(style: Style, depth: nat, v: Json, rest: string)
    ensures PrintItems(style, depth, [v]) + rest == Print(style, depth + 1, v) + (Lead(style, depth) + ("]" + rest))
  {
    hide Print, Lead;
    assert PrintItems(style, depth, [v]) == Print(style, depth + 1, v) + (Lead(style, depth) + "]");
  }

  lemma PrintedItems(style: Style, depth: nat, v: Json, items: seq<Json>, rest: string)
    requires items != []
    ensures PrintItems(style, depth, [v] + items) + rest ==
            Print(style, depth + 1, v) + ("," + (Gap(style, depth + 1) + (PrintItems(style, depth, items) + rest)))
  {
    hide Print, Gap;
    assert ([v] + items)[1..] == items;
    var tail := PrintItems(style, depth, items);
    assert PrintItems(style, depth, [v] + items) == Print(style, depth + 1, v) + ("," + (Gap(style, depth + 1) + tail));
  }

  lemma {:induction false} ParsePrintedItems(style: Style, depth: nat, items: seq<Json>, rest: string)
    requires items != [] && forall i | 0 <= i < |items| :: Printable(items[i])
    ensures ParseItems(PrintItems(style, depth, items) + rest) == Success(items, rest)
    ensures Starts(PrintItems(style, depth, items) + rest)
    decreases items, 0
  {
    hide *;
    var v, more := items[0], items[1..];
    assert items == [v] + more;
    if more == [] {
      assert items == [v];
      var after := Lead(style, depth) + ("]" + rest);
      PrintedItem(style, depth, v, rest);
      ClosingFollows(style, depth, "]", rest);
      ParseBefore(style, depth + 1, v, after);
      LastItem(Print(style, depth + 1, v) + after, v, Lead(style, depth), rest);
    } else {
      var tail := PrintItems(style, depth, more) + rest;
      var after := "," + (Gap(style, depth + 1) + tail);
      PrintedItems(style, depth, v, more, rest);
      ParsePrintedItems(style, depth, more, rest);
      CommaFollows(Gap(style, depth + 1) + tail);
      ParseBefore(style, depth + 1, v, after);
      LeadIsSpace(style, depth + 1);
      NextItem(Print(style, depth + 1, v) + after, v, Gap(style, depth + 1), tail, more, rest);
    }
  }

  lemma ClosingFollows(style: Style, depth: nat, bracket: string, rest: string)
    requires bracket == "]" || bracket == "}"
    ensures AllSpace(Lead(style, depth)) && Delimited(Lead(style, depth) + (bracket + rest))
  {
    LeadIsSpace(style, depth);
  }

  lemma CommaFollows(rest: string)
    ensures Delimited("," + rest)
  {
  }

  /** A printed value in front of a delimiter. */
  lemma {:induction false} ParseBefore(style: Style, depth: nat, v: Json, after: string)
    requires Printable(v) && Delimited(after)
    ensures ParseValue(Print(style, depth, v) + after) == Success(v, after)
    ensures Starts(Print(style, depth, v) + after)
    decreases v, 2
  {
    hide *;
    PrintStarts(style, depth, v);
    StartsAppend(Print(style, depth, v), after);
    ParsePrinted(style, depth, v, after);
  }

  lemma PrintedField(style: Style, depth: nat, f: Field, rest: string)
    ensures PrintFields(style, depth, [f]) + rest ==
            PrintString(style, f.key) +
              (": " + (Print(style, depth + 1, f.value) + (Lead(style, depth) + ("}" + rest))))
  {
    hide Print, PrintString, Lead;
    assert PrintFields(style, depth, [f]) ==
           PrintString(style, f.key) + (": " + (Print(style, depth + 1, f.value) + (Lead(style, depth) + "}")));
  }

  lemma PrintedFields(style: Style, depth: nat, f: Field, fields: seq<Field>, rest: string)
    requires fields != []
    ensures PrintFields(style, depth, [f] + fields) + rest ==
            PrintString(style, f.key) + (": " + (Print(style, depth + 1, f.value) +
              ("," + (Gap(style, depth + 1) + (PrintFields(style, depth, fields) + rest)))))
  {
    hide Print, PrintString, Gap;
    assert ([f] + fields)[1..] == fields;
    var tail := PrintFields(style, depth, fields);
    assert PrintFields(style, depth, [f] + fields) ==
           PrintString(style, f.key) +
             (": " + (Print(style, depth + 1, f.value) + ("," + (Gap(style, depth + 1) + tail))));
  }

  lemma QuotedStarts(style: Style, key: string, rest: string)
    ensures Starts(PrintString(style, key) + rest)
  {
    hide Escape;
  }

  lemma {:induction false} ParsePrintedFields(style: Style, depth: nat, fields: seq<Field>, rest: string)
    requires fields != [] && forall i | 0 <= i < |fields| :: Printable(fields[i].value)
    ensures ParseFields(PrintFields(style, depth, fields) + rest) == Success(fields, rest)
    ensures Starts(PrintFields(style, depth, fields) + rest)
    decreases fields, 0
  {
    hide *;
    var f, more := fields[0], fields[1..];
    assert fields == [f] + more;
    if more == [] {
      assert fields == [f];
      var after := Lead(style, depth) + ("}" + rest);
      var value := Print(style, depth + 1, f.value) + after;
      PrintedField(style, depth, f, rest);
      ClosingFollows(style, depth, "}", rest);
      ParseBefore(style, depth + 1, f.value, after);
      LastField(style, f.key, value, f.value, Lead(style, depth), rest);
      QuotedStarts(style, f.key, ": " + value);
    } else {
      var tail := PrintFields(style, depth, more) + rest;
      var after := "," + (Gap(style, depth + 1) + tail);
      var value := Print(style, depth + 1, f.value) + after;
      PrintedFields(style, depth, f, more, rest);
      ParsePrintedFields(style, depth, more, rest);
      CommaFollows(Gap(style, depth + 1) + tail);
      ParseBefore(style, depth + 1, f.value, after);
      LeadIsSpace(style, depth + 1);
      NextField(style, f.key, value, f.value, Gap(style, depth + 1), tail, more, rest);
      QuotedStarts(style, f.key, ": " + value);
    }
  }

  /** `json.loads` inverts `json.dumps`, in either style. */
  lemma LoadsDumps(style: Style, v: Json)
    requires Printable(v)
    ensures Loads(Dumps(style, v)) == Some(v)
  {
    hide Print, Printable, ParseValue;
    var s := Print(style, 0, v);
    PrintStarts(style, 0, v);
    ParsePrinted(style, 0, v, []);
    assert s + [] == s;
    SkipLead([], s);
    assert [] + s == s;
  }

  /** Nothing but space may stand behind a value: otherwise the text is refused. */
  lemma LoadsWhole(style: Style, v: Json, after: string)
    requires Printable(v) && Delimited(after)
    ensures Loads(Dumps(style, v) + after) == if SkipSpace(after) == [] then Some(v) else None
  {
    hide Print, Printable, ParseValue, Delimited;
    var s := Print(style, 0, v);
    PrintStarts(style, 0, v);
    ParsePrinted(style, 0, v, after);
    SkipLead([], s + after);
    assert [] + (s + after) == s + after;
  }

  // ---------------------------------------------------------------- which characters are printed

  /** On one line no control characters, so no raw line break; indented, only printable ASCII and line feeds. */
  predicate CharFits(style: Style, c: char) {
    if style.Compact? then c as int >= 0x20 else c == '\n' || 0x20 <= c as int <= 0x7E
  }

  predicate Fits(style: Style, s: string) { forall c | c in s :: CharFits(style, c) }

  predicate OneLine(s: string) { forall c | c in s :: c as int >= 0x20 }

  /** Printable ASCII, which fits either style. */
  predicate Plain(s: string) { forall c | c in s :: 0x20 <= c as int <= 0x7E }

  lemma {:induction false} EscapeFits(style: Style, s: string)
    ensures Fits(style, Escape(style, s))
  {
    hide EscapeChar;
    if s != [] {
      EscapeCharFits(style, s[0]);
      EscapeFits(style, s[1..]);
    }
  }

  lemma EscapeCharFits(style: Style, c: char)
    ensures Fits(style, EscapeChar(style, c))
  {
    hide Hex4, HighPart, LowPart;
    assert forall d | IsHexDigit(d) :: 0x20 <= d as int <= 0x7E;
  }

  lemma PlainAppend(a: string, b: string)
    requires Plain(a) && Plain(b)
    ensures Plain(a + b)
  {
  }

  lemma DigitsPlain(s: string)
    requires AllDigits(s)
    ensures Plain(s)
  {
  }

  lemma IntPartPlain(s: string)
    ensures Plain(s[..IntLength(s)])
  {
    var k := IntLength(s);
    if k > 0 && s[0] == '-' {
      DigitsPlain(s[1..k]);
      assert s[..k] == ['-'] + s[1..k];
    }
  }

  lemma FractionPlain(s: string)
    ensures Plain(s[..FractionLength(s)])
  {
    var k := FractionLength(s);
    if k > 0 {
      DigitsPlain(s[1..][..k - 1]);
      assert s[..k] == ['.'] + s[1..][..k - 1];
    }
  }

  lemma ExponentPlain(s: string)
    ensures Plain(s[..ExponentLength(s)])
  {
    var k := ExponentLength(s);
    if k > 0 {
      var sign := if |s| > 1 && s[1] in "+-" then 1 else 0;
      assert k == 1 + sign + DigitRun(s[1 + sign..]);
      hide DigitRun, ExponentLength;
      DigitsPlain(s[1 + sign..][..k - 1 - sign]);
      assert s[..k] == s[..1 + sign] + s[1 + sign..][..k - 1 - sign];
      assert Plain(s[..1 + sign]) by {
        assert s[0] in "eE";
        assert s[..1 + sign] == if sign == 0 then [s[0]] else [s[0], s[1]];
      }
      PlainAppend(s[..1 + sign], s[1 + sign..][..k - 1 - sign]);
    }
  }

  lemma FloatPlain(token: string)
    requires IsFloatToken(token)
    ensures Plain(token)
  {
    hide IntLength, FractionLength, ExponentLength, DigitRun, Plain;
    var i := IntLength(token);
    var f := FractionLength(token[i..]);
    var e := token[i + f..];
    IntPartPlain(token);
    FractionPlain(token[i..]);
    ExponentPlain(e);
    assert e[..ExponentLength(e)] == e;
    hide *;
    assert token == token[..i] + token[i..][..f] + e by {
      assert token[i..][f..] == e;
    }
    PlainAppend(token[..i], token[i..][..f]);
    PlainAppend(token[..i] + token[i..][..f], e);
  }

  lemma IntPlain(n: int)
    ensures Plain(PrintInt(n))
  {
    DigitsPlain(PrintNat(if n < 0 then -n else n));
  }

  lemma {:induction false} SpacesArePlain(n: nat)
    ensures Plain(Spaces(n))
  {
    if n > 0 {
      SpacesArePlain(n - 1);
    }
  }

  lemma LeadFits(style: Style, depth: nat)
    ensures Fits(style, Lead(style, depth)) && Fits(style, Gap(style, depth))
  {
    SpacesArePlain(2 * depth);
  }

  lemma {:induction false} PrintFits(style: Style, depth: nat, v: Json)
    requires Printable(v)
    ensures Fits(style, Print(style, depth, v))
    decreases v, 1
  {
    hide IsFloatToken, Escape, PrintInt, PrintItems, PrintFields, Lead;
    LeadFits(style, depth + 1);
    match v
    case Null =>
    case Bool(b) =>
    case Int(n) => IntPlain(n);
    case Float(token) => FloatPlain(token);
    case String(s) => EscapeFits(style, s);
    case Array(items) => if items != [] { PrintItemsFit(style, depth, items); }
    case Object(fields) => if fields != [] { PrintFieldsFit(style, depth, fields); }
  }

  lemma {:induction false} PrintItemsFit(style: Style, depth: nat, items: seq<Json>)
    requires items != [] && forall i | 0 <= i < |items| :: Printable(items[i])
    ensures Fits(style, PrintItems(style, depth, items))
    decreases items, 0
  {
    hide Printable, Print, Lead, Gap;
    PrintFits(style, depth + 1, items[0]);
    LeadFits(style, depth);
    LeadFits(style, depth + 1);
    if |items| > 1 {
      PrintItemsFit(style, depth, items[1..]);
    }
  }

  lemma {:induction false} PrintFieldsFit(style: Style, depth: nat, fields: seq<Field>)
    requires fields != [] && forall i | 0 <= i < |fields| :: Printable(fields[i].value)
    ensures Fits(style, PrintFields(style, depth, fields))
    decreases fields, 0
  {
    hide Printable, Print, Escape, Lead, Gap;
    EscapeFits(style, fields[0].key);
    PrintFits(style, depth + 1, fields[0].value);
    LeadFits(style, depth);
    LeadFits(style, depth + 1);
    if |fields| > 1 {
      PrintFieldsFit(style, depth, fields[1..]);
    }
  }

  /** A value dumped on one line has no control characters. */
  lemma PrintOneLine(v: Json)
    requires Printable(v)
    ensures OneLine(Dumps(Compact, v))
  {
    hide Print;
    PrintFits(Compact, 0, v);
  }

  /** A value dumped with indentation is ASCII. */
  lemma IndentedIsAscii(v: Json)
    requires Printable(v)
    ensures forall c | c in Dumps(Indented, v) :: c == '\n' || ' ' <= c <= '~'
  {
    hide Print;
    PrintFits(Indented, 0, v);
  }

  /** On one line, text that needs no escape stays as it is, whatever its characters. */
  lemma {:induction false} TextStays(s: string)
    requires forall c | c in s :: c as int >= 0x20 && c != '"' && c != '\\'
    ensures Escape(Compact, s) == s && PrintString(Compact, s) == "\"" + s + "\""
  {
    hide EscapeChar;
    if s != [] {
      assert s == [s[0]] + s[1..];
      assert s[0] in s && forall c | c in s[1..] :: c in s;
      CharStays(s[0]);
      TextStays(s[1..]);
    }
    assert Escape(Compact, s) == s;
    hide Escape;
    assert "\"" + (s + "\"") == "\"" + s + "\"";
  }

  /** The characters with a short escape. */
  lemma ShortEscapes(style: Style)
    ensures EscapeChar(style, '"') == "\\\"" && EscapeChar(style, '\\') == "\\\\"
    ensures EscapeChar(style, '\n') == "\\n" && EscapeChar(style, '\r') == "\\r" && EscapeChar(style, '\t') == "\\t"
    ensures EscapeChar(style, 8 as char) == "\\b" && EscapeChar(style, 12 as char) == "\\f"
  {
    hide UnicodeEscape;
  }

  /** Other control characters, and beyond ASCII in one unit or in two. */
  lemma LongEscapes(style: Style)
    ensures EscapeChar(style, 0x1F as char) == "\\u001f"
    ensures EscapeChar(Indented, 0xE9 as char) == "\\u00e9"
    ensures EscapeChar(Indented, 0x1_F600 as char) == "\\ud83d\\ude00"
  {
    assert Hex4(0x1F) == "001f" && Hex4(0xE9) == "00e9" by { HexOfSmall(); }
    assert Hex4(0xD83D) == "d83d" && Hex4(0xDE00) == "de00" by { HexOfPair(); }
    hide Hex4;
    assert HighPart(0x1_F600) == 0xD83D && LowPart(0x1_F600) == 0xDE00;
  }

  lemma HexOfSmall()
    ensures Hex4(0x1F) == "001f" && Hex4(0xE9) == "00e9"
  {
  }

  lemma HexOfPair()
    ensures Hex4(0xD83D) == "d83d" && Hex4(0xDE00) == "de00"
  {
  }

  lemma CharStays(c: char)
    requires c as int >= 0x20 && c != '"' && c != '\\'
    ensures EscapeChar(Compact, c) == [c]
  {
  }

  /** The two layouts of one value. */
  lemma LayoutExample()
    ensures var v := Object([Field("a", Array([Int(1), Null]))]);
            && Dumps(Compact, v) == "{\"a\": [1, null]}"
            && Dumps(Indented, v) == "{\n  \"a\": [\n    1,\n    null\n  ]\n}"
  {
    hide Print, Lead, Gap, PrintString;
    Leads();
    LetterPrinted(Compact);
    LetterPrinted(Indented);
    LayoutOfArray(Compact);
    LayoutOfArray(Indented);
    LayoutOfObject(Compact, "a", Array([Int(1), Null]));
    LayoutOfObject(Indented, "a", Array([Int(1), Null]));
  }

  lemma LetterPrinted(style: Style)
    ensures PrintString(style, "a") == "\"a\""
  {
    assert "a"[1..] == "";
    assert Escape(style, "a") == "a";
  }

  lemma Leads()
    ensures forall d: nat :: Lead(Compact, d) == "" && Gap(Compact, d) == " "
    ensures Lead(Indented, 0) == "\n" && Lead(Indented, 1) == "\n  " && Lead(Indented, 2) == "\n    "
    ensures Gap(Indented, 2) == "\n    "
  {
    SpacesOf();
    hide Spaces;
  }

  lemma SpacesOf()
    ensures Spaces(0) == "" && Spaces(2) == "  " && Spaces(4) == "    "
  {
  }

  lemma LayoutOfArray(style: Style)
    ensures Print(style, 1, Array([Int(1), Null])) ==
            "[" + Lead(style, 2) + "1," + Gap(style, 2) + "null" + Lead(style, 1) + "]"
  {
    var two, last := [Int(1), Null], [Null];
    assert two[1..] == last;
    hide Lead, Gap, Print;
    PrintedAtoms(style);
    assert PrintItems(style, 1, last) == "null" + (Lead(style, 1) + "]");
    assert PrintItems(style, 1, two) == "1" + ("," + (Gap(style, 2) + PrintItems(style, 1, last)));
    ArrayText(style, two);
  }

  lemma PrintedAtoms(style: Style)
    ensures Print(style, 2, Int(1)) == "1" && Print(style, 2, Null) == "null"
  {
  }

  lemma ArrayText(style: Style, items: seq<Json>)
    requires items != []
    ensures Print(style, 1, Array(items)) == "[" + (Lead(style, 2) + PrintItems(style, 1, items))
  {
    hide Lead, PrintItems;
  }

  lemma LayoutOfObject(style: Style, key: string, v: Json)
    ensures Print(style, 0, Object([Field(key, v)])) ==
            "{" + Lead(style, 1) + PrintString(style, key) + ": " + Print(style, 1, v) + Lead(style, 0) + "}"
  {
    hide Lead, PrintString;
    var fields := [Field(key, v)];
    assert PrintFields(style, 0, fields) ==
           PrintString(style, key) + (": " + (Print(style, 1, v) + (Lead(style, 0) + "}")));
  }
}
