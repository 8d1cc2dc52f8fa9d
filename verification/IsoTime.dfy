/**
 Timestamps as the HAR text writes them: microseconds since 0001-01-01T00:00:00Z in the proleptic
 Gregorian calendar, and the form `isoformat()` gives them in UTC, with `Z` for the offset.
 */
module IsoTime {
  import opened Basics
  import opened Numerals

  const MICROS_PER_DAY := 86_400_000_000
  const DAY_LIMIT := 3652059 // 9999-12-31 is the last day

  type Timestamp = t: int | 0 <= t < DAY_LIMIT * MICROS_PER_DAY

  predicate IsLeap(y: int) { y % 4 == 0 && (y % 100 != 0 || y % 400 == 0) }

  function DaysInYear(y: int): int { if IsLeap(y) then 366 else 365 }

  function DaysInMonth(y: int, m: int): int {
    if m == 2 then if IsLeap(y) then 29 else 28
    else if m == 4 || m == 6 || m == 9 || m == 11 then 30
    else 31
  }

  /** Days from 0001-01-01 to the first of January. */
  function DaysBeforeYear(y: int): int { (y - 1) * 365 + (y - 1) / 4 - (y - 1) / 100 + (y - 1) / 400 }

  lemma NextYear(y: int)
    ensures DaysBeforeYear(y + 1) == DaysBeforeYear(y) + DaysInYear(y)
  {
    assert y / 4 - (y - 1) / 4 == if y % 4 == 0 then 1 else 0;
    assert y / 100 - (y - 1) / 100 == if y % 100 == 0 then 1 else 0;
    assert y / 400 - (y - 1) / 400 == if y % 400 == 0 then 1 else 0;
    assert y % 100 == 0 ==> y % 4 == 0;
    assert y % 400 == 0 ==> y % 100 == 0;
  }

  function DaysBeforeMonth(y: int, m: nat): (d: nat)
    ensures d <= 31 * m
  {
    if m <= 1 then 0 else DaysBeforeMonth(y, m - 1) + DaysInMonth(y, m - 1)
  }

  lemma MonthsMakeYear(y: int)
    ensures DaysBeforeMonth(y, 13) == DaysInYear(y)
  {
    forall m: nat | 1 <= m ensures DaysBeforeMonth(y, m + 1) == DaysBeforeMonth(y, m) + DaysInMonth(y, m) {
    }
    var leap := if IsLeap(y) then 1 else 0;
    assert DaysBeforeMonth(y, 2 + 1) == 59 + leap;
    assert DaysBeforeMonth(y, 3 + 1) == 90 + leap;
    assert DaysBeforeMonth(y, 5 + 1) == 151 + leap;
    assert DaysBeforeMonth(y, 7 + 1) == 212 + leap;
    assert DaysBeforeMonth(y, 9 + 1) == 273 + leap;
    assert DaysBeforeMonth(y, 11 + 1) == 334 + leap;
  }

  /** The year of a day, searched from a year not after it. */
  function YearOf(day: int, from: int): (y: int)
    requires DaysBeforeYear(from) <= day
    ensures y >= from && DaysBeforeYear(y) <= day < DaysBeforeYear(y + 1)
    decreases day - DaysBeforeYear(from)
  {
    NextYear(from);
    if day < DaysBeforeYear(from + 1) then from else YearOf(day, from + 1)
  }

  /** The month of a day of the year (counted from 0), searched from a month not after it. */
  function MonthOf(dayOfYear: int, y: int, from: nat): (m: nat)
    requires 1 <= from <= 12 && DaysBeforeMonth(y, from) <= dayOfYear < DaysInYear(y)
    ensures from <= m <= 12 && DaysBeforeMonth(y, m) <= dayOfYear < DaysBeforeMonth(y, m) + DaysInMonth(y, m)
    decreases 12 - from
  {
    MonthsMakeYear(y);
    if dayOfYear < DaysBeforeMonth(y, from + 1) then from else MonthOf(dayOfYear, y, from + 1)
  }

  datatype Fields = Fields(year: nat, month: nat, day: nat, hour: nat, minute: nat, second: nat, micro: nat) {
    predicate Valid() {
      && 1 <= year <= 9999 && 1 <= month <= 12 && 1 <= day <= DaysInMonth(year, month)
      && hour < 24 && minute < 60 && second < 60 && micro < 1_000_000
    }
  }

  function Micros(f: Fields): int {
    var days := DaysBeforeYear(f.year) + DaysBeforeMonth(f.year, f.month) + f.day as int - 1;
    ((days * 24 + f.hour) * 60 + f.minute) * 60_000_000
    + f.second * 1_000_000 + f.micro
  }

  function DateOf(day: int): (ymd: (nat, nat, nat))
    requires 0 <= day < DAY_LIMIT
    ensures 1 <= ymd.0 <= 9999 && 1 <= ymd.1 <= 12 && 1 <= ymd.2 <= DaysInMonth(ymd.0, ymd.1)
    ensures DaysBeforeYear(ymd.0) + DaysBeforeMonth(ymd.0, ymd.1) + ymd.2 - 1 == day
  {
    var y := YearOf(day, 1);
    assert y <= 9999 by {
      if y >= 10000 {
        FiveDigitYear(y);
      }
    }
    NextYear(y);
    var m := MonthOf(day - DaysBeforeYear(y), y, 1);
    (y, m, day - DaysBeforeYear(y) - DaysBeforeMonth(y, m) + 1)
  }

  lemma FiveDigitYear(y: int)
    requires y >= 10000
    ensures DaysBeforeYear(y) >= DAY_LIMIT
  {
    assert (y - 1) / 4 - (y - 1) / 100 >= 0;
    assert (y - 1) / 400 >= 24;
    assert (y - 1) / 4 - (y - 1) / 100 + (y - 1) / 400 >= 2424;
  }

  function FieldsOf(t: Timestamp): (f: Fields)
    ensures f.Valid()
  {
    var (y, m, d) := DateOf(t / MICROS_PER_DAY);
    var r := t % MICROS_PER_DAY;
    Fields(y, m, d, r / 3_600_000_000, r / 60_000_000 % 60, r / 1_000_000 % 60, r % 1_000_000)
  }

  lemma MicrosOfFields(t: Timestamp)
    ensures Micros(FieldsOf(t)) == t
  {
    var r := t % MICROS_PER_DAY;
    assert r / 1_000_000 == r / 60_000_000 * 60 + r / 1_000_000 % 60;
    assert r / 60_000_000 == r / 3_600_000_000 * 60 + r / 60_000_000 % 60;
  }

  // ---------------------------------------------------------------- text

  function Two(n: nat): (s: string)
    requires n < 100
    ensures |s| == 2 && AllDigits(s)
  {
    assert Pow10(2) == 100;
    Padded(n, 2)
  }

  function Four(n: nat): (s: string)
    requires n < 10000
    ensures |s| == 4 && AllDigits(s)
  {
    assert Pow10(2) == 100 && Pow10(4) == 10000;
    Padded(n, 4)
  }

  function Six(n: nat): (s: string)
    requires n < 1_000_000
    ensures |s| == 6 && AllDigits(s)
  {
    assert Pow10(2) == 100 && Pow10(4) == 10000 && Pow10(6) == 1_000_000;
    Padded(n, 6)
  }

  function FormatDate(f: Fields): (s: string)
    requires f.Valid()
    ensures |s| == 10
  {
    Four(f.year) + "-" + Two(f.month) + "-" + Two(f.day)
  }

  function FormatTime(f: Fields): (s: string)
    requires f.Valid()
    ensures |s| == 8
  {
    Two(f.hour) + ":" + Two(f.minute) + ":" + Two(f.second)
  }

  function FormatFraction(f: Fields): string
    requires f.Valid()
  {
    if f.micro == 0 then "" else "." + Six(f.micro)
  }

  /** `isoformat()` in UTC, with the offset written `Z`. */
  function ToIso(t: Timestamp): string {
    var f := FieldsOf(t);
    FormatDate(f) + "T" + FormatTime(f) + FormatFraction(f) + "Z"
  }

  predicate DateShaped(s: string) {
    |s| == 10 && AllDigits(s[..4]) && s[4] == '-' && AllDigits(s[5..7]) && s[7] == '-' && AllDigits(s[8..])
  }

  predicate TimeShaped(s: string) {
    |s| == 8 && AllDigits(s[..2]) && s[2] == ':' && AllDigits(s[3..5]) && s[5] == ':' && AllDigits(s[6..])
  }

  predicate FractionShaped(s: string) { s == [] || (|s| == 7 && s[0] == '.' && AllDigits(s[1..])) }

  function FieldsFrom(date: string, time: string, fraction: string): Fields
    requires DateShaped(date) && TimeShaped(time) && FractionShaped(fraction)
  {
    Fields(NatOf(date[..4]), NatOf(date[5..7]), NatOf(date[8..]),
           NatOf(time[..2]), NatOf(time[3..5]), NatOf(time[6..]),
           if fraction == [] then 0 else NatOf(fraction[1..]))
  }

  /** `fromisoformat` on the forms `ToIso` writes; the offset may also read `+00:00`. */
  function FromIso(s: string): Option<int> {
    if |s| >= 1 && s[|s| - 1] == 'Z' then FromLocal(s[..|s| - 1])
    else if |s| >= 6 && s[|s| - 6..] == "+00:00" then FromLocal(s[..|s| - 6])
    else None
  }

  function FromLocal(s: string): Option<int> {
    if |s| < 19 || !DateShaped(s[..10]) || s[10] != 'T' || !TimeShaped(s[11..19]) || !FractionShaped(s[19..]) then None
    else
      var f := FieldsFrom(s[..10], s[11..19], s[19..]);
      if f.Valid() then Some(Micros(f)) else None
  }

  lemma TwoIsRead(n: nat)
    requires n < 100
    ensures NatOf(Two(n)) == n
  {
    assert Pow10(2) == 100;
    NatOfPadded(n, 2);
  }

  lemma DateIsRead(f: Fields)
    requires f.Valid()
    ensures var s := FormatDate(f);
            DateShaped(s) && NatOf(s[..4]) == f.year && NatOf(s[5..7]) == f.month && NatOf(s[8..]) == f.day
  {
    var s := FormatDate(f);
    assert Pow10(2) == 100 && Pow10(4) == 10000;
    NatOfPadded(f.year, 4);
    TwoIsRead(f.month);
    TwoIsRead(f.day);
    hide Padded, NatOf, Pow10;
    assert s[..4] == Four(f.year) && s[5..7] == Two(f.month) && s[8..] == Two(f.day);
  }

  lemma TimeIsRead(f: Fields)
    requires f.Valid()
    ensures var s := FormatTime(f);
            TimeShaped(s) && NatOf(s[..2]) == f.hour && NatOf(s[3..5]) == f.minute && NatOf(s[6..]) == f.second
  {
    var s := FormatTime(f);
    TwoIsRead(f.hour);
    TwoIsRead(f.minute);
    TwoIsRead(f.second);
    hide Padded, NatOf, Pow10;
    assert s[..2] == Two(f.hour) && s[3..5] == Two(f.minute) && s[6..] == Two(f.second);
  }

  lemma FractionIsRead(f: Fields)
    requires f.Valid()
    ensures var s := FormatFraction(f);
            FractionShaped(s) && (if s == [] then f.micro == 0 else NatOf(s[1..]) == f.micro)
  {
    assert Pow10(2) == 100 && Pow10(4) == 10000 && Pow10(6) == 1_000_000;
    NatOfPadded(f.micro, 6);
    assert ("." + Six(f.micro))[1..] == Six(f.micro);
    hide Padded, NatOf, Pow10;
  }

  lemma LocalParts(date: string, time: string, fraction: string)
    requires |date| == 10 && |time| == 8
    ensures var s := date + "T" + time + fraction;
            s[..10] == date && s[10] == 'T' && s[11..19] == time && s[19..] == fraction
  {
  }

  /** Reading a timestamp back gives the same instant, to the microsecond. */
  lemma FromIsoToIso(t: Timestamp)
    ensures FromIso(ToIso(t)) == Some(t)
  {
    var f, s := FieldsOf(t), ToIso(t);
    MicrosOfFields(t);
    DateIsRead(f);
    TimeIsRead(f);
    FractionIsRead(f);
    var date, time, fraction := FormatDate(f), FormatTime(f), FormatFraction(f);
    assert FieldsFrom(date, time, fraction) == f;
    var body := date + "T" + time + fraction;
    assert s == body + "Z";
    hide FieldsOf, ToIso, FormatDate, FormatTime, FormatFraction;
    hide DateShaped, TimeShaped, FractionShaped, FieldsFrom, Micros;
    assert s[..|s| - 1] == body && s[|s| - 1] == 'Z';
    LocalParts(date, time, fraction);
  }

  /** The written form: date, `T`, time, six more digits unless they are zero, and `Z`. */
  lemma IsoForm(t: Timestamp)
    ensures var s := ToIso(t);
            && |s| == (if t % 1_000_000 == 0 then 20 else 27) && s[|s| - 1] == 'Z'
            && s[4] == s[7] == '-' && s[10] == 'T' && s[13] == s[16] == ':'
            && (|s| == 27 ==> s[19] == '.')
            && forall k | 0 <= k < |s| - 1 && k !in {4, 7, 10, 13, 16, 19} :: IsDigit(s[k])
  {
    var f, s := FieldsOf(t), ToIso(t);
    assert f.micro == t % 1_000_000 by { MicroOf(t); }
    hide FieldsOf, Padded;
    assert s == FormatDate(f) + "T" + FormatTime(f) + FormatFraction(f) + "Z";
  }

  lemma MicroOf(t: Timestamp)
    ensures FieldsOf(t).micro == t % 1_000_000
  {
    hide DateOf;
    var days, r := t / MICROS_PER_DAY, t % MICROS_PER_DAY;
    var m := r % 1_000_000;
    var whole := days * 86_400 + r / 1_000_000;
    assert t == whole * 1_000_000 + m && 0 <= m < 1_000_000;
  }
}
