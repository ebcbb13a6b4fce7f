/** JavaScript `Date` values and the ISO-8601 text that snapshots and the
    structured log store them as: `Date.prototype.toISOString` (the proleptic
    Gregorian calendar in UTC, `YYYY-MM-DDTHH:mm:ss.sssZ`, with a signed
    six-digit year outside 0000-9999) and `new Date(text)` reading such text
    back. */
module IsoTime {
  import opened Common

  /** A JavaScript Date: a time value in milliseconds since
      1970-01-01T00:00:00Z, or the Invalid Date (time value NaN). */
  datatype DateValue = At(ms: int) | InvalidDate

  /** ECMAScript time values stay within 8.64e15 ms of the epoch. */
  const MaxTime: int := 8640000000000000

  predicate InRange(t: int) { -MaxTime <= t <= MaxTime }

  /** Calendar fields of a time value, as `toISOString` prints them. */
  datatype Fields = Fields(year: int, month: int, day: int,
                           hour: int, minute: int, second: int, milli: int)

  // ---------------------------------------------------------------- calendar

  predicate IsLeap(y: int) { y % 4 == 0 && (y % 100 != 0 || y % 400 == 0) }

  function DaysInYear(y: int): int { if IsLeap(y) then 366 else 365 }

  /** Days from 1 January 1970 to 1 January of year `y` (negative before 1970). */
  function DaysFromEpoch(y: int): int
    decreases if y < 1970 then 1970 - y else y - 1970
  {
    if y == 1970 then 0
    else if y > 1970 then DaysFromEpoch(y - 1) + DaysInYear(y - 1)
    else DaysFromEpoch(y + 1) - DaysInYear(y)
  }

  lemma EpochStep(y: int)
    ensures DaysFromEpoch(y + 1) == DaysFromEpoch(y) + DaysInYear(y)
  {
  }

  lemma {:induction false} EpochAfter(y: int)
    requires y >= 1970
    ensures DaysFromEpoch(y) >= 365 * (y - 1970)
    decreases y - 1970
  {
    if y > 1970 { EpochAfter(y - 1); }
  }

  lemma {:induction false} EpochBefore(y: int)
    requires y <= 1970
    ensures DaysFromEpoch(y) <= 365 * (y - 1970)
    decreases 1970 - y
  {
    if y < 1970 { EpochBefore(y + 1); }
  }

  /** The year holding day `d` counted from 1 January of year `y`, and the
      index of that day within its year. */
  function YearFrom(d: int, y: int): (r: (int, int))
    requires d >= 0
    ensures y <= r.0 && 0 <= r.1 < DaysInYear(r.0)
    ensures DaysFromEpoch(r.0) + r.1 == DaysFromEpoch(y) + d
    decreases d
  {
    if d < DaysInYear(y) then (y, d)
    else EpochStep(y); YearFrom(d - DaysInYear(y), y + 1)
  }

  /** As YearFrom, for a day `-d` days before 1 January of year `y`. */
  function YearBefore(d: int, y: int): (r: (int, int))
    requires d < 0
    ensures r.0 < y && 0 <= r.1 < DaysInYear(r.0)
    ensures DaysFromEpoch(r.0) + r.1 == DaysFromEpoch(y) + d
    decreases -d
  {
    EpochStep(y - 1);
    var e := d + DaysInYear(y - 1);
    if e >= 0 then (y - 1, e) else YearBefore(e, y - 1)
  }

  /** Year and day-of-year of day number `day` since the epoch. */
  function YearOf(day: int): (r: (int, int))
    ensures 0 <= r.1 < DaysInYear(r.0)
    ensures DaysFromEpoch(r.0) + r.1 == day
  {
    if day >= 0 then YearFrom(day, 1970) else YearBefore(day, 1970)
  }

  /** Every day of the ECMAScript time range falls in a year of at most six digits. */
  lemma YearOfBounded(day: int)
    requires -100000000 <= day <= 100000000
    ensures -999999 <= YearOf(day).0 <= 999999
  {
    var y := YearOf(day).0;
    if y >= 1970 {
      EpochAfter(y);
    } else {
      EpochStep(y);
      EpochBefore(y + 1);
    }
  }

  /** Days of year `y` before the first day of month `m` (1-based; 13 is the year's end). */
  function DaysBeforeMonth(y: int, m: int): int
    requires 1 <= m <= 13
  {
    var common :=
      if m == 1 then 0 else if m == 2 then 31 else if m == 3 then 59
      else if m == 4 then 90 else if m == 5 then 120 else if m == 6 then 151
      else if m == 7 then 181 else if m == 8 then 212 else if m == 9 then 243
      else if m == 10 then 273 else if m == 11 then 304 else if m == 12 then 334
      else 365;
    if m > 2 && IsLeap(y) then common + 1 else common
  }

  function DaysInMonth(y: int, m: int): int
    requires 1 <= m <= 12
  {
    DaysBeforeMonth(y, m + 1) - DaysBeforeMonth(y, m)
  }

  /** The month (from `m` on) holding day-of-year `r`. */
  function MonthFrom(y: int, r: int, m: int): (mo: int)
    requires 1 <= m <= 12 && DaysBeforeMonth(y, m) <= r < DaysInYear(y)
    ensures m <= mo <= 12
    ensures DaysBeforeMonth(y, mo) <= r < DaysBeforeMonth(y, mo + 1)
    decreases 12 - m
  {
    if r < DaysBeforeMonth(y, m + 1) then m else MonthFrom(y, r, m + 1)
  }

  /** The UTC calendar fields of time value `t`. */
  function FieldsOf(t: int): Fields
  {
    var day := t / 86400000;
    var inDay := t % 86400000;
    var yr := YearOf(day);
    var mo := MonthFrom(yr.0, yr.1, 1);
    var secs := inDay / 1000;
    var mins := secs / 60;
    Fields(yr.0, mo, yr.1 - DaysBeforeMonth(yr.0, mo) + 1,
           mins / 60, mins % 60, secs % 60, inDay % 1000)
  }

  /** The time value that calendar fields denote. */
  function TimeOf(f: Fields): int
    requires 1 <= f.month <= 12
  {
    (DaysFromEpoch(f.year) + DaysBeforeMonth(f.year, f.month) + f.day - 1) * 86400000
      + ((f.hour * 60 + f.minute) * 60 + f.second) * 1000 + f.milli
  }

  predicate FieldsValid(f: Fields)
  {
    && 1 <= f.month <= 12 && 1 <= f.day <= DaysInMonth(f.year, f.month)
    && 0 <= f.hour < 24 && 0 <= f.minute < 60 && 0 <= f.second < 60
    && 0 <= f.milli < 1000
  }

  /** FieldsOf yields valid fields that denote the time value they came from. */
  lemma FieldsOfCorrect(t: int)
    ensures FieldsValid(FieldsOf(t))
    ensures TimeOf(FieldsOf(t)) == t
  {
    var day := t / 86400000;
    var inDay := t % 86400000;
    assert t == day * 86400000 + inDay;
    var secs := inDay / 1000;
    var mins := secs / 60;
    assert inDay == secs * 1000 + inDay % 1000;
    assert secs == mins * 60 + secs % 60;
    assert mins == (mins / 60) * 60 + mins % 60;
    assert mins < 1440;
  }

  // ------------------------------------------------------------------ digits

  function Pow10(w: nat): nat { if w == 0 then 1 else 10 * Pow10(w - 1) }

  /** The last `w` decimal digits of `n`, zero-padded. */
  function Pad(n: nat, w: nat): (s: string)
    ensures |s| == w && AllDigits(s)
  {
    if w == 0 then [] else Pad(n / 10, w - 1) + [('0' as int + n % 10) as char]
  }

  lemma {:induction false} PadValue(n: nat, w: nat)
    requires n < Pow10(w)
    ensures DigitsValue(Pad(n, w)) == n
  {
    if w > 0 {
      var p := Pad(n, w);
      assert p[..w - 1] == Pad(n / 10, w - 1);
      PadValue(n / 10, w - 1);
    }
  }

  // ------------------------------------------------------------------ format

  function YearText(y: int): string
  {
    if 0 <= y <= 9999 then Pad(y, 4)
    else if y < 0 then ['-'] + Pad(-y, 6)
    else ['+'] + Pad(y, 6)
  }

  /** The text after the year, from its six fields: `-MM-DDTHH:mm:ss.sssZ`. */
  function Layout(mo: string, dd: string, hh: string, mi: string, ss: string, ms: string): string
  {
    "-" + mo + "-" + dd + "T" + hh + ":" + mi + ":" + ss + "." + ms + "Z"
  }

  /** Everything after the year, 20 characters. */
  function TailText(f: Fields): string
    requires f.month >= 0 && f.day >= 0 && f.hour >= 0 && f.minute >= 0
    requires f.second >= 0 && f.milli >= 0
  {
    Layout(Pad(f.month, 2), Pad(f.day, 2), Pad(f.hour, 2), Pad(f.minute, 2),
           Pad(f.second, 2), Pad(f.milli, 3))
  }

  /** `new Date(t).toISOString()` for a time value in range. */
  function Format(t: int): (r: string)
    ensures |r| == 24 || |r| == 27
    ensures r[|r| - 1] == 'Z'
  {
    var f := FieldsOf(t);
    FieldsOfCorrect(t);
    YearText(f.year) + TailText(f)
  }

  // ------------------------------------------------------------------- parse

  /** The calendar fields of the date-time part after the year, if every
      separator and digit is where `toISOString` puts it. */
  function ReadFields(y: int, s: string): Option<Fields>
    requires |s| == 20
  {
    if && s[0] == '-' && s[3] == '-' && s[6] == 'T' && s[9] == ':' && s[12] == ':'
       && s[15] == '.' && s[19] == 'Z'
       && AllDigits(s[1..3]) && AllDigits(s[4..6]) && AllDigits(s[7..9])
       && AllDigits(s[10..12]) && AllDigits(s[13..15]) && AllDigits(s[16..19])
    then
      Some(Fields(y, DigitsValue(s[1..3]), DigitsValue(s[4..6]), DigitsValue(s[7..9]),
                  DigitsValue(s[10..12]), DigitsValue(s[13..15]), DigitsValue(s[16..19])))
    else None
  }

  /** The date-time part after the year, if well formed. */
  function ParseTail(y: int, s: string): DateValue
    requires |s| == 20
  {
    match ReadFields(y, s)
    case Some(f) => if FieldsValid(f) && InRange(TimeOf(f)) then At(TimeOf(f)) else InvalidDate
    case None => InvalidDate
  }

  /** The year in front of the date-time part: four digits, or a sign and
      six digits ("-000000" is refused). */
  function ReadYear(s: string): (r: Option<int>)
    ensures r.Some? ==> |s| == 24 || |s| == 27
  {
    if |s| == 24 && AllDigits(s[..4]) then Some(DigitsValue(s[..4]))
    else if |s| == 27 && (s[0] == '+' || s[0] == '-') && AllDigits(s[1..7])
            && !(s[0] == '-' && DigitsValue(s[1..7]) == 0)
    then
      var v: int := DigitsValue(s[1..7]);
      Some(if s[0] == '-' then -v else v)
    else None
  }

  /** `new Date(text)` on the ISO-8601 form `toISOString` writes; any other
      text is the Invalid Date here. */
  function Parse(s: string): (r: DateValue)
    ensures |s| != 24 && |s| != 27 ==> r == InvalidDate
    ensures r.At? ==> InRange(r.ms)
  {
    match ReadYear(s)
    case Some(y) => ParseTail(y, s[|s| - 20..])
    case None => InvalidDate
  }

  /** Where each field sits in the text after the year. */
  lemma LayoutSlices(mo: string, dd: string, hh: string, mi: string, ss: string, ms: string)
    requires |mo| == 2 && |dd| == 2 && |hh| == 2 && |mi| == 2 && |ss| == 2 && |ms| == 3
    ensures var s := Layout(mo, dd, hh, mi, ss, ms);
      && |s| == 20 && s[0] == '-' && s[3] == '-' && s[6] == 'T' && s[9] == ':' && s[12] == ':'
      && s[15] == '.' && s[19] == 'Z'
      && s[1..3] == mo && s[4..6] == dd && s[7..9] == hh
      && s[10..12] == mi && s[13..15] == ss && s[16..19] == ms
  {
    var s := Layout(mo, dd, hh, mi, ss, ms);
    assert s[1..3] == mo;
    assert s[4..6] == dd;
    assert s[7..9] == hh;
    assert s[10..12] == mi;
    assert s[13..15] == ss;
    assert s[16..19] == ms;
  }

  lemma {:induction false} ReadFieldsText(f: Fields)
    requires 0 <= f.month < 100 && 0 <= f.day < 100 && 0 <= f.hour < 100
    requires 0 <= f.minute < 100 && 0 <= f.second < 100 && 0 <= f.milli < 1000
    ensures ReadFields(f.year, TailText(f)) == Some(f)
  {
    var s := TailText(f);
    LayoutSlices(Pad(f.month, 2), Pad(f.day, 2), Pad(f.hour, 2), Pad(f.minute, 2),
                 Pad(f.second, 2), Pad(f.milli, 3));
    PadValue(f.month, 2);
    PadValue(f.day, 2);
    PadValue(f.hour, 2);
    PadValue(f.minute, 2);
    PadValue(f.second, 2);
    PadValue(f.milli, 3);
    assert DigitsValue(s[1..3]) == f.month && DigitsValue(s[4..6]) == f.day;
    assert DigitsValue(s[7..9]) == f.hour && DigitsValue(s[10..12]) == f.minute;
    assert DigitsValue(s[13..15]) == f.second && DigitsValue(s[16..19]) == f.milli;
  }

  /** The year prefix is read back whatever date-time part follows it. */
  lemma ReadYearText(y: int, tail: string)
    requires -999999 <= y <= 999999 && |tail| == 20
    ensures ReadYear(YearText(y) + tail) == Some(y)
  {
    if 0 <= y <= 9999 {
      var s := Pad(y, 4) + tail;
      assert s[..4] == Pad(y, 4);
      PadValue(y, 4);
    } else {
      var a: nat := if y < 0 then -y else y;
      var s := YearText(y) + tail;
      assert s[1..7] == Pad(a, 6);
      PadValue(a, 6);
    }
  }

  /** Reading back what `toISOString` wrote gives the same time value. */
  lemma ParseFormat(t: int)
    requires InRange(t)
    ensures Parse(Format(t)) == At(t)
  {
    var f := FieldsOf(t);
    FieldsOfCorrect(t);
    YearOfBounded(t / 86400000);
    ParseFields(f);
  }

  /** Valid calendar fields come back from their text. */
  lemma ParseFields(f: Fields)
    requires FieldsValid(f) && InRange(TimeOf(f)) && -999999 <= f.year <= 999999
    ensures Parse(YearText(f.year) + TailText(f)) == At(TimeOf(f))
  {
    var tail := TailText(f);
    var s := YearText(f.year) + tail;
    assert f.day <= 31 by { MonthAtMost31(f.year, f.month); }
    ReadYearText(f.year, tail);
    ReadFieldsText(f);
    assert s[|s| - 20..] == tail;
  }

  lemma MonthAtMost31(y: int, m: int)
    requires 1 <= m <= 12
    ensures DaysInMonth(y, m) <= 31
  {
  }
}
