/**
 * The parts of JavaScript's `Date` the script relies on, on broken-down
 * calendar fields: `new Date(y, m, d, h, mi, s, ms)` with its carrying of
 * out-of-range fields, `TQROption.getDate`, `TQROption.getCurrentOrNextSemester`,
 * `TissQuickRegistration.getDateFormat` (the `datetime-local` text), the JSON
 * text of a date (`toISOString`) and `new Date(text)` for the date-time
 * string format of section 21.4.3.2 of ECMA-262. Local time is taken to be UTC.
 */
module Dates {

  import opened Wrappers
  import opened Decimal

  const MsPerDay := 86400000

  predicate IsLeapYear(y: int) {
    y % 4 == 0 && (y % 100 != 0 || y % 400 == 0)
  }

  /** Days in a 0-based month of the proleptic Gregorian calendar. */
  function DaysInMonth(year: int, month: int): (n: nat)
    requires 0 <= month < 12
    ensures 28 <= n <= 31
  {
    if month == 1 then (if IsLeapYear(year) then 29 else 28)
    else if month == 3 || month == 5 || month == 8 || month == 10 then 30
    else 31
  }

  /** The local-time fields a `Date` reports: `getFullYear`, `getMonth` (0-based), `getDate`, `getHours`, ... */
  datatype DateTime = DateTime(year: int, month: int, day: int, hour: int, minute: int, second: int, millisecond: int) {
    predicate Valid() {
      && 0 <= month < 12
      && 1 <= day <= DaysInMonth(year, month)
      && 0 <= hour < 24 && 0 <= minute < 60 && 0 <= second < 60 && 0 <= millisecond < 1000
    }
  }

  /** A `Date` object: a point in time, or the "Invalid Date" that unparsable text yields. */
  datatype JsDate = ValidDate(fields: DateTime) | InvalidDate

  datatype CalendarDay = CalendarDay(year: int, month: int, day: int)

  /**
   * The calendar day that is `day - 1` days after the first of `month` in
   * `year`, for any integer `day`: days before the first borrow from the
   * previous months, days past the end carry into the next ones.
   */
  function NormalizeDay(year: int, month: int, day: int): (r: CalendarDay)
    requires 0 <= month < 12
    ensures 0 <= r.month < 12 && 1 <= r.day <= DaysInMonth(r.year, r.month)
    ensures 1 <= day <= DaysInMonth(year, month) ==> r == CalendarDay(year, month, day)
    decreases day < 1, if day < 1 then -day else day
  {
    if day < 1 then
      var py := if month == 0 then year - 1 else year;
      var pm := if month == 0 then 11 else month - 1;
      NormalizeDay(py, pm, day + DaysInMonth(py, pm))
    else if day > DaysInMonth(year, month) then
      var ny := if month == 11 then year + 1 else year;
      var nm := if month == 11 then 0 else month + 1;
      NormalizeDay(ny, nm, day - DaysInMonth(year, month))
    else
      CalendarDay(year, month, day)
  }

  /**
   * `new Date(year, month, day, hour, minute, second, millisecond)` with a
   * 0-based month: every field may be out of range and is carried into the
   * next larger one (months into years, the time of day into days, days into
   * months), so the result is always a real calendar date. A year from 0
   * to 99 stands for 1900 to 1999 (MakeFullYear, section 21.4.2.1 of ECMA-262).
   */
  function MakeDate(year: int, month: int, day: int, hour: int, minute: int, second: int, millisecond: int): (r: DateTime)
    ensures r.Valid()
  {
    var time := hour * 3600000 + minute * 60000 + second * 1000 + millisecond;
    var c := NormalizeDay(FullYear(year) + month / 12, month % 12, day + time / MsPerDay);
    var t := time % MsPerDay;
    DateTime(c.year, c.month, c.day, t / 3600000, t % 3600000 / 60000, t % 60000 / 1000, t % 1000)
  }

  /** The year the `Date` constructor takes from its first argument: 0 to 99 mean 1900 to 1999. */
  function FullYear(year: int): int {
    if 0 <= year <= 99 then 1900 + year else year
  }

  /** Euclidean division is determined by a quotient and a remainder in range. */
  lemma DivModOf(a: int, d: int, q: int, r: int)
    requires 0 < d && 0 <= r < d && a == q * d + r
    ensures a / d == q && a % d == r
  {
    var q0, r0 := a / d, a % d;
    assert (q - q0) * d == r0 - r;
    if q > q0 {
      MultipleAtLeast(q - q0, d);
    } else if q < q0 {
      MultipleAtLeast(q0 - q, d);
    }
  }

  lemma MultipleAtLeast(k: int, d: int)
    requires k >= 1 && d > 0
    ensures k * d >= d
  {
  }

  /** Fields that already name a real date and time, in a year outside 0 to 99, are kept exactly as given. */
  lemma MakeDateExact(t: DateTime)
    requires t.Valid() && !(0 <= t.year <= 99)
    ensures MakeDate(t.year, t.month, t.day, t.hour, t.minute, t.second, t.millisecond) == t
  {
    var belowSecond := t.millisecond;
    var belowMinute := t.second * 1000 + belowSecond;
    var belowHour := t.minute * 60000 + belowMinute;
    var time := t.hour * 3600000 + belowHour;
    DivModOf(time, MsPerDay, 0, time);
    DivModOf(t.month, 12, 0, t.month);
    DivModOf(time, 3600000, t.hour, belowHour);
    DivModOf(belowHour, 60000, t.minute, belowMinute);
    DivModOf(time, 60000, t.hour * 60 + t.minute, belowMinute);
    DivModOf(belowMinute, 1000, t.second, belowSecond);
    DivModOf(time, 1000, t.hour * 3600 + t.minute * 60 + t.second, belowSecond);
  }

  /** `TQROption.getDate`: a date from a 1-based month, at zero seconds. */
  function GetDate(year: int, month: int, day: int, hour: int, minute: int): (r: DateTime)
    ensures r.Valid()
  {
    MakeDate(year, month - 1, day, hour, minute, 0, 0)
  }

  /** For a real date in a year outside 0 to 99, `getDate` stores the month 0-based and keeps every other field. */
  lemma GetDateFields(year: int, month: int, day: int, hour: int, minute: int)
    requires !(0 <= year <= 99)
    requires 1 <= month <= 12 && 1 <= day <= DaysInMonth(year, month - 1)
    requires 0 <= hour < 24 && 0 <= minute < 60
    ensures GetDate(year, month, day, hour, minute) == DateTime(year, month - 1, day, hour, minute, 0, 0)
  {
    MakeDateExact(DateTime(year, month - 1, day, hour, minute, 0, 0));
  }

  /**
   * Out-of-range fields carry over: the 32nd of December is the 1st of January
   * of the next year. A two-digit year is a year of the 1900s, so the 29th of
   * February of year 0 is the 1st of March 1900, which is not a leap year.
   */
  lemma GetDateCarries()
    ensures GetDate(2024, 12, 32, 0, 0) == DateTime(2025, 0, 1, 0, 0, 0, 0)
    ensures GetDate(2024, 3, 0, 24, 0) == DateTime(2024, 2, 1, 0, 0, 0, 0)
    ensures GetDate(50, 1, 1, 0, 0) == DateTime(1950, 0, 1, 0, 0, 0, 0)
    ensures GetDate(0, 2, 29, 0, 0) == DateTime(1900, 2, 1, 0, 0, 0, 0)
  {
  }

  /**
   * `TQROption.getCurrentOrNextSemester` for the clock reading `now`: the
   * year followed by "W" (winter term) or "S" (summer term).
   */
  function CurrentOrNextSemester(now: DateTime): (s: string)
    requires now.Valid()
    ensures |s| >= 2
  {
    IntToString(now.year) + (if now.month > 5 || now.month < 2 then "W" else "S")
  }

  /**
   * March to June (months 2 to 5) belong to the summer term, every other month
   * to the winter term, and the text before the suffix is the year.
   */
  lemma SemesterOfMonth(now: DateTime)
    requires now.Valid()
    ensures var s := CurrentOrNextSemester(now);
      && s[..|s| - 1] == IntToString(now.year)
      && (s[|s| - 1] == 'S' <==> now.month in {2, 3, 4, 5})
      && (s[|s| - 1] == 'W' <==> now.month in {0, 1, 6, 7, 8, 9, 10, 11})
  {
    var s := CurrentOrNextSemester(now);
    assert s[..|s| - 1] == IntToString(now.year);
  }

  /** `String(n).padStart(2, '0')`. */
  function Pad2(n: int): string {
    PadStart(IntToString(n), 2, '0')
  }

  /** `TissQuickRegistration.getDateFormat`: the `YYYY-MM-DDTHH:mm` text a `datetime-local` input shows. */
  function DateFormat(d: JsDate): string {
    if d.InvalidDate? then "NaN-NaN-NaNTNaN:NaN" else LocalText(d.fields)
  }

  /** The `YYYY-MM-DDTHH:mm` text of the fields of a valid date. */
  function LocalText(t: DateTime): string {
    Layout(IntToString(t.year), Pad2(t.month + 1), Pad2(t.day), Pad2(t.hour), Pad2(t.minute))
  }

  /**
   * For a date with a four-digit year the text is 16 characters long, with
   * the separators of the `datetime-local` format in their places and every
   * other character a digit.
   */
  lemma DateFormatShape(t: DateTime)
    requires t.Valid() && 1000 <= t.year <= 9999
    ensures var s := DateFormat(ValidDate(t));
      && |s| == 16 && s[4] == '-' && s[7] == '-' && s[10] == 'T' && s[13] == ':'
      && forall i :: 0 <= i < 16 && i !in {4, 7, 10, 13} ==> IsDigit(s[i])
  {
    var y, mo, d, h, mi := IntToString(t.year), Pad2(t.month + 1), Pad2(t.day), Pad2(t.hour), Pad2(t.minute);
    DigitsOf4(t.year);
    Pad2Digits(t.month + 1);
    Pad2Digits(t.day);
    Pad2Digits(t.hour);
    Pad2Digits(t.minute);
    LayoutMinutes(y, mo, d, h, mi);
    var s := Layout(y, mo, d, h, mi);
    forall i | 0 <= i < 16 && i !in {4, 7, 10, 13} ensures IsDigit(s[i]) {
      if i < 4 { assert s[i] == s[0..4][i]; }
      else if i < 7 { assert s[i] == s[5..7][i - 5]; }
      else if i < 10 { assert s[i] == s[8..10][i - 8]; }
      else if i < 13 { assert s[i] == s[11..13][i - 11]; }
      else { assert s[i] == s[14..16][i - 14]; }
    }
  }

  /** `Y-M-DTh:m` from the texts of the five fields. */
  function Layout(y: string, mo: string, d: string, h: string, mi: string): string {
    y + "-" + mo + "-" + d + "T" + h + ":" + mi
  }

  lemma DigitsOf4(y: int)
    requires 1000 <= y <= 9999
    ensures |IntToString(y)| == 4 && AllDigits(IntToString(y)) && Value(IntToString(y)) == y
  {
    NatToStringLength(y, 4);
    NatToStringLength(y, 3);
    NatToStringValue(y);
  }

  lemma Pad2Digits(n: int)
    requires 0 <= n < 100
    ensures |Pad2(n)| == 2 && AllDigits(Pad2(n)) && Value(Pad2(n)) == n
  {
    PaddedValue(n, 2);
  }

  /** The year as `toISOString` writes it: four digits, or a sign and six digits outside 0 to 9999. */
  function IsoYear(year: int): string {
    if 0 <= year <= 9999 then PadStart(NatToString(year), 4, '0')
    else (if year < 0 then "-" else "+") + PadStart(NatToString(if year < 0 then -year else year), 6, '0')
  }

  /** `Y-M-DTh:m:s.msZ` from the minutes part and the texts of the seconds and milliseconds. */
  function WithSeconds(ymdhm: string, se: string, ms: string): string {
    ymdhm + ":" + se + "." + ms + "Z"
  }

  /** `date.toISOString()`, which is what `JSON.stringify` writes for a date: `YYYY-MM-DDTHH:mm:ss.sssZ`. */
  function ToIsoString(t: DateTime): string {
    WithSeconds(Layout(IsoYear(t.year), Pad2(t.month + 1), Pad2(t.day), Pad2(t.hour), Pad2(t.minute)),
      Pad2(t.second), PadStart(IntToString(t.millisecond), 3, '0'))
  }

  /** A date from parsed fields, with a 1-based month; out-of-range fields make the text invalid. */
  function DateFromFields(year: nat, month: nat, day: nat, hour: nat, minute: nat, second: nat, millisecond: nat): (d: JsDate)
    ensures d.ValidDate? ==> d.fields.Valid()
  {
    if 1 <= month <= 12 && 1 <= day <= DaysInMonth(year, month - 1)
       && hour < 24 && minute < 60 && second < 60 && millisecond < 1000
    then ValidDate(DateTime(year, month - 1, day, hour, minute, second, millisecond))
    else InvalidDate
  }

  /**
   * `new Date(text)` for the two shapes the script produces: the local
   * `YYYY-MM-DDTHH:mm` of a `datetime-local` input and the UTC
   * `YYYY-MM-DDTHH:mm:ss.sssZ` of a date's JSON text. Any other text is an
   * Invalid Date here.
   */
  function ParseDate(s: string): (d: JsDate)
    ensures d.ValidDate? ==> d.fields.Valid() && (|s| == 16 || |s| == 24)
  {
    if (|s| == 16 || (|s| == 24 && s[16] == ':' && s[19] == '.' && s[23] == 'Z'))
       && s[4] == '-' && s[7] == '-' && s[10] == 'T' && s[13] == ':'
    then
      var year := ParseFixed(s[0..4]);
      var month := ParseFixed(s[5..7]);
      var day := ParseFixed(s[8..10]);
      var hour := ParseFixed(s[11..13]);
      var minute := ParseFixed(s[14..16]);
      var second := if |s| == 24 then ParseFixed(s[17..19]) else Some(0);
      var millisecond := if |s| == 24 then ParseFixed(s[20..23]) else Some(0);
      if year.Some? && month.Some? && day.Some? && hour.Some? && minute.Some? && second.Some? && millisecond.Some?
      then DateFromFields(year.value, month.value, day.value, hour.value, minute.value, second.value, millisecond.value)
      else InvalidDate
    else
      InvalidDate
  }

  /** Where the fields sit in `YYYY-MM-DDTHH:mm`. */
  lemma LayoutMinutes(y: string, mo: string, d: string, h: string, mi: string)
    requires |y| == 4 && |mo| == 2 && |d| == 2 && |h| == 2 && |mi| == 2
    ensures var s := Layout(y, mo, d, h, mi);
      && |s| == 16 && s[4] == '-' && s[7] == '-' && s[10] == 'T' && s[13] == ':'
      && s[0..4] == y && s[5..7] == mo && s[8..10] == d && s[11..13] == h && s[14..16] == mi
  {
    var s := Layout(y, mo, d, h, mi);
    assert s[0..4] == y;
    assert s[5..7] == mo;
    assert s[8..10] == d;
    assert s[11..13] == h;
    assert s[14..16] == mi;
  }

  /** Where the fields sit in `YYYY-MM-DDTHH:mm:ss.sssZ`. */
  lemma LayoutMilliseconds(ymdhm: string, se: string, ms: string)
    requires |ymdhm| == 16 && |se| == 2 && |ms| == 3
    ensures var s := WithSeconds(ymdhm, se, ms);
      && |s| == 24 && s[16] == ':' && s[19] == '.' && s[23] == 'Z'
      && s[..16] == ymdhm && s[17..19] == se && s[20..23] == ms
  {
    var s := WithSeconds(ymdhm, se, ms);
    assert s[..16] == ymdhm;
    assert s[17..19] == se;
    assert s[20..23] == ms;
  }

  /** How `ParseDate` reads the `datetime-local` shape built from five digit fields. */
  lemma ParseMinutesShape(y: string, mo: string, d: string, h: string, mi: string,
                          year: nat, month: nat, day: nat, hour: nat, minute: nat)
    requires |y| == 4 && |mo| == 2 && |d| == 2 && |h| == 2 && |mi| == 2
    requires ParseFixed(y) == Some(year) && ParseFixed(mo) == Some(month) && ParseFixed(d) == Some(day)
    requires ParseFixed(h) == Some(hour) && ParseFixed(mi) == Some(minute)
    ensures ParseDate(Layout(y, mo, d, h, mi)) == DateFromFields(year, month, day, hour, minute, 0, 0)
  {
    LayoutMinutes(y, mo, d, h, mi);
  }

  /** How `ParseDate` reads the JSON shape built from seven digit fields. */
  lemma ParseMillisecondsShape(y: string, mo: string, d: string, h: string, mi: string, se: string, ms: string,
                               year: nat, month: nat, day: nat, hour: nat, minute: nat, second: nat, millisecond: nat)
    requires |y| == 4 && |mo| == 2 && |d| == 2 && |h| == 2 && |mi| == 2 && |se| == 2 && |ms| == 3
    requires ParseFixed(y) == Some(year) && ParseFixed(mo) == Some(month) && ParseFixed(d) == Some(day)
    requires ParseFixed(h) == Some(hour) && ParseFixed(mi) == Some(minute)
    requires ParseFixed(se) == Some(second) && ParseFixed(ms) == Some(millisecond)
    ensures ParseDate(WithSeconds(Layout(y, mo, d, h, mi), se, ms))
         == DateFromFields(year, month, day, hour, minute, second, millisecond)
  {
    var p := Layout(y, mo, d, h, mi);
    var s := WithSeconds(p, se, ms);
    LayoutMinutes(y, mo, d, h, mi);
    LayoutMilliseconds(p, se, ms);
    assert s[0..4] == p[0..4] && s[5..7] == p[5..7] && s[8..10] == p[8..10];
    assert s[11..13] == p[11..13] && s[14..16] == p[14..16];
  }

  /** The text of a field `0 <= n < 100` padded to two digits reads back as `n`. */
  lemma Pad2Field(n: int)
    requires 0 <= n < 100
    ensures |Pad2(n)| == 2 && ParseFixed(Pad2(n)) == Some(n)
  {
    Pad2Digits(n);
  }

  /**
   * Reading back the text of a `datetime-local` input gives the date it was
   * made from, to the minute, for four-digit years.
   */
  lemma ParseDateFormat(t: DateTime)
    requires t.Valid() && 1000 <= t.year <= 9999
    ensures ParseDate(DateFormat(ValidDate(t))) == ValidDate(t.(second := 0, millisecond := 0))
  {
    DigitsOf4(t.year);
    Pad2Field(t.month + 1);
    Pad2Field(t.day);
    Pad2Field(t.hour);
    Pad2Field(t.minute);
    ParseMinutesShape(IntToString(t.year), Pad2(t.month + 1), Pad2(t.day), Pad2(t.hour), Pad2(t.minute),
                      t.year, t.month + 1, t.day, t.hour, t.minute);
  }

  lemma IsoYearField(year: int)
    requires 0 <= year <= 9999
    ensures |IsoYear(year)| == 4 && ParseFixed(IsoYear(year)) == Some(year)
  {
    PaddedValue(year, 4);
  }

  lemma MillisecondField(ms: int)
    requires 0 <= ms < 1000
    ensures |PadStart(IntToString(ms), 3, '0')| == 3 && ParseFixed(PadStart(IntToString(ms), 3, '0')) == Some(ms)
  {
    PaddedValue(ms, 3);
  }

  /** Reading back the JSON text of a date gives the same date, for years 0 to 9999. */
  lemma ParseIsoString(t: DateTime)
    requires t.Valid() && 0 <= t.year <= 9999
    ensures ParseDate(ToIsoString(t)) == ValidDate(t)
  {
    IsoYearField(t.year);
    MillisecondField(t.millisecond);
    Pad2Field(t.month + 1);
    Pad2Field(t.day);
    Pad2Field(t.hour);
    Pad2Field(t.minute);
    Pad2Field(t.second);
    ParseMillisecondsShape(IsoYear(t.year), Pad2(t.month + 1), Pad2(t.day), Pad2(t.hour), Pad2(t.minute),
                           Pad2(t.second), PadStart(IntToString(t.millisecond), 3, '0'),
                           t.year, t.month + 1, t.day, t.hour, t.minute, t.second, t.millisecond);
  }
}
