/**
 * JavaScript dates as the portfolio controller uses them: `formatDate`,
 * `parseDDMMYYYY` and `normalizeDate`, with the proleptic Gregorian calendar of
 * ECMA-262 underneath. A Date is a time value in milliseconds, or an Invalid
 * Date (NaN). The server's local time is taken to be UTC, so local midnight
 * is a multiple of 86 400 000 ms and a day is always that long.
 */
module Dates {
  import opened Wrappers
  import opened JsText

  const MsPerDay: int := 86_400_000

  /** The largest magnitude of a time value (TimeClip, section 21.4.1.31 of ECMA-262). */
  const MaxTime: int := 8_640_000_000_000_000

  type TimeValue = t: int | -MaxTime <= t <= MaxTime

  /** A JavaScript Date object's value. */
  datatype JsDate = Invalid | Time(ms: TimeValue)

  function TimeClip(t: int): (d: JsDate)
    ensures d.Time? <==> -MaxTime <= t <= MaxTime
    ensures d.Time? ==> d.ms == t
  {
    if -MaxTime <= t <= MaxTime then Time(t) else Invalid
  }

  /** The day (days since 1 January 1970) a time value falls on. */
  function DayOf(t: int): int {
    t / MsPerDay
  }

  /** `a < b` on Dates: false when either is an Invalid Date. */
  predicate Before(a: JsDate, b: JsDate) {
    a.Time? && b.Time? && a.ms < b.ms
  }

  /** `a <= b` on Dates: false when either is an Invalid Date. */
  predicate AtOrBefore(a: JsDate, b: JsDate) {
    a.Time? && b.Time? && a.ms <= b.ms
  }

  /** A Date at local midnight. */
  predicate AtMidnight(d: JsDate) {
    d.Time? && d.ms % MsPerDay == 0
  }

  // ---------------------------------------------------------------- calendar

  predicate IsLeapYear(y: int) {
    y % 4 == 0 && (y % 100 != 0 || y % 400 == 0)
  }

  function DaysInYear(y: int): int {
    if IsLeapYear(y) then 366 else 365
  }

  function DaysInMonth(y: int, m: int): int
    requires 1 <= m <= 12
  {
    if m == 2 then (if IsLeapYear(y) then 29 else 28)
    else if m == 4 || m == 6 || m == 9 || m == 11 then 30
    else 31
  }

  /** Days of year y in the months before month m (1-based). */
  function DaysBeforeMonth(y: int, m: int): int
    requires 1 <= m <= 12
  {
    var leap := if IsLeapYear(y) && m > 2 then 1 else 0;
    leap + (
      if m == 1 then 0 else if m == 2 then 31 else if m == 3 then 59
      else if m == 4 then 90 else if m == 5 then 120 else if m == 6 then 151
      else if m == 7 then 181 else if m == 8 then 212 else if m == 9 then 243
      else if m == 10 then 273 else if m == 11 then 304 else 334)
  }

  /**
   * The day of 1 January of year y, counted year by year from 1970. The closed
   * form DayFromYear of ECMA-262 is proved equal below (DayFromYearFormula).
   */
  function DayFromYear(y: int): int
    decreases if y < 1970 then 1970 - y else y - 1970
  {
    if y == 1970 then 0
    else if y > 1970 then DayFromYear(y - 1) + DaysInYear(y - 1)
    else DayFromYear(y + 1) - DaysInYear(y)
  }

  /** MakeDay of ECMA-262 on whole numbers: month is 0-based, and month and date
      may run past their ranges and carry into the next month or year. */
  function MakeDay(y: int, m0: int, d: int): int {
    var ym := y + m0 / 12;
    var mn := m0 % 12;
    DayFromYear(ym) + DaysBeforeMonth(ym, mn + 1) + d - 1
  }

  /** A calendar date: year, month 1-12, day of month. */
  datatype Civil = Civil(year: int, month: int, day: int)

  predicate ValidCivil(c: Civil) {
    1 <= c.month <= 12 && 1 <= c.day <= DaysInMonth(c.year, c.month)
  }

  /** The day number of a calendar date. */
  function DaysFromCivil(c: Civil): int
    requires 1 <= c.month <= 12
  {
    DayFromYear(c.year) + DaysBeforeMonth(c.year, c.month) + c.day - 1
  }

  /** MakeDay with an in-range month is DaysFromCivil. */
  lemma MakeDayCivil(c: Civil)
    requires 1 <= c.month <= 12
    ensures MakeDay(c.year, c.month - 1, c.day) == DaysFromCivil(c)
  {
    assert (c.month - 1) / 12 == 0 && (c.month - 1) % 12 == c.month - 1;
  }

  /** A year is as long as the gap between its first day and the next year's. */
  lemma YearLength(y: int)
    ensures DayFromYear(y + 1) == DayFromYear(y) + DaysInYear(y)
  {
  }

  /** DayFromYear as ECMA-262 writes it, in closed form with floor divisions. */
  function ClosedDayFromYear(y: int): int {
    365 * (y - 1970) + (y - 1969) / 4 - (y - 1901) / 100 + (y - 1601) / 400
  }

  /** The year-by-year count agrees with the closed form. */
  lemma {:induction false} DayFromYearFormula(y: int)
    ensures DayFromYear(y) == ClosedDayFromYear(y)
    decreases if y < 1970 then 1970 - y else y - 1970
  {
    if y > 1970 {
      DayFromYearFormula(y - 1);
      ClosedStep(y - 1);
    } else if y < 1970 {
      DayFromYearFormula(y + 1);
      ClosedStep(y);
    }
  }

  lemma ClosedStep(y: int)
    ensures ClosedDayFromYear(y + 1) == ClosedDayFromYear(y) + DaysInYear(y)
  {
    LeapSteps(y);
    DivisorChain(y);
  }

  /** A multiple of 400 is a multiple of 100, and a multiple of 100 one of 4. */
  lemma DivisorChain(y: int)
    ensures y % 400 == 0 ==> y % 100 == 0
    ensures y % 100 == 0 ==> y % 4 == 0
  {
    if y % 400 == 0 {
      DivUnique(y, 100, y / 400 * 4, 0);
    }
    if y % 100 == 0 {
      DivUnique(y, 4, y / 100 * 25, 0);
    }
  }

  /** How the floor quotients of the closed form move from year y to y + 1. */
  lemma LeapSteps(y: int)
    ensures (y - 1968) / 4 - (y - 1969) / 4 == if y % 4 == 0 then 1 else 0
    ensures (y - 1900) / 100 - (y - 1901) / 100 == if y % 100 == 0 then 1 else 0
    ensures (y - 1600) / 400 - (y - 1601) / 400 == if y % 400 == 0 then 1 else 0
  {
    FloorStep(y - 1969, 4, 492);
    FloorStep(y - 1901, 100, 19);
    FloorStep(y - 1601, 400, 4);
  }

  /** floor((x + 1) / k) exceeds floor(x / k) exactly when k divides x + 1 + j*k. */
  lemma FloorStep(x: int, k: int, j: int)
    requires k > 0
    ensures (x + 1) / k - x / k == if (x + 1 + j * k) % k == 0 then 1 else 0
  {
    var q, r := x / k, x % k;
    assert x == q * k + r && 0 <= r < k;
    if r == k - 1 {
      DivUnique(x + 1, k, q + 1, 0);
      DivUnique(x + 1 + j * k, k, q + 1 + j, 0);
    } else {
      DivUnique(x + 1, k, q, r + 1);
      DivUnique(x + 1 + j * k, k, q + j, r + 1);
    }
  }

  lemma DivUnique(x: int, k: int, q: int, r: int)
    requires k > 0 && 0 <= r < k && x == q * k + r
    ensures x / k == q && x % k == r
  {
    var q', r' := x / k, x % k;
    assert x == q' * k + r' && 0 <= r' < k;
    assert (q' - q) * k == r - r' by {
      assert (q' - q) * k == q' * k - q * k;
    }
    if q' > q {
      MulAtLeast(q' - q, k);
    } else if q' < q {
      MulAtLeast(q - q', k);
    }
  }

  lemma MulAtLeast(a: int, k: int)
    requires a >= 1 && k > 0
    ensures a * k >= k
  {
    assert a * k == (a - 1) * k + k;
  }

  /** Later years start later. */
  lemma {:induction false} DayFromYearMonotone(a: int, b: int)
    requires a <= b
    ensures DayFromYear(a) <= DayFromYear(b)
    decreases b - a
  {
    if a < b {
      YearLength(a);
      DayFromYearMonotone(a + 1, b);
    }
  }

  /** A valid date lies within its year. */
  lemma DayWithinYear(c: Civil)
    requires ValidCivil(c)
    ensures DayFromYear(c.year) <= DaysFromCivil(c) < DayFromYear(c.year + 1)
  {
    YearLength(c.year);
  }

  /** The calendar date after c. */
  function NextDay(c: Civil): (n: Civil)
    requires 1 <= c.month <= 12
    ensures 1 <= n.month <= 12
  {
    if c.day < DaysInMonth(c.year, c.month) then Civil(c.year, c.month, c.day + 1)
    else if c.month < 12 then Civil(c.year, c.month + 1, 1)
    else Civil(c.year + 1, 1, 1)
  }

  /** The day after a valid date is a valid date, one day later. */
  lemma NextDayFollows(c: Civil)
    requires ValidCivil(c)
    ensures ValidCivil(NextDay(c)) && DaysFromCivil(NextDay(c)) == DaysFromCivil(c) + 1
  {
    if c.month == 12 && c.day == 31 {
      YearLength(c.year);
    }
  }

  /** The calendar date before c. */
  function PrevDay(c: Civil): (p: Civil)
    requires 1 <= c.month <= 12
    ensures 1 <= p.month <= 12
  {
    if c.day > 1 then Civil(c.year, c.month, c.day - 1)
    else if c.month > 1 then Civil(c.year, c.month - 1, DaysInMonth(c.year, c.month - 1))
    else Civil(c.year - 1, 12, 31)
  }

  /** The day before a valid date is a valid date, one day earlier. */
  lemma PrevDayPrecedes(c: Civil)
    requires ValidCivil(c)
    ensures ValidCivil(PrevDay(c)) && DaysFromCivil(PrevDay(c)) == DaysFromCivil(c) - 1
  {
    if c.month == 1 && c.day == 1 {
      YearLength(c.year - 1);
    }
  }

  /**
   * The calendar date of day n, found by stepping from 1 January 1970. It
   * characterises the calendar (`getFullYear`, `getMonth`, `getDate`); it is
   * not meant as an efficient conversion.
   */
  function CivilFromDays(n: int): (c: Civil)
    ensures 1 <= c.month <= 12
    decreases if n < 0 then -n else n
  {
    if n == 0 then Civil(1970, 1, 1)
    else if n > 0 then NextDay(CivilFromDays(n - 1))
    else PrevDay(CivilFromDays(n + 1))
  }

  /** Day n's calendar date is a valid date whose day number is n. */
  lemma {:induction false} CivilFromDaysValid(n: int)
    ensures ValidCivil(CivilFromDays(n)) && DaysFromCivil(CivilFromDays(n)) == n
    decreases if n < 0 then -n else n
  {
    if n > 0 {
      CivilFromDaysValid(n - 1);
      NextDayFollows(CivilFromDays(n - 1));
    } else if n < 0 {
      CivilFromDaysValid(n + 1);
      PrevDayPrecedes(CivilFromDays(n + 1));
    }
  }

  /** The calendar date of a valid Date. */
  function CivilOf(d: JsDate): Civil
    requires d.Time?
  {
    CivilFromDays(DayOf(d.ms))
  }

  // ----------------------------------------------------------- Date methods

  /** `Math.trunc` (ToIntegerOrInfinity on a finite number). */
  function Trunc(x: real): int {
    if x >= 0.0 then x.Floor else -((-x).Floor)
  }

  /** `new Date(y, m0, d)` on whole numbers: a year 0-99 means 1900-1999, and the result is local midnight. */
  function NewDate(y: int, m0: int, d: int): (r: JsDate)
    ensures r.Time? ==> AtMidnight(r)
  {
    var yr := if 0 <= y <= 99 then 1900 + y else y;
    TimeClip(MakeDay(yr, m0, d) * MsPerDay)
  }

  /** `normalizeDate(d)`: `new Date(d.getFullYear(), d.getMonth(), d.getDate())`. */
  function NormalizeDate(d: JsDate): (r: JsDate)
    ensures d.Time? ==> AtMidnight(r)
    ensures d.Invalid? ==> r.Invalid?
  {
    match d
    case Invalid => Invalid
    case Time(t) =>
      var c := CivilOf(d);
      NormalizeInRange(t);
      NewDate(c.year, c.month - 1, c.day)
  }

  /** `formatDate(d)`: `DD-MM-YYYY`, day and month zero-padded to two digits, the year as `String(year)`. */
  function FormatDate(d: JsDate): string {
    match d
    case Invalid => "NaN-NaN-NaN"
    case Time(_) => FormatCivil(CivilOf(d))
  }

  function FormatCivil(c: Civil): string {
    PadStart2(IntToString(c.day)) + "-" + PadStart2(IntToString(c.month)) + "-" + IntToString(c.year)
  }

  /**
   * `parseDDMMYYYY(s)`: `None` for the empty string (JavaScript's `null`);
   * otherwise the parts before the first three '-' are read with `Number` and
   * passed to `new Date(year, month - 1, day)`, so a missing or non-numeric
   * part gives an Invalid Date and out-of-range parts carry over.
   */
  function ParseDDMMYYYY(s: string): (r: Option<JsDate>)
    ensures r.None? <==> s == ""
  {
    if s == "" then None else Some(DateOfFields(Split(s, '-')))
  }

  /** `new Date(year, month - 1, day)` on the `Number` values of the first three fields. */
  function DateOfFields(parts: seq<string>): JsDate {
    match FieldsOf(parts)
    case None => Invalid
    case Some(f) => NewDate(f.0, f.1, f.2)
  }

  /** The whole-number arguments `(year, month - 1, day)`, or `None` when a field is missing or NaN. */
  function FieldsOf(parts: seq<string>): Option<(int, int, int)> {
    if |parts| < 3 then None
    else WholeFields(StringToNumber(parts[0]), StringToNumber(parts[1]), StringToNumber(parts[2]))
  }

  function WholeFields(day: Option<real>, month: Option<real>, year: Option<real>): Option<(int, int, int)> {
    if day.Some? && month.Some? && year.Some?
    then Some((Trunc(year.value), Trunc(month.value - 1.0), Trunc(day.value)))
    else None
  }

  // ----------------------------------------------------------------- lemmas

  /** Normalising never leaves the range of time values. */
  lemma NormalizeInRange(t: TimeValue)
    ensures NewDate(CivilFromDays(DayOf(t)).year, CivilFromDays(DayOf(t)).month - 1, CivilFromDays(DayOf(t)).day).Time?
  {
    MidnightInRange(t);
    NewDateOfDay(DayOf(t));
  }

  /** The fields of day n rebuild a valid Date when midnight of day n is a time value. */
  lemma NewDateOfDay(n: int)
    requires -MaxTime <= n * MsPerDay <= MaxTime
    ensures NewDate(CivilFromDays(n).year, CivilFromDays(n).month - 1, CivilFromDays(n).day).Time?
  {
    CivilFromDaysValid(n);
    NewDateValid(CivilFromDays(n));
  }

  /** Outside years 0-99 the fields of a date rebuild midnight of its own day. */
  lemma NormalizeOwnDay(t: TimeValue)
    requires !(0 <= CivilFromDays(DayOf(t)).year <= 99)
    ensures NewDate(CivilFromDays(DayOf(t)).year, CivilFromDays(DayOf(t)).month - 1, CivilFromDays(DayOf(t)).day) == Time(DayOf(t) * MsPerDay)
  {
    MidnightInRange(t);
    NewDateOwnDayOf(DayOf(t));
  }

  /** Outside years 0-99 the fields of day n rebuild midnight of day n. */
  lemma NewDateOwnDayOf(n: int)
    requires -MaxTime <= n * MsPerDay <= MaxTime && !(0 <= CivilFromDays(n).year <= 99)
    ensures NewDate(CivilFromDays(n).year, CivilFromDays(n).month - 1, CivilFromDays(n).day) == Time(n * MsPerDay)
  {
    CivilFromDaysValid(n);
    NewDateOwnDay(CivilFromDays(n));
  }

  /** Midnight of the day of a time value is itself a time value. */
  lemma MidnightInRange(t: TimeValue)
    ensures -MaxTime <= DayOf(t) * MsPerDay <= t
  {
  }

  /** `new Date` on the fields of a valid date whose midnight is in range gives a valid Date. */
  lemma NewDateValid(c: Civil)
    requires ValidCivil(c) && -MaxTime <= DaysFromCivil(c) * MsPerDay <= MaxTime
    ensures NewDate(c.year, c.month - 1, c.day).Time?
  {
    if 0 <= c.year <= 99 {
      TwoDigitYear(c);
      NewDateTwoDigit(c.year, c.month - 1, c.day);
    } else {
      NewDateOwnDay(c);
    }
  }

  /** Outside years 0-99, `new Date` on the fields of a valid date is midnight of that date. */
  lemma NewDateOwnDay(c: Civil)
    requires ValidCivil(c) && !(0 <= c.year <= 99) && -MaxTime <= DaysFromCivil(c) * MsPerDay <= MaxTime
    ensures NewDate(c.year, c.month - 1, c.day) == Time(DaysFromCivil(c) * MsPerDay)
  {
    MakeDayCivil(c);
  }

  /** `new Date(y, m0, d)` with a year 0-99 is midnight of that date in 1900-1999. */
  lemma NewDateTwoDigit(y: int, m0: int, d: int)
    requires 0 <= y <= 99 && -MaxTime <= MakeDay(1900 + y, m0, d) * MsPerDay <= MaxTime
    ensures NewDate(y, m0, d) == Time(MakeDay(1900 + y, m0, d) * MsPerDay)
  {
  }

  /** Midnight of day n falls on day n. */
  lemma DayOfMidnight(n: int)
    ensures DayOf(n * MsPerDay) == n && (n * MsPerDay) % MsPerDay == 0
  {
    DivUnique(n * MsPerDay, MsPerDay, n, 0);
  }

  /** A two-digit year is moved into 1900-1999: the day falls in that year or later, and its time value is in range. */
  lemma TwoDigitYear(c: Civil)
    requires ValidCivil(c) && 0 <= c.year <= 99
    ensures DayFromYear(1900 + c.year) <= MakeDay(1900 + c.year, c.month - 1, c.day)
    ensures -MaxTime <= MakeDay(1900 + c.year, c.month - 1, c.day) * MsPerDay <= MaxTime
  {
    var y := 1900 + c.year;
    MakeDayCivil(Civil(y, c.month, c.day));
    assert DaysBeforeMonth(y, c.month) + c.day <= DaysInYear(y) + 1;
    YearLength(y);
    DayFromYearFormula(y);
    DayFromYearFormula(y + 1);
  }

  /** The year of the calendar date of day n is at least y when n is on or after 1 January of y. */
  lemma YearFromDay(n: int, y: int)
    requires n >= DayFromYear(y)
    ensures CivilFromDays(n).year >= y
  {
    var c := CivilFromDays(n);
    CivilFromDaysValid(n);
    if c.year < y {
      DayWithinYear(c);
      DayFromYearMonotone(c.year + 1, y);
    }
  }

  /** Midnight of a day outside years 0-99 is left alone by normalizeDate. */
  lemma NormalizeMidnight(t: TimeValue)
    requires t % MsPerDay == 0 && !(0 <= CivilFromDays(DayOf(t)).year <= 99)
    ensures NormalizeDate(Time(t)) == Time(t)
  {
    NormalizeOwnDay(t);
    NormalizeFields(Time(t));
    assert DayOf(t) * MsPerDay == t;
  }

  /** normalizeDate is idempotent, even across the two-digit-year rule. */
  lemma NormalizeIdempotent(d: JsDate)
    ensures NormalizeDate(NormalizeDate(d)) == NormalizeDate(d)
  {
    if d.Time? {
      if 0 <= CivilOf(d).year <= 99 {
        TwoDigitNormalized(d);
      } else {
        NormalizeSameDay(d);
        NormalizeMidnight(NormalizeDate(d).ms);
      }
    }
  }

  /** A date in years 0-99 normalizes to a midnight in 1900-1999, which normalizes to itself. */
  lemma TwoDigitNormalized(d: JsDate)
    requires d.Time? && 0 <= CivilOf(d).year <= 99
    ensures NormalizeDate(NormalizeDate(d)) == NormalizeDate(d)
  {
    var c := CivilOf(d);
    CivilFromDaysValid(DayOf(d.ms));
    var n := MakeDay(1900 + c.year, c.month - 1, c.day);
    TwoDigitYear(c);
    NewDateTwoDigit(c.year, c.month - 1, c.day);
    NormalizeFields(d);
    YearFromDay(n, 1900 + c.year);
    DayOfMidnight(n);
    NormalizeMidnight(n * MsPerDay);
  }

  /** Outside years 0-99, normalizeDate is midnight of the same day. */
  lemma NormalizeSameDay(d: JsDate)
    requires d.Time? && !(0 <= CivilOf(d).year <= 99)
    ensures NormalizeDate(d).Time? && NormalizeDate(d).ms <= d.ms < NormalizeDate(d).ms + MsPerDay
    ensures DayOf(NormalizeDate(d).ms) == DayOf(d.ms)
  {
    NormalizeOwnDay(d.ms);
  }

  /** `parseDDMMYYYY(formatDate(d))` is `normalizeDate(d)` for every valid Date in a year 0 or later. */
  lemma ParseFormat(d: JsDate)
    requires d.Time? && CivilOf(d).year >= 0
    ensures ParseDDMMYYYY(FormatDate(d)) == Some(NormalizeDate(d))
  {
    CivilFromDaysValid(DayOf(d.ms));
    ParseFormatCivil(CivilOf(d));
    NormalizeFields(d);
  }

  lemma ParseFormatCivil(c: Civil)
    requires ValidCivil(c) && c.year >= 0
    ensures ParseDDMMYYYY(FormatCivil(c)) == Some(NewDate(c.year, c.month - 1, c.day))
  {
    var dd, mm, yy := PadStart2(NatToString(c.day)), PadStart2(NatToString(c.month)), NatToString(c.year);
    FormatSplit(c);
    NumberOfString(c.day);
    NumberOfString(c.month);
    NumberOfString(c.year);
    ParseOfFields(FormatCivil(c), dd, mm, yy, c.day, c.month, c.year);
  }

  /** A string that splits into three numeric fields parses to the date they spell. */
  lemma ParseOfFields(s: string, a: string, b: string, c: string, day: int, month: int, year: int)
    requires Split(s, '-') == [a, b, c]
    requires StringToNumber(a) == Some(day as real)
    requires StringToNumber(b) == Some(month as real)
    requires StringToNumber(c) == Some(year as real)
    ensures ParseDDMMYYYY(s) == Some(NewDate(year, month - 1, day))
  {
    FieldsOfValues(a, b, c, day, month, year);
  }

  /** Three fields whose `Number` values are whole give those values as `(year, month - 1, day)`. */
  lemma FieldsOfValues(a: string, b: string, c: string, day: int, month: int, year: int)
    requires StringToNumber(a) == Some(day as real)
    requires StringToNumber(b) == Some(month as real)
    requires StringToNumber(c) == Some(year as real)
    ensures FieldsOf([a, b, c]) == Some((year, month - 1, day))
  {
    FieldsDate(day, month, year);
  }

  lemma NormalizeFields(d: JsDate)
    requires d.Time?
    ensures NormalizeDate(d) == NewDate(CivilOf(d).year, CivilOf(d).month - 1, CivilOf(d).day)
  {
  }

  /** Fields that read as whole numbers give that calendar date. */
  lemma FieldsDate(day: int, month: int, year: int)
    ensures WholeFields(Some(day as real), Some(month as real), Some(year as real)) == Some((year, month - 1, day))
  {
    TruncWhole(day);
    TruncWhole(year);
    assert Trunc(month as real - 1.0) == month - 1 by {
      assert month as real - 1.0 == (month - 1) as real;
      TruncWhole(month - 1);
    }
  }

  lemma TruncWhole(n: int)
    ensures Trunc(n as real) == n
  {
  }

  /** formatDate's three fields come apart again at the two dashes. */
  lemma FormatSplit(c: Civil)
    requires c.day >= 0 && c.month >= 0 && c.year >= 0
    ensures Split(FormatCivil(c), '-') == [PadStart2(NatToString(c.day)), PadStart2(NatToString(c.month)), NatToString(c.year)]
  {
    var dd, mm, yy := PadStart2(NatToString(c.day)), PadStart2(NatToString(c.month)), NatToString(c.year);
    assert FormatCivil(c) == dd + "-" + mm + "-" + yy;
    PaddedRoundTrip(c.day);
    PaddedRoundTrip(c.month);
    NatToStringDigits(c.year);
    SplitThree(dd, mm, yy);
  }

  /** formatDate gives two digits, '-', two digits, '-', the year's digits, and they spell the date. */
  lemma FormatShape(c: Civil)
    requires 0 <= c.day < 100 && 0 <= c.month < 100 && c.year >= 0
    ensures
      var s := FormatCivil(c);
      && |s| >= 7 && s[2] == '-' && s[5] == '-'
      && AllDigits(s[..2]) && AllDigits(s[3..5]) && AllDigits(s[6..])
      && DigitsValue(s[..2]) == c.day && DigitsValue(s[3..5]) == c.month && DigitsValue(s[6..]) == c.year
  {
    var dd, mm, yy := PadStart2(NatToString(c.day)), PadStart2(NatToString(c.month)), NatToString(c.year);
    PaddedRoundTrip(c.day);
    PaddedRoundTrip(c.month);
    NatToStringDigits(c.year);
    assert FormatCivil(c) == dd + "-" + mm + "-" + yy;
    DashFields(dd, mm, yy);
  }

  /** Where the fields of `a-b-c` sit, when a and b are two digits each and c is a digit run. */
  lemma DashFields(a: string, b: string, c: string)
    requires |a| == 2 && |b| == 2 && |c| >= 1
    requires AllDigits(a) && AllDigits(b) && AllDigits(c)
    ensures
      var s := a + "-" + b + "-" + c;
      && |s| >= 7 && s[2] == '-' && s[5] == '-'
      && AllDigits(s[..2]) && AllDigits(s[3..5]) && AllDigits(s[6..])
      && DigitsValue(s[..2]) == DigitsValue(a) && DigitsValue(s[3..5]) == DigitsValue(b) && DigitsValue(s[6..]) == DigitsValue(c)
  {
    var s := a + "-" + b + "-" + c;
    assert s[..2] == a;
    assert s[3..5] == b;
    assert s[6..] == c;
  }
}
