/**
 * The part of the JavaScript `Date` object that the date validator relies
 * on, as proleptic Gregorian calendar arithmetic: `new Date(year,
 * monthIndex, day)` and the `getFullYear`, `getMonth` and `getDate` views of
 * the result. Time of day and time zones play no part here.
 */
module JsDate {

  /** A calendar day as the host reports it: `getFullYear()`, `getMonth()` (0-based), `getDate()`. */
  datatype CalDate = CalDate(year: int, month0: int, day: int)

  predicate IsLeapYear(y: int) {
    y % 4 == 0 && (y % 100 != 0 || y % 400 == 0)
  }

  function DaysInMonth(y: int, m0: int): (n: int)
    requires 0 <= m0 < 12
    ensures 28 <= n <= 31
    ensures n == 29 <==> m0 == 1 && IsLeapYear(y)
  {
    if m0 == 1 then (if IsLeapYear(y) then 29 else 28)
    else if m0 == 3 || m0 == 5 || m0 == 8 || m0 == 10 then 30
    else 31
  }

  /** A real day of the calendar: a month 0 to 11 and a day within that month. */
  predicate IsCalendarDate(d: CalDate) {
    0 <= d.month0 < 12 && 1 <= d.day <= DaysInMonth(d.year, d.month0)
  }

  /** The constructor's reading of a year argument: 0 to 99 mean 1900 to 1999. */
  function MakeFullYear(y: int): int {
    if 0 <= y <= 99 then 1900 + y else y
  }

  /**
   * Day `d` counted from the first of month `m0` of year `y`: a day past the
   * end of the month rolls into the following months, a day below 1 into the
   * preceding ones.
   */
  function Normalize(y: int, m0: int, d: int): (r: CalDate)
    requires 0 <= m0 < 12
    ensures IsCalendarDate(r)
    decreases if d < 1 then 1 - d else 0, if d < 1 then 0 else d
  {
    if d < 1 then
      var py := if m0 == 0 then y - 1 else y;
      var pm := if m0 == 0 then 11 else m0 - 1;
      Normalize(py, pm, d + DaysInMonth(py, pm))
    else if d > DaysInMonth(y, m0) then
      var ny := if m0 == 11 then y + 1 else y;
      var nm := if m0 == 11 then 0 else m0 + 1;
      Normalize(ny, nm, d - DaysInMonth(y, m0))
    else
      CalDate(y, m0, d)
  }

  /**
   * The date constructor on a year, a month index and a day: the month index rolls the year by
   * whole years (floor division), then the day rolls the month.
   */
  function Construct(year: int, monthIndex: int, day: int): (r: CalDate)
    ensures IsCalendarDate(r)
  {
    Normalize(MakeFullYear(year) + monthIndex / 12, monthIndex % 12, day)
  }

  /** Days from 1 January of year 1 to 1 January of year `y` (negative before it). */
  function DaysBeforeYear(y: int): int {
    var p := y - 1;
    365 * p + p / 4 - p / 100 + p / 400
  }

  function DaysBeforeMonth(y: int, m0: int): (n: int)
    requires 0 <= m0 <= 12
    ensures 0 <= n <= 31 * m0
  {
    if m0 == 0 then 0 else DaysBeforeMonth(y, m0 - 1) + DaysInMonth(y, m0 - 1)
  }

  /** A serial day number: consecutive calendar days get consecutive numbers. */
  function DayNumber(d: CalDate): int
    requires 0 <= d.month0 < 12
  {
    DaysBeforeYear(d.year) + DaysBeforeMonth(d.year, d.month0) + d.day - 1
  }

  /** Days since 1 January 1970, the unit of the host's time value. */
  function EpochDay(d: CalDate): int
    requires 0 <= d.month0 < 12
  {
    DayNumber(d) - DayNumber(CalDate(1970, 0, 1))
  }

  /** A time value is kept only within 10^8 days of the epoch; beyond it the date is NaN. */
  const MaxEpochDays: int := 100000000

  predicate HasTimeValue(d: CalDate)
    requires 0 <= d.month0 < 12
  {
    -MaxEpochDays <= EpochDay(d) <= MaxEpochDays
  }

  /** Counting one number further adds one multiple of 4, 100 or 400 exactly when that number is one. */
  lemma DivStep(p: int)
    ensures (p + 1) / 4 - p / 4 == if (p + 1) % 4 == 0 then 1 else 0
    ensures (p + 1) / 100 - p / 100 == if (p + 1) % 100 == 0 then 1 else 0
    ensures (p + 1) / 400 - p / 400 == if (p + 1) % 400 == 0 then 1 else 0
  {
  }

  /** The leap days counted up to year `p + 1` exceed those up to year `p` by one exactly when `p + 1` is a leap year. */
  lemma LeapDayStep(p: int)
    ensures ((p + 1) / 4 - p / 4) - ((p + 1) / 100 - p / 100) + ((p + 1) / 400 - p / 400) ==
            if IsLeapYear(p + 1) then 1 else 0
  {
    DivStep(p);
  }

  /** The serial numbering of consecutive years differs by 365 and the leap days counted in between. */
  lemma YearStep(p: int)
    ensures DaysBeforeYear(p + 2) - DaysBeforeYear(p + 1) ==
            365 + ((p + 1) / 4 - p / 4) - ((p + 1) / 100 - p / 100) + ((p + 1) / 400 - p / 400)
  {
  }

  /** The twelve months of a year add up to 366 days in a leap year and 365 otherwise. */
  lemma MonthsOfYear(y: int)
    ensures DaysBeforeMonth(y, 12) == if IsLeapYear(y) then 366 else 365
  {
    assert DaysBeforeMonth(y, 2) == 31 + DaysInMonth(y, 1);
    assert DaysBeforeMonth(y, 4) == DaysBeforeMonth(y, 2) + 61;
    assert DaysBeforeMonth(y, 6) == DaysBeforeMonth(y, 4) + 61;
    assert DaysBeforeMonth(y, 8) == DaysBeforeMonth(y, 6) + 62;
    assert DaysBeforeMonth(y, 10) == DaysBeforeMonth(y, 8) + 61;
    assert DaysBeforeMonth(y, 12) == DaysBeforeMonth(y, 10) + 61;
  }

  /** The serial numbering agrees with the leap-year rule: a year has 366 days exactly when it is a leap year. */
  lemma YearLength(y: int)
    ensures DaysBeforeYear(y + 1) - DaysBeforeYear(y) == if IsLeapYear(y) then 366 else 365
    ensures DaysBeforeMonth(y, 12) == if IsLeapYear(y) then 366 else 365
  {
    var p := y - 1;
    YearStep(p);
    LeapDayStep(p);
    MonthsOfYear(y);
  }

  /** The first of the month that follows `m0` is `DaysInMonth(y, m0)` days later. */
  lemma NextMonthStart(y: int, m0: int)
    requires 0 <= m0 < 12
    ensures var ny := if m0 == 11 then y + 1 else y;
            var nm := if m0 == 11 then 0 else m0 + 1;
            DayNumber(CalDate(ny, nm, 1)) == DayNumber(CalDate(y, m0, 1)) + DaysInMonth(y, m0)
  {
    if m0 == 11 {
      YearLength(y);
    }
  }

  /** A day below 1 is counted back from the first of the preceding month. */
  lemma StepBack(y: int, m0: int, d: int)
    requires 0 <= m0 < 12 && d < 1
    ensures var py := if m0 == 0 then y - 1 else y;
            var pm := if m0 == 0 then 11 else m0 - 1;
            && Normalize(y, m0, d) == Normalize(py, pm, d + DaysInMonth(py, pm))
            && DayNumber(CalDate(y, m0, 1)) == DayNumber(CalDate(py, pm, 1)) + DaysInMonth(py, pm)
  {
    var py := if m0 == 0 then y - 1 else y;
    var pm := if m0 == 0 then 11 else m0 - 1;
    NextMonthStart(py, pm);
  }

  /** A day past the end of the month is counted on from the first of the following month. */
  lemma StepOn(y: int, m0: int, d: int)
    requires 0 <= m0 < 12 && d > DaysInMonth(y, m0)
    ensures var ny := if m0 == 11 then y + 1 else y;
            var nm := if m0 == 11 then 0 else m0 + 1;
            && Normalize(y, m0, d) == Normalize(ny, nm, d - DaysInMonth(y, m0))
            && DayNumber(CalDate(ny, nm, 1)) == DayNumber(CalDate(y, m0, 1)) + DaysInMonth(y, m0)
  {
    NextMonthStart(y, m0);
  }

  /**
   * `Normalize` is day arithmetic: the result is `d - 1` days after the first
   * of the month, which is how the host turns (year, month, day) into a time value.
   */
  lemma {:induction false} NormalizeDayNumber(y: int, m0: int, d: int)
    requires 0 <= m0 < 12
    ensures DayNumber(Normalize(y, m0, d)) == DayNumber(CalDate(y, m0, 1)) + d - 1
    decreases if d < 1 then 1 - d else 0, if d < 1 then 0 else d
  {
    if d < 1 {
      var py := if m0 == 0 then y - 1 else y;
      var pm := if m0 == 0 then 11 else m0 - 1;
      StepBack(y, m0, d);
      NormalizeDayNumber(py, pm, d + DaysInMonth(py, pm));
    } else if d > DaysInMonth(y, m0) {
      var ny := if m0 == 11 then y + 1 else y;
      var nm := if m0 == 11 then 0 else m0 + 1;
      StepOn(y, m0, d);
      NormalizeDayNumber(ny, nm, d - DaysInMonth(y, m0));
    }
  }

  /** Day `d` survives normalisation unchanged exactly when it is a day of that month. */
  lemma {:induction false} NormalizeKeepsDay(y: int, m0: int, d: int)
    requires 0 <= m0 < 12
    ensures Normalize(y, m0, d).day == d <==> 1 <= d <= DaysInMonth(y, m0)
    ensures 1 <= d ==> Normalize(y, m0, d).day <= d
    decreases if d < 1 then 1 - d else 0, if d < 1 then 0 else d
  {
    if d > DaysInMonth(y, m0) {
      var ny := if m0 == 11 then y + 1 else y;
      var nm := if m0 == 11 then 0 else m0 + 1;
      NormalizeKeepsDay(ny, nm, d - DaysInMonth(y, m0));
    }
  }

  /** A date within the constructor's ordinary range is never NaN. */
  lemma ConstructHasTimeValue(year: int, monthIndex: int, day: int)
    requires 0 <= year <= 9999 && -1 <= monthIndex <= 98 && 0 <= day <= 99
    ensures HasTimeValue(Construct(year, monthIndex, day))
  {
    var y := MakeFullYear(year) + monthIndex / 12;
    var m := monthIndex % 12;
    assert 99 <= y <= 10007;
    var n := Normalize(y, m, day);
    NormalizeDayNumber(y, m, day);
    DaysBeforeYearBounds(y);
    assert DayNumber(n) == DaysBeforeYear(y) + DaysBeforeMonth(y, m) + day - 1;
    assert DayNumber(CalDate(1970, 0, 1)) == 719162;
    assert EpochDay(n) == DayNumber(n) - 719162;
  }

  lemma DaysBeforeYearBounds(y: int)
    requires 1 <= y <= 10007
    ensures 0 <= DaysBeforeYear(y) <= 3700000
  {
    var p := y - 1;
    assert 0 <= p / 4 <= 2502;
    assert 0 <= p / 100 <= p / 4;
    assert 0 <= p / 400 <= 26;
  }
}
