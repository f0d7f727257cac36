/**
 * `validateAndParseDate`: a fixed-width `DD-MM-YYYY` match, a calendar
 * check of the day, and a window check against the month the upload is
 * processed in. The current month is an explicit parameter.
 */
module DateFormat {
  import opened Text
  import opened JsDate

  /** The processing moment as the validator reads it: its full year and its 0-based month. */
  datatype Now = Now(year: int, month0: int)

  datatype DateResult = Valid(date: CalDate) | Invalid(message: string)

  const FormatError: string := "Invalid date format. Use DD-MM-YYYY."
  const ValueError: string := "Invalid date value."
  const WindowError: string := "Date must be within the current month."

  /** The anchored `DD-MM-YYYY` pattern: exactly two digits, a dash, two digits, a dash, four digits. */
  function MatchesPattern(s: string): (m: bool)
    ensures m <==> |s| == 10 && s[2] == '-' && s[5] == '-' && AllDigits(s[0..2]) && AllDigits(s[3..5]) && AllDigits(s[6..10])
  {
    && |s| == 10 && s[2] == '-' && s[5] == '-'
    && forall i :: 0 <= i < 10 && i != 2 && i != 5 ==> IsDigit(s[i])
  }

  function DayOf(s: string): (n: nat)
    requires MatchesPattern(s)
    ensures n <= 99
  {
    DigitsValueBound(s[0..2]);
    DigitsValue(s[0..2])
  }

  function MonthOf(s: string): (n: nat)
    requires MatchesPattern(s)
    ensures n <= 99
  {
    DigitsValueBound(s[3..5]);
    DigitsValue(s[3..5])
  }

  function YearOf(s: string): (n: nat)
    requires MatchesPattern(s)
    ensures n <= 9999
  {
    DigitsValueBound(s[6..10]);
    assert Pow10(4) == 10 * Pow10(3) == 100 * Pow10(2) == 10000;
    DigitsValue(s[6..10])
  }

  /** The captured numbers read digit by digit. */
  lemma PatternFields(s: string)
    requires MatchesPattern(s)
    ensures DayOf(s) == 10 * DigitValue(s[0]) + DigitValue(s[1])
    ensures MonthOf(s) == 10 * DigitValue(s[3]) + DigitValue(s[4])
    ensures YearOf(s) == 1000 * DigitValue(s[6]) + 100 * DigitValue(s[7]) + 10 * DigitValue(s[8]) + DigitValue(s[9])
  {
    var d, m, y := s[0..2], s[3..5], s[6..10];
    assert d[0] == s[0] && d[1] == s[1];
    assert m[0] == s[3] && m[1] == s[4];
    assert y[0] == s[6] && y[1] == s[7] && y[2] == s[8] && y[3] == s[9];
    DigitsValue2(d);
    DigitsValue2(m);
    DigitsValue4(y);
  }

  /** The date the constructor builds from the three captured numbers (month made 0-based). */
  function ConstructedDate(s: string): (d: CalDate)
    requires MatchesPattern(s)
    ensures IsCalendarDate(d) && HasTimeValue(d)
  {
    ConstructHasTimeValue(YearOf(s), MonthOf(s) - 1, DayOf(s));
    Construct(YearOf(s), MonthOf(s) - 1, DayOf(s))
  }

  /**
   * The validator. The checks run in order (format, then value, then
   * window) and the first that fails gives the message.
   */
  function ValidateAndParseDate(s: string, now: Now): (r: DateResult)
    ensures r == Invalid(FormatError) <==> !MatchesPattern(s)
    ensures r.Valid? ==> && MatchesPattern(s) && IsCalendarDate(r.date)
                         && r.date.day == DayOf(s)
                         && r.date.year == now.year && r.date.month0 == now.month0
    ensures r.Valid? || r.message in {FormatError, ValueError, WindowError}
  {
    if !MatchesPattern(s) then
      Invalid(FormatError)
    else
      var day := DayOf(s);
      var date := Construct(YearOf(s), MonthOf(s) - 1, day);
      if !HasTimeValue(date) || date.day != day then
        Invalid(ValueError)
      else if date.month0 != now.month0 || date.year != now.year then
        Invalid(WindowError)
      else
        Valid(date)
  }

  /** The year and 0-based month the captured month rolls the captured year to. */
  function RolledYear(s: string): int
    requires MatchesPattern(s)
  {
    MakeFullYear(YearOf(s)) + (MonthOf(s) - 1) / 12
  }

  function RolledMonth(s: string): (m: int)
    requires MatchesPattern(s)
    ensures 0 <= m < 12
  {
    (MonthOf(s) - 1) % 12
  }

  /**
   * "Invalid date value." arises exactly when the captured day is 00 or
   * beyond the length of the (rolled) month; the time-value test never fires.
   */
  lemma ValueErrorIff(s: string, now: Now)
    requires MatchesPattern(s)
    ensures ValidateAndParseDate(s, now) == Invalid(ValueError) <==>
            DayOf(s) == 0 || DayOf(s) > DaysInMonth(RolledYear(s), RolledMonth(s))
  {
    ConstructHasTimeValue(YearOf(s), MonthOf(s) - 1, DayOf(s));
    assert Construct(YearOf(s), MonthOf(s) - 1, DayOf(s)) == Normalize(RolledYear(s), RolledMonth(s), DayOf(s));
    NormalizeKeepsDay(RolledYear(s), RolledMonth(s), DayOf(s));
  }

  /** A string that passes the value check denotes the captured day of the rolled month. */
  lemma ParsedDate(s: string, now: Now)
    requires MatchesPattern(s)
    requires 1 <= DayOf(s) <= DaysInMonth(RolledYear(s), RolledMonth(s))
    ensures ConstructedDate(s) == CalDate(RolledYear(s), RolledMonth(s), DayOf(s))
    ensures ValidateAndParseDate(s, now) ==
            if now == Now(RolledYear(s), RolledMonth(s)) then Valid(ConstructedDate(s))
            else Invalid(WindowError)
  {
  }

  /** The result depends on the processing moment only through the window check. */
  lemma WindowOnlyDependsOnNow(s: string, now1: Now, now2: Now)
    ensures ValidateAndParseDate(s, now1).Invalid? && ValidateAndParseDate(s, now1).message != WindowError
            ==> ValidateAndParseDate(s, now2) == ValidateAndParseDate(s, now1)
  {
  }

  /** With June 2024 as the processing month, a June date passes. */
  lemma JuneDatePasses()
    ensures ValidateAndParseDate("15-06-2024", Now(2024, 5)) == Valid(CalDate(2024, 5, 15))
  {
    var s := "15-06-2024";
    assert MatchesPattern(s);
    PatternFields(s);
    assert DayOf(s) == 15 && MonthOf(s) == 6 && YearOf(s) == 2024;
    assert RolledYear(s) == 2024 && RolledMonth(s) == 5;
    ParsedDate(s, Now(2024, 5));
  }

  /** With June 2024 as the processing month, a July date is outside the window. */
  lemma JulyDateOutsideJune()
    ensures ValidateAndParseDate("01-07-2024", Now(2024, 5)) == Invalid(WindowError)
  {
    var t := "01-07-2024";
    assert MatchesPattern(t);
    PatternFields(t);
    assert DayOf(t) == 1 && MonthOf(t) == 7 && YearOf(t) == 2024;
    assert RolledYear(t) == 2024 && RolledMonth(t) == 6;
    ParsedDate(t, Now(2024, 5));
  }

  /** An ISO date has the wrong format. */
  lemma IsoDateRejected(now: Now)
    ensures ValidateAndParseDate("2024-06-01", now) == Invalid(FormatError)
  {
    assert "2024-06-01"[2] != '-';
  }

  /** The 31st of February is not a date. */
  lemma FebruaryThirtyFirst(now: Now)
    ensures ValidateAndParseDate("31-02-2024", now) == Invalid(ValueError)
  {
    var s := "31-02-2024";
    assert MatchesPattern(s);
    PatternFields(s);
    assert DayOf(s) == 31 && MonthOf(s) == 2 && YearOf(s) == 2024;
    assert RolledYear(s) == 2024 && RolledMonth(s) == 1;
    ValueErrorIff(s, now);
  }

  /** The 29th of February of a common year is not a date. */
  lemma CommonYearLeapDay(now: Now)
    ensures ValidateAndParseDate("29-02-2023", now) == Invalid(ValueError)
  {
    var t := "29-02-2023";
    assert MatchesPattern(t);
    PatternFields(t);
    assert DigitValue(t[0]) == 2 && DigitValue(t[1]) == 9 && DigitValue(t[3]) == 0 && DigitValue(t[4]) == 2;
    assert DigitValue(t[6]) == 2 && DigitValue(t[7]) == 0 && DigitValue(t[8]) == 2 && DigitValue(t[9]) == 3;
    assert DayOf(t) == 29 && MonthOf(t) == 2 && YearOf(t) == 2023;
    assert RolledYear(t) == 2023 && RolledMonth(t) == 1;
    assert !IsLeapYear(2023);
    ValueErrorIff(t, now);
  }

  /** The 29th of February of a leap year is a date. */
  lemma LeapDayExample()
    ensures ValidateAndParseDate("29-02-2024", Now(2024, 1)) == Valid(CalDate(2024, 1, 29))
  {
    var s := "29-02-2024";
    assert MatchesPattern(s);
    PatternFields(s);
    assert DayOf(s) == 29 && MonthOf(s) == 2 && YearOf(s) == 2024;
    assert RolledYear(s) == 2024 && RolledMonth(s) == 1;
    assert IsLeapYear(2024);
    ParsedDate(s, Now(2024, 1));
  }

  /** A two-digit year is read as a year of the 1900s: "15-06-0024" is 15 June 1924. */
  lemma TwoDigitYearExample()
    ensures ValidateAndParseDate("15-06-0024", Now(1924, 5)) == Valid(CalDate(1924, 5, 15))
  {
    var s := "15-06-0024";
    assert MatchesPattern(s);
    PatternFields(s);
    assert DayOf(s) == 15 && MonthOf(s) == 6 && YearOf(s) == 24;
    assert RolledYear(s) == 1924 && RolledMonth(s) == 5;
    ParsedDate(s, Now(1924, 5));
  }

  /** Month 13 is not rejected: it rolls into January of the following year. */
  lemma MonthRollExample()
    ensures ValidateAndParseDate("15-13-2023", Now(2024, 0)) == Valid(CalDate(2024, 0, 15))
  {
    var s := "15-13-2023";
    assert MatchesPattern(s);
    PatternFields(s);
    assert DayOf(s) == 15 && MonthOf(s) == 13 && YearOf(s) == 2023;
    assert RolledYear(s) == 2024 && RolledMonth(s) == 0;
    ParsedDate(s, Now(2024, 0));
  }
}
