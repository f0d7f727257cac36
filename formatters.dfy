/**
 * `formatDate` of the client: a date shown as `DD-MM-YYYY`, with the day
 * and the 1-based month padded to two characters and the year printed as
 * it is. The date is given by its calendar fields.
 */
module Formatters {
  import opened Text
  import opened JsDate
  import opened DateFormat

  /** Left-padding with "0" to a width of two characters. */
  function PadStart2(s: string): (r: string)
    ensures |s| >= 2 ==> r == s
    ensures |s| < 2 ==> |r| == 2 && r[2 - |s|..] == s && forall i :: 0 <= i < 2 - |s| ==> r[i] == '0'
  {
    if |s| >= 2 then s else if |s| == 1 then "0" + s else "00"
  }

  /** The day, a dash, the 1-based month, a dash and the year, as `formatDate` lays them out. */
  function FormatDate(d: CalDate): (out: string)
    ensures var y := IntToString(d.year);
            && |out| >= |y| + 6 && out[|out| - |y| - 1] == '-' && out[|out| - |y|..] == y
  {
    PadStart2(IntToString(d.day)) + "-" + PadStart2(IntToString(d.month0 + 1)) + "-" + IntToString(d.year)
  }

  /** A number from 0 to 99, padded, is two digits that read back as that number. */
  lemma TwoDigits(n: nat)
    requires n <= 99
    ensures var t := PadStart2(IntToString(n));
            |t| == 2 && AllDigits(t) && DigitsValue(t) == n
  {
    NatToStringWidth(n);
    var s := NatToString(n);
    var t := PadStart2(s);
    if |s| == 1 {
      assert t == ['0', s[0]];
      assert t[..1] == ['0'];
    }
  }

  /** Two two-character fields and a third joined by dashes: where each part sits. */
  lemma DashedLayout(dd: string, mm: string, yy: string)
    requires |dd| == 2 && |mm| == 2
    ensures var out := dd + "-" + mm + "-" + yy;
            && |out| == 6 + |yy| && out[2] == '-' && out[5] == '-'
            && out[0..2] == dd && out[3..5] == mm && out[6..] == yy
  {
  }

  /**
   * The layout of the output for a calendar date: the day, a dash, the
   * 1-based month, a dash, then the year's numeral, the first two readable back.
   */
  lemma FormatDateLayout(d: CalDate)
    requires IsCalendarDate(d)
    ensures var out := FormatDate(d);
            && |out| == 6 + |IntToString(d.year)|
            && out[2] == '-' && out[5] == '-'
            && AllDigits(out[0..2]) && DigitsValue(out[0..2]) == d.day
            && AllDigits(out[3..5]) && DigitsValue(out[3..5]) == d.month0 + 1
            && out[6..] == IntToString(d.year)
  {
    var dd := PadStart2(IntToString(d.day));
    var mm := PadStart2(IntToString(d.month0 + 1));
    var yy := IntToString(d.year);
    TwoDigits(d.day);
    TwoDigits(d.month0 + 1);
    assert FormatDate(d) == dd + "-" + mm + "-" + yy;
    DashedLayout(dd, mm, yy);
  }

  /**
   * A year below 1000 is rejected by the validator's format check: from 0 to
   * 999 it prints with fewer than four digits, and a negative year puts its
   * minus sign where the year's first digit belongs.
   */
  lemma ShortYearRejected(d: CalDate, now: Now)
    requires IsCalendarDate(d) && d.year < 1000
    ensures ValidateAndParseDate(FormatDate(d), now) == Invalid(FormatError)
  {
    FormatDateLayout(d);
    if d.year < 0 {
      var out := FormatDate(d);
      assert out[6] == IntToString(d.year)[0] == '-';
      assert !IsDigit(out[6]);
    } else {
      NatToStringWidth(d.year);
    }
  }

  /** A formatted calendar date with a four-digit year has the validator's pattern, and its fields read back. */
  lemma FormattedFields(d: CalDate)
    requires IsCalendarDate(d) && 1000 <= d.year <= 9999
    ensures var s := FormatDate(d);
            && MatchesPattern(s)
            && DayOf(s) == d.day && MonthOf(s) == d.month0 + 1 && YearOf(s) == d.year
  {
    var s := FormatDate(d);
    FormatDateLayout(d);
    NatToStringWidth(d.year);
    assert s[6..10] == NatToString(d.year);
    forall i | 0 <= i < 10 && i != 2 && i != 5 ensures IsDigit(s[i]) {
      if i < 2 {
        assert s[i] == s[0..2][i];
      } else if i < 5 {
        assert s[i] == s[3..5][i - 3];
      } else {
        assert s[i] == s[6..10][i - 6];
      }
    }
  }

  /**
   * Round trip: a formatted calendar date with a four-digit year passes the
   * format and value checks and parses back to itself; only the window
   * check depends on the processing month.
   */
  lemma RoundTrip(d: CalDate, now: Now)
    requires IsCalendarDate(d) && 1000 <= d.year <= 9999
    ensures var s := FormatDate(d);
            && MatchesPattern(s)
            && ConstructedDate(s) == d
            && ValidateAndParseDate(s, now) ==
               if now == Now(d.year, d.month0) then Valid(d) else Invalid(WindowError)
  {
    var s := FormatDate(d);
    FormattedFields(d);
    assert RolledYear(s) == d.year && RolledMonth(s) == d.month0;
    ParsedDate(s, now);
  }
}
