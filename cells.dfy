/**
 * Spreadsheet cell values as the pipeline receives them from the workbook
 * reader, and the three JavaScript coercions the pipeline applies to them:
 * truthiness, the test whether the number a value converts to is NaN,
 * and the "yes" test of the Verified column.
 */
module Cells {
  import opened Text
  import JsDate

  /** A cell value: empty, text, a number, a boolean or a date. */
  datatype Cell = Null | Str(s: string) | Num(n: real) | Bool(b: bool) | Date(date: JsDate.CalDate)

  /** JavaScript falsiness: the falsy values are null, the empty string, zero and false; a date object is truthy. */
  function IsFalsy(v: Cell): (falsy: bool)
    ensures falsy <==> v == Null || v == Str("") || v == Num(0.0) || v == Bool(false)
  {
    match v
    case Null => true
    case Str(s) => s == ""
    case Num(n) => n == 0.0
    case Bool(b) => !b
    case Date(_) => false
  }

  /**
   * Whether the number a value converts to is NaN. Null, booleans, numbers and dates all convert to a
   * number; text converts when its trimmed form is empty (then it is 0) or
   * a numeric literal.
   */
  function IsNaNNumber(v: Cell): (nan: bool)
    ensures nan ==> v.Str? && Trim(v.s) != []
  {
    v.Str? && !IsNumericText(v.s)
  }

  /** The string `s` is a StringNumericLiteral: whitespace around nothing or around a numeral. */
  predicate IsNumericText(s: string) {
    var t := Trim(s);
    t == [] || IsDecimalNumeral(t) || IsNonDecimalNumeral(t)
  }

  predicate IsHexDigit(c: char) {
    IsDigit(c) || 'a' <= c <= 'f' || 'A' <= c <= 'F'
  }

  predicate IsOctalDigit(c: char) {
    '0' <= c <= '7'
  }

  predicate IsBinaryDigit(c: char) {
    c == '0' || c == '1'
  }

  /** `0x…`, `0o…` or `0b…` with at least one digit of that base; no sign. */
  predicate IsNonDecimalNumeral(t: string) {
    && |t| >= 3 && t[0] == '0'
    && (|| (t[1] in {'x', 'X'} && forall i :: 2 <= i < |t| ==> IsHexDigit(t[i]))
        || (t[1] in {'o', 'O'} && forall i :: 2 <= i < |t| ==> IsOctalDigit(t[i]))
        || (t[1] in {'b', 'B'} && forall i :: 2 <= i < |t| ==> IsBinaryDigit(t[i])))
  }

  /** An optional sign, then `Infinity` or a decimal mantissa with an optional exponent. */
  predicate IsDecimalNumeral(t: string) {
    var u := if t != [] && t[0] in {'+', '-'} then t[1..] else t;
    u == "Infinity" || IsUnsignedDecimal(u)
  }

  /** The position of the first character of `s` in `cs`, or `|s|` when there is none. */
  function IndexOfAny(s: string, cs: set<char>): (k: nat)
    ensures k <= |s|
    ensures forall i :: 0 <= i < k ==> s[i] !in cs
    ensures k < |s| ==> s[k] in cs
  {
    if s == [] || s[0] in cs then 0 else 1 + IndexOfAny(s[1..], cs)
  }

  predicate IsUnsignedDecimal(u: string) {
    var e := IndexOfAny(u, {'e', 'E'});
    IsMantissa(u[..e]) && (e == |u| || IsExponent(u[e + 1..]))
  }

  /** Digits with at most one decimal point, and at least one digit. */
  predicate IsMantissa(m: string) {
    var p := IndexOfAny(m, {'.'});
    if p == |m| then m != [] && AllDigits(m)
    else AllDigits(m[..p]) && AllDigits(m[p + 1..]) && |m| > 1
  }

  /** The part after `e`: an optional sign and at least one digit. */
  predicate IsExponent(x: string) {
    var v := if x != [] && x[0] in {'+', '-'} then x[1..] else x;
    v != [] && AllDigits(v)
  }

  /** The value's text, trimmed and lowered, is "yes"; the text of a non-string value is never "yes". */
  function IsYes(v: Cell): (yes: bool)
    ensures yes ==> v.Str? && |Trim(v.s)| == 3
  {
    v.Str? && ToLowerAscii(Trim(v.s)) == "yes"
  }

  /** The text is "yes" in any mix of cases, with nothing but whitespace around it. */
  lemma IsYesIff(s: string)
    ensures IsYes(Str(s)) <==>
      var t := Trim(s);
      |t| == 3 && t[0] in {'y', 'Y'} && t[1] in {'e', 'E'} && t[2] in {'s', 'S'}
  {
    var t := Trim(s);
    var l := ToLowerAscii(t);
    if |t| == 3 {
      assert l == [LowerChar(t[0]), LowerChar(t[1]), LowerChar(t[2])];
    }
  }

  /** Empty and blank text coerce to zero, so the numeric rule lets them through. */
  lemma BlankIsNumeric(s: string)
    requires forall i :: 0 <= i < |s| ==> IsJsWhitespace(s[i])
    ensures !IsNaNNumber(Str(s)) && !IsNaNNumber(Null)
  {
  }

  /** A non-empty string of decimal digits is numeric. */
  lemma DigitsAreNumeric(s: string)
    requires s != [] && AllDigits(s)
    ensures !IsNaNNumber(Str(s))
  {
    forall k | 0 <= k < |s| ensures !IsJsWhitespace(s[k]) {
      assert IsDigit(s[k]);
    }
    assert Trim(s) == s;
    assert IndexOfAny(s, {'e', 'E'}) == |s|;
    assert s[..|s|] == s;
  }

  /** Text that neither starts nor ends with whitespace is its own trim. */
  lemma TrimKeeps(s: string)
    requires s != [] && !IsJsWhitespace(s[0]) && !IsJsWhitespace(s[|s| - 1])
    ensures Trim(s) == s
  {
  }

  /** Text that begins and ends with a lower-case letter is never a number: `Number` of it is NaN. */
  lemma LetterTextIsNaN(s: string)
    requires s != [] && 'a' <= s[0] <= 'z' && 'a' <= s[|s| - 1] <= 'z'
    ensures IsNaNNumber(Str(s))
  {
    TrimKeeps(s);
    assert !IsNonDecimalNumeral(s);
    var e := IndexOfAny(s, {'e', 'E'});
    var m := s[..e];
    if e > 0 {
      assert m[0] == s[0];
      var p := IndexOfAny(m, {'.'});
      assert p > 0;
      assert !IsDigit(m[..p][0]);
    }
    assert !IsMantissa(m);
    assert s != "Infinity" by { assert "Infinity"[0] == 'I'; }
  }

  /** The coercion of the Verified column on a padded cell: "yes" in any case, with any whitespace around it, is true. */
  lemma YesPadded(w1: string, t: string, w2: string)
    requires forall k :: 0 <= k < |w1| ==> IsJsWhitespace(w1[k])
    requires forall k :: 0 <= k < |w2| ==> IsJsWhitespace(w2[k])
    requires |t| == 3 && t[0] in {'y', 'Y'} && t[1] in {'e', 'E'} && t[2] in {'s', 'S'}
    ensures IsYes(Str(w1 + t + w2))
  {
    TrimPadded(w1, t, w2);
    IsYesIff(w1 + t + w2);
  }
}
