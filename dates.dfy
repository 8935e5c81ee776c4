/**
 * Calendar days as `SimpleDateFormat("dd/MM/yyyy")` prints them, and the
 * year-back step `Calendar.add(Calendar.YEAR, -1)`.
 */
module Dates {
  import opened Wrappers

  datatype Date = Date(day: int, month: int, year: int)

  /** Years the model covers: Gregorian throughout and printed with four digits. */
  const MinYear := 1583
  const MaxYear := 9999

  predicate IsLeapYear(y: int) {
    y % 4 == 0 && (y % 100 != 0 || y % 400 == 0)
  }

  function DaysInMonth(month: int, year: int): (n: int)
    requires 1 <= month <= 12
    ensures 28 <= n <= 31
    ensures n == 29 <==> month == 2 && IsLeapYear(year)
  {
    if month == 2 then (if IsLeapYear(year) then 29 else 28)
    else if month == 4 || month == 6 || month == 9 || month == 11 then 30
    else 31
  }

  predicate IsValid(d: Date) {
    MinYear <= d.year <= MaxYear && 1 <= d.month <= 12 && 1 <= d.day <= DaysInMonth(d.month, d.year)
  }

  // ----- dd/MM/yyyy -----

  function DigitChar(n: int): (c: char)
    requires 0 <= n <= 9
    ensures '0' <= c <= '9'
  {
    ('0' as int + n) as char
  }

  function DigitValue(c: char): int {
    c as int - '0' as int
  }

  predicate IsDigit(c: char) {
    '0' <= c <= '9'
  }

  /** Zero-padded to two digits. */
  function TwoDigits(n: int): string
    requires 0 <= n < 100
  {
    [DigitChar(n / 10), DigitChar(n % 10)]
  }

  /** Zero-padded to four digits. */
  function FourDigits(n: int): string
    requires 0 <= n < 10000
  {
    [DigitChar(n / 1000), DigitChar(n / 100 % 10), DigitChar(n / 10 % 10), DigitChar(n % 10)]
  }

  /** `SimpleDateFormat("dd/MM/yyyy").format(d)`, with ASCII digits. */
  function Format(d: Date): (s: string)
    requires IsValid(d)
    ensures |s| == 10 && s[2] == '/' && s[5] == '/'
    ensures forall i :: 0 <= i < 10 && i != 2 && i != 5 ==> IsDigit(s[i])
  {
    TwoDigits(d.day) + "/" + TwoDigits(d.month) + "/" + FourDigits(d.year)
  }

  /** The decimal value of a string of digits. */
  function DecimalValue(digits: string): int {
    if digits == [] then 0
    else DecimalValue(digits[..|digits| - 1]) * 10 + DigitValue(digits[|digits| - 1])
  }

  /** Reads a "dd/MM/yyyy" string back; the left inverse of `Format`. */
  function ReadBack(s: string): Option<Date> {
    if |s| == 10 && s[2] == '/' && s[5] == '/' then
      var d := Date(DecimalValue(s[0..2]), DecimalValue(s[3..5]), DecimalValue(s[6..10]));
      if IsValid(d) then Some(d) else None
    else None
  }

  lemma TwoDigitsValue(n: int)
    requires 0 <= n < 100
    ensures DecimalValue(TwoDigits(n)) == n
  {
    var s := TwoDigits(n);
    assert s[..1][..0] == [];
    assert DecimalValue(s[..1]) == n / 10;
  }

  lemma FourDigitsValue(n: int)
    requires 0 <= n < 10000
    ensures DecimalValue(FourDigits(n)) == n
  {
    var s := FourDigits(n);
    assert s[..3][..2][..1][..0] == [];
    assert DecimalValue(s[..1]) == n / 1000;
    assert DecimalValue(s[..2]) == n / 100 by {
      assert s[..2][..1] == s[..1];
    }
    assert DecimalValue(s[..3]) == n / 10 by {
      assert s[..3][..2] == s[..2];
    }
  }

  /** Formatting loses nothing: reading the text back gives the date. */
  lemma {:induction false} FormatRoundTrip(d: Date)
    requires IsValid(d)
    ensures ReadBack(Format(d)) == Some(d)
  {
    var s := Format(d);
    assert s[0..2] == TwoDigits(d.day);
    assert s[3..5] == TwoDigits(d.month);
    assert s[6..10] == FourDigits(d.year);
    TwoDigitsValue(d.day);
    TwoDigitsValue(d.month);
    FourDigitsValue(d.year);
  }

  /** Distinct days print as distinct strings, so comparing strings compares days. */
  lemma FormatInjective(a: Date, b: Date)
    requires IsValid(a) && IsValid(b)
    ensures Format(a) == Format(b) <==> a == b
  {
    FormatRoundTrip(a);
    FormatRoundTrip(b);
  }

  // ----- Calendar.add(Calendar.YEAR, -1) -----

  /**
   * The same day one calendar year earlier. The month is kept; a day the
   * earlier month does not have (29 February) is clamped to its last day.
   */
  function YearBack(d: Date): (r: Date)
    requires IsValid(d) && d.year > MinYear
    ensures IsValid(r) && r.year == d.year - 1 && r.month == d.month
    ensures d.month == 2 && d.day == 29 ==> r.day == 28
    ensures !(d.month == 2 && d.day == 29) ==> r.day == d.day
  {
    var last := DaysInMonth(d.month, d.year - 1);
    Date(if d.day <= last then d.day else last, d.month, d.year - 1)
  }

  /**
   * No year-back target is ever 29 February: two consecutive years are never
   * both leap years.
   */
  lemma YearBackNeverLeapDay(d: Date)
    requires IsValid(d) && d.year > MinYear
    ensures !(YearBack(d).month == 2 && YearBack(d).day == 29)
  {
    if d.month == 2 && d.day == 29 {
      assert IsLeapYear(d.year);
    }
  }
}
