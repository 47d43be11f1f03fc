/**
 * The date parser the ledger loader uses for the transaction date
 * (`pd.to_datetime` on one field), restricted to ISO `YYYY-MM-DD` text.
 */
module Dates {
  import opened Wrappers
  import opened PyText
  import opened Numbers

  datatype Date = Date(year: int, month: int, day: int)

  predicate IsLeapYear(y: int) {
    y % 4 == 0 && (y % 100 != 0 || y % 400 == 0)
  }

  function DaysInMonth(year: int, month: int): int {
    if month == 2 then (if IsLeapYear(year) then 29 else 28)
    else if month == 4 || month == 6 || month == 9 || month == 11 then 30
    else 31
  }

  /** `a` is a strictly earlier calendar day than `b`. */
  predicate Before(a: Date, b: Date) {
    a.year < b.year
    || (a.year == b.year && (a.month < b.month || (a.month == b.month && a.day < b.day)))
  }

  /**
   * A pandas `Timestamp` covers 1677-09-21 00:12:43 to 2262-04-11 23:47:16,
   * so midnight of every day from 1677-09-22 to 2262-04-11 is representable.
   */
  predicate InTimestampRange(d: Date) {
    Before(Date(1677, 9, 21), d) && !Before(Date(2262, 4, 11), d)
  }

  predicate IsValidDate(d: Date) {
    1 <= d.month <= 12 && 1 <= d.day <= DaysInMonth(d.year, d.month) && InTimestampRange(d)
  }

  /**
   * What `pd.to_datetime` does with one string: a date, the missing value
   * `NaT`, or an exception.
   */
  datatype DateParse = ParsedDate(date: Date) | NotATime | Unparseable

  /** The strings pandas reads as the missing date. */
  predicate IsNaTText(t: string) {
    t == "" || t == "NaT" || t == "nat" || t == "NAT" || t == "nan" || t == "NaN" || t == "NAN"
  }

  /**
   * `pd.to_datetime(s)` for ISO dates: empty text and the not-a-time words
   * give `NotATime`; four, two and two digits joined by `-` that name a real
   * day in the Timestamp range give that date; anything else raises.
   */
  function ParseDate(s: string): (r: DateParse)
    ensures r.ParsedDate? ==> IsValidDate(r.date)
    ensures r.NotATime? <==> IsNaTText(Strip(s))
  {
    ReadDate(Strip(s))
  }

  /** `ParseDate` once the surrounding whitespace is gone. */
  function ReadDate(t: string): (r: DateParse)
    ensures r.ParsedDate? ==> IsValidDate(r.date)
    ensures r.NotATime? <==> IsNaTText(t)
  {
    if IsNaTText(t) then NotATime
    else
      var parts := Split(t, '-');
      if |parts| == 3 && |parts[0]| == 4 && |parts[1]| == 2 && |parts[2]| == 2
         && AllDigits(parts[0]) && AllDigits(parts[1]) && AllDigits(parts[2]) then
        var d := Date(DigitsValue(parts[0]), DigitsValue(parts[1]), DigitsValue(parts[2]));
        if IsValidDate(d) then ParsedDate(d) else Unparseable
      else
        Unparseable
  }

  /** Writes a date as `YYYY-MM-DD`. */
  function FormatDate(d: Date): string
    requires 0 <= d.year && 0 <= d.month && 0 <= d.day
  {
    Join([PaddedDigits(d.year, 4), PaddedDigits(d.month, 2), PaddedDigits(d.day, 2)], '-')
  }

  /** Three digit groups of the right widths, joined by `-`, parse as the date they spell. */
  lemma ParseJoinedDate(y: string, m: string, dd: string, d: Date)
    requires |y| == 4 && |m| == 2 && |dd| == 2
    requires AllDigits(y) && AllDigits(m) && AllDigits(dd)
    requires d == Date(DigitsValue(y), DigitsValue(m), DigitsValue(dd)) && IsValidDate(d)
    ensures ParseDate(Join([y, m, dd], '-')) == ParsedDate(d)
  {
    var t := Join([y, m, dd], '-');
    DigitGroupsSplit(y, m, dd, t);
    DigitGroupsEnds(y, m, dd, t);
    StripUnchanged(t);
    assert !IsNaTText(t) by { assert IsDigit(t[0]); }
  }

  /** Digit groups joined by `-` split back into the groups. */
  lemma DigitGroupsSplit(y: string, m: string, dd: string, t: string)
    requires AllDigits(y) && AllDigits(m) && AllDigits(dd)
    requires t == Join([y, m, dd], '-')
    ensures Split(t, '-') == [y, m, dd]
  {
    var fields := [y, m, dd];
    DigitsHaveNoSeparator(y);
    DigitsHaveNoSeparator(m);
    DigitsHaveNoSeparator(dd);
    assert forall k :: 0 <= k < |fields| ==> '-' !in fields[k];
    SplitJoin(fields, '-');
  }

  /** Digit groups joined by `-` begin and end with a digit. */
  lemma DigitGroupsEnds(y: string, m: string, dd: string, t: string)
    requires |y| == 4 && |dd| == 2
    requires AllDigits(y) && AllDigits(m) && AllDigits(dd)
    requires t == Join([y, m, dd], '-')
    ensures t != [] && IsDigit(t[0]) && IsDigit(t[|t| - 1])
    ensures !IsSpace(t[0]) && !IsSpace(t[|t| - 1])
  {
    var fields := [y, m, dd];
    DigitsHaveNoSeparator(y);
    DigitsHaveNoSeparator(m);
    DigitsHaveNoSeparator(dd);
    assert forall k :: 0 <= k < |fields| ==> '-' !in fields[k];
    JoinFront(fields, '-');
    JoinBack(fields, '-');
    assert t[0] == y[0];
    assert t[|t| - 1] == t[|t| - 2..][1] == dd[1];
    NotSpace(t[0]);
    NotSpace(t[|t| - 1]);
  }

  lemma ValidDateBounds(d: Date)
    requires IsValidDate(d)
    ensures 1677 <= d.year <= 2262 && 1 <= d.month <= 12 && 1 <= d.day <= 31
  {
  }

  /** The three digit groups `FormatDate` writes have widths four, two and two. */
  lemma FormatDateWidths(d: Date)
    requires IsValidDate(d)
    ensures |PaddedDigits(d.year, 4)| == 4 && |PaddedDigits(d.month, 2)| == 2
    ensures |PaddedDigits(d.day, 2)| == 2
  {
    ValidDateBounds(d);
    Pow10Small();
    PaddedExact(d.year, 4);
    PaddedExact(d.month, 2);
    PaddedExact(d.day, 2);
  }

  /** Every representable date survives being written and parsed again. */
  lemma ParseFormatDate(d: Date)
    requires IsValidDate(d)
    ensures ParseDate(FormatDate(d)) == ParsedDate(d)
  {
    FormatDateWidths(d);
    ParseJoinedDate(PaddedDigits(d.year, 4), PaddedDigits(d.month, 2), PaddedDigits(d.day, 2), d);
  }
}
