/**
 * Calendar days and their "yyyy-MM-dd" text.
 *
 * A day is the number of whole days since 0001-01-01, the first day a .NET
 * DateTime can hold; subtracting two days gives the whole-day difference
 * that `TimeSpan.TotalDays` yields for midnight-aligned dates, and adding 1
 * is `AddDays(1)`.
 */
module Dates {

  type Day = nat

  /** Leap years of the proleptic Gregorian calendar. */
  predicate IsLeapYear(year: int)
  {
    year % 4 == 0 && (year % 100 != 0 || year % 400 == 0)
  }

  function DaysInYear(year: int): (n: nat)
    ensures 365 <= n <= 366
  {
    if IsLeapYear(year) then 366 else 365
  }

  function DaysInMonth(year: int, month: int): (n: nat)
    ensures 28 <= n <= 31
  {
    if month == 2 then (if IsLeapYear(year) then 29 else 28)
    else if month == 4 || month == 6 || month == 9 || month == 11 then 30
    else 31
  }

  function DigitChar(n: nat): (c: char)
    requires n < 10
    ensures '0' <= c <= '9'
  {
    "0123456789"[n]
  }

  /** A character of a date text: a decimal digit or the dash between the fields. */
  predicate IsDateChar(c: char)
  {
    c == '-' || '0' <= c <= '9'
  }

  /** Decimal digits of `n`, without leading zeros. */
  function Decimal(n: nat): (s: string)
    ensures |s| >= 1
    ensures forall i :: 0 <= i < |s| ==> '0' <= s[i] <= '9'
  {
    if n < 10 then [DigitChar(n)] else Decimal(n / 10) + [DigitChar(n % 10)]
  }

  /** Decimal digits of `n`, left-padded with zeros to at least `width` characters. */
  function Padded(n: nat, width: nat): (s: string)
    ensures |s| >= width
    ensures forall i :: 0 <= i < |s| ==> '0' <= s[i] <= '9'
  {
    var digits := Decimal(n);
    if |digits| >= width then digits else seq(width - |digits|, _ => '0') + digits
  }

  /** The text of the `dayOfMonth`-th day of `month` of `year`. */
  function DateText(year: nat, month: nat, dayOfMonth: nat): (s: string)
    ensures |s| >= 10
    ensures forall i :: 0 <= i < |s| ==> IsDateChar(s[i])
  {
    Padded(year, 4) + "-" + Padded(month, 2) + "-" + Padded(dayOfMonth, 2)
  }

  /** Text of the day `d` days after the first day of `month` in `year`. */
  function FormatInYear(year: nat, month: nat, d: nat): (s: string)
    requires 1 <= month <= 12
    ensures |s| >= 10
    ensures forall i :: 0 <= i < |s| ==> IsDateChar(s[i])
    decreases 12 - month
  {
    if d < DaysInMonth(year, month) || month == 12 then DateText(year, month, d + 1)
    else FormatInYear(year, month + 1, d - DaysInMonth(year, month))
  }

  /** Text of the day `d` days after the first day of `year`. */
  function FormatFrom(year: nat, d: nat): (s: string)
    ensures |s| >= 10
    ensures forall i :: 0 <= i < |s| ==> IsDateChar(s[i])
    decreases d
  {
    if d < DaysInYear(year) then FormatInYear(year, 1, d)
    else FormatFrom(year + 1, d - DaysInYear(year))
  }

  /** `ToString("yyyy-MM-dd")` of a day: only digits and dashes, so never a space. */
  function Format(d: Day): (s: string)
    ensures |s| >= 10
    ensures forall i :: 0 <= i < |s| ==> IsDateChar(s[i])
  {
    FormatFrom(1, d)
  }
}
