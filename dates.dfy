/**
 * Calendar dates as `java.time.LocalDate` represents them (proleptic ISO calendar),
 * with the comparisons the service uses and the years component of `Period.between`.
 */
module Dates {

  datatype LocalDate = LocalDate(year: int, month: int, day: int)

  /** ISO leap-year rule. */
  predicate IsLeapYear(y: int)
  {
    y % 4 == 0 && (y % 100 != 0 || y % 400 == 0)
  }

  function DaysInMonth(y: int, m: int): (n: int)
    ensures 28 <= n <= 31
  {
    if m == 2 then (if IsLeapYear(y) then 29 else 28)
    else if m == 4 || m == 6 || m == 9 || m == 11 then 30
    else 31
  }

  /** Every `LocalDate` object is a valid calendar day. */
  type Date = d: LocalDate | 1 <= d.month <= 12 && 1 <= d.day <= DaysInMonth(d.year, d.month)
    witness LocalDate(1970, 1, 1)

  /**
   * A number that orders dates the way the calendar does: months are spaced 31 days apart
   * and years 12 such months apart, so no two dates share one.
   */
  function Ordinal(d: Date): int
  {
    d.year * 372 + (d.month - 1) * 31 + (d.day - 1)
  }

  /** `LocalDate.compareTo`: the year difference, else the month difference, else the day difference. */
  function CompareTo(a: Date, b: Date): (c: int)
    ensures c < 0 <==> Ordinal(a) < Ordinal(b)
    ensures c == 0 <==> a == b
  {
    if a.year != b.year then a.year - b.year
    else if a.month != b.month then a.month - b.month
    else a.day - b.day
  }

  /** `a.isBefore(b)`: `a` comes strictly earlier in the calendar. */
  predicate IsBefore(a: Date, b: Date)
    ensures IsBefore(a, b) <==> Ordinal(a) < Ordinal(b)
  {
    CompareTo(a, b) < 0
  }

  /** `a.isAfter(b)`: `a` comes strictly later in the calendar. */
  predicate IsAfter(a: Date, b: Date)
    ensures IsAfter(a, b) <==> Ordinal(b) < Ordinal(a)
  {
    CompareTo(a, b) > 0
  }

  /** Lexicographic order on (year, month, day). */
  predicate Precedes(a: Date, b: Date)
  {
    a.year < b.year || (a.year == b.year && (a.month < b.month || (a.month == b.month && a.day <= b.day)))
  }

  /** Neither being before nor after the other is exactly lexicographic order, both ways round. */
  lemma NotAfterIsPrecedes(a: Date, b: Date)
    ensures !IsAfter(a, b) <==> Precedes(a, b)
    ensures !IsBefore(b, a) <==> Precedes(a, b)
    ensures IsBefore(a, b) <==> IsAfter(b, a)
  {
  }

  /** Java's `long` division, which truncates toward zero (Dafny's `/` is Euclidean). */
  function TruncDiv(a: int, b: int): (q: int)
    requires b > 0
    ensures a >= 0 ==> q * b <= a < q * b + b
    ensures a < 0 ==> q * b - b < a <= q * b
  {
    if a >= 0 then a / b else -((-a) / b)
  }

  /** The proleptic month count `year * 12 + month - 1` that `LocalDate.until` subtracts. */
  function ProlepticMonth(d: Date): int
  {
    d.year * 12 + d.month - 1
  }

  /**
   * `Period.between(start, end).getYears()`: the month difference, moved one month toward zero
   * when the day of month points the other way, truncated to whole years. A period that runs
   * forward never has negative years, and one that runs backward never positive years.
   */
  function PeriodYears(start: Date, end: Date): (y: int)
    ensures !IsAfter(start, end) ==> y >= 0
    ensures IsAfter(start, end) ==> y <= 0
  {
    var totalMonths := ProlepticMonth(end) - ProlepticMonth(start);
    var days := end.day - start.day;
    var months :=
      if totalMonths > 0 && days < 0 then totalMonths - 1
      else if totalMonths < 0 && days > 0 then totalMonths + 1
      else totalMonths;
    TruncDiv(months, 12)
  }

  /** Whether the (month, day) of `end` falls before that of `start` within a year. */
  predicate BeforeAnniversary(start: Date, end: Date)
  {
    end.month < start.month || (end.month == start.month && end.day < start.day)
  }

  /**
   * When `start` is not after `end`, the period's years are the full years between them:
   * the year difference, less one if the anniversary has not yet come round; never negative.
   */
  lemma PeriodYearsWhole(start: Date, end: Date)
    requires !IsAfter(start, end)
    ensures PeriodYears(start, end) == end.year - start.year - (if BeforeAnniversary(start, end) then 1 else 0)
    ensures PeriodYears(start, end) >= 0
  {
  }

  /** A period from a date to itself has no years. */
  lemma PeriodYearsSameDay(d: Date)
    ensures PeriodYears(d, d) == 0
  {
  }
}
