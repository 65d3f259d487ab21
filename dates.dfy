/** Calendar dates as the services use them: a point in local time, compared
    chronologically, and shifted by whole calendar years the way
    `Date.prototype.setFullYear(getFullYear() + n)` does. */
module Dates {

  /** A local date and time: `ms` is the offset into the day in milliseconds. */
  datatype Date = Date(year: int, month: int, day: int, ms: int)

  const MsPerDay: int := 86_400_000

  predicate IsLeapYear(y: int) {
    (y % 4 == 0 && y % 100 != 0) || y % 400 == 0
  }

  function DaysInMonth(y: int, m: int): (n: int)
    requires 1 <= m <= 12
    ensures 28 <= n <= 31
    ensures m == 2 ==> (n == 29 <==> IsLeapYear(y))
  {
    if m == 2 then (if IsLeapYear(y) then 29 else 28)
    else if m == 4 || m == 6 || m == 9 || m == 11 then 30
    else 31
  }

  predicate ValidDate(d: Date) {
    && 1 <= d.month <= 12
    && 1 <= d.day <= DaysInMonth(d.year, d.month)
    && 0 <= d.ms < MsPerDay
  }

  /** `a < b` on two `Date` objects: chronological order. */
  predicate Before(a: Date, b: Date) {
    || a.year < b.year
    || (a.year == b.year && a.month < b.month)
    || (a.year == b.year && a.month == b.month && a.day < b.day)
    || (a.year == b.year && a.month == b.month && a.day == b.day && a.ms < b.ms)
  }

  /** `a <= b`, as MongoDB's `$lte` compares two dates. */
  predicate NotAfter(a: Date, b: Date) {
    !Before(b, a)
  }

  /** `d.setFullYear(d.getFullYear() + n)`: month, day and time are kept, except
      that 29 February rolls forward to 1 March in a year that is not leap. */
  function AddYears(d: Date, n: int): (r: Date)
    requires ValidDate(d)
    ensures ValidDate(r)
    ensures r.year == d.year + n && r.ms == d.ms
    ensures (r.month == d.month && r.day == d.day)
            || (d.month == 2 && d.day == 29 && !IsLeapYear(d.year + n) && r.month == 3 && r.day == 1)
  {
    if d.month == 2 && d.day == 29 && !IsLeapYear(d.year + n) then
      Date(d.year + n, 3, 1, d.ms)
    else
      Date(d.year + n, d.month, d.day, d.ms)
  }

  /** Chronological order is a strict total order. */
  lemma BeforeIsStrictTotalOrder(a: Date, b: Date, c: Date)
    ensures !Before(a, a)
    ensures Before(a, b) ==> !Before(b, a)
    ensures Before(a, b) && Before(b, c) ==> Before(a, c)
    ensures a == b || Before(a, b) || Before(b, a)
  {
  }

  /** Adding a positive number of years moves strictly into the future, adding
      none leaves a valid date where it was. */
  lemma AddYearsMovesForward(d: Date, n: int)
    requires ValidDate(d)
    ensures n > 0 ==> Before(d, AddYears(d, n))
    ensures n < 0 ==> Before(AddYears(d, n), d)
    ensures n == 0 ==> AddYears(d, n) == d
  {
  }
}
