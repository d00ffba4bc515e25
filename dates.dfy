/** Calendar dates as the dashboard's date columns hold them after parsing
    (Hiredate, Birthdate, Termdate), and the day count used for ages. */
module Dates {

  /** A proleptic Gregorian calendar date. */
  datatype Date = Date(year: int, month: int, day: int)

  predicate IsLeapYear(y: int) {
    y % 4 == 0 && (y % 100 != 0 || y % 400 == 0)
  }

  function DaysInMonth(y: int, m: int): (n: int)
    requires 1 <= m <= 12
    ensures 28 <= n <= 31
    ensures m == 2 ==> (n == 29 <==> IsLeapYear(y))
  {
    if m == 2 then (if IsLeapYear(y) then 29 else 28)
    else if m == 4 || m == 6 || m == 9 || m == 11 then 30
    else 31
  }

  /** A date that exists on the calendar: what a successful parse produces. */
  predicate Valid(d: Date) {
    1 <= d.month <= 12 && 1 <= d.day <= DaysInMonth(d.year, d.month)
  }

  /** The calendar date that follows `d`. */
  function Successor(d: Date): (e: Date)
    requires Valid(d)
    ensures Valid(e)
    ensures e.year == d.year || (e.year == d.year + 1 && e.month == 1 && e.day == 1)
  {
    if d.day < DaysInMonth(d.year, d.month) then Date(d.year, d.month, d.day + 1)
    else if d.month < 12 then Date(d.year, d.month + 1, 1)
    else Date(d.year + 1, 1, 1)
  }

  /** Days from 1 March of year 0 to 1 March of year `y` (a year that starts
      in March puts the leap day at its end); `/` is floor division here. */
  function MarchYearStart(y: int): int {
    365 * y + y / 4 - y / 100 + y / 400
  }

  /** Days from 1 March to the first of month `m`, counting March as month 0. */
  function DaysBeforeMonth(mp: int): int {
    (153 * mp + 2) / 5
  }

  /** Number of days since 1 January 1970 (negative before it), the unit in
      which `.dt.days` measures the difference of two dates. */
  function Ordinal(d: Date): int {
    var y := if d.month <= 2 then d.year - 1 else d.year;
    var mp := (d.month + 9) % 12;
    MarchYearStart(y) + DaysBeforeMonth(mp) + d.day - 1 - 719468
  }

  /** Calendar-day difference `later - earlier`, as `(later - earlier).days`. */
  function DayDiff(earlier: Date, later: Date): int {
    Ordinal(later) - Ordinal(earlier)
  }

  /** Crossing from `z - 1` to `z` adds one to `z / k` exactly when `k` divides `z`. */
  lemma FloorDivStep(z: int, k: int)
    requires k == 4 || k == 100 || k == 400
    ensures z / k - (z - 1) / k == if z % k == 0 then 1 else 0
  {
    var q, r := (z - 1) / k, (z - 1) % k;
    assert z - 1 == k * q + r && 0 <= r < k;
    if r == k - 1 {
      assert z == k * (q + 1);
    } else {
      assert z == k * q + (r + 1);
    }
  }

  /** The March-based year that follows year `y` is one day longer exactly when
      the February it contains, that of calendar year `y + 1`, has a leap day. */
  lemma MarchYearLength(y: int)
    ensures MarchYearStart(y + 1) - MarchYearStart(y) == if IsLeapYear(y + 1) then 366 else 365
  {
    var z := y + 1;
    FloorDivStep(z, 4);
    FloorDivStep(z, 100);
    FloorDivStep(z, 400);
    if z % 100 == 0 {
      assert z == 4 * (25 * (z / 100));
    }
    if z % 400 == 0 {
      assert z == 100 * (4 * (z / 400));
    }
  }

  /** Within one March-based year, the first of the next month lies
      `DaysInMonth` days after the first of month `m` (every month but February). */
  lemma MonthLength(y: int, m: int)
    requires 1 <= m <= 12 && m != 2
    ensures DaysBeforeMonth((m + 10) % 12) - DaysBeforeMonth((m + 9) % 12) == DaysInMonth(y, m)
  {
    if m == 1 {
      assert (m + 10) % 12 == 11 && (m + 9) % 12 == 10;
    } else if m == 12 {
      assert (m + 10) % 12 == 10 && (m + 9) % 12 == 9;
    } else {
      assert (m + 10) % 12 == m - 2 && (m + 9) % 12 == m - 3;
    }
  }

  /** The last day of February is followed by 1 March, the first day of the
      next March-based year. */
  lemma OrdinalEndOfFebruary(d: Date)
    requires Valid(d) && d.month == 2 && d.day == DaysInMonth(d.year, 2)
    ensures Ordinal(Date(d.year, 3, 1)) == Ordinal(d) + 1
  {
    MarchYearLength(d.year - 1);
    assert Ordinal(d) == MarchYearStart(d.year - 1) + 337 + d.day - 1 - 719468;
    assert Ordinal(Date(d.year, 3, 1)) == MarchYearStart(d.year) - 719468;
  }

  /** The last day of any other month is followed by the first of the next
      month, in the same March-based year. */
  lemma OrdinalEndOfMonth(d: Date)
    requires Valid(d) && d.month != 2 && d.day == DaysInMonth(d.year, d.month)
    ensures Ordinal(Successor(d)) == Ordinal(d) + 1
  {
    MonthLength(d.year, d.month);
    if d.month == 12 {
      assert Successor(d) == Date(d.year + 1, 1, 1);
    } else {
      assert Successor(d) == Date(d.year, d.month + 1, 1);
    }
  }

  /** Successive calendar dates have successive ordinals, so `DayDiff` counts
      calendar days. */
  lemma OrdinalSuccessor(d: Date)
    requires Valid(d)
    ensures Ordinal(Successor(d)) == Ordinal(d) + 1
  {
    if d.day == DaysInMonth(d.year, d.month) {
      if d.month == 2 {
        OrdinalEndOfFebruary(d);
      } else {
        OrdinalEndOfMonth(d);
      }
    }
  }

  /** The ordinal's origin: 1 January 1970 is day 0. */
  lemma EpochIsDayZero()
    ensures Ordinal(Date(1970, 1, 1)) == 0
  {
    assert MarchYearStart(1969) == 4 * 146097 + 369 * 365 + 92 - 3;
  }
}
