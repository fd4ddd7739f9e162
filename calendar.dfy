/**
 * Calendar dates as Python's `datetime.date` has them: the proleptic Gregorian calendar for
 * years 1 to 9999, compared as (year, month, day) tuples, and `calendar.monthrange`'s month length.
 */
module Calendar {
  import opened Wrappers

  datatype Date = Date(year: int, month: int, day: int)

  predicate IsLeapYear(y: int) {
    y % 4 == 0 && (y % 100 != 0 || y % 400 == 0)
  }

  /** `calendar.monthrange(y, m)[1]`. */
  function DaysInMonth(y: int, m: int): (n: int)
    requires 1 <= m <= 12
    ensures 28 <= n <= 31
    ensures m == 2 ==> (n == 29 <==> IsLeapYear(y))
  {
    if m == 2 then (if IsLeapYear(y) then 29 else 28)
    else if m == 4 || m == 6 || m == 9 || m == 11 then 30
    else 31
  }

  function DaysInYear(y: int): int {
    if IsLeapYear(y) then 366 else 365
  }

  /** The arguments `datetime.date(y, m, d)` accepts without raising `ValueError`. */
  predicate IsValidDate(y: int, m: int, d: int) {
    1 <= y <= 9999 && 1 <= m <= 12 && 1 <= d <= DaysInMonth(y, m)
  }

  /** A value of `datetime.date`. */
  type CivilDate = d: Date | IsValidDate(d.year, d.month, d.day) witness Date(1, 1, 1)

  /** `date.min`. */
  const MinDate: CivilDate := Date(1, 1, 1)

  /** `a <= b` on dates. */
  predicate DateLe(a: Date, b: Date) {
    a.year < b.year || (a.year == b.year && (a.month < b.month || (a.month == b.month && a.day <= b.day)))
  }

  /** `a < b` on dates. */
  predicate DateLess(a: Date, b: Date) {
    DateLe(a, b) && a != b
  }

  lemma DateLeTotal(a: Date, b: Date)
    ensures DateLe(a, b) || DateLe(b, a)
    ensures DateLe(a, b) && DateLe(b, a) ==> a == b
    ensures !DateLe(a, b) ==> DateLess(b, a)
  {
  }

  lemma MinDateIsLeast(d: CivilDate)
    ensures DateLe(MinDate, d)
  {
  }

  /** Days in the years before `y` (Python's `_days_before_year`). */
  function DaysBeforeYear(y: int): int
    requires y >= 1
  {
    var k := y - 1;
    365 * k + k / 4 - k / 100 + k / 400
  }

  /** Days in the months of year `y` before month `m`. */
  function DaysBeforeMonth(y: int, m: int): (n: int)
    requires 1 <= m <= 13
    ensures n >= 28 * (m - 1)
  {
    if m == 1 then 0 else DaysBeforeMonth(y, m - 1) + DaysInMonth(y, m - 1)
  }

  /** `d.toordinal()`: 1 for 0001-01-01, one more for every day after. */
  function Ordinal(d: CivilDate): int {
    DaysBeforeYear(d.year) + DaysBeforeMonth(d.year, d.month) + d.day
  }

  lemma DaysBeforeYearStep(y: int)
    requires y >= 1
    ensures DaysBeforeYear(y + 1) == DaysBeforeYear(y) + DaysInYear(y)
  {
    var k := y - 1;
    DivStep(k, 4);
    DivStep(k, 100);
    DivStep(k, 400);
  }

  /** Counting one more: the quotient by `d` goes up exactly when the next number is a multiple of `d`. */
  lemma DivStep(k: int, d: int)
    requires k >= 0 && d > 0
    ensures (k + 1) / d == if (k + 1) % d == 0 then k / d + 1 else k / d
  {
    var q, r := k / d, k % d;
    assert k == d * q + r;
    if r == d - 1 {
      assert k + 1 == d * (q + 1);
      DivExact(k + 1, d, q + 1);
    } else {
      assert k + 1 == d * q + (r + 1) && 0 <= r + 1 < d;
      DivUnique(k + 1, d, q, r + 1);
    }
  }

  lemma DivExact(n: int, d: int, q: int)
    requires d > 0 && n == d * q
    ensures n / d == q && n % d == 0
  {
    DivUnique(n, d, q, 0);
  }

  lemma DivUnique(n: int, d: int, q: int, r: int)
    requires d > 0 && n == d * q + r && 0 <= r < d
    ensures n / d == q && n % d == r
  {
    var q', r' := n / d, n % d;
    assert d * (q - q') == r' - r;
    if q > q' {
      MulAtLeast(d, q - q');
    } else if q < q' {
      MulAtLeast(d, q' - q);
    }
  }

  lemma MulAtLeast(d: int, t: int)
    requires d > 0 && t >= 1
    ensures d * t >= d
  {
  }

  lemma {:induction false} DaysBeforeYearMonotone(y: int, z: int)
    requires 1 <= y < z
    ensures DaysBeforeYear(y) + DaysInYear(y) <= DaysBeforeYear(z)
    decreases z - y
  {
    DaysBeforeYearStep(y);
    if y + 1 < z {
      DaysBeforeYearMonotone(y + 1, z);
    }
  }

  lemma {:induction false} DaysBeforeMonthMonotone(y: int, m: int, n: int)
    requires 1 <= m < n <= 13
    ensures DaysBeforeMonth(y, m) + DaysInMonth(y, m) <= DaysBeforeMonth(y, n)
    decreases n - m
  {
    if m + 1 < n {
      DaysBeforeMonthMonotone(y, m + 1, n);
    }
  }

  lemma DaysBeforeMonthYear(y: int)
    ensures DaysBeforeMonth(y, 13) == DaysInYear(y)
  {
    assert DaysBeforeMonth(y, 2) == 31;
    assert DaysBeforeMonth(y, 3) == 31 + DaysInMonth(y, 2);
    assert DaysBeforeMonth(y, 4) == DaysBeforeMonth(y, 3) + 31;
    assert DaysBeforeMonth(y, 5) == DaysBeforeMonth(y, 4) + 30;
    assert DaysBeforeMonth(y, 6) == DaysBeforeMonth(y, 5) + 31;
    assert DaysBeforeMonth(y, 7) == DaysBeforeMonth(y, 6) + 30;
    assert DaysBeforeMonth(y, 8) == DaysBeforeMonth(y, 7) + 31;
    assert DaysBeforeMonth(y, 9) == DaysBeforeMonth(y, 8) + 31;
    assert DaysBeforeMonth(y, 10) == DaysBeforeMonth(y, 9) + 30;
    assert DaysBeforeMonth(y, 11) == DaysBeforeMonth(y, 10) + 31;
    assert DaysBeforeMonth(y, 12) == DaysBeforeMonth(y, 11) + 30;
    assert DaysBeforeMonth(y, 13) == DaysBeforeMonth(y, 12) + 31;
  }

  lemma OrdinalWithinYear(d: CivilDate)
    ensures DaysBeforeYear(d.year) < Ordinal(d) <= DaysBeforeYear(d.year) + DaysInYear(d.year)
  {
    DaysBeforeMonthYear(d.year);
    DaysBeforeMonthMonotone(d.year, d.month, 13);
  }

  /** The ordinal numbering follows the calendar order: `a < b` exactly when `a.toordinal() < b.toordinal()`. */
  lemma OrdinalOrder(a: CivilDate, b: CivilDate)
    ensures DateLess(a, b) <==> Ordinal(a) < Ordinal(b)
    ensures a == b <==> Ordinal(a) == Ordinal(b)
  {
    OrdinalStrict(a, b);
    OrdinalStrict(b, a);
  }

  lemma OrdinalStrict(a: CivilDate, b: CivilDate)
    ensures DateLess(a, b) ==> Ordinal(a) < Ordinal(b)
  {
    if DateLess(a, b) {
      if a.year < b.year {
        OrdinalWithinYear(a);
        OrdinalWithinYear(b);
        DaysBeforeYearMonotone(a.year, b.year);
      } else if a.month < b.month {
        DaysBeforeMonthMonotone(a.year, a.month, b.month);
      }
    }
  }

  /** `date(y, m, 1)` and `date(y, m, monthrange(y, m)[1])`, or `None` where `date` raises `ValueError`. */
  function MonthBounds(y: int, m: int): (r: Option<(CivilDate, CivilDate)>)
    ensures r.Some? <==> 1 <= y <= 9999 && 1 <= m <= 12
  {
    if 1 <= y <= 9999 && 1 <= m <= 12 then Some((Date(y, m, 1), Date(y, m, DaysInMonth(y, m))))
    else None
  }

  /** The inclusive window from the first to the last day of a month holds exactly that month's dates. */
  lemma MonthBoundsWindow(y: int, m: int, d: CivilDate)
    requires 1 <= y <= 9999 && 1 <= m <= 12
    ensures var (first, last) := MonthBounds(y, m).value;
      (DateLe(first, d) && DateLe(d, last)) <==> (d.year == y && d.month == m)
  {
  }
}
