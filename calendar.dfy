/**
 * Proleptic Gregorian dates as Python's `datetime` handles them: the
 * `start_date + timedelta(days=i)` stepping of the bootstrap generator and the
 * day ordinal that `pd.to_datetime` comparisons and `Timedelta` subtraction
 * work on.
 */
module Calendar {

  datatype Date = Date(month: int, day: int, year: int)

  const MinYear := 1
  const MaxYear := 9999

  predicate IsLeapYear(y: int)
  {
    y % 4 == 0 && (y % 100 != 0 || y % 400 == 0)
  }

  function DaysInMonth(m: int, y: int): int
  {
    if m == 2 then (if IsLeapYear(y) then 29 else 28)
    else if m == 4 || m == 6 || m == 9 || m == 11 then 30
    else 31
  }

  function DaysInYear(y: int): int
  {
    if IsLeapYear(y) then 366 else 365
  }

  /** A date `datetime` accepts: years 1 to 9999, a real month, a day of that month. */
  predicate ValidDate(d: Date)
  {
    MinYear <= d.year <= MaxYear && 1 <= d.month <= 12 && 1 <= d.day <= DaysInMonth(d.month, d.year)
  }

  type CalendarDate = d: Date | ValidDate(d) witness Date(1, 1, 2025)

  /** Days of year `y` before the first of month `m` (0 outside 1..12). */
  function DaysBeforeMonth(m: int, y: int): int
  {
    if 1 <= m <= 12 then
      [0, 31, 59, 90, 120, 151, 181, 212, 243, 273, 304, 334][m - 1]
      + (if m > 2 && IsLeapYear(y) then 1 else 0)
    else 0
  }

  /** Days before January 1 of year `y`, counted from January 1 of year 1. */
  function DaysBeforeYear(y: int): int
  {
    var p := y - 1;
    p * 365 + p / 4 - p / 100 + p / 400
  }

  /** Python's `date.toordinal()`: January 1 of year 1 is day 1. */
  function Ordinal(d: Date): int
  {
    DaysBeforeYear(d.year) + DaysBeforeMonth(d.month, d.year) + d.day
  }

  /** The date one day later (`+ timedelta(days=1)`). */
  function NextDay(d: Date): Date
  {
    if d.day < DaysInMonth(d.month, d.year) then Date(d.month, d.day + 1, d.year)
    else if d.month < 12 then Date(d.month + 1, 1, d.year)
    else Date(1, 1, d.year + 1)
  }

  /** `d + timedelta(days=n)`. */
  function AddDays(d: Date, n: nat): Date
  {
    if n == 0 then d else NextDay(AddDays(d, n - 1))
  }

  function NewYear(y: int): Date
  {
    Date(1, 1, y)
  }

  lemma DaysBeforeNextMonth(m: int, y: int)
    requires 1 <= m < 12
    ensures DaysBeforeMonth(m + 1, y) == DaysBeforeMonth(m, y) + DaysInMonth(m, y)
  {
  }

  lemma DecemberEndsYear(y: int)
    ensures DaysBeforeMonth(12, y) + DaysInMonth(12, y) == DaysInYear(y)
  {
  }

  /** `n/k - (n-1)/k` is 1 exactly when `k` divides `n` (for the divisors the leap rule uses). */
  lemma DivStep(n: int, k: int)
    requires k == 4 || k == 100 || k == 400
    ensures n / k - (n - 1) / k == if n % k == 0 then 1 else 0
  {
  }

  lemma {:induction false} DaysBeforeNextYear(y: int)
    ensures DaysBeforeYear(y + 1) == DaysBeforeYear(y) + DaysInYear(y)
  {
    DivStep(y, 4);
    DivStep(y, 100);
    DivStep(y, 400);
  }

  /** Stepping one day keeps a date valid (inside years 1..9999) and advances the ordinal by one. */
  lemma {:induction false} NextDayOrdinal(d: Date)
    requires ValidDate(d)
    requires !(d.month == 12 && d.day == 31 && d.year == MaxYear)
    ensures ValidDate(NextDay(d))
    ensures Ordinal(NextDay(d)) == Ordinal(d) + 1
  {
    if d.day < DaysInMonth(d.month, d.year) {
    } else if d.month < 12 {
      DaysBeforeNextMonth(d.month, d.year);
    } else {
      DecemberEndsYear(d.year);
      DaysBeforeNextYear(d.year);
    }
  }

  /** Adding `a` days and then `b` days is adding `a + b` days. */
  lemma {:induction false} AddDaysSum(d: Date, a: nat, b: nat)
    ensures AddDays(AddDays(d, a), b) == AddDays(d, a + b)
  {
    if b > 0 {
      AddDaysSum(d, a, b - 1);
    }
  }

  lemma {:induction false} AddDaysWithinMonth(m: int, day: int, y: int, k: nat)
    requires 1 <= day && day + k <= DaysInMonth(m, y)
    ensures AddDays(Date(m, day, y), k) == Date(m, day + k, y)
  {
    if k > 0 {
      AddDaysWithinMonth(m, day, y, k - 1);
    }
  }

  /** Counting `DaysBeforeMonth(m, y)` days on from January 1 reaches the first of month `m`. */
  lemma {:induction false} MonthStart(y: int, m: int)
    requires 1 <= m <= 12
    ensures AddDays(NewYear(y), DaysBeforeMonth(m, y)) == Date(m, 1, y)
  {
    if m > 1 {
      var len := DaysInMonth(m - 1, y);
      MonthStart(y, m - 1);
      DaysBeforeNextMonth(m - 1, y);
      AddDaysSum(NewYear(y), DaysBeforeMonth(m - 1, y), len);
      AddDaysWithinMonth(m - 1, 1, y, len - 1);
    }
  }

  /** The month holding day index `i` (0 is January 1) of year `y`, searched from month `m` on. */
  function MonthOfDayIndex(y: int, i: int, m: int): (r: int)
    requires 1 <= m <= 12 && DaysBeforeMonth(m, y) <= i < DaysInYear(y)
    ensures m <= r <= 12
    ensures DaysBeforeMonth(r, y) <= i < DaysBeforeMonth(r, y) + DaysInMonth(r, y)
    decreases 12 - m
  {
    if m == 12 then
      DecemberEndsYear(y);
      12
    else if i < DaysBeforeMonth(m, y) + DaysInMonth(m, y) then m
    else
      DaysBeforeNextMonth(m, y);
      MonthOfDayIndex(y, i, m + 1)
  }

  /**
   * Day index `i` of year `y` lands in the same year, on a valid date whose
   * ordinal is that of January 1 plus `i`.
   */
  lemma {:induction false} DayIndexDate(y: int, i: nat)
    requires MinYear <= y <= MaxYear && i < DaysInYear(y)
    ensures ValidDate(AddDays(NewYear(y), i))
    ensures AddDays(NewYear(y), i).year == y
    ensures AddDays(NewYear(y), i).month == MonthOfDayIndex(y, i, 1)
    ensures Ordinal(AddDays(NewYear(y), i)) == Ordinal(NewYear(y)) + i
  {
    var m := MonthOfDayIndex(y, i, 1);
    var start := DaysBeforeMonth(m, y);
    MonthStart(y, m);
    AddDaysSum(NewYear(y), start, i - start);
    AddDaysWithinMonth(m, 1, y, i - start);
    assert AddDays(NewYear(y), i) == Date(m, i - start + 1, y);
  }
}
