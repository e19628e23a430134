/**
 * Proleptic Gregorian calendar dates and their day numbers.
 *
 * A date picked in the form is a `YYYY-MM-DD` string that the receipt code parses as
 * UTC midnight, so two such instants are always a whole number of days apart. The model
 * numbers every date by the days elapsed since 1 January of year 1 (`DayNumber`) and
 * recovers the millisecond time value from that number (`UtcMidnightMs`).
 */
module Calendar {

  /** A calendar date; `month` runs 1..12 (the source's `getMonth() + 1`). */
  datatype Date = Date(year: int, month: int, day: int)

  /** Milliseconds in one day, the divisor of the day count. */
  const MsPerDay: int := 86400000

  /** Day number of 1970-01-01, the origin of time values. */
  const UnixEpochDay: int := 719162

  predicate IsLeapYear(y: int) {
    y % 4 == 0 && (y % 100 != 0 || y % 400 == 0)
  }

  function DaysInMonth(y: int, m: int): (n: int)
    requires 1 <= m <= 12
    ensures 28 <= n <= 31
  {
    if m == 2 then (if IsLeapYear(y) then 29 else 28)
    else if m == 4 || m == 6 || m == 9 || m == 11 then 30
    else 31
  }

  function YearLength(y: int): int {
    if IsLeapYear(y) then 366 else 365
  }

  predicate ValidDate(d: Date) {
    1 <= d.month <= 12 && 1 <= d.day <= DaysInMonth(d.year, d.month)
  }

  /** `a` falls strictly before `b` in calendar order. */
  predicate DateBefore(a: Date, b: Date) {
    a.year < b.year
    || (a.year == b.year && a.month < b.month)
    || (a.year == b.year && a.month == b.month && a.day < b.day)
  }

  /** Days from 1 January of year 1 to 1 January of year `y` (negative for earlier years). */
  function DaysBeforeYear(y: int): int {
    var p := y - 1;
    365 * p + p / 4 - p / 100 + p / 400
  }

  /** Days from 1 January of year `y` to the first of month `m`; `m == 13` gives the year's length. */
  function DaysBeforeMonth(y: int, m: int): int
    requires 1 <= m <= 13
  {
    var cumulative := [0, 31, 59, 90, 120, 151, 181, 212, 243, 273, 304, 334, 365];
    cumulative[m - 1] + (if m > 2 && IsLeapYear(y) then 1 else 0)
  }

  function DayNumber(d: Date): int
    requires 1 <= d.month <= 12
  {
    DaysBeforeYear(d.year) + DaysBeforeMonth(d.year, d.month) + d.day - 1
  }

  /** The time value of `new Date("YYYY-MM-DD")`: UTC midnight of `d`, in milliseconds since 1970. */
  function UtcMidnightMs(d: Date): int
    requires 1 <= d.month <= 12
  {
    (DayNumber(d) - UnixEpochDay) * MsPerDay
  }

  /** The calendar day after `d`. */
  function NextDay(d: Date): Date
    requires ValidDate(d)
  {
    if d.day < DaysInMonth(d.year, d.month) then Date(d.year, d.month, d.day + 1)
    else if d.month < 12 then Date(d.year, d.month + 1, 1)
    else Date(d.year + 1, 1, 1)
  }

  /** The calendar day before `d`. */
  function PrevDay(d: Date): Date
    requires ValidDate(d)
  {
    if d.day > 1 then Date(d.year, d.month, d.day - 1)
    else if d.month > 1 then Date(d.year, d.month - 1, DaysInMonth(d.year, d.month - 1))
    else Date(d.year - 1, 12, 31)
  }

  // ---------------------------------------------------------------------------
  // Facts about the day numbering

  /** A positive multiple of a positive number is at least that number. */
  lemma {:induction false} MultipleAtLeast(k: int, n: int)
    requires k > 0 && n >= 1
    ensures k * n >= k
    decreases n
  {
    if n > 1 {
      MultipleAtLeast(k, n - 1);
      assert k * n == k * (n - 1) + k;
    }
  }

  /** Euclidean division is determined by any quotient/remainder pair. */
  lemma DivUnique(x: int, k: int, q: int, r: int)
    requires k > 0 && 0 <= r < k && x == k * q + r
    ensures x / k == q && x % k == r
  {
    var q', r' := x / k, x % k;
    assert x == k * q' + r';
    var dq := q - q';
    assert k * dq == r' - r by {
      assert k * q - k * q' == k * dq;
    }
    if dq > 0 {
      MultipleAtLeast(k, dq);
    } else if dq < 0 {
      MultipleAtLeast(k, -dq);
    }
  }

  /** Stepping from `y - 1` to `y` raises `y / k` exactly when `k` divides `y`. */
  lemma DivStep(y: int, k: int)
    requires k > 0
    ensures y / k - (y - 1) / k == (if y % k == 0 then 1 else 0)
  {
    var q, r := (y - 1) / k, (y - 1) % k;
    if r + 1 < k {
      DivUnique(y, k, q, r + 1);
    } else {
      DivUnique(y, k, q + 1, 0);
    }
  }

  /** A multiple of `a * b` is a multiple of `a`. */
  lemma MultipleOfFactor(y: int, a: int, b: int)
    requires a > 0 && b > 0 && y % (a * b) == 0
    ensures y % a == 0
  {
    var q := y / (a * b);
    assert y == (a * b) * q;
    assert y == a * (b * q);
    DivUnique(y, a, b * q, 0);
  }

  lemma {:induction false} YearStep(y: int)
    ensures DaysBeforeYear(y + 1) == DaysBeforeYear(y) + YearLength(y)
  {
    DivStep(y, 4);
    DivStep(y, 100);
    DivStep(y, 400);
    if y % 400 == 0 {
      MultipleOfFactor(y, 100, 4);
    }
    if y % 100 == 0 {
      MultipleOfFactor(y, 4, 25);
    }
  }

  lemma MonthStep(y: int, m: int)
    requires 1 <= m <= 12
    ensures DaysBeforeMonth(y, m + 1) == DaysBeforeMonth(y, m) + DaysInMonth(y, m)
  {
  }

  lemma {:induction false} YearsIncrease(y: int, y': int)
    requires y < y'
    ensures DaysBeforeYear(y) + YearLength(y) <= DaysBeforeYear(y')
    decreases y' - y
  {
    YearStep(y);
    if y + 1 < y' {
      YearsIncrease(y + 1, y');
    }
  }

  lemma {:induction false} MonthsIncrease(y: int, m: int, m': int)
    requires 1 <= m < m' <= 13
    ensures DaysBeforeMonth(y, m) + DaysInMonth(y, m) <= DaysBeforeMonth(y, m')
    decreases m' - m
  {
    MonthStep(y, m);
    if m + 1 < m' {
      MonthsIncrease(y, m + 1, m');
    }
  }

  /** A valid date's number lies within its month and within its year. */
  lemma DayNumberBounds(d: Date)
    requires ValidDate(d)
    ensures DaysBeforeYear(d.year) + DaysBeforeMonth(d.year, d.month) <= DayNumber(d)
    ensures DayNumber(d) < DaysBeforeYear(d.year) + DaysBeforeMonth(d.year, d.month + 1)
    ensures DayNumber(d) < DaysBeforeYear(d.year) + YearLength(d.year)
  {
    MonthStep(d.year, d.month);
  }

  /** Calendar order and day-number order agree. */
  lemma {:induction false} DayNumberOrder(a: Date, b: Date)
    requires ValidDate(a) && ValidDate(b)
    ensures DateBefore(a, b) <==> DayNumber(a) < DayNumber(b)
    ensures DayNumber(a) == DayNumber(b) <==> a == b
  {
    DayNumberBounds(a);
    DayNumberBounds(b);
    if a.year < b.year {
      YearsIncrease(a.year, b.year);
    } else if b.year < a.year {
      YearsIncrease(b.year, a.year);
    } else if a.month < b.month {
      MonthsIncrease(a.year, a.month, b.month);
    } else if b.month < a.month {
      MonthsIncrease(a.year, b.month, a.month);
    }
  }

  /** The day after `d` is a valid date numbered one higher. */
  lemma NextDayNumber(d: Date)
    requires ValidDate(d)
    ensures ValidDate(NextDay(d))
    ensures DayNumber(NextDay(d)) == DayNumber(d) + 1
  {
    MonthStep(d.year, d.month);
    if d.month == 12 {
      YearStep(d.year);
    }
  }

  /** The day before `d` is a valid date numbered one lower, and `NextDay` undoes `PrevDay`. */
  lemma PrevDayNumber(d: Date)
    requires ValidDate(d)
    ensures ValidDate(PrevDay(d))
    ensures DayNumber(PrevDay(d)) == DayNumber(d) - 1
    ensures NextDay(PrevDay(d)) == d
  {
    if d.day == 1 && d.month > 1 {
      MonthStep(d.year, d.month - 1);
    } else if d.day == 1 {
      YearStep(d.year - 1);
    }
  }

  /** The epoch constant numbers 1 January 1970, whose time value is 0. */
  lemma EpochDay()
    ensures DayNumber(Date(1970, 1, 1)) == UnixEpochDay
    ensures UtcMidnightMs(Date(1970, 1, 1)) == 0
  {
  }
}
