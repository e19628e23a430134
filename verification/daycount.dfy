/**
 * The inclusive day count of a billing period (`daysBetweenInclusive`).
 *
 * The source subtracts the two parsed time values, returns 0 for a negative
 * difference, and otherwise returns the whole days in the difference plus one.
 */
module DayCount {
  import opened Wrappers
  import opened Calendar

  /**
   * The count as the source computes it, on millisecond time values: 0 for an end
   * before the start, otherwise the `n` whose last day, `n - 1` whole days after the
   * start, contains the end.
   */
  function DaysBetweenInclusiveMs(startMs: int, endMs: int): (n: int)
    ensures endMs < startMs ==> n == 0
    ensures startMs <= endMs ==> n >= 1 && (n - 1) * MsPerDay <= endMs - startMs < n * MsPerDay
  {
    var diffMs := endMs - startMs;
    if diffMs < 0 then 0 else diffMs / MsPerDay + 1
  }

  lemma MsDifference(a: int, b: int)
    ensures ((b - UnixEpochDay) * MsPerDay - (a - UnixEpochDay) * MsPerDay) / MsPerDay == b - a
  {
    assert (b - UnixEpochDay) * MsPerDay - (a - UnixEpochDay) * MsPerDay == MsPerDay * (b - a) + 0;
    DivUnique(MsPerDay * (b - a) + 0, MsPerDay, b - a, 0);
  }

  /**
   * Inclusive number of days from `from` to `to`, both parsed as UTC midnight:
   * 0 when `to` lies before `from`, otherwise the difference of the day numbers plus one.
   */
  function DaysBetweenInclusive(from: Date, to: Date): (n: int)
    requires ValidDate(from) && ValidDate(to)
    ensures n == (if DayNumber(from) <= DayNumber(to) then DayNumber(to) - DayNumber(from) + 1 else 0)
  {
    MsDifference(DayNumber(from), DayNumber(to));
    DaysBetweenInclusiveMs(UtcMidnightMs(from), UtcMidnightMs(to))
  }

  /** The count is 0 exactly when `to` is earlier than `from`, and positive otherwise. */
  lemma DaysBetweenZeroIffReversed(from: Date, to: Date)
    requires ValidDate(from) && ValidDate(to)
    ensures DaysBetweenInclusive(from, to) == 0 <==> DateBefore(to, from)
    ensures DaysBetweenInclusive(from, to) >= 0
  {
    DayNumberOrder(to, from);
  }

  /** A period of one day counts as 1, and moving the end one day later adds one day. */
  lemma DaysBetweenSingleAndNext(from: Date, to: Date)
    requires ValidDate(from) && ValidDate(to)
    requires !DateBefore(to, from)
    ensures DaysBetweenInclusive(from, from) == 1
    ensures DaysBetweenInclusive(from, NextDay(to)) == DaysBetweenInclusive(from, to) + 1
  {
    DayNumberOrder(to, from);
    NextDayNumber(to);
  }

  /** Within one month, the first to the `k`-th of the month counts `k` days. */
  lemma DaysBetweenWithinMonth(y: int, m: int, k: int)
    requires 1 <= m <= 12 && 1 <= k <= DaysInMonth(y, m)
    ensures DaysBetweenInclusive(Date(y, m, 1), Date(y, m, k)) == k
  {
  }

  lemma ExampleJanuary2024()
    ensures DaysBetweenInclusive(Date(2024, 1, 1), Date(2024, 1, 31)) == 31
    ensures DaysBetweenInclusive(Date(2024, 1, 31), Date(2024, 1, 1)) == 0
  {
  }

  // ---------------------------------------------------------------------------
  // Empty date fields

  /**
   * The time value `new Date(field)` gives for a date field: UTC midnight of the picked
   * date, or `None` for the NaN of the invalid date an empty field yields.
   */
  function TimeValue(field: Option<Date>): (t: Option<int>)
    requires field.Some? ==> ValidDate(field.value)
    ensures t.Some? <==> field.Some?
  {
    match field
    case None => None
    case Some(d) => Some(UtcMidnightMs(d))
  }

  /**
   * `daysBetweenInclusive` as written, on the two fields. Its guard applies
   * `Number.isNaN` to the `Date` objects themselves, and `Number.isNaN` of any object is
   * false, so an invalid date passes the guard: the NaN flows through the subtraction,
   * fails `diffMs < 0`, and comes out of `Math.floor(NaN / 86400000) + 1` as NaN (`None`).
   */
  function DaysBetweenFieldsAsWritten(from: Option<Date>, to: Option<Date>): (r: Option<int>)
    requires from.Some? ==> ValidDate(from.value)
    requires to.Some? ==> ValidDate(to.value)
    ensures r.None? <==> from.None? || to.None?
    ensures r.Some? ==> r.value == DaysBetweenInclusive(from.value, to.value)
  {
    match (TimeValue(from), TimeValue(to))
    case (Some(a), Some(b)) => Some(DaysBetweenInclusiveMs(a, b))
    case _ => None
  }

  /** An empty "from" field makes the count NaN rather than the 0 the guard was written to return. */
  lemma EmptyFieldGivesNaN(to: Date)
    requires ValidDate(to)
    ensures DaysBetweenFieldsAsWritten(None, Some(to)).None?
  {
  }

  /** The count with the guard doing what it was meant to: 0 while a field is empty. */
  function DaysBetweenFields(from: Option<Date>, to: Option<Date>): (n: int)
    requires from.Some? ==> ValidDate(from.value)
    requires to.Some? ==> ValidDate(to.value)
    ensures n >= 0
    ensures from.None? || to.None? ==> n == 0
    ensures from.Some? && to.Some? ==> n == DaysBetweenInclusive(from.value, to.value)
  {
    if from.Some? && to.Some? then
      DaysBetweenZeroIffReversed(from.value, to.value);
      DaysBetweenInclusive(from.value, to.value)
    else 0
  }

  /** The corrected count differs from the written one only where the written one is NaN. */
  lemma DaysBetweenFieldsAgree(from: Option<Date>, to: Option<Date>)
    requires from.Some? ==> ValidDate(from.value)
    requires to.Some? ==> ValidDate(to.value)
    ensures DaysBetweenFieldsAsWritten(from, to) == Some(DaysBetweenFields(from, to))
      || (DaysBetweenFieldsAsWritten(from, to).None? && DaysBetweenFields(from, to) == 0)
  {
  }
}
