/**
 * The default billing period (`setPreviousMonthDates`): from the first to the last day
 * of the month before the current one, written into the two date fields as `YYYY-MM-DD`.
 *
 * The source builds both ends with the local-time `Date(year, monthIndex, day)`
 * constructor, whose `monthIndex` counts from 0 and may fall outside 0..11, whose
 * day 0 means the day before the first of that month, and which reads a year
 * argument of 0..99 as 1900 plus that year.
 */
module DefaultRange {
  import opened Wrappers
  import opened Calendar
  import opened DayCount
  import opened IsoDate

  /** The year the `Date(year, monthIndex, day)` constructor uses: 0..99 stand for 1900..1999. */
  function FullYear(year: int): (y: int)
    ensures 0 <= year <= 99 ==> y == 1900 + year
    ensures !(0 <= year <= 99) ==> y == year
  {
    if 0 <= year <= 99 then 1900 + year else year
  }

  /** `new Date(year, monthIndex, 1)`: the month index is normalised into the year by floor division. */
  function FirstOfMonth(year: int, monthIndex: int): (d: Date)
    ensures ValidDate(d) && d.day == 1
    ensures (d.year - FullYear(year)) * 12 + d.month - 1 == monthIndex
    ensures 0 <= monthIndex <= 11 ==> d == Date(FullYear(year), monthIndex + 1, 1)
    ensures monthIndex == -1 ==> d == Date(FullYear(year) - 1, 12, 1)
  {
    Date(FullYear(year) + monthIndex / 12, monthIndex % 12 + 1, 1)
  }

  /** `new Date(year, monthIndex, 0)`: the day before the first of that month. */
  function DayZero(year: int, monthIndex: int): (d: Date)
    ensures ValidDate(d)
    ensures DayNumber(d) + 1 == DayNumber(FirstOfMonth(year, monthIndex))
  {
    PrevDayNumber(FirstOfMonth(year, monthIndex));
    PrevDay(FirstOfMonth(year, monthIndex))
  }

  /** Year and month (1..12) of the month before month `month` of `year`. */
  function PreviousMonth(year: int, month: int): (r: (int, int))
    requires 1 <= month <= 12
    ensures 1 <= r.1 <= 12
    ensures (r.0 - 1) * 12 + r.1 == (year - 1) * 12 + month - 1
  {
    if month == 1 then (year - 1, 12) else (year, month - 1)
  }

  /**
   * The two ends of the default period, from the current date `today`: day 1 and the
   * last day of the previous month, January wrapping to December of the year before.
   * Their inclusive count is that month's length.
   */
  function PreviousMonthRange(today: Date): (r: (Date, Date))
    requires ValidDate(today)
    ensures var (py, pm) := PreviousMonth(FullYear(today.year), today.month);
      && r.0 == Date(py, pm, 1)
      && r.1 == Date(py, pm, DaysInMonth(py, pm))
      && !DateBefore(r.1, r.0)
      && DaysBetweenInclusive(r.0, r.1) == DaysInMonth(py, pm)
  {
    var monthIndex := today.month - 1;
    var first := FirstOfMonth(today.year, monthIndex);
    assert first == Date(FullYear(today.year), today.month, 1);
    (FirstOfMonth(today.year, monthIndex - 1), DayZero(today.year, monthIndex))
  }

  /**
   * The strings the source writes into the "from" and "to" fields. For four-digit years
   * they read back as the first and last day of the previous month.
   */
  function SetPreviousMonthDates(today: Date): (r: (string, string))
    requires ValidDate(today)
    ensures var (py, pm) := PreviousMonth(FullYear(today.year), today.month);
      1000 <= py <= 9999 ==>
        && ParseIsoDate(r.0) == Some(Date(py, pm, 1))
        && ParseIsoDate(r.1) == Some(Date(py, pm, DaysInMonth(py, pm)))
  {
    var range := PreviousMonthRange(today);
    assert 1000 <= range.0.year <= 9999 ==>
      ParseIsoDate(ToIso(range.0)) == Some(range.0) && ParseIsoDate(ToIso(range.1)) == Some(range.1) by {
      if 1000 <= range.0.year <= 9999 {
        IsoRoundTrip(range.0);
        IsoRoundTrip(range.1);
      }
    }
    (ToIso(range.0), ToIso(range.1))
  }

  /**
   * The strings written into the date fields read back as the same period, so the day
   * counter reports the previous month's length (for four-digit years).
   */
  lemma SetPreviousMonthDatesCountsMonth(today: Date)
    requires ValidDate(today)
    requires 1000 <= PreviousMonth(FullYear(today.year), today.month).0 <= 9999
    ensures DaysBetweenFields(ParseIsoDate(SetPreviousMonthDates(today).0), ParseIsoDate(SetPreviousMonthDates(today).1))
            == DaysInMonth(PreviousMonth(FullYear(today.year), today.month).0,
                           PreviousMonth(FullYear(today.year), today.month).1)
  {
    var range := PreviousMonthRange(today);
    var strings := SetPreviousMonthDates(today);
    assert ParseIsoDate(strings.0) == Some(range.0) && ParseIsoDate(strings.1) == Some(range.1);
  }

  lemma ExampleLeapFebruary()
    ensures PreviousMonthRange(Date(2024, 3, 15)) == (Date(2024, 2, 1), Date(2024, 2, 29))
  {
  }

  lemma ExampleCommonFebruary()
    ensures PreviousMonthRange(Date(2023, 3, 1)) == (Date(2023, 2, 1), Date(2023, 2, 28))
  {
  }

  /** A two-digit year is read as a year of the twentieth century. */
  lemma ExampleTwoDigitYear()
    ensures PreviousMonthRange(Date(24, 3, 15)) == (Date(1924, 2, 1), Date(1924, 2, 29))
  {
  }

  lemma ExampleJanuaryWraps()
    ensures PreviousMonthRange(Date(2025, 1, 10)) == (Date(2024, 12, 1), Date(2024, 12, 31))
    ensures SetPreviousMonthDates(Date(2025, 1, 10)) == ("2024-12-01", "2024-12-31")
  {
    assert PreviousMonth(FullYear(2025), 1) == (2024, 12);
    assert DaysInMonth(2024, 12) == 31;
    var range := PreviousMonthRange(Date(2025, 1, 10));
    assert range == (Date(2024, 12, 1), Date(2024, 12, 31));
    ExampleDecemberEnds();
  }

  lemma ExampleDecemberEnds()
    ensures ToIso(Date(2024, 12, 1)) == "2024-12-01"
    ensures ToIso(Date(2024, 12, 31)) == "2024-12-31"
  {
    ExampleParseDecember();
    ParseIffPrinted("2024-12-01", Date(2024, 12, 1));
    ParseIffPrinted("2024-12-31", Date(2024, 12, 31));
  }

  lemma ExampleParseDecember()
    ensures ParseIsoDate("2024-12-01") == Some(Date(2024, 12, 1))
    ensures ParseIsoDate("2024-12-31") == Some(Date(2024, 12, 31))
  {
    ExampleParseDecemberFirst();
    ExampleParseDecemberLast();
  }

  lemma ExampleParseDecemberFirst()
    ensures ParseIsoDate("2024-12-01") == Some(Date(2024, 12, 1))
  {
    assert "2024-12-01"[..4] == "2024" && "2024-12-01"[5..7] == "12" && "2024-12-01"[8..] == "01";
    ExampleYearDigits();
    assert DecimalValue("12") == 12 by {
      assert "12"[..1] == "1" && "1"[..0] == [];
    }
    assert DecimalValue("01") == 1 by {
      assert "01"[..1] == "0" && "0"[..0] == [];
    }
  }

  lemma ExampleParseDecemberLast()
    ensures ParseIsoDate("2024-12-31") == Some(Date(2024, 12, 31))
  {
    assert "2024-12-31"[..4] == "2024" && "2024-12-31"[5..7] == "12" && "2024-12-31"[8..] == "31";
    ExampleYearDigits();
    assert DecimalValue("12") == 12 by {
      assert "12"[..1] == "1" && "1"[..0] == [];
    }
    assert DecimalValue("31") == 31 by {
      assert "31"[..1] == "3" && "3"[..0] == [];
    }
  }
}
