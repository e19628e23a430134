/**
 * The whole calculation as one pure step: the form's current values in, the receipt
 * figures out (`calculate`), the validator's verdict on them (`validate`), and the
 * title the export uses when the verdict allows it (`handleDownload`).
 */
module Receipt {
  import opened Wrappers
  import opened Calendar
  import opened DayCount
  import opened Text
  import opened LineItems
  import opened Totals
  import opened Validation
  import opened Filename

  /** The form's values as read: the date fields hold a calendar date or nothing. */
  datatype Form = Form(
    billedTo: string,
    dateFrom: Option<Date>,
    dateTo: Option<Date>,
    skippedDays: real,
    taxRate: real,
    cow: Row,
    buffalo: Row)

  /** A date picker yields only real calendar dates. */
  predicate WellFormed(f: Form) {
    (f.dateFrom.Some? ==> ValidDate(f.dateFrom.value))
    && (f.dateTo.Some? ==> ValidDate(f.dateTo.value))
  }

  datatype Figures = Figures(totalDays: int, items: seq<LineItem>, totals: Totals)

  /** The period's inclusive day count; 0 while a date is missing. */
  function TotalDays(f: Form): (n: int)
    requires WellFormed(f)
    ensures n >= 0
    ensures f.dateFrom.Some? && f.dateTo.Some? ==> n == DaysBetweenInclusive(f.dateFrom.value, f.dateTo.value)
  {
    DaysBetweenFields(f.dateFrom, f.dateTo)
  }

  /** The source's `calculate`, without the writes to the preview. */
  function Calculate(f: Form): (r: Figures)
    requires WellFormed(f)
    ensures AllPriced(r.items)
    ensures 0.0 <= r.totals.billableDays <= r.totalDays as real
    ensures 0.0 <= r.totals.subtotal <= r.totals.total
    ensures |r.items| > 0 <==> f.cow.enabled || f.buffalo.enabled
  {
    var totalDays := TotalDays(f);
    var items := GetMilkRows(f.cow, f.buffalo);
    assert NonNegativeTotals(items) by {
      forall i | 0 <= i < |items| ensures items[i].total >= 0.0 {
        assert Priced(items[i]);
      }
    }
    Figures(totalDays, items, ComputeTotals(items, totalDays, f.skippedDays, f.taxRate))
  }

  function SnapshotOf(f: Form): Snapshot
    requires WellFormed(f)
  {
    var r := Calculate(f);
    Snapshot(f.billedTo, f.dateFrom, f.dateTo, r.totalDays, r.totals.billableDays, r.items)
  }

  /** The source's `validate`, which recalculates from the form before checking. */
  function ValidateForm(f: Form): (r: Option<ErrorKind>)
    requires WellFormed(f)
    ensures Trim(f.billedTo) == [] ==> r == Some(MissingBilledTo)
    ensures Trim(f.billedTo) != [] && (f.dateFrom.None? || f.dateTo.None?) ==> r == Some(MissingDates)
    ensures r.None? ==> f.dateFrom.Some? && f.dateTo.Some? && (f.cow.enabled || f.buffalo.enabled)
  {
    var s := SnapshotOf(f);
    assert s.items == Calculate(f).items;
    Validate(s)
  }

  /** `handleDownload`: no export while the form is rejected; otherwise the document title to print under. */
  function DownloadTitle(f: Form): (title: Option<string>)
    requires WellFormed(f)
    ensures title.Some? <==> ValidateForm(f).None?
    ensures title.Some? ==> title.value != [] && NoForbidden(title.value) && NoWhitespace(title.value)
  {
    if ValidateForm(f).Some? then None else Some(ExportName(f.billedTo))
  }

  // ---------------------------------------------------------------------------
  // Properties of the whole form

  /**
   * A form that passes has a positive subtotal and total, a period whose end is not
   * before its start, at least one billable day, and at least one milk type selected.
   */
  lemma AcceptedFormFigures(f: Form)
    requires WellFormed(f) && ValidateForm(f).None?
    ensures var r := Calculate(f);
      && 0.0 < r.totals.subtotal <= r.totals.total
      && 0.0 < r.totals.billableDays <= r.totalDays as real
      && !DateBefore(f.dateTo.value, f.dateFrom.value)
      && (f.cow.enabled || f.buffalo.enabled)
  {
    var s := SnapshotOf(f);
    ValidIff(s);
    ValidImpliesPositiveSubtotal(s);
    DaysBetweenZeroIffReversed(f.dateFrom.value, f.dateTo.value);
  }

  /**
   * An enabled milk type with a quantity or price of 0 or below blocks the export once
   * the earlier checks pass; clamping does not hide it.
   */
  lemma NonPositiveEnabledRowRejected(f: Form)
    requires WellFormed(f)
    requires f.cow.enabled && (f.cow.qty <= 0.0 || f.cow.price <= 0.0)
    ensures ValidateForm(f).Some?
  {
    var s := SnapshotOf(f);
    assert s.items == GetMilkRows(f.cow, f.buffalo);
    CowLineFirst(f.cow, f.buffalo);
    assert BadItem(s.items[0]);
    if Validate(s).None? {
      ValidIff(s);
      assert false;
    }
  }

  /** On an accepted form the billed-to name is never blank, so only the second fallback can apply. */
  lemma AcceptedTitleFromName(f: Form)
    requires WellFormed(f) && ValidateForm(f).None?
    ensures Trim(f.billedTo) != []
    ensures DownloadTitle(f) == Some(if Sanitize(f.billedTo) == [] then FallbackName else Sanitize(f.billedTo))
  {
    ValidIff(SnapshotOf(f));
    ExportNameFallback(f.billedTo);
  }

  /** Asha, the 28 days of February 2023, nothing skipped, 10 L of cow milk at 65 with no tax. */
  function ExampleForm(): Form {
    Form("Asha", Some(Date(2023, 2, 1)), Some(Date(2023, 2, 28)), 0.0, 0.0,
         Row(true, 10.0, 65.0), Row(false, 0.0, 70.0))
  }

  lemma ExampleFormFigures()
    ensures WellFormed(ExampleForm())
    ensures Calculate(ExampleForm()) ==
      Figures(28, [LineItem(Cow, 10.0, 65.0, 650.0)], Totals(0.0, 28.0, 650.0, 0.0, 0.0, 650.0))
  {
    var f := ExampleForm();
    DaysBetweenWithinMonth(2023, 2, 28);
    assert TotalDays(f) == 28;
    var items := GetMilkRows(f.cow, f.buffalo);
    assert items == [LineItem(Cow, 10.0, 65.0, 650.0)];
  }

  lemma ExampleNameKept()
    ensures Trim("Asha") == "Asha"
  {
    var n := "Asha";
    assert n[0] == 'A' && n[|n| - 1] == 'a';
    TrimKeepsCore(n);
  }

  function ExampleSnapshotValue(): Snapshot {
    Snapshot("Asha", Some(Date(2023, 2, 1)), Some(Date(2023, 2, 28)), 28, 28.0, [LineItem(Cow, 10.0, 65.0, 650.0)])
  }

  lemma ExampleSnapshot()
    ensures WellFormed(ExampleForm())
    ensures SnapshotOf(ExampleForm()) == ExampleSnapshotValue()
  {
    ExampleFormFigures();
  }

  /** Each check in turn passes on the example's snapshot. */
  lemma ExampleSnapshotPasses()
    ensures Validate(ExampleSnapshotValue()) == None
  {
    var s := ExampleSnapshotValue();
    ExampleNameKept();
    assert !Fails(s, MissingBilledTo);
    assert !Fails(s, MissingDates);
    assert !Fails(s, InvalidDateOrder);
    assert !Fails(s, SkippedExceedsTotal);
    assert !Fails(s, NoLineItemSelected);
    assert !Fails(s, InvalidLineItemValues) by {
      assert !BadItem(s.items[0]);
    }
    assert PassesBefore(s, 6);
  }

  /** The example form is accepted. */
  lemma ExampleAcceptedForm()
    ensures WellFormed(ExampleForm()) && ValidateForm(ExampleForm()) == None
  {
    ExampleSnapshot();
    ExampleSnapshotPasses();
  }
}
