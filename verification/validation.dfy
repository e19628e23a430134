/**
 * The form validator (`validate`): six checks in a fixed order, the first failing one
 * deciding the message shown; the empty message means the receipt may be exported.
 */
module Validation {
  import opened Wrappers
  import opened Calendar
  import opened Text
  import opened LineItems
  import opened Totals

  datatype ErrorKind =
    | MissingBilledTo
    | MissingDates
    | InvalidDateOrder
    | SkippedExceedsTotal
    | NoLineItemSelected
    | InvalidLineItemValues

  /** The message the source shows for each failure. */
  function Message(e: ErrorKind): (m: string)
    ensures m != []
  {
    match e
    case MissingBilledTo => "Please enter the billed-to name."
    case MissingDates => "Please select both dates."
    case InvalidDateOrder => "Date To must be after or equal to Date From."
    case SkippedExceedsTotal => "Skipped days cannot be more than the total days."
    case NoLineItemSelected => "Please select at least one milk option."
    case InvalidLineItemValues => "Selected milk options must have quantity and price greater than 0."
  }

  /** What the validator looks at: the raw name, the two date fields and the computed figures. */
  datatype Snapshot = Snapshot(
    billedTo: string,
    dateFrom: Option<Date>,
    dateTo: Option<Date>,
    totalDays: int,
    billableDays: real,
    items: seq<LineItem>)

  /** Position of each check in the order the validator runs them. */
  function Rank(e: ErrorKind): nat {
    match e
    case MissingBilledTo => 0
    case MissingDates => 1
    case InvalidDateOrder => 2
    case SkippedExceedsTotal => 3
    case NoLineItemSelected => 4
    case InvalidLineItemValues => 5
  }

  predicate BadItem(item: LineItem) {
    item.qty <= 0.0 || item.price <= 0.0
  }

  /** Whether check `e`, taken on its own, rejects `s`. */
  predicate Fails(s: Snapshot, e: ErrorKind) {
    match e
    case MissingBilledTo => Trim(s.billedTo) == []
    case MissingDates => s.dateFrom.None? || s.dateTo.None?
    case InvalidDateOrder => s.totalDays <= 0
    case SkippedExceedsTotal => s.billableDays <= 0.0
    case NoLineItemSelected => s.items == []
    case InvalidLineItemValues => exists i :: 0 <= i < |s.items| && BadItem(s.items[i])
  }

  /** Every check ranked below `n` passes. */
  predicate PassesBefore(s: Snapshot, n: nat) {
    && (n > 0 ==> !Fails(s, MissingBilledTo))
    && (n > 1 ==> !Fails(s, MissingDates))
    && (n > 2 ==> !Fails(s, InvalidDateOrder))
    && (n > 3 ==> !Fails(s, SkippedExceedsTotal))
    && (n > 4 ==> !Fails(s, NoLineItemSelected))
    && (n > 5 ==> !Fails(s, InvalidLineItemValues))
  }

  /**
   * The source's `validate`: the first check, in the order of `Rank`, that rejects `s`;
   * `None` when every check passes.
   */
  function Validate(s: Snapshot): (r: Option<ErrorKind>)
    ensures r.Some? ==> Fails(s, r.value) && PassesBefore(s, Rank(r.value))
    ensures r.None? <==> PassesBefore(s, 6)
  {
    if Fails(s, MissingBilledTo) then Some(MissingBilledTo)
    else if Fails(s, MissingDates) then Some(MissingDates)
    else if Fails(s, InvalidDateOrder) then Some(InvalidDateOrder)
    else if Fails(s, SkippedExceedsTotal) then Some(SkippedExceedsTotal)
    else if Fails(s, NoLineItemSelected) then Some(NoLineItemSelected)
    else if Fails(s, InvalidLineItemValues) then Some(InvalidLineItemValues)
    else None
  }

  /** The string `validate` returns: empty when the form passes, the message of the first failure otherwise. */
  function ValidationMessage(s: Snapshot): (m: string)
    ensures m == [] <==> Validate(s).None?
    ensures Validate(s).Some? ==> m == Message(Validate(s).value)
  {
    match Validate(s)
    case None => ""
    case Some(e) => Message(e)
  }

  // ---------------------------------------------------------------------------
  // The same chain as an ordered list of (error, check passed) pairs

  function Checks(s: Snapshot): seq<(ErrorKind, bool)> {
    [ (MissingBilledTo, !Fails(s, MissingBilledTo)),
      (MissingDates, !Fails(s, MissingDates)),
      (InvalidDateOrder, !Fails(s, InvalidDateOrder)),
      (SkippedExceedsTotal, !Fails(s, SkippedExceedsTotal)),
      (NoLineItemSelected, !Fails(s, NoLineItemSelected)),
      (InvalidLineItemValues, !Fails(s, InvalidLineItemValues)) ]
  }

  /** Pair `i` carries `e`, its check did not pass, and every earlier check did. */
  predicate FirstFailingAt(checks: seq<(ErrorKind, bool)>, i: int, e: ErrorKind) {
    && 0 <= i < |checks|
    && !checks[i].1
    && checks[i].0 == e
    && forall j :: 0 <= j < i ==> checks[j].1
  }

  /** The error of the first pair whose check did not pass. */
  function FirstFailure(checks: seq<(ErrorKind, bool)>): (r: Option<ErrorKind>)
    ensures r.None? <==> forall i :: 0 <= i < |checks| ==> checks[i].1
    ensures r.Some? ==> exists i :: FirstFailingAt(checks, i, r.value)
  {
    if checks == [] then None
    else if !checks[0].1 then
      assert FirstFailingAt(checks, 0, checks[0].0);
      Some(checks[0].0)
    else
      var rest := checks[1..];
      var r := FirstFailure(rest);
      assert r.Some? ==> exists i :: FirstFailingAt(checks, i, r.value) by {
        if r.Some? {
          var k :| FirstFailingAt(rest, k, r.value);
          assert checks[k + 1] == rest[k];
          forall j | 0 <= j < k + 1 ensures checks[j].1 {
            if j > 0 {
              assert checks[j] == rest[j - 1];
            }
          }
          assert FirstFailingAt(checks, k + 1, r.value);
        }
      }
      r
  }

  lemma FirstFailureCons(c: (ErrorKind, bool), rest: seq<(ErrorKind, bool)>)
    ensures FirstFailure([c] + rest) == if !c.1 then Some(c.0) else FirstFailure(rest)
  {
    assert ([c] + rest)[1..] == rest;
  }

  /** The nested conditionals and the ordered check list give the same verdict. */
  lemma ValidateIsFirstFailure(s: Snapshot)
    ensures Validate(s) == FirstFailure(Checks(s))
  {
    var c := Checks(s);
    assert c == [c[0]] + ([c[1]] + ([c[2]] + ([c[3]] + ([c[4]] + ([c[5]] + [])))));
    FirstFailureCons(c[5], []);
    FirstFailureCons(c[4], [c[5]] + []);
    FirstFailureCons(c[3], [c[4]] + ([c[5]] + []));
    FirstFailureCons(c[2], [c[3]] + ([c[4]] + ([c[5]] + [])));
    FirstFailureCons(c[1], [c[2]] + ([c[3]] + ([c[4]] + ([c[5]] + []))));
    FirstFailureCons(c[0], [c[1]] + ([c[2]] + ([c[3]] + ([c[4]] + ([c[5]] + [])))));
  }

  // ---------------------------------------------------------------------------
  // Properties

  /** The form passes exactly when all six conditions hold. */
  lemma ValidIff(s: Snapshot)
    ensures Validate(s).None? <==>
      && Trim(s.billedTo) != []
      && s.dateFrom.Some? && s.dateTo.Some?
      && s.totalDays > 0
      && s.billableDays > 0.0
      && s.items != []
      && forall i :: 0 <= i < |s.items| ==> s.items[i].qty > 0.0 && s.items[i].price > 0.0
  {
    if Validate(s).None? {
      assert PassesBefore(s, 6);
      assert !Fails(s, InvalidLineItemValues);
    } else {
      var e := Validate(s).value;
      assert Fails(s, e);
    }
  }

  /** A blank or whitespace-only name is reported first, whatever the other fields hold. */
  lemma BlankNameWins(s: Snapshot)
    requires AllWhitespace(s.billedTo)
    ensures Validate(s) == Some(MissingBilledTo)
  {
  }

  /** Each later error is reported only when every earlier check passed. */
  lemma LaterErrorMeansEarlierPassed(s: Snapshot)
    requires Validate(s).Some?
    ensures Validate(s) != Some(MissingBilledTo) ==> Trim(s.billedTo) != []
    ensures Rank(Validate(s).value) >= 2 ==> s.dateFrom.Some? && s.dateTo.Some?
    ensures Rank(Validate(s).value) >= 3 ==> s.totalDays > 0
    ensures Rank(Validate(s).value) >= 4 ==> s.billableDays > 0.0
    ensures Validate(s) == Some(InvalidLineItemValues) ==> s.items != []
  {
    var e := Validate(s).value;
    assert PassesBefore(s, Rank(e));
    match e {
      case MissingBilledTo =>
      case MissingDates =>
        assert !Fails(s, MissingBilledTo);
      case InvalidDateOrder =>
        assert !Fails(s, MissingDates);
      case SkippedExceedsTotal =>
        assert !Fails(s, InvalidDateOrder);
      case NoLineItemSelected =>
        assert !Fails(s, SkippedExceedsTotal);
      case InvalidLineItemValues =>
        assert !Fails(s, NoLineItemSelected);
    }
  }

  /** A passing snapshot whose lines are priced has a positive subtotal. */
  lemma ValidImpliesPositiveSubtotal(s: Snapshot)
    requires Validate(s).None? && AllPriced(s.items)
    ensures Subtotal(s.items) > 0.0
  {
    ValidIff(s);
    SubtotalPositive(s.items);
  }

  /** With a date missing, the day figures are never consulted. */
  lemma MissingDateIgnoresDayCounts(s: Snapshot, totalDays: int, billableDays: real)
    requires s.dateFrom.None? || s.dateTo.None?
    ensures Validate(s.(totalDays := totalDays, billableDays := billableDays)) == Validate(s)
  {
  }
}
