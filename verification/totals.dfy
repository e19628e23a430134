/**
 * The arithmetic of `calculate`: billable days from the period and the skipped days,
 * subtotal as the sum of the line totals, tax at a percentage rate, and the total.
 * Amounts are exact reals; display rounding is not part of the model.
 */
module Totals {
  import opened LineItems

  /** Every line's total is at least 0, as it is for every line the builder makes. */
  predicate NonNegativeTotals(items: seq<LineItem>) {
    forall i :: 0 <= i < |items| ==> items[i].total >= 0.0
  }

  /**
   * `items.reduce((sum, item) => sum + item.total, 0)`: the empty list sums to 0, a single
   * line to its own total, and lines with non-negative totals to at least 0.
   */
  function Subtotal(items: seq<LineItem>): (r: real)
    ensures items == [] ==> r == 0.0
    ensures |items| == 1 ==> r == items[0].total
    ensures NonNegativeTotals(items) ==> r >= 0.0
  {
    if items == [] then 0.0
    else
      var init := items[..|items| - 1];
      assert NonNegativeTotals(items) ==> NonNegativeTotals(init) by {
        if NonNegativeTotals(items) {
          forall i | 0 <= i < |init| ensures init[i].total >= 0.0 {
            assert init[i] == items[i];
          }
        }
      }
      Subtotal(init) + items[|items| - 1].total
  }

  datatype Totals = Totals(
    skippedDays: real,
    billableDays: real,
    subtotal: real,
    taxRate: real,
    taxAmount: real,
    total: real)

  /**
   * The totals for `items` over a period of `totalDays` days, from the raw skipped-day
   * count and the raw tax-rate percentage; both raw inputs are clamped at 0 first.
   */
  function ComputeTotals(items: seq<LineItem>, totalDays: int, skippedInput: real, taxRateInput: real): (t: Totals)
    ensures skippedInput >= 0.0 ==> t.skippedDays == skippedInput
    ensures skippedInput < 0.0 ==> t.skippedDays == 0.0
    ensures taxRateInput >= 0.0 ==> t.taxRate == taxRateInput
    ensures taxRateInput < 0.0 ==> t.taxRate == 0.0
    ensures t.billableDays >= 0.0
    ensures totalDays >= 0 ==> t.billableDays <= totalDays as real
    ensures t.billableDays > 0.0 <==> totalDays as real > t.skippedDays
    ensures t.billableDays > 0.0 ==> t.billableDays + t.skippedDays == totalDays as real
    ensures t.subtotal == Subtotal(items)
    ensures t.taxAmount == t.subtotal * t.taxRate / 100.0
    ensures t.total == t.subtotal + t.taxAmount
    ensures t.total == t.subtotal * (1.0 + t.taxRate / 100.0)
    ensures t.subtotal >= 0.0 ==> 0.0 <= t.taxAmount && t.subtotal <= t.total
  {
    var skipped := Max0(skippedInput);
    var rate := Max0(taxRateInput);
    var subtotal := Subtotal(items);
    var tax := subtotal * rate / 100.0;
    assert subtotal >= 0.0 ==> tax >= 0.0 by {
      if subtotal >= 0.0 {
        assert subtotal * rate >= 0.0;
      }
    }
    Totals(skipped, Max0(totalDays as real - skipped), subtotal, rate, tax, subtotal + tax)
  }

  // ---------------------------------------------------------------------------
  // Properties of the subtotal

  lemma {:induction false} SubtotalAppend(items: seq<LineItem>, more: seq<LineItem>)
    ensures Subtotal(items + more) == Subtotal(items) + Subtotal(more)
    decreases |more|
  {
    if more == [] {
      assert items + more == items;
    } else {
      var init := more[..|more| - 1];
      assert (items + more)[..|items + more| - 1] == items + init;
      SubtotalAppend(items, init);
    }
  }

  /** At least one line, every line priced with quantity and price above 0: the subtotal is positive. */
  lemma {:induction false} SubtotalPositive(items: seq<LineItem>)
    requires items != [] && AllPriced(items)
    requires forall i :: 0 <= i < |items| ==> items[i].qty > 0.0 && items[i].price > 0.0
    ensures Subtotal(items) > 0.0
  {
    var last := items[|items| - 1];
    assert last.qty * last.price > 0.0;
    var init := items[..|items| - 1];
    assert NonNegativeTotals(init) by {
      forall i | 0 <= i < |init| ensures init[i].total >= 0.0 {
        assert init[i] == items[i];
        assert items[i].qty * items[i].price >= 0.0;
      }
    }
  }

  lemma ExampleTwoLinesAtFivePercent()
    ensures var t := ComputeTotals([LineItem(Cow, 10.0, 65.0, 650.0), LineItem(Buffalo, 4.0, 70.0, 280.0)], 31, 0.0, 5.0);
      t.subtotal == 930.0 && t.taxAmount == 46.5 && t.total == 976.5
  {
    var items := [LineItem(Cow, 10.0, 65.0, 650.0), LineItem(Buffalo, 4.0, 70.0, 280.0)];
    assert items[..1] == [items[0]];
    assert Subtotal(items) == 930.0;
    assert 930.0 * 5.0 / 100.0 == 46.5;
  }
}
