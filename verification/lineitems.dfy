/**
 * The receipt's line items (`getMilkRows`): one row per enabled milk type, cow first,
 * with quantity and price clamped at 0 and the line total their product.
 */
module LineItems {

  datatype Milk = Cow | Buffalo

  /** The form's inputs for one milk type: the checkbox and the two numbers as parsed. */
  datatype Row = Row(enabled: bool, qty: real, price: real)

  /** One priced receipt line. */
  datatype LineItem = LineItem(milk: Milk, qty: real, price: real, total: real)

  /** `Math.max(0, x)`. */
  function Max0(x: real): (r: real)
    ensures r >= 0.0 && r >= x
    ensures r == x || r == 0.0
  {
    if x < 0.0 then 0.0 else x
  }

  /** A line whose numbers are non-negative and whose total is quantity times price. */
  predicate Priced(item: LineItem) {
    item.qty >= 0.0 && item.price >= 0.0 && item.total == item.qty * item.price
  }

  predicate AllPriced(items: seq<LineItem>) {
    forall i :: 0 <= i < |items| ==> Priced(items[i])
  }

  /** The line for milk `m` built from its form row. */
  function MakeItem(m: Milk, row: Row): (item: LineItem)
    ensures Priced(item) && item.milk == m
    ensures item.qty == Max0(row.qty) && item.price == Max0(row.price)
  {
    var qty := Max0(row.qty);
    var price := Max0(row.price);
    LineItem(m, qty, price, qty * price)
  }

  function RowFor(m: Milk, cow: Row, buffalo: Row): Row {
    match m
    case Cow => cow
    case Buffalo => buffalo
  }

  /**
   * The source's `getMilkRows`: exactly the enabled rows, each built from its own
   * form row, cow before buffalo.
   */
  function GetMilkRows(cow: Row, buffalo: Row): (items: seq<LineItem>)
    ensures |items| == (if cow.enabled then 1 else 0) + (if buffalo.enabled then 1 else 0)
    ensures AllPriced(items)
    ensures forall i :: 0 <= i < |items| ==>
      var row := RowFor(items[i].milk, cow, buffalo); row.enabled && items[i] == MakeItem(items[i].milk, row)
    ensures forall i, j :: 0 <= i < j < |items| ==> items[i].milk == Cow && items[j].milk == Buffalo
  {
    match (cow.enabled, buffalo.enabled)
    case (true, true) => [MakeItem(Cow, cow), MakeItem(Buffalo, buffalo)]
    case (true, false) => [MakeItem(Cow, cow)]
    case (false, true) => [MakeItem(Buffalo, buffalo)]
    case (false, false) => []
  }

  /** A disabled row contributes nothing, whatever quantity and price it holds. */
  lemma DisabledRowIgnored(cow: Row, buffalo: Row, qty: real, price: real)
    ensures !cow.enabled ==> GetMilkRows(cow.(qty := qty, price := price), buffalo) == GetMilkRows(cow, buffalo)
    ensures !buffalo.enabled ==> GetMilkRows(cow, buffalo.(qty := qty, price := price)) == GetMilkRows(cow, buffalo)
  {
  }

  /** An enabled cow row always yields the first line. */
  lemma CowLineFirst(cow: Row, buffalo: Row)
    requires cow.enabled
    ensures GetMilkRows(cow, buffalo)[0] == MakeItem(Cow, cow)
  {
  }

  /** With both rows enabled, the cow line comes first and the buffalo line second. */
  lemma BothRowsInOrder(cow: Row, buffalo: Row)
    requires cow.enabled && buffalo.enabled
    ensures GetMilkRows(cow, buffalo) == [MakeItem(Cow, cow), MakeItem(Buffalo, buffalo)]
  {
  }

  lemma ExampleCowOnly()
    ensures GetMilkRows(Row(true, 10.0, 65.0), Row(false, 4.0, 70.0)) == [LineItem(Cow, 10.0, 65.0, 650.0)]
    ensures GetMilkRows(Row(true, -2.0, 65.0), Row(false, 4.0, 70.0)) == [LineItem(Cow, 0.0, 65.0, 0.0)]
  {
  }
}
