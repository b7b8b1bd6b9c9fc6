/** The tab ("comanda") screen: the bill shown for the items of the open tab,
    and the guard in front of the payment screen. */
module Tab {
  import Money

  /** A row of the tab's line-item table as the screen receives it. */
  datatype LineItem = LineItem(
    productId: string,
    productName: string,
    quantity: int,
    unitPrice: real,
    totalPrice: real)

  function TotalPrice(item: LineItem): real {
    item.totalPrice
  }

  /** The service charge rate, a flat 10%. */
  const ServiceRate: real := 0.10

  /** `items.reduce((sum, item) => sum + item.total_price, 0)`; the menu
      screen's cart total is the same reduction over the same rows. */
  function Subtotal(items: seq<LineItem>): (r: real)
    ensures |items| == 0 ==> r == 0.0
    ensures (forall i :: 0 <= i < |items| ==> items[i].totalPrice >= 0.0) ==> r >= 0.0
  {
    Money.Sum(items, TotalPrice)
  }

  /** Adding one line to a tab raises its subtotal by exactly that line's total. */
  lemma SubtotalAdd(items: seq<LineItem>, item: LineItem)
    ensures Subtotal(items + [item]) == Subtotal(items) + item.totalPrice
  {
    Money.SumAppend(items, [item], TotalPrice);
  }

  /** Removing the line at position `k` lowers the subtotal by exactly that line's total. */
  lemma SubtotalRemove(items: seq<LineItem>, k: nat)
    requires k < |items|
    ensures Subtotal(items[..k] + items[k + 1..]) == Subtotal(items) - items[k].totalPrice
  {
    assert items == items[..k] + ([items[k]] + items[k + 1..]);
    Money.SumAppend(items[..k], [items[k]] + items[k + 1..], TotalPrice);
    Money.SumAppend([items[k]], items[k + 1..], TotalPrice);
    Money.SumAppend(items[..k], items[k + 1..], TotalPrice);
  }

  /** The three figures the tab screen displays. */
  datatype Bill = Bill(subtotal: real, serviceCharge: real, total: real)

  /** `calculateTotal` of the tab screen. */
  function CalculateTotal(items: seq<LineItem>): (b: Bill)
    ensures b.subtotal == Subtotal(items)
    ensures |items| == 0 ==> b == Bill(0.0, 0.0, 0.0)
    ensures 10.0 * b.serviceCharge == b.subtotal
    ensures b.total == 1.1 * b.subtotal
    ensures b.subtotal >= 0.0 ==> b.subtotal <= b.total
  {
    var subtotal := Subtotal(items);
    var serviceCharge := subtotal * ServiceRate;
    Bill(subtotal, serviceCharge, subtotal + serviceCharge)
  }

  /** Where "close the tab" leads. */
  datatype CheckoutStep = RefuseEmptyTab | GoToPayment

  /** `handleCheckout`: an empty tab is refused with a warning, any other tab
      goes on to the payment screen. */
  function Checkout(items: seq<LineItem>): (step: CheckoutStep)
    ensures step == RefuseEmptyTab <==> |items| == 0
    ensures step == GoToPayment <==> |items| > 0
  {
    if |items| == 0 then RefuseEmptyTab else GoToPayment
  }
}
