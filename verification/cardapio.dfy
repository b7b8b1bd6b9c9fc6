/** The menu screen ("cardápio"): the product dialog with its quantity
    stepper and price field, the add-to-tab request, the cart figures shown on
    the floating button, and the per-category product lists. */
module Cardapio {
  import opened Wrappers
  import Tab

  /** A catalogue product; `price` is null for variable-price products. */
  datatype Product = Product(
    id: string,
    name: string,
    category: string,
    price: Option<real>,
    isVariablePrice: bool)

  /** The add-to-tab dialog: the selected product, the quantity and the typed price text. */
  datatype Dialog = Dialog(selected: Option<Product>, quantity: int, customPrice: string)

  /** `openProductDialog`: selects the product and resets quantity and price text. */
  function OpenProductDialog(d: Dialog, p: Product): (r: Dialog)
    ensures r.selected == Some(p) && r.quantity == 1 && r.customPrice == ""
  {
    d.(selected := Some(p), quantity := 1, customPrice := "")
  }

  /** The minus button: `Math.max(1, quantity - 1)`. */
  function Decrement(q: int): (r: int)
    ensures r >= 1
    ensures q >= 2 ==> r == q - 1
    ensures q <= 1 ==> r == 1
  {
    if q - 1 < 1 then 1 else q - 1
  }

  /** The plus button. */
  function Increment(q: int): (r: int)
    ensures r - q == 1
  {
    q + 1
  }

  /** What the diner can do while the dialog is open. */
  datatype Gesture = Minus | Plus | TypePrice(text: string)

  /** One gesture: the stepper changes only the quantity, typing changes
      only the price text, and nothing changes the selected product. */
  function Apply(d: Dialog, g: Gesture): (r: Dialog)
    ensures r.selected == d.selected
    ensures g.TypePrice? ==> r == d.(customPrice := g.text)
    ensures !g.TypePrice? ==> r.customPrice == d.customPrice
    ensures d.quantity >= 1 ==> r.quantity >= 1
    ensures g == Minus ==> r.quantity >= 1
    ensures g == Minus && d.quantity <= 1 ==> r.quantity == 1
    ensures g == Minus && d.quantity >= 2 ==> r.quantity == d.quantity - 1
    ensures g == Plus ==> r.quantity == d.quantity + 1
  {
    match g
    case Minus => d.(quantity := Decrement(d.quantity))
    case Plus => d.(quantity := Increment(d.quantity))
    case TypePrice(text) => d.(customPrice := text)
  }

  function ApplyAll(d: Dialog, gs: seq<Gesture>): Dialog
    decreases |gs|
  {
    if |gs| == 0 then d else ApplyAll(Apply(d, gs[0]), gs[1..])
  }

  function CountPlus(gs: seq<Gesture>): nat {
    if |gs| == 0 then 0 else (if gs[0] == Plus then 1 else 0) + CountPlus(gs[1..])
  }

  /** Whatever the diner presses or types while the dialog is open, the
      quantity stays at least 1, never exceeds 1 plus the number of presses
      of plus, and the selected product does not change. */
  lemma {:induction false} QuantityStaysPositive(d: Dialog, p: Product, gs: seq<Gesture>)
    ensures ApplyAll(OpenProductDialog(d, p), gs).quantity >= 1
    ensures ApplyAll(OpenProductDialog(d, p), gs).quantity <= 1 + CountPlus(gs)
    ensures ApplyAll(OpenProductDialog(d, p), gs).selected == Some(p)
  {
    StepperBounds(OpenProductDialog(d, p), gs);
  }

  lemma {:induction false} StepperBounds(d: Dialog, gs: seq<Gesture>)
    requires d.quantity >= 1
    ensures ApplyAll(d, gs).quantity >= 1
    ensures ApplyAll(d, gs).quantity <= d.quantity + CountPlus(gs)
    ensures ApplyAll(d, gs).selected == d.selected
    decreases |gs|
  {
    if |gs| > 0 {
      StepperBounds(Apply(d, gs[0]), gs[1..]);
    }
  }

  /** The JSON body posted to add a line to the tab; `unitPrice` is `None`
      when the value sent is JSON null (a NaN or a missing catalogue price). */
  datatype ItemRequest = ItemRequest(
    comandaId: Option<string>,
    productId: string,
    productName: string,
    quantity: int,
    unitPrice: Option<real>)

  datatype AddOutcome = NothingSelected | AskForPrice | Send(request: ItemRequest)

  /** `addToCart`. `parseFloat` stands for JavaScript's parseFloat, with `None`
      for NaN. The variable-price guard is `!customPrice || price <= 0`; a NaN
      price compares false with 0 and so is not refused by it. */
  function AddToCart(d: Dialog, comandaId: Option<string>, parseFloat: string -> Option<real>)
    : (r: AddOutcome)
    ensures r == NothingSelected <==> d.selected.None?
    ensures r == AskForPrice <==>
      d.selected.Some? && d.selected.value.isVariablePrice &&
      (d.customPrice == "" ||
       (parseFloat(d.customPrice).Some? && parseFloat(d.customPrice).value <= 0.0))
    ensures r.Send? ==>
      var p := d.selected.value;
      && r.request.productId == p.id
      && r.request.productName == p.name
      && r.request.quantity == d.quantity
      && r.request.comandaId == comandaId
      && r.request.unitPrice == (if p.isVariablePrice then parseFloat(d.customPrice) else p.price)
    ensures r.Send? && d.selected.value.isVariablePrice ==>
      d.customPrice != "" && (r.request.unitPrice.None? || r.request.unitPrice.value > 0.0)
  {
    if d.selected.None? then NothingSelected
    else
      var p := d.selected.value;
      var price := if p.isVariablePrice then parseFloat(d.customPrice) else p.price;
      if p.isVariablePrice && (d.customPrice == "" || (price.Some? && price.value <= 0.0))
      then AskForPrice
      else Send(ItemRequest(comandaId, p.id, p.name, d.quantity, price))
  }

  /** `cartItemCount`: the sum of the quantities of the tab's lines. */
  function CartItemCount(cart: seq<Tab.LineItem>): (n: int)
    ensures (forall i :: 0 <= i < |cart| ==> cart[i].quantity >= 1) ==> n >= |cart|
    ensures |cart| == 0 ==> n == 0
    ensures (forall i :: 0 <= i < |cart| ==> cart[i].quantity >= 0) ==> n >= 0
  {
    if |cart| == 0 then 0 else CartItemCount(cart[..|cart| - 1]) + cart[|cart| - 1].quantity
  }

  /** Adding a line raises the item count by exactly that line's quantity,
      so the count is the sum of the quantities and not the number of lines. */
  lemma CartItemCountAdd(cart: seq<Tab.LineItem>, item: Tab.LineItem)
    ensures CartItemCount(cart + [item]) == CartItemCount(cart) + item.quantity
  {
    assert (cart + [item])[..|cart + [item]| - 1] == cart;
  }

  /** `cartTotal`: the same reduction as the tab screen's subtotal. */
  function CartTotal(cart: seq<Tab.LineItem>): (r: real)
    ensures r == Tab.CalculateTotal(cart).subtotal
  {
    Tab.Subtotal(cart)
  }

  /** The floating "see tab" button is rendered when the item count is positive. */
  predicate ShowCartButton(cart: seq<Tab.LineItem>) {
    CartItemCount(cart) > 0
  }

  /** When every line has a quantity of at least one (what the stepper
      produces), the button is shown exactly when the tab has lines. */
  lemma CartButtonIffNonEmpty(cart: seq<Tab.LineItem>)
    requires forall i :: 0 <= i < |cart| ==> cart[i].quantity >= 1
    ensures ShowCartButton(cart) <==> |cart| > 0
  {
  }

  /** `filterByCategory`: the products of one category, in catalogue order. */
  function FilterByCategory(products: seq<Product>, category: string): (r: seq<Product>)
    ensures |r| <= |products|
    ensures forall i :: 0 <= i < |r| ==> r[i].category == category && r[i] in products
    ensures forall i :: 0 <= i < |products| && products[i].category == category ==> products[i] in r
  {
    if |products| == 0 then []
    else
      var rest := FilterByCategory(products[1..], category);
      if products[0].category == category then [products[0]] + rest else rest
  }

  /** Filtering distributes over concatenation, so the result keeps the
      catalogue order: together with the one-product case this pins the
      result down completely. */
  lemma {:induction false} FilterKeepsOrder(a: seq<Product>, b: seq<Product>, category: string)
    ensures FilterByCategory(a + b, category) == FilterByCategory(a, category) + FilterByCategory(b, category)
    decreases |a|
  {
    if |a| == 0 {
      assert a + b == b;
    } else {
      assert (a + b)[1..] == a[1..] + b;
      FilterKeepsOrder(a[1..], b, category);
    }
  }

  lemma FilterSingle(p: Product, category: string)
    ensures FilterByCategory([p], category) == (if p.category == category then [p] else [])
  {
    assert [p][1..] == [];
  }
}
