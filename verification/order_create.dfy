/** The order-creation endpoint: validation, tenant resolution, menu check,
    line normalisation, totals, optional idempotency on `external_ref`, the
    order insert, the item insert, and the cancel-on-failure fallback.

    The datastore is abstract: the menu and the tenants are maps, the orders
    table is a sequence whose positions are the order ids (the datastore
    generates ids; here the next id is the next position), and `order_items`
    is an append-only sequence. Every datastore call that can fail gets an
    explicit failure input in `Faults`. */
module OrderCreate {
  import opened Wrappers
  import Money

  type Id = string

  // ---------------------------------------------------------------- data

  /** A `menu_items` row (`id,name,price,tenant_id`, keyed by id in the map). */
  datatype MenuItem = MenuItem(name: Option<string>, price: Option<real>, tenantId: Option<Id>)

  /** One requested line. */
  datatype RequestLine = RequestLine(
    menuItemId: Id,
    name: Option<string>,
    qty: Option<real>,
    unitPrice: Option<real>,
    notes: Option<string>)

  /** The fields of the request body the handler reads. */
  datatype Request = Request(
    items: Option<seq<RequestLine>>,
    tenantId: Option<Id>,
    tenantSlug: Option<string>,
    tableCode: Option<string>,
    customerName: Option<string>,
    externalRef: Option<string>)

  /** The body: JSON that parsed, or a parse error with its message. */
  datatype Body = Malformed(message: string) | Parsed(request: Request)

  datatype OrderStatus = Received | Canceled

  /** An `orders` row. */
  datatype Order = Order(
    tenantId: Option<Id>,
    tableCode: Option<string>,
    customerName: Option<string>,
    status: OrderStatus,
    subtotal: real,
    total: real,
    externalRef: Option<string>)

  /** A normalised line. */
  datatype Line = Line(
    menuItemId: Id,
    name: string,
    qty: real,
    unitPrice: real,
    lineTotal: real,
    notes: Option<string>)

  /** An `order_items` row. */
  datatype OrderItem = OrderItem(orderId: nat, line: Line, tenantId: Option<Id>)

  datatype Store = Store(orders: seq<Order>, items: seq<OrderItem>)

  /** A datastore error; its message may be absent. */
  datatype DbError = DbError(message: Option<string>) {
    /** `err?.message ?? "Erro inesperado"`. */
    function Text(): string {
      message.GetOr(UnexpectedError)
    }
  }

  /** Which datastore calls fail. The external-ref lookup's error is ignored
      by the handler (it reads only `data`), so its failure is a flag; so is
      the failure of the cancel update, whose result is never read. */
  datatype Faults = Faults(
    tenantLookup: Option<DbError>,
    menuLookup: Option<DbError>,
    refLookupFails: bool,
    orderInsert: Option<DbError>,
    itemInsert: Option<DbError>,
    cancelFails: bool)

  datatype Response =
    | Created(orderId: nat, subtotal: real, total: real)
    | Duplicate(orderId: nat)
    | BadRequest(error: string)
    | ServerError(error: string)
  {
    function Code(): int {
      match this
      case Created(_, _, _) => 200
      case Duplicate(_) => 200
      case BadRequest(_) => 400
      case ServerError(_) => 500
    }
  }

  datatype Outcome = Outcome(response: Response, store: Store)

  const ItemsRequired: string := "Itens obrigatórios"
  const InvalidMenuItems: string := "Itens de menu inválidos"
  const UnexpectedError: string := "Erro inesperado"
  const DefaultItemName: string := "Item"

  // ---------------------------------------------------------------- tenant

  /** Tenant resolution: `tenant_id ?? null`; when that is falsy and a slug is given,
      the tenant with that slug (or null when there is none). */
  function ResolveTenant(req: Request, tenants: map<string, Id>, fault: Option<DbError>)
    : (r: Result<Option<Id>, DbError>)
    ensures Truthy(req.tenantId) ==> r == Success(req.tenantId)
    ensures !Truthy(req.tenantId) && !Truthy(req.tenantSlug) ==> r == Success(req.tenantId)
    ensures r.Failure? <==> !Truthy(req.tenantId) && Truthy(req.tenantSlug) && fault.Some?
    ensures r.Success? && !Truthy(req.tenantId) && Truthy(req.tenantSlug) ==>
      && (r.value.Some? <==> req.tenantSlug.value in tenants)
      && (r.value.Some? ==> r.value.value == tenants[req.tenantSlug.value])
  {
    if Truthy(req.tenantId) || !Truthy(req.tenantSlug) then Success(req.tenantId)
    else if fault.Some? then Failure(fault.value)
    else
      var slug := req.tenantSlug.value;
      Success(if slug in tenants then Some(tenants[slug]) else None)
  }

  // ---------------------------------------------------------------- menu

  function MenuIds(lines: seq<RequestLine>): (ids: seq<Id>)
    ensures |ids| == |lines|
    ensures forall i :: 0 <= i < |lines| ==> ids[i] == lines[i].menuItemId
  {
    seq(|lines|, i requires 0 <= i < |lines| => lines[i].menuItemId)
  }

  /** The rows `.in("id", ids)` returns: each matching menu item once. */
  function MenuRows(ids: seq<Id>, menu: map<Id, MenuItem>): set<Id> {
    set id | id in ids && id in menu
  }

  predicate Distinct(ids: seq<Id>) {
    forall i, j :: 0 <= i < j < |ids| ==> ids[i] != ids[j]
  }

  /** The menu check `menuData.length !== body.items.length`, negated: the
      rows found are as many as the lines. Since each row is found once, a
      request that passes names no more lines than the menu has items. */
  predicate MenuConsistent(lines: seq<RequestLine>, menu: map<Id, MenuItem>)
    ensures MenuConsistent(lines, menu) ==> |lines| <= |menu|
  {
    var rows := MenuRows(MenuIds(lines), menu);
    SubsetCard(rows, menu.Keys);
    |rows| == |lines|
  }

  function Elements(s: seq<Id>): set<Id> {
    set x | x in s
  }

  lemma {:induction false} ElementsCard(s: seq<Id>)
    ensures |Elements(s)| <= |s|
    ensures |Elements(s)| == |s| <==> Distinct(s)
    decreases |s|
  {
    if |s| > 0 {
      var t := s[1..];
      ElementsCard(t);
      assert Elements(s) == {s[0]} + Elements(t);
      if s[0] in t {
        assert Elements(s) == Elements(t);
        var j :| 0 <= j < |t| && t[j] == s[0];
        assert s[0] == s[j + 1];
        assert !Distinct(s);
      } else {
        assert s[0] !in Elements(t);
        assert |Elements(s)| == 1 + |Elements(t)|;
        assert Distinct(s) <==> Distinct(t) by {
          if Distinct(t) {
            forall i, j | 0 <= i < j < |s| ensures s[i] != s[j] {
              if i == 0 {
                assert s[j] == t[j - 1];
              } else {
                assert s[i] == t[i - 1] && s[j] == t[j - 1];
              }
            }
          }
          if Distinct(s) {
            forall i, j | 0 <= i < j < |t| ensures t[i] != t[j] {
              assert t[i] == s[i + 1] && t[j] == s[j + 1];
            }
          }
        }
      }
    }
  }

  lemma SubsetCard(a: set<Id>, b: set<Id>)
    requires a <= b
    ensures |a| <= |b|
    ensures |a| == |b| ==> a == b
  {
    assert b == a + (b - a);
    assert |b| == |a| + |b - a|;
    if |a| == |b| {
      assert |b - a| == 0;
      assert b - a == {};
    }
  }

  /** The menu check passes exactly when the requested ids are pairwise
      distinct and every one of them names a menu item: since the `in` filter
      returns each row once, a repeated id is refused like an unknown one. */
  lemma MenuCheckIff(lines: seq<RequestLine>, menu: map<Id, MenuItem>)
    ensures MenuConsistent(lines, menu) <==>
      Distinct(MenuIds(lines)) && forall i :: 0 <= i < |lines| ==> lines[i].menuItemId in menu
  {
    var ids := MenuIds(lines);
    var rows := MenuRows(ids, menu);
    ElementsCard(ids);
    SubsetCard(rows, Elements(ids));
    if MenuConsistent(lines, menu) {
      assert rows == Elements(ids);
      forall i | 0 <= i < |lines| ensures lines[i].menuItemId in menu {
        assert ids[i] in Elements(ids);
      }
    }
    if Distinct(ids) && forall i :: 0 <= i < |lines| ==> lines[i].menuItemId in menu {
      forall id | id in Elements(ids) ensures id in rows {
        var i :| 0 <= i < |ids| && ids[i] == id;
      }
      assert rows == Elements(ids);
    }
  }

  // ---------------------------------------------------------------- normalise

  function Lookup(menu: map<Id, MenuItem>, id: Id): Option<MenuItem> {
    if id in menu then Some(menu[id]) else None
  }

  function MenuPrice(m: Option<MenuItem>): Option<real> {
    if m.Some? then m.value.price else None
  }

  function MenuName(m: Option<MenuItem>): Option<string> {
    if m.Some? then m.value.name else None
  }

  /** Line normalisation for one line: unit = `unit_price ?? m?.price ?? 0`, qty =
      `qty ?? 1`, name = `name ?? m?.name ?? "Item"`, and the line total is
      unit × qty rounded to cents. */
  function NormalizeLine(l: RequestLine, m: Option<MenuItem>): (n: Line)
    ensures n.menuItemId == l.menuItemId && n.notes == l.notes
    ensures l.unitPrice.Some? ==> n.unitPrice == l.unitPrice.value
    ensures l.unitPrice.None? && MenuPrice(m).Some? ==> n.unitPrice == MenuPrice(m).value
    ensures l.unitPrice.None? && MenuPrice(m).None? ==> n.unitPrice == 0.0
    ensures l.qty.Some? ==> n.qty == l.qty.value
    ensures l.qty.None? ==> n.qty == 1.0
    ensures l.name.Some? ==> n.name == l.name.value
    ensures l.name.None? && MenuName(m).Some? ==> n.name == MenuName(m).value
    ensures l.name.None? && MenuName(m).None? ==> n.name == DefaultItemName
    ensures n.lineTotal == Money.RoundedProduct(n.unitPrice, n.qty)
  {
    var unit := l.unitPrice.OrElse(MenuPrice(m)).GetOr(0.0);
    var qty := l.qty.GetOr(1.0);
    var name := l.name.OrElse(MenuName(m)).GetOr(DefaultItemName);
    Line(l.menuItemId, name, qty, unit, Money.RoundedProduct(unit, qty), l.notes)
  }

  /** Line normalisation: one normalised line per requested line, in request order. */
  function Normalize(lines: seq<RequestLine>, menu: map<Id, MenuItem>): (ns: seq<Line>)
    ensures |ns| == |lines|
    ensures forall i :: 0 <= i < |lines| ==> ns[i].menuItemId == lines[i].menuItemId
    ensures forall i :: 0 <= i < |lines| ==>
      ns[i] == NormalizeLine(lines[i], Lookup(menu, lines[i].menuItemId))
  {
    seq(|lines|, i requires 0 <= i < |lines| => NormalizeLine(lines[i], Lookup(menu, lines[i].menuItemId)))
  }

  function LineTotal(n: Line): real {
    n.lineTotal
  }

  function ExactTotal(n: Line): real {
    n.unitPrice * n.qty
  }

  /** `normalized.reduce((acc, it) => acc + it.line_total, 0)`: zero for no
      lines, and whole cents when every line total is. */
  function Subtotal(ns: seq<Line>): (r: real)
    ensures |ns| == 0 ==> r == 0.0
    ensures (forall i :: 0 <= i < |ns| ==> Money.IsCents(ns[i].lineTotal)) ==> Money.IsCents(r)
  {
    Money.SumOfCents(ns, LineTotal);
    Money.Sum(ns, LineTotal)
  }

  /** The subtotal of normalised lines is a whole number of cents and lies
      within half a cent per line of the unrounded sum of unit × qty. */
  lemma SubtotalFacts(lines: seq<RequestLine>, menu: map<Id, MenuItem>)
    ensures Money.IsCents(Subtotal(Normalize(lines, menu)))
    ensures var ns := Normalize(lines, menu);
      -(|ns| as real) * 0.005 <= Subtotal(ns) - Money.Sum(ns, ExactTotal) <= (|ns| as real) * 0.005
  {
    var ns := Normalize(lines, menu);
    forall i | 0 <= i < |ns|
      ensures Money.IsCents(LineTotal(ns[i]))
      ensures -0.005 <= LineTotal(ns[i]) - ExactTotal(ns[i]) <= 0.005
    {
      var n := NormalizeLine(lines[i], Lookup(menu, lines[i].menuItemId));
      assert ns[i] == n;
      assert Money.RoundsTo(ExactTotal(n), LineTotal(n));
    }
    Money.SumOfCents(ns, LineTotal);
    Money.SumDrift(ns, LineTotal, ExactTotal);
  }

  // ---------------------------------------------------------------- idempotency

  /** The ids of the orders carrying `ref`, in id order. */
  function OrdersWithRef(orders: seq<Order>, ref: string): (ks: seq<nat>)
    ensures forall k :: k in ks <==> 0 <= k < |orders| && orders[k].externalRef == Some(ref)
    ensures forall i, j :: 0 <= i < j < |ks| ==> ks[i] < ks[j]
    ensures forall i :: 0 <= i < |ks| ==> ks[i] < |orders|
  {
    if |orders| == 0 then []
    else
      var last := |orders| - 1;
      OrdersWithRef(orders[..last], ref) + (if orders[last].externalRef == Some(ref) then [last] else [])
  }

  /** The idempotency lookup: `maybeSingle()` yields the row when exactly one order carries
      the reference; with none, with several (an error), or when the lookup
      fails, `data` is null and the handler goes on to insert. */
  function ExistingOrder(orders: seq<Order>, ref: Option<string>, lookupFails: bool): (r: Option<nat>)
    ensures r.Some? ==>
      && Truthy(ref) && !lookupFails
      && r.value < |orders| && orders[r.value].externalRef == ref
      && forall k :: 0 <= k < |orders| && orders[k].externalRef == ref ==> k == r.value
    ensures r.None? && Truthy(ref) && !lookupFails ==>
      forall k :: 0 <= k < |orders| && orders[k].externalRef == ref ==>
        exists k' :: 0 <= k' < |orders| && k' != k && orders[k'].externalRef == ref
  {
    if !Truthy(ref) || lookupFails then None
    else
      var ks := OrdersWithRef(orders, ref.value);
      if |ks| == 1 then
        OnlyMatch(orders, ref.value);
        Some(ks[0])
      else
        assert forall k :: 0 <= k < |orders| && orders[k].externalRef == ref ==>
          exists k' :: 0 <= k' < |orders| && k' != k && orders[k'].externalRef == ref by {
          NoSingleMatch(orders, ref.value);
        }
        None
  }

  lemma OnlyMatch(orders: seq<Order>, ref: string)
    requires |OrdersWithRef(orders, ref)| == 1
    ensures forall k :: 0 <= k < |orders| && orders[k].externalRef == Some(ref) ==>
      k == OrdersWithRef(orders, ref)[0]
  {
    var ks := OrdersWithRef(orders, ref);
    forall k | 0 <= k < |orders| && orders[k].externalRef == Some(ref) ensures k == ks[0] {
      assert k in ks;
    }
  }

  lemma NoSingleMatch(orders: seq<Order>, ref: string)
    requires |OrdersWithRef(orders, ref)| != 1
    ensures forall k :: 0 <= k < |orders| && orders[k].externalRef == Some(ref) ==>
      exists k' :: 0 <= k' < |orders| && k' != k && orders[k'].externalRef == Some(ref)
  {
    var ks := OrdersWithRef(orders, ref);
    forall k | 0 <= k < |orders| && orders[k].externalRef == Some(ref)
      ensures exists k' :: 0 <= k' < |orders| && k' != k && orders[k'].externalRef == Some(ref)
    {
      assert k in ks;
      var other := if ks[0] == k then ks[1] else ks[0];
      assert other in ks && other != k;
    }
  }

  // ---------------------------------------------------------------- inserts

  /** The `order_items` rows for the new order, one per normalised line. */
  function ItemRows(orderId: nat, tenant: Option<Id>, ns: seq<Line>): (rows: seq<OrderItem>)
    ensures |rows| == |ns|
    ensures forall i :: 0 <= i < |ns| ==> rows[i] == OrderItem(orderId, ns[i], tenant)
  {
    seq(|ns|, i requires 0 <= i < |ns| => OrderItem(orderId, ns[i], tenant))
  }

  /** The order row inserted for a new request: status `received`, the
      total equal to the subtotal, and the request's table, customer and
      external reference. */
  function NewOrder(req: Request, tenant: Option<Id>, subtotal: real): (o: Order)
    ensures o.status == Received && o.subtotal == subtotal && o.total == o.subtotal
    ensures o.tenantId == tenant && o.tableCode == req.tableCode
    ensures o.customerName == req.customerName && o.externalRef == req.externalRef
  {
    Order(tenant, req.tableCode, req.customerName, Received, subtotal, subtotal, req.externalRef)
  }

  // ---------------------------------------------------------------- handler

  /** The request got past validation and tenant resolution. */
  predicate PastTenant(body: Body, tenants: map<string, Id>, faults: Faults) {
    && body.Parsed?
    && body.request.items.Some? && |body.request.items.value| > 0
    && ResolveTenant(body.request, tenants, faults.tenantLookup).Success?
  }

  function Tenant(body: Body, tenants: map<string, Id>, faults: Faults): Option<Id>
    requires PastTenant(body, tenants, faults)
  {
    ResolveTenant(body.request, tenants, faults.tenantLookup).value
  }

  /** The order row a request past the menu check inserts. */
  function OrderFor(body: Body, menu: map<Id, MenuItem>, tenants: map<string, Id>, faults: Faults): Order
    requires PastTenant(body, tenants, faults)
  {
    NewOrder(body.request, Tenant(body, tenants, faults), Subtotal(Normalize(body.request.items.value, menu)))
  }

  /** The handler: `POST` of the order-creation route over an abstract store. */
  function Create(
    body: Body, menu: map<Id, MenuItem>, tenants: map<string, Id>, store: Store, faults: Faults)
    : (o: Outcome)
    // a body that does not parse
    ensures body.Malformed? ==> o == Outcome(ServerError(body.message), store)
    // validation
    ensures body.Parsed? && (body.request.items.None? || |body.request.items.value| == 0) ==>
      o == Outcome(BadRequest(ItemsRequired), store)
    // nothing is written unless the response is a success or the item insert failed
    ensures !o.response.Created? && !(o.response.ServerError? && |o.store.orders| > |store.orders|) ==>
      o.store == store
    // the menu check
    ensures (PastTenant(body, tenants, faults) && faults.menuLookup.None?
             && !MenuConsistent(body.request.items.value, menu)) ==>
      o == Outcome(BadRequest(InvalidMenuItems), store)
    // datastore failures before any write answer 500 with the error's message
    ensures (body.Parsed? && body.request.items.Some? && |body.request.items.value| > 0
             && ResolveTenant(body.request, tenants, faults.tenantLookup).Failure?) ==>
      o == Outcome(ServerError(ResolveTenant(body.request, tenants, faults.tenantLookup).error.Text()), store)
    ensures (PastTenant(body, tenants, faults) && faults.menuLookup.Some?) ==>
      o == Outcome(ServerError(faults.menuLookup.value.Text()), store)
    ensures (PastTenant(body, tenants, faults) && faults.menuLookup.None?
             && MenuConsistent(body.request.items.value, menu)
             && ExistingOrder(store.orders, body.request.externalRef, faults.refLookupFails).None?
             && faults.orderInsert.Some?) ==>
      o == Outcome(ServerError(faults.orderInsert.value.Text()), store)
    // a failed item insert after a successful order insert answers 500 and keeps the order
    ensures (PastTenant(body, tenants, faults) && faults.menuLookup.None?
             && MenuConsistent(body.request.items.value, menu)
             && ExistingOrder(store.orders, body.request.externalRef, faults.refLookupFails).None?
             && faults.orderInsert.None? && faults.itemInsert.Some?) ==>
      o.response == ServerError(faults.itemInsert.value.Text()) && |o.store.orders| == |store.orders| + 1
    // with no failure on the way, a consistent request without a known reference creates an order
    ensures (PastTenant(body, tenants, faults) && faults.menuLookup.None?
             && MenuConsistent(body.request.items.value, menu)
             && ExistingOrder(store.orders, body.request.externalRef, faults.refLookupFails).None?
             && faults.orderInsert.None? && faults.itemInsert.None?) ==>
      o.response.Created?
    // a created order: exactly one order and one item row per line
    ensures o.response.Created? ==>
      PastTenant(body, tenants, faults) && MenuConsistent(body.request.items.value, menu)
    ensures o.response.Created? && PastTenant(body, tenants, faults) ==>
      var ns := Normalize(body.request.items.value, menu);
      && o.response.orderId == |store.orders|
      && o.response.subtotal == Subtotal(ns) == o.response.total
      && o.store.orders == store.orders + [OrderFor(body, menu, tenants, faults)]
      && o.store.items == store.items + ItemRows(o.response.orderId, Tenant(body, tenants, faults), ns)
    // an idempotent replay returns the existing order and writes nothing
    ensures o.response.Duplicate? ==>
      && body.Parsed? && Truthy(body.request.externalRef)
      && o.response.orderId < |store.orders|
      && store.orders[o.response.orderId].externalRef == body.request.externalRef
      && o.store == store
    // the compensation path
    ensures o.response.ServerError? && |o.store.orders| > |store.orders| ==>
      PastTenant(body, tenants, faults) && faults.itemInsert.Some?
    ensures (o.response.ServerError? && |o.store.orders| > |store.orders|
             && PastTenant(body, tenants, faults) && faults.itemInsert.Some?) ==>
      var order := OrderFor(body, menu, tenants, faults);
      && o.response.error == faults.itemInsert.value.Text()
      && o.store.items == store.items
      && o.store.orders ==
         store.orders + [if faults.cancelFails then order else order.(status := Canceled)]
  {
    match body
    case Malformed(msg) => Outcome(ServerError(msg), store)
    case Parsed(req) =>
      if req.items.None? || |req.items.value| == 0 then Outcome(BadRequest(ItemsRequired), store)
      else
        var lines := req.items.value;
        match ResolveTenant(req, tenants, faults.tenantLookup)
        case Failure(e) => Outcome(ServerError(e.Text()), store)
        case Success(tenant) =>
          if faults.menuLookup.Some? then Outcome(ServerError(faults.menuLookup.value.Text()), store)
          else if !MenuConsistent(lines, menu) then Outcome(BadRequest(InvalidMenuItems), store)
          else
            var ns := Normalize(lines, menu);
            var subtotal := Subtotal(ns);
            var existing := ExistingOrder(store.orders, req.externalRef, faults.refLookupFails);
            if existing.Some? then Outcome(Duplicate(existing.value), store)
            else if faults.orderInsert.Some? then Outcome(ServerError(faults.orderInsert.value.Text()), store)
            else
              var id := |store.orders|;
              var order := NewOrder(req, tenant, subtotal);
              if faults.itemInsert.Some? then
                var kept := if faults.cancelFails then order else order.(status := Canceled);
                Outcome(ServerError(faults.itemInsert.value.Text()), Store(store.orders + [kept], store.items))
              else
                Outcome(Created(id, subtotal, subtotal), Store(store.orders + [order], store.items + ItemRows(id, tenant, ns)))
  }
}

module OrderCreateProperties {
  import opened Wrappers
  import opened OrderCreate

  /** What the handler keeps true of the store: every item row points at an
      existing order, and no two orders share a non-empty external reference. */
  predicate Valid(s: Store) {
    && (forall j :: 0 <= j < |s.items| ==> s.items[j].orderId < |s.orders|)
    && (forall i, j :: 0 <= i < j < |s.orders| && Truthy(s.orders[i].externalRef) ==>
          s.orders[i].externalRef != s.orders[j].externalRef)
  }

  /** Under `Valid`, a reference the lookup did not find is carried by no order. */
  lemma NotFoundMeansAbsent(store: Store, ref: Option<string>)
    requires Valid(store) && Truthy(ref)
    requires ExistingOrder(store.orders, ref, false).None?
    ensures forall k :: 0 <= k < |store.orders| ==> store.orders[k].externalRef != ref
  {
    forall k | 0 <= k < |store.orders|
      ensures store.orders[k].externalRef != ref
    {
    }
  }

  lemma AppendKeepsValid(store: Store, order: Order, rows: seq<OrderItem>)
    requires Valid(store)
    requires Truthy(order.externalRef) ==>
      forall k :: 0 <= k < |store.orders| ==> store.orders[k].externalRef != order.externalRef
    requires forall j :: 0 <= j < |rows| ==> rows[j].orderId == |store.orders|
    ensures Valid(Store(store.orders + [order], store.items + rows))
  {
    var s' := Store(store.orders + [order], store.items + rows);
    forall j | 0 <= j < |s'.items| ensures s'.items[j].orderId < |s'.orders| {
      if j >= |store.items| {
        assert s'.items[j] == rows[j - |store.items|];
      }
    }
    forall i, j | 0 <= i < j < |s'.orders| && Truthy(s'.orders[i].externalRef)
      ensures s'.orders[i].externalRef != s'.orders[j].externalRef
    {
      if j == |store.orders| {
        assert s'.orders[j] == order;
      }
    }
  }

  /** Every run of the handler whose reference lookup works keeps the store valid. */
  lemma CreatePreservesValid(
    body: Body, menu: map<Id, MenuItem>, tenants: map<string, Id>, store: Store, faults: Faults)
    requires Valid(store) && !faults.refLookupFails
    ensures Valid(Create(body, menu, tenants, store, faults).store)
  {
    var o := Create(body, menu, tenants, store, faults);
    if |o.store.orders| > |store.orders| {
      var order := OrderFor(body, menu, tenants, faults);
      var ref := body.request.externalRef;
      assert ExistingOrder(store.orders, ref, false).None?;
      if o.response.Created? {
        var rows := ItemRows(|store.orders|, Tenant(body, tenants, faults), Normalize(body.request.items.value, menu));
        assert o.store == Store(store.orders + [order], store.items + rows);
        InsertKeepsValid(store, order, rows);
      } else {
        var kept := if faults.cancelFails then order else order.(status := Canceled);
        assert o.store == Store(store.orders + [kept], store.items + []);
        InsertKeepsValid(store, kept, []);
      }
    }
  }

  /** Inserting an order whose reference the lookup did not find, with item
      rows pointing at it, keeps the store valid. */
  lemma InsertKeepsValid(store: Store, order: Order, rows: seq<OrderItem>)
    requires Valid(store)
    requires ExistingOrder(store.orders, order.externalRef, false).None?
    requires forall j :: 0 <= j < |rows| ==> rows[j].orderId == |store.orders|
    ensures Valid(Store(store.orders + [order], store.items + rows))
  {
    if Truthy(order.externalRef) {
      NotFoundMeansAbsent(store, order.externalRef);
    }
    AppendKeepsValid(store, order, rows);
  }

  lemma OrdersWithRefNone(orders: seq<Order>, ref: string)
    requires forall k :: 0 <= k < |orders| ==> orders[k].externalRef != Some(ref)
    ensures OrdersWithRef(orders, ref) == []
  {
    var ks := OrdersWithRef(orders, ref);
    assert forall k :: k !in ks;
  }

  lemma OrdersWithRefSnoc(orders: seq<Order>, order: Order, ref: string)
    requires order.externalRef == Some(ref)
    ensures OrdersWithRef(orders + [order], ref) == OrdersWithRef(orders, ref) + [|orders|]
  {
    var all := orders + [order];
    assert all[..|all| - 1] == orders;
  }

  lemma OrdersWithRefAppend(orders: seq<Order>, order: Order, ref: string)
    requires order.externalRef == Some(ref)
    requires forall k :: 0 <= k < |orders| ==> orders[k].externalRef != Some(ref)
    ensures OrdersWithRef(orders + [order], ref) == [|orders|]
  {
    OrdersWithRefNone(orders, ref);
    OrdersWithRefSnoc(orders, order, ref);
  }

  /** Every datastore call succeeds. */
  const AllSucceed: Faults := Faults(None, None, false, None, None, false)

  /** A request the menu accepts, whose non-empty external reference no
      stored order carries yet. */
  predicate FreshRequest(req: Request, menu: map<Id, MenuItem>, store: Store) {
    && req.items.Some? && |req.items.value| > 0
    && Distinct(MenuIds(req.items.value))
    && (forall i :: 0 <= i < |req.items.value| ==> req.items.value[i].menuItemId in menu)
    && Truthy(req.externalRef)
    && (forall k :: 0 <= k < |store.orders| ==> store.orders[k].externalRef != req.externalRef)
  }

  /** A fresh request gets past the menu check and finds no existing order. */
  lemma FreshRequestProceeds(req: Request, menu: map<Id, MenuItem>, tenants: map<string, Id>, store: Store, faults: Faults)
    requires FreshRequest(req, menu, store)
    requires faults.tenantLookup.None? && !faults.refLookupFails
    ensures PastTenant(Parsed(req), tenants, faults)
    ensures MenuConsistent(req.items.value, menu)
    ensures ExistingOrder(store.orders, req.externalRef, false).None?
  {
    MenuCheckIff(req.items.value, menu);
    OrdersWithRefNone(store.orders, req.externalRef.value);
  }

  /** A fresh request with an external reference creates an order; replaying
      it returns that same order as a duplicate and writes nothing. */
  lemma ReplayReturnsSameOrder(req: Request, menu: map<Id, MenuItem>, tenants: map<string, Id>, store: Store)
    requires FreshRequest(req, menu, store)
    ensures var o1 := Create(Parsed(req), menu, tenants, store, AllSucceed);
      && o1.response.Created? && o1.response.orderId == |store.orders|
      && Create(Parsed(req), menu, tenants, o1.store, AllSucceed) == Outcome(Duplicate(|store.orders|), o1.store)
  {
    var body := Parsed(req);
    FreshRequestProceeds(req, menu, tenants, store, AllSucceed);
    var o1 := Create(body, menu, tenants, store, AllSucceed);
    var order := OrderFor(body, menu, tenants, AllSucceed);
    assert o1.store.orders == store.orders + [order];
    OrdersWithRefAppend(store.orders, order, req.externalRef.value);
    assert ExistingOrder(o1.store.orders, req.externalRef, false) == Some(|store.orders|);
    FoundMeansDuplicate(body, menu, tenants, o1.store, AllSucceed, |store.orders|);
  }

  /** A request past the menu check whose reference the lookup finds is
      answered as a duplicate of the order found, and writes nothing. */
  lemma FoundMeansDuplicate(
    body: Body, menu: map<Id, MenuItem>, tenants: map<string, Id>, store: Store, faults: Faults, id: nat)
    requires PastTenant(body, tenants, faults) && faults.menuLookup.None?
    requires MenuConsistent(body.request.items.value, menu)
    requires ExistingOrder(store.orders, body.request.externalRef, faults.refLookupFails) == Some(id)
    ensures Create(body, menu, tenants, store, faults) == Outcome(Duplicate(id), store)
  {
  }

  /** When the item insert of a fresh request fails, the order is left
      canceled with no items and keeps its external reference, so a retry of
      the same request is answered as a duplicate of the canceled order: `ok`
      and `idempotent`, with no items behind it. */
  lemma RetryAfterCompensationReturnsCanceledOrder(
    req: Request, menu: map<Id, MenuItem>, tenants: map<string, Id>, store: Store, e: DbError)
    requires FreshRequest(req, menu, store)
    ensures var o1 := Create(Parsed(req), menu, tenants, store, AllSucceed.(itemInsert := Some(e)));
      && o1.response == ServerError(e.Text())
      && |o1.store.orders| == |store.orders| + 1
      && o1.store.orders[|store.orders|].status == Canceled
      && o1.store.items == store.items
      && Create(Parsed(req), menu, tenants, o1.store, AllSucceed) == Outcome(Duplicate(|store.orders|), o1.store)
  {
    var body := Parsed(req);
    var first := AllSucceed.(itemInsert := Some(e));
    FreshRequestProceeds(req, menu, tenants, store, first);
    var o1 := Create(body, menu, tenants, store, first);
    var canceled := OrderFor(body, menu, tenants, first).(status := Canceled);
    assert o1.store == Store(store.orders + [canceled], store.items);
    OrdersWithRefAppend(store.orders, canceled, req.externalRef.value);
    assert ExistingOrder(o1.store.orders, req.externalRef, false) == Some(|store.orders|);
    FoundMeansDuplicate(body, menu, tenants, o1.store, AllSucceed, |store.orders|);
  }
}
