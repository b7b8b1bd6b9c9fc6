# Comanda Digital: a Dafny model of the ordering and payment logic

Comanda Digital is a QR-code restaurant ordering application. A diner opens a
tab ("comanda"), adds menu items from the menu screen ("cardápio"), reviews the
tab, and pays by Pix or card through Mercado Pago. Mercado Pago then reports
payment updates to a webhook. Most of the repository is React markup and thin
datastore calls. This project models the parts that carry logic, as pure
functions over immutable data:

- **The order-creation endpoint** (`OrderCreate`). It validates the request,
  resolves the tenant, checks the requested menu items, and normalises each
  line: it fills in defaults and rounds the line total to cents. It then sums
  the lines. It answers a replay with a known `external_ref` with the order
  already stored. Otherwise it inserts the order with status `received` and
  one `order_items` row per line. If the item insert fails, it marks the
  order `canceled`. The datastore is a `Store` value. Every datastore call
  that can fail has an explicit failure input (`Faults`).
  `OrderCreateProperties` holds the properties that span calls: a store
  invariant, replay idempotency, and what a retry sees after the
  compensation path.
- **The Mercado Pago webhook** (`Webhook`). This is a guarded bulk update
  of the `pedidos` table, modelled as a map from row id to row.
- **The tab screen** (`Tab`): subtotal, the 10% service charge, the total,
  and the empty-tab checkout guard.
- **The payment screen** (`Payment`): the amount charged, the payment
  request body including the placeholder e-mail, and the Pix-QR / redirect /
  error branching on the reply.
- **The menu screen** (`Cardapio`): the product dialog reset, the quantity
  stepper, the add-to-tab price choice and its validation, the cart figures
  and the floating cart button, and the per-category product lists.

Money is an exact `real`. `Number(x.toFixed(2))` is `Money.Round2`. It
rounds the exact value to the nearest cent the way ECMAScript's
Number.prototype.toFixed does: the magnitude is rounded and ties go to the
larger magnitude. IEEE-754 doubles are not modelled.

JavaScript idioms are modelled explicitly:

- `a ?? b` is `Option.OrElse` or `Option.GetOr`. `??` only skips null and
  undefined, so a `unit_price` of 0 is kept.
- A truthiness test on a string field is `Wrappers.Truthy`, which treats
  null, undefined and `""` as falsy.

For example, a `tenant_id` of `""` falls through to the slug lookup. If no
slug is given either, the `""` is stored as the order's tenant. That is what
the code does.

Some behaviour of the code that the model makes visible:

- The menu check compares the number of distinct rows that the `in` filter
  returns with the number of requested lines. A request that repeats a
  `menu_item_id` is therefore refused like one naming an unknown item
  (`OrderCreate.MenuCheckIff`).
- The check does not compare the menu items' tenant with the resolved
  tenant. `MenuItem.tenantId` is read and never used.
- The idempotency lookup uses `maybeSingle()` and ignores its error. When
  two orders share a reference, or the lookup fails, the handler inserts
  another order. With a working lookup, the handler keeps references
  unique (`OrderCreateProperties.CreatePreservesValid`).
- The compensation path keeps the canceled order with its `external_ref`.
  A retry of the same request is answered `ok` and `idempotent` with the id
  of that canceled order, which has no item rows
  (`OrderCreateProperties.RetryAfterCompensationReturnsCanceledOrder`).
- On the menu screen, `parseFloat` can return NaN. `NaN <= 0` is false,
  so the variable-price guard does not refuse it. The model keeps this:
  `unitPrice` is `None` (sent as JSON null). An HTML number input normally
  hands over `""` rather than unparsable text.

The webhook handler also behaves as follows:

- It sets status `"pago"` on the matching `pedidos` rows. No payment
  record is touched.
- A body that does not parse is answered 500 "Erro ao processar webhook".

## Model

| member | source | states |
|---|---|---|
| Money.Round2 | app/api/app/api/orders/create/route.js:45 | `Number(x.toFixed(2))` yields a whole number of cents within half a cent of x, with a tie going to the larger magnitude; it leaves whole-cent amounts unchanged and keeps non-negative amounts non-negative |
| Money.RoundedProduct | app/api/app/api/orders/create/route.js:45 | a price times a quantity, rounded with toFixed(2), is whole cents within half a cent of the exact product, and equal to it when the product is already whole cents |
| Money.Round2Odd | app/api/app/api/orders/create/route.js:45 | rounding commutes with negation, as toFixed rounds the magnitude |
| Money.Round2Idempotent | app/api/app/api/orders/create/route.js:45 | rounding an already rounded total changes nothing |
| Money.Sum | app/api/app/api/orders/create/route.js:56 | the reduce-from-zero of an empty list is 0 and of non-negative amounts is non-negative |
| Money.SumAppend | app/comanda/page.js:75 | the reduce over a concatenation is the sum of the two reduces |
| Money.SumOfCents | app/api/app/api/orders/create/route.js:56 | a sum whose terms are all whole cents is a whole-cent amount |
| Money.SumDrift | app/api/app/api/orders/create/route.js:45-56 | summing rounded terms drifts from the exact sum by at most half a cent per term |
| Tab.Subtotal | app/comanda/page.js:75 | the tab subtotal is 0 for an empty tab and non-negative when every line total is |
| Tab.SubtotalAdd | app/comanda/page.js:75 | adding a line raises the subtotal by exactly that line's total_price |
| Tab.SubtotalRemove | app/comanda/page.js:75 | removing a line lowers the subtotal by exactly that line's total_price |
| Tab.CalculateTotal | app/comanda/page.js:74-78 | the service charge is one tenth of the subtotal, the total is 1.1 × subtotal, an empty tab gives all zeros, and a non-negative subtotal never exceeds the total |
| Tab.Checkout | app/comanda/page.js:80-90 | checkout is refused exactly when the tab has no items and proceeds to payment exactly when it has some |
| Payment.CalculateTotal | app/pagamento/page.js:54-58 | the payment screen's amount is 1.1 × the sum of total_price, the same value as the tab screen's total for the same items |
| Payment.PlaceholderEmail | app/pagamento/page.js:75 | the placeholder e-mail is the phone followed by "@placeholder.com" |
| Payment.PlaceholderEmailRoundTrip | app/pagamento/page.js:75 | the phone can be read back from the placeholder e-mail |
| Payment.PaymentRequestFor | app/pagamento/page.js:60-77 | no request is made exactly when no tab id is stored; otherwise the request carries the tab id, the method, amount = calculateTotal(), the customer name, and an e-mail exactly when a phone is present, built from that phone |
| Payment.OnReply | app/pagamento/page.js:79-96 | on success the QR is shown exactly for Pix with a QR image, otherwise the browser is redirected exactly when a payment URL is present, otherwise nothing happens; on failure the message is data.error or "Erro ao processar pagamento" |
| Payment.CardRepliesRedirect | app/pagamento/page.js:84-93 | a successful card reply with a payment URL always redirects to that URL |
| Cardapio.OpenProductDialog | app/cardapio/page.js:51-55 | opening a product selects it and resets quantity to 1 and the price text to empty |
| Cardapio.Decrement | app/cardapio/page.js:313 | the minus button never goes below 1 and otherwise subtracts exactly 1 |
| Cardapio.Increment | app/cardapio/page.js:322 | the plus button adds exactly 1 |
| Cardapio.Apply | app/cardapio/page.js:297-322 | typing changes only the price text; minus takes a quantity of at most 1 to 1 and otherwise subtracts 1; plus adds 1; no gesture changes the selected product |
| Cardapio.StepperBounds | app/cardapio/page.js:309-327 | from a quantity of at least 1, any sequence of presses and price edits keeps the quantity at least 1, bounded by the start plus the presses of plus, and keeps the selected product |
| Cardapio.QuantityStaysPositive | app/cardapio/page.js:51-55 | after opening a product, whatever the diner does in the dialog, the quantity stays at least 1 |
| Cardapio.AddToCart | app/cardapio/page.js:57-82 | nothing happens without a selection; a variable-price product with empty or non-positive price text is refused; otherwise the request carries the product, the quantity, and the custom price for variable-price products or the catalogue price for the others |
| Cardapio.CartItemCount | app/cardapio/page.js:121 | the item count is 0 for an empty tab, at least the number of lines when every quantity is at least 1, and non-negative when every quantity is |
| Cardapio.CartItemCountAdd | app/cardapio/page.js:121 | adding a line raises the item count by exactly its quantity, so the count is the sum of the quantities |
| Cardapio.CartTotal | app/cardapio/page.js:120 | the cart total is the same sum of total_price as the tab screen's subtotal |
| Cardapio.ShowCartButton | app/cardapio/page.js:266 | the floating cart button is rendered when the cart item count is positive |
| Cardapio.CartButtonIffNonEmpty | app/cardapio/page.js:266 | with quantities of at least 1, the floating cart button shows exactly when the tab has lines |
| Cardapio.FilterByCategory | app/cardapio/page.js:123 | the filtered list holds only products of the category, every product of the category, and no more than the catalogue |
| Cardapio.FilterKeepsOrder | app/cardapio/page.js:123 | filtering distributes over concatenation, so catalogue order is kept |
| Cardapio.FilterSingle | app/cardapio/page.js:123 | a one-product list filters to itself or to nothing, by its category |
| Webhook.Triggers | app/api/webhooks/mercadopago/route.js:13 | the update runs only for action "payment.updated" with a truthy data.id |
| Webhook.MarkPaid | app/api/webhooks/mercadopago/route.js:17-20 | every row with the payment id gets status "pago" with nothing else changed; every other row is unchanged; no row is added or removed |
| Webhook.Receive | app/api/webhooks/mercadopago/route.js:3-35 | the table changes only for action "payment.updated" with a truthy id and a successful write, and then only the status of rows carrying that id; other payloads answer 200 with the table unchanged; a write error or parse failure answers 500 with the table unchanged |
| Webhook.UnknownIdChangesNothing | app/api/webhooks/mercadopago/route.js:13-30 | a payment id no row carries changes nothing and still answers 200 |
| Webhook.ReceiveIdempotent | app/api/webhooks/mercadopago/route.js:17-20 | delivering the same notification twice leaves the same table and reply as delivering it once |
| OrderCreate.ResolveTenant | app/api/app/api/orders/create/route.js:13-23 | a truthy tenant_id wins; otherwise a truthy slug is looked up, giving the tenant's id or null, or the lookup's error; otherwise tenant_id ?? null is kept |
| OrderCreate.MenuIds | app/api/app/api/orders/create/route.js:26 | the looked-up ids are the requested lines' menu_item_id, in order |
| OrderCreate.MenuConsistent | app/api/app/api/orders/create/route.js:33 | the menu check passes when the rows found are as many as the requested lines, so a passing request names no more lines than the menu has items |
| OrderCreate.MenuCheckIff | app/api/app/api/orders/create/route.js:26-35 | the row-count check passes exactly when the requested ids are pairwise distinct and all name menu items |
| OrderCreate.NormalizeLine | app/api/app/api/orders/create/route.js:40-54 | unit = unit_price, else menu price, else 0; qty = qty, else 1; name = name, else menu name, else "Item"; the line total is unit × qty rounded to cents by `Money.RoundedProduct` |
| OrderCreate.Normalize | app/api/app/api/orders/create/route.js:40-54 | normalisation keeps the number and order of lines and each line's menu_item_id |
| OrderCreate.SubtotalFacts | app/api/app/api/orders/create/route.js:45-57 | the order subtotal is whole cents and within half a cent per line of the unrounded sum of unit × qty |
| OrderCreate.Subtotal | app/api/app/api/orders/create/route.js:56 | the order subtotal is the reduce of the line totals: 0 for no lines, and whole cents when every line total is |
| OrderCreate.OrdersWithRef | app/api/app/api/orders/create/route.js:60-65 | the lookup finds exactly the orders carrying the reference, each once, in id order |
| OrderCreate.ExistingOrder | app/api/app/api/orders/create/route.js:59-69 | an order is reported only for a truthy reference when the lookup works and exactly one order carries it; when none is reported, every order carrying it has a twin |
| OrderCreate.ItemRows | app/api/app/api/orders/create/route.js:88-98 | one item row per normalised line, each with the new order id and the tenant id |
| OrderCreate.NewOrder | app/api/app/api/orders/create/route.js:72-82 | the inserted order has status "received", total equal to subtotal, the resolved tenant, and the request's table code, customer name and external_ref |
| OrderCreate.Create | app/api/app/api/orders/create/route.js:4-112 | missing or empty items answer 400 "Itens obrigatórios" and an inconsistent menu lookup answers 400 "Itens de menu inválidos", both without writes; datastore errors before the insert answer 500 with their message without writes; with no failure a consistent request creates an order; a created order adds exactly one order (status received, subtotal = total = sum of line totals) and one item row per line; a duplicate writes nothing; after a successful order insert, a failed item insert answers 500 with its message, and a 500 that leaves an extra order comes only from that path, which keeps the order canceled (or received if the cancel update also fails) with no items |
| OrderCreateProperties.FoundMeansDuplicate | app/api/app/api/orders/create/route.js:60-69 | a consistent request whose reference the lookup finds answers idempotently with that order and writes nothing |
| OrderCreateProperties.InsertKeepsValid | app/api/app/api/orders/create/route.js:72-98 | inserting an order whose reference was not found, with item rows pointing at it, keeps item rows attached to orders and references unique |
| OrderCreateProperties.CreatePreservesValid | app/api/app/api/orders/create/route.js:59-105 | with a working reference lookup, every run keeps every item row attached to an existing order and every non-empty external_ref on at most one order |
| OrderCreateProperties.FreshRequestProceeds | app/api/app/api/orders/create/route.js:13-69 | a request with distinct known menu items and a non-empty external_ref no stored order carries gets past tenant resolution and the menu check, and the lookup finds no existing order |
| OrderCreateProperties.ReplayReturnsSameOrder | app/api/app/api/orders/create/route.js:59-84 | when every datastore call succeeds, such a fresh request creates the order with the next id, and replaying it returns that id as a duplicate and writes nothing |
| OrderCreateProperties.RetryAfterCompensationReturnsCanceledOrder | app/api/app/api/orders/create/route.js:59-105 | when only the item insert fails, such a fresh request answers 500 with the insert's message and leaves one new canceled order and no item rows; a retry is answered as a duplicate of that canceled order |

## Left out

- React rendering, routing, toasts, `localStorage` and all JSX markup are
  UI. Where a screen reads a value from them (the stored tab id, the
  loaded items, the selected method), the value is a parameter.
- Supabase queries and network fetches are I/O. Tables are `Store`, `map`
  and `seq` values. Each failing call is a failure input: `Faults` in
  `OrderCreate` and `writeFails` in `Webhook`. A thrown fetch in the
  screens (the `catch` branches that toast `error.message`) is not
  modelled.
- The datastore's generated order ids are modelled as positions in the
  orders sequence, starting at 0. The datastore never hands out a falsy id,
  so the idempotency test `exists?.id` is modelled as "a row was found";
  the JavaScript falsiness of an id of 0 plays no part. Concurrency and
  races between requests are out of scope.
- IEEE-754 behaviour of `toFixed`, `parseFloat` and `Number`: the model
  uses exact reals, and `parseFloat` is a function parameter, with `None`
  standing for NaN. `Number()` coercion of non-numeric JSON fields is not
  modelled. Request fields are taken to be numbers or absent.
- Cardapio.CartItemCount: quantities are integers, as the stepper
  produces. Fractional quantities from other clients are not modelled.
- OrderCreate.Create: `menu_item_id` is always present in a line. A
  line without one (looked up as `undefined`) is not modelled.
- OrderCreate.ResolveTenant: tenants are a map from slug to id, so slugs
  are unique. The `maybeSingle()` error on two tenants sharing a slug is
  not modelled.
- Webhook.Receive: `data.id` is a string, and its truthiness is "non-empty".
  A numeric id of 0, which JavaScript also treats as falsy, is not
  distinguished. Only the `payment_id` and `status` columns of `pedidos`
  are modelled; the table's other columns are not part of this model.
- Successful add-to-tab replies (toast, closing the dialog, reloading the
  cart) are UI and are not modelled. Only the request decision is.
- The catch-all CRUD handler `app/api/[[...path]]/route.js` is not part of
  this model. It covers tab, item, table, product and payment CRUD,
  tab-total recomputation and payment-preference creation. So is
  `lib/mercadopago.js`, which only configures the payment SDK.
- The second webhook route `app/app/api/webhooks/mercadopago/route.js` only
  logs the body and answers 200, or 500 when the body does not parse; it
  writes nothing. `setup-supabase.js`, `app/page.js` and
  `app/pedido/page.js` are setup and static markup. None of them is part of
  this model.
