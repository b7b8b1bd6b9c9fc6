/** The payment-processor webhook: a guarded bulk update of the `pedidos`
    table, keyed here by row id. */
module Webhook {
  import opened Wrappers

  /** The fields of a notification the handler reads: `action` and `data.id`. */
  datatype Notification = Notification(action: Option<string>, dataId: Option<string>)

  /** The request body: JSON that parsed, or a body that did not. */
  datatype Body = Malformed | Parsed(notification: Notification)

  /** A `pedidos` row: the processor's payment id and the order status. */
  datatype Pedido = Pedido(paymentId: Option<string>, status: string)

  type Table = map<nat, Pedido>

  datatype Reply = Reply(code: int, text: string)

  datatype Outcome = Outcome(reply: Reply, table: Table)

  const PaymentUpdated: string := "payment.updated"
  const Paid: string := "pago"

  const Processed: Reply := Reply(200, "Webhook processado com sucesso")
  const UpdateFailed: Reply := Reply(500, "Erro ao atualizar o pedido")
  const ParseFailed: Reply := Reply(500, "Erro ao processar webhook")

  /** The handler writes only for a payment update that carries an id. */
  predicate Triggers(n: Notification) {
    n.action == Some(PaymentUpdated) && Truthy(n.dataId)
  }

  /** `update({ status: "pago" }).eq("payment_id", id)`. */
  function MarkPaid(t: Table, id: string): (t': Table)
    ensures t'.Keys == t.Keys
    ensures forall k :: k in t && t[k].paymentId == Some(id) ==> t'[k] == t[k].(status := Paid)
    ensures forall k :: k in t && t[k].paymentId != Some(id) ==> t'[k] == t[k]
  {
    map k | k in t :: if t[k].paymentId == Some(id) then t[k].(status := Paid) else t[k]
  }

  /** The whole handler. `writeFails` stands for the datastore reporting an
      error on the update; a failed update changes no row. */
  function Receive(body: Body, t: Table, writeFails: bool): (o: Outcome)
    ensures body.Malformed? ==> o == Outcome(ParseFailed, t)
    ensures body.Parsed? && !Triggers(body.notification) ==> o == Outcome(Processed, t)
    ensures body.Parsed? && Triggers(body.notification) && writeFails ==> o == Outcome(UpdateFailed, t)
    ensures o.reply == Processed || o.table == t
    ensures o.table.Keys == t.Keys
    ensures forall k :: k in t && o.table[k] != t[k] ==>
      && body.Parsed? && Triggers(body.notification) && !writeFails
      && t[k].paymentId == body.notification.dataId
      && o.table[k] == t[k].(status := Paid)
    ensures body.Parsed? && Triggers(body.notification) && !writeFails ==>
      o.reply == Processed &&
      forall k :: k in t && t[k].paymentId == body.notification.dataId ==> o.table[k].status == Paid
  {
    match body
    case Malformed => Outcome(ParseFailed, t)
    case Parsed(n) =>
      if !Triggers(n) then Outcome(Processed, t)
      else if writeFails then Outcome(UpdateFailed, t)
      else Outcome(Processed, MarkPaid(t, n.dataId.value))
  }

  /** An id no row carries changes nothing, and the processor still gets 200. */
  lemma UnknownIdChangesNothing(n: Notification, t: Table)
    requires Triggers(n)
    requires forall k :: k in t ==> t[k].paymentId != n.dataId
    ensures Receive(Parsed(n), t, false) == Outcome(Processed, t)
  {
    assert MarkPaid(t, n.dataId.value) == t;
  }

  /** Delivering the same notification twice leaves the table as one delivery does. */
  lemma ReceiveIdempotent(body: Body, t: Table)
    ensures Receive(body, Receive(body, t, false).table, false) == Receive(body, t, false)
  {
    if body.Parsed? && Triggers(body.notification) {
      var id := body.notification.dataId.value;
      var once := MarkPaid(t, id);
      assert MarkPaid(once, id) == once;
    }
  }
}
