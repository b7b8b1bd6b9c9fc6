/** The payment screen: the amount charged, the body of the payment request,
    and what the screen does with the reply. */
module Payment {
  import opened Wrappers
  import Tab

  datatype Method = Pix | CreditCard | DebitCard

  /** The fields of the loaded tab the payment screen reads. */
  datatype Comanda = Comanda(customerName: Option<string>, customerPhone: Option<string>)

  /** `calculateTotal` of the payment screen: subtotal plus the 10% service charge. */
  function CalculateTotal(items: seq<Tab.LineItem>): (r: real)
    ensures r == 1.1 * Tab.Subtotal(items)
    ensures r == Tab.CalculateTotal(items).total
    ensures |items| == 0 ==> r == 0.0
  {
    var subtotal := Tab.Subtotal(items);
    subtotal + subtotal * 0.10
  }

  const EmailSuffix: string := "@placeholder.com"

  /** The e-mail sent for a customer known only by phone. */
  function PlaceholderEmail(phone: string): (email: string)
    ensures |email| == |phone| + |EmailSuffix|
    ensures email[..|phone|] == phone && email[|phone|..] == EmailSuffix
  {
    phone + EmailSuffix
  }

  /** Recovers the phone from a placeholder e-mail, when it is one. */
  function PhoneOf(email: string): Option<string> {
    if |email| >= |EmailSuffix| && email[|email| - |EmailSuffix|..] == EmailSuffix
    then Some(email[..|email| - |EmailSuffix|])
    else None
  }

  /** The placeholder e-mail loses nothing: the phone can be read back from it. */
  lemma PlaceholderEmailRoundTrip(phone: string)
    ensures PhoneOf(PlaceholderEmail(phone)) == Some(phone)
  {
    var email := PlaceholderEmail(phone);
    assert email[|email| - |EmailSuffix|..] == EmailSuffix;
    assert email[..|email| - |EmailSuffix|] == phone;
  }

  /** The JSON body posted to the payments endpoint. */
  datatype PaymentRequest = PaymentRequest(
    comandaId: string,
    kind: Method,
    amount: real,
    customerName: Option<string>,
    customerEmail: Option<string>)

  /** The request `handlePayment` sends, or `None` when it returns early. */
  function PaymentRequestFor(
    comandaId: Option<string>, kind: Method, comanda: Option<Comanda>, items: seq<Tab.LineItem>)
    : (r: Option<PaymentRequest>)
    ensures r.None? <==> !Truthy(comandaId)
    ensures r.Some? ==> r.value.comandaId == comandaId.value && r.value.kind == kind
    ensures r.Some? ==> r.value.amount == CalculateTotal(items)
    ensures r.Some? ==> r.value.customerName == (if comanda.Some? then comanda.value.customerName else None)
    ensures r.Some? ==>
      (r.value.customerEmail.Some? <==> comanda.Some? && Truthy(comanda.value.customerPhone))
    ensures r.Some? && r.value.customerEmail.Some? ==>
      PhoneOf(r.value.customerEmail.value) == comanda.value.customerPhone
  {
    if !Truthy(comandaId) then None
    else
      var name := if comanda.Some? then comanda.value.customerName else None;
      var email :=
        if comanda.Some? && Truthy(comanda.value.customerPhone)
        then Some(PlaceholderEmail(comanda.value.customerPhone.value))
        else None;
      assert email.Some? ==> PhoneOf(email.value) == comanda.value.customerPhone by {
        if email.Some? { PlaceholderEmailRoundTrip(comanda.value.customerPhone.value); }
      }
      Some(PaymentRequest(comandaId.value, kind, CalculateTotal(items), name, email))
  }

  /** The JSON reply of the payments endpoint, as far as the screen reads it. */
  datatype PaymentReply = PaymentReply(
    qrCodeBase64: Option<string>,
    paymentUrl: Option<string>,
    error: Option<string>)

  /** What the screen ends up doing after the reply. On every successful reply
      the reply is stored (which hides the payment form). */
  datatype Screen =
    | ShowPixQr(data: PaymentReply)
    | RedirectTo(data: PaymentReply, url: string)
    | StayIdle(data: PaymentReply)
    | ShowError(message: string)

  const DefaultPaymentError: string := "Erro ao processar pagamento"

  /** The reply branch of `handlePayment`. */
  function OnReply(ok: bool, kind: Method, data: PaymentReply): (s: Screen)
    ensures s.ShowPixQr? <==> ok && kind == Pix && Truthy(data.qrCodeBase64)
    ensures s.RedirectTo? <==>
      ok && !(kind == Pix && Truthy(data.qrCodeBase64)) && Truthy(data.paymentUrl)
    ensures s.RedirectTo? ==> Some(s.url) == data.paymentUrl
    ensures s.StayIdle? <==>
      ok && !(kind == Pix && Truthy(data.qrCodeBase64)) && !Truthy(data.paymentUrl)
    ensures ok <==> !s.ShowError?
    ensures !s.ShowError? ==> s.data == data
    ensures s.ShowError? ==>
      s.message == (if Truthy(data.error) then data.error.value else DefaultPaymentError)
  {
    if !ok then ShowError(if Truthy(data.error) then data.error.value else DefaultPaymentError)
    else if kind == Pix && Truthy(data.qrCodeBase64) then ShowPixQr(data)
    else if Truthy(data.paymentUrl) then RedirectTo(data, data.paymentUrl.value)
    else StayIdle(data)
  }

  /** A card payment never shows a Pix QR code: a successful card reply with a
      payment URL always redirects. */
  lemma CardRepliesRedirect(kind: Method, data: PaymentReply)
    requires kind != Pix && Truthy(data.paymentUrl)
    ensures OnReply(true, kind, data) == RedirectTo(data, data.paymentUrl.value)
  {
  }
}
