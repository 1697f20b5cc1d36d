/** `PaymentController::callback`: reconciling a payment with the gateway's
    verification of its transaction reference. The reconciliation never looks
    at the payment's or the order's current status. */
module Payments {
  import opened Wrappers
  import opened Entities
  import opened Gateway

  /** PHP truthiness of the `tx_ref` query parameter: absent, `""` and `"0"` are false. */
  predicate TruthyRef(txRef: Option<string>) {
    txRef.Some? && txRef.value != "" && txRef.value != "0"
  }

  /** Position of the first payment with this reference (`where(...)->first()`). */
  function FindPayment(ps: seq<Payment>, txRef: string): (r: Option<nat>)
    ensures r.Some? ==> r.value < |ps| && ps[r.value].txRef == txRef
    ensures r.Some? ==> forall j | 0 <= j < r.value :: ps[j].txRef != txRef
    ensures r.None? <==> forall j | 0 <= j < |ps| :: ps[j].txRef != txRef
    decreases |ps|
  {
    if |ps| == 0 then None
    else if ps[0].txRef == txRef then Some(0)
    else match FindPayment(ps[1..], txRef)
      case None => None
      case Some(k) => Some(k + 1)
  }

  /** The store after a verification: the payment (if any) records the
      verdict and the raw answer; on success its order (if it exists) is paid. */
  function Reconcile(s: Store, txRef: string, v: VerifyAnswer): (r: Store)
    requires v.Verified?
    ensures r.products == s.products && r.items == s.items && r.cart == s.cart && r.users == s.users
    ensures r.rfqs == s.rfqs && r.messages == s.messages && r.notifications == s.notifications
    ensures |r.payments| == |s.payments| && |r.orders| == |s.orders|
  {
    match FindPayment(s.payments, txRef)
    case None => s
    case Some(k) =>
      var p := s.payments[k];
      var marked := p.(status := if v.verdict == Success then PaymentSucceeded else PaymentFailed, payload := v.raw);
      var withPayment := s.(payments := s.payments[k := marked]);
      if v.verdict == Success && p.orderId < |s.orders| then
        withPayment.(orders := s.orders[p.orderId := s.orders[p.orderId].(status := Paid)])
      else withPayment
  }

  /** `POST /payment/callback?tx_ref=…`; `verify` stands for the gateway.
      The verification is not wrapped in a `try`, so an exception it raises
      reaches the framework's handler, which answers 500 with nothing written. */
  function Callback(s: Store, txRef: Option<string>, verify: string -> VerifyAnswer): (r: Reply<()>)
    ensures !TruthyRef(txRef) ==> r.status == 400 && r.store == s
    ensures r.status == 500 <==> TruthyRef(txRef) && verify(txRef.value).VerifyThrew?
    ensures r.status == 500 ==> r.store == s
    ensures TruthyRef(txRef) ==>
      (r.status == 200 <==> verify(txRef.value).Verified? && verify(txRef.value).verdict == Success)
    ensures r.status == 200 || r.status == 400 || r.status == 500
    ensures r.store.products == s.products
  {
    if !TruthyRef(txRef) then Reply(s, 400, Note("Missing tx_ref"))
    else if verify(txRef.value).VerifyThrew? then Reply(s, 500, Note(ServerError))
    else
      var v := verify(txRef.value);
      var st := Reconcile(s, txRef.value, v);
      if v.verdict == Success then Reply(st, 200, Note("Payment verified successfully"))
      else Reply(st, 400, Note("Payment verification failed"))
  }

  /** A verified payment becomes `success` with the gateway's answer as
      payload, and its order becomes `paid` whatever its prior status; no other
      payment or order changes. */
  lemma CallbackSuccess(s: Store, txRef: string, verify: string -> VerifyAnswer, k: nat)
    requires txRef != "" && txRef != "0"
    requires verify(txRef).Verified? && verify(txRef).verdict == Success
    requires k < |s.payments| && s.payments[k].txRef == txRef
    requires forall j | 0 <= j < k :: s.payments[j].txRef != txRef
    ensures var r := Callback(s, Some(txRef), verify);
      var oid := s.payments[k].orderId;
      && r.status == 200
      && r.store.payments[k] == s.payments[k].(status := PaymentSucceeded, payload := verify(txRef).raw)
      && (forall j | 0 <= j < |s.payments| && j != k :: r.store.payments[j] == s.payments[j])
      && (oid < |s.orders| ==> r.store.orders[oid] == s.orders[oid].(status := Paid))
      && (forall j | 0 <= j < |s.orders| && j != oid :: r.store.orders[j] == s.orders[j])
  {
    assert FindPayment(s.payments, txRef) == Some(k);
  }

  /** A failed verification marks the payment `failed` and leaves every order alone. */
  lemma CallbackFailure(s: Store, txRef: string, verify: string -> VerifyAnswer, k: nat)
    requires txRef != "" && txRef != "0"
    requires verify(txRef).Verified? && verify(txRef).verdict != Success
    requires k < |s.payments| && s.payments[k].txRef == txRef
    requires forall j | 0 <= j < k :: s.payments[j].txRef != txRef
    ensures var r := Callback(s, Some(txRef), verify);
      && r.status == 400
      && r.store.payments[k] == s.payments[k].(status := PaymentFailed, payload := verify(txRef).raw)
      && (forall j | 0 <= j < |s.payments| && j != k :: r.store.payments[j] == s.payments[j])
      && r.store.orders == s.orders
  {
    assert FindPayment(s.payments, txRef) == Some(k);
  }

  /** A reference no payment carries changes nothing, and the answer is
      decided by the gateway's answer alone. */
  lemma CallbackUnknownRef(s: Store, txRef: string, verify: string -> VerifyAnswer)
    requires txRef != "" && txRef != "0"
    requires forall j | 0 <= j < |s.payments| :: s.payments[j].txRef != txRef
    ensures var r := Callback(s, Some(txRef), verify);
      && r.store == s
      && (r.status == 200 <==> verify(txRef).Verified? && verify(txRef).verdict == Success)
  {
  }

  /** Replaying a callback whose verification answers the same way leaves the
      store as the first call left it. */
  lemma CallbackIdempotent(s: Store, txRef: Option<string>, verify: string -> VerifyAnswer)
    ensures var once := Callback(s, txRef, verify);
      var twice := Callback(once.store, txRef, verify);
      twice.store == once.store && twice.status == once.status
  {
    if TruthyRef(txRef) && verify(txRef.value).Verified? {
      var t := txRef.value;
      var v := verify(t);
      var st := Reconcile(s, t, v);
      match FindPayment(s.payments, t)
      case None =>
      case Some(k) =>
        assert FindPayment(st.payments, t) == Some(k) by {
          assert st.payments[k].txRef == t;
          assert forall j | 0 <= j < k :: st.payments[j] == s.payments[j];
        }
    }
  }
}
