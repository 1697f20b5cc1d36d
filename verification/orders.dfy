/** `OrderController`: listing the caller's orders, the simpler order builder
    `store`, and `updateStatus`, whose authorisation is by ownership and role
    and which never looks at the order's current status. */
module Orders {
  import opened Wrappers
  import opened Entities
  import Checkout

  // ---------------------------------------------------------------------------
  // OrderController::index

  /** The rows of `orders` that satisfy `keep`, newest first (`latest()`,
      with ids standing in for creation times). */
  function Listed(orders: seq<Order>, keep: Order -> bool): (r: seq<OrderRow>)
    ensures forall k | 0 <= k < |r| :: r[k].id < |orders| && orders[r[k].id] == r[k].order && keep(r[k].order)
    ensures forall k, l | 0 <= k < l < |r| :: r[k].id > r[l].id
    decreases |orders|
  {
    if |orders| == 0 then []
    else
      var last := |orders| - 1;
      var rest := Listed(orders[..last], keep);
      (if keep(orders[last]) then [OrderRow(last, orders[last])] else []) + rest
  }

  /** Nothing that satisfies `keep` is missed. */
  lemma {:induction false} ListedComplete(orders: seq<Order>, keep: Order -> bool, id: nat)
    requires id < |orders| && keep(orders[id])
    ensures OrderRow(id, orders[id]) in Listed(orders, keep)
    decreases |orders|
  {
    var last := |orders| - 1;
    var rest := Listed(orders[..last], keep);
    var head := if keep(orders[last]) then [OrderRow(last, orders[last])] else [];
    assert Listed(orders, keep) == head + rest;
    if id < last {
      ListedComplete(orders[..last], keep, id);
      assert orders[..last][id] == orders[id];
    }
  }


  /** `GET /orders`: a customer sees the orders placed by its customer
      profile, a supplier the orders addressed to its supplier profile; any
      other role is refused. */
  function Index(s: Store, a: Actor): (r: Reply<seq<OrderRow>>)
    ensures r.store == s
    ensures a.role != Customer && a.role != Supplier ==> r.status == 403
    ensures r.status == 200 <==>
      (a.role == Customer && a.customerId.Some?) || (a.role == Supplier && a.supplierId.Some?)
    ensures r.status == 200 ==> r.body.Data? && forall k | 0 <= k < |r.body.value| ::
      var row := r.body.value[k];
      && row.id < |s.orders| && s.orders[row.id] == row.order
      && (if a.role == Customer then row.order.customerId == a.customerId.value
          else row.order.supplierId == a.supplierId)
  {
    match a.role
    case Customer =>
      if a.customerId.None? then Reply(s, 500, Note(NullProfile))
      else Reply(s, 200, Data(Listed(s.orders, (o: Order) => o.customerId == a.customerId.value)))
    case Supplier =>
      if a.supplierId.None? then Reply(s, 500, Note(NullProfile))
      else Reply(s, 200, Data(Listed(s.orders, (o: Order) => o.supplierId == a.supplierId)))
    case OtherRole(_) => Reply(s, 403, Note("Forbidden"))
  }

  /** Every order that belongs to the caller is listed. */
  lemma IndexComplete(s: Store, a: Actor, id: nat)
    requires id < |s.orders|
    requires (a.role == Customer && a.customerId == Some(s.orders[id].customerId))
          || (a.role == Supplier && a.supplierId.Some? && s.orders[id].supplierId == a.supplierId)
    ensures var r := Index(s, a);
      r.status == 200 && OrderRow(id, s.orders[id]) in r.body.value
  {
    if a.role == Customer {
      ListedComplete(s.orders, (o: Order) => o.customerId == a.customerId.value, id);
    } else {
      ListedComplete(s.orders, (o: Order) => o.supplierId == a.supplierId, id);
    }
  }

  // ---------------------------------------------------------------------------
  // OrderController::store

  /** The items `store` writes: priced from the product table, without a
      supplier id. */
  function PlainItems(ps: seq<Product>, orderId: nat, items: seq<Checkout.LineRequest>): (r: seq<OrderItem>)
    requires Checkout.AllFound(ps, items)
    ensures |r| == |items|
    ensures forall i | 0 <= i < |items| ::
      var p := ProductOf(ps, items[i].productId);
      r[i] == OrderItem(orderId, p.id, None, items[i].quantity, p.price, p.price * items[i].quantity as real)
  {
    seq(|items|, i requires 0 <= i < |items| =>
      var p := ProductOf(ps, items[i].productId);
      OrderItem(orderId, p.id, None, items[i].quantity, p.price, p.price * items[i].quantity as real))
  }

  /** `POST /orders` (customer only): validation, one decrement per line with
      no stock test, then the order with `subtotal = total = Σ price × quantity`
      and its items. A customer without a profile fails after the decrements. */
  function Create(s: Store, a: Actor, supplierId: nat, items: seq<Checkout.LineRequest>): (r: Reply<OrderRow>)
    ensures a.role != Customer ==> r.status == 403 && r.store == s
    ensures a.role == Customer && (supplierId !in s.suppliers || !Checkout.ValidLines(s.products, items)) ==>
      r.status == 422 && r.store == s
    ensures r.status == 201 <==>
      a.role == Customer && a.customerId.Some? && supplierId in s.suppliers && Checkout.ValidLines(s.products, items)
    ensures r.store.users == s.users && r.store.cart == s.cart && r.store.payments == s.payments
    ensures r.store.rfqs == s.rfqs && r.store.messages == s.messages && r.store.notifications == s.notifications
    ensures r.status == 201 ==>
      && r.body.Data? && r.body.value.id == |s.orders|
      && r.store.orders == s.orders + [r.body.value.order]
      && r.body.value.order.customerId == a.customerId.value
      && r.body.value.order.supplierId == Some(supplierId)
      && r.body.value.order.status == Pending
      && r.body.value.order.subtotal == Some(r.body.value.order.total)
      && |r.store.items| == |s.items| + |items|
      && r.store.items == s.items + PlainItems(s.products, |s.orders|, items)
  {
    if a.role != Customer then Reply(s, 403, Note("Forbidden"))
    else if supplierId !in s.suppliers || !Checkout.ValidLines(s.products, items) then
      Reply(s, 422, Note(ValidationFailed))
    else
      var decremented := s.(products := Checkout.DecrementAll(s.products, items));
      if a.customerId.None? then Reply(decremented, 500, Note(NullProfile))
      else
        var subtotal := Checkout.RequestValue(s.products, items);
        var orderId := |s.orders|;
        var order := Order(a.customerId.value, Some(supplierId), Some(subtotal), subtotal, Pending);
        Reply(decremented.(orders := s.orders + [order], items := s.items + PlainItems(s.products, orderId, items)),
              201, Data(OrderRow(orderId, order)))
  }

  /** The created order's total is the request's value at current prices, and
      every product loses exactly the quantity asked of it — whatever its stock
      was, so stock may go negative. */
  lemma CreateEffect(s: Store, a: Actor, supplierId: nat, items: seq<Checkout.LineRequest>)
    requires a.role == Customer && supplierId in s.suppliers && Checkout.ValidLines(s.products, items)
    ensures var r := Create(s, a, supplierId, items);
      && |r.store.products| == |s.products|
      && (forall k | 0 <= k < |s.products| ::
           r.store.products[k] == s.products[k].(stock := s.products[k].stock - Checkout.QtyFor(items, s.products[k].id)))
      && (r.status == 201 ==> r.body.value.order.total == Checkout.RequestValue(s.products, items))
  {
    Checkout.DecrementAllEffect(s.products, items);
  }

  // ---------------------------------------------------------------------------
  // OrderController::updateStatus

  /** The `in:approved,shipped,delivered,cancelled` rule. */
  function TargetOf(status: string): (r: Option<OrderStatus>)
    ensures r.Some? ==> StatusName(r.value) == status
    ensures r.Some? ==> r.value != Pending && r.value != Paid
  {
    if status == "approved" then Some(Approved)
    else if status == "shipped" then Some(Shipped)
    else if status == "delivered" then Some(Delivered)
    else if status == "cancelled" then Some(Cancelled)
    else None
  }

  /** Exactly the four names are accepted. */
  lemma TargetOfAccepts(status: string)
    ensures TargetOf(status).Some? <==>
      status == "approved" || status == "shipped" || status == "delivered" || status == "cancelled"
  {
  }

  /** The authorisation rule, stated on its own: the owning supplier may set
      any accepted target, the owning customer may only cancel. */
  predicate MayUpdate(o: Order, a: Actor, target: OrderStatus)
    requires a.role == Supplier ==> a.supplierId.Some?
    requires a.role == Customer ==> a.customerId.Some?
  {
    || (a.role == Supplier && o.supplierId == a.supplierId)
    || (a.role == Customer && o.customerId == a.customerId.value && target == Cancelled)
  }

  /** The accepted update: the order takes the new status and its customer is notified. */
  function Apply(s: Store, orderId: nat, target: OrderStatus): (r: Reply<OrderRow>)
    requires orderId < |s.orders|
    ensures r.status == 200
  {
    var o := s.orders[orderId].(status := target);
    Reply(s.(orders := s.orders[orderId := o],
             notifications := s.notifications + [OrderUpdated(o.customerId, orderId, target)]),
          200, Data(OrderRow(orderId, o)))
  }

  /** `PATCH /orders/{order}/status`. */
  function UpdateStatus(s: Store, a: Actor, orderId: nat, status: string): (r: Reply<OrderRow>)
    ensures orderId >= |s.orders| ==> r.status == 404
    ensures orderId < |s.orders| && TargetOf(status).None? ==> r.status == 422
    ensures r.status != 200 ==> r.store == s
    ensures r.status == 200 ==>
      && orderId < |s.orders| && TargetOf(status).Some?
      && |r.store.orders| == |s.orders|
      && r.store.orders[orderId] == s.orders[orderId].(status := TargetOf(status).value)
      && (forall k | 0 <= k < |s.orders| && k != orderId :: r.store.orders[k] == s.orders[k])
      && r.store.notifications
         == s.notifications + [OrderUpdated(s.orders[orderId].customerId, orderId, TargetOf(status).value)]
      && r.store.products == s.products && r.store.payments == s.payments && r.store.items == s.items
      && r.body == Data(OrderRow(orderId, r.store.orders[orderId]))
  {
    if orderId >= |s.orders| then Reply(s, 404, Note("No query results for model [App\\Models\\Order]."))
    else match TargetOf(status)
      case None => Reply(s, 422, Note(ValidationFailed))
      case Some(target) =>
        var o := s.orders[orderId];
        if a.role == Supplier && a.supplierId.None? then Reply(s, 500, Note(NullProfile))
        else if a.role == Supplier && o.supplierId == a.supplierId then Apply(s, orderId, target)
        else if a.role == Customer && a.customerId.None? then Reply(s, 500, Note(NullProfile))
        else if a.role == Customer && o.customerId == a.customerId.value && target == Cancelled then
          Apply(s, orderId, target)
        else Reply(s, 403, Note("Unauthorized action."))
  }

  /** For a valid target and a caller whose profile exists, the update goes
      through exactly when `MayUpdate` holds, and is refused with 403 otherwise. */
  lemma UpdateStatusAuthorisation(s: Store, a: Actor, orderId: nat, status: string)
    requires orderId < |s.orders| && TargetOf(status).Some?
    requires a.role == Supplier ==> a.supplierId.Some?
    requires a.role == Customer ==> a.customerId.Some?
    ensures var r := UpdateStatus(s, a, orderId, status);
      && (r.status == 200 <==> MayUpdate(s.orders[orderId], a, TargetOf(status).value))
      && (r.status != 200 ==> r.status == 403)
  {
  }

  /** The owning supplier may move an order from any status to any accepted
      target, backwards included (a delivered order can become approved). */
  lemma SupplierMovesAnywhere(s: Store, a: Actor, orderId: nat, status: string)
    requires orderId < |s.orders| && TargetOf(status).Some?
    requires a.role == Supplier && a.supplierId.Some? && s.orders[orderId].supplierId == a.supplierId
    ensures var r := UpdateStatus(s, a, orderId, status);
      r.status == 200 && StatusName(r.store.orders[orderId].status) == status
  {
  }

  /** The owning customer gets through only with `cancelled`, from any status. */
  lemma CustomerOnlyCancels(s: Store, a: Actor, orderId: nat, status: string)
    requires orderId < |s.orders| && TargetOf(status).Some?
    requires a.role == Customer && a.customerId == Some(s.orders[orderId].customerId)
    ensures var r := UpdateStatus(s, a, orderId, status);
      && (r.status == 200 <==> status == "cancelled")
      && (r.status == 200 ==> r.store.orders[orderId].status == Cancelled)
  {
  }

  /** `pending` and `paid` can never be set through this endpoint. */
  lemma NeverSetsPendingOrPaid(s: Store, a: Actor, orderId: nat, status: string)
    ensures var r := UpdateStatus(s, a, orderId, status);
      r.status == 200 ==> r.store.orders[orderId].status != Pending && r.store.orders[orderId].status != Paid
  {
  }
}
