/** The order list of the dashboard: the status choices it offers
    (`getAvailableStatuses`) and the local list edit after a successful
    status change (`handleStatusUpdate`). The server accepts more than the
    page offers; the page is the only place a transition table exists. */
module OrdersPage {
  import opened Wrappers
  import opened Entities
  import Text
  import Orders

  /** The status choices for an order in `current` shown to a user with `role`. */
  function AvailableStatuses(current: string, role: string): (r: seq<string>)
    ensures |r| <= 2
  {
    var c := Text.ToLower(current);
    if role == "supplier" then
      if c == "pending" then ["approved", "cancelled"]
      else if c == "approved" || c == "paid" then ["shipped"]
      else if c == "shipped" then ["delivered"]
      else []
    else if c == "pending" then ["cancelled"]
    else []
  }

  /** `delivered` and `cancelled`, in any letter case, offer nothing to anyone. */
  lemma TerminalStatuses(current: string, role: string)
    requires Text.ToLower(current) == "delivered" || Text.ToLower(current) == "cancelled"
    ensures AvailableStatuses(current, role) == []
  {
  }

  /** Every offered target is one the server's `updateStatus` accepts, and
      none is the current status. */
  lemma OfferedAreAcceptedTargets(current: string, role: string)
    ensures forall i | 0 <= i < |AvailableStatuses(current, role)| ::
      var t := AvailableStatuses(current, role)[i];
      && Orders.TargetOf(t).Some?
      && t != Text.ToLower(current)
      && t != current
  {
    Text.ToLowerIdempotent(current);
  }

  /** Matching on the current status ignores letter case. */
  lemma CaseInsensitive(current: string, role: string)
    ensures AvailableStatuses(current, role) == AvailableStatuses(Text.ToLower(current), role)
  {
    Text.ToLowerIdempotent(current);
  }

  /** The table as the server's statuses see it: a supplier is offered
      pending → approved/cancelled, approved/paid → shipped, shipped →
      delivered; anyone else only pending → cancelled. */
  lemma TransitionTable(st: OrderStatus)
    ensures AvailableStatuses(StatusName(st), "supplier") ==
      match st
      case Pending => ["approved", "cancelled"]
      case Approved => ["shipped"]
      case Paid => ["shipped"]
      case Shipped => ["delivered"]
      case _ => []
    ensures forall role | role != "supplier" ::
      AvailableStatuses(StatusName(st), role) == (if st == Pending then ["cancelled"] else [])
  {
    var n := StatusName(st);
    assert Text.ToLower(n) == n by {
      assert forall i | 0 <= i < |n| :: 'a' <= n[i] <= 'z';
    }
  }

  /** Whatever the page offers its owner, the server carries out: the owning
      supplier may pick any offered target, and so may the owning customer
      (who is only ever offered `cancelled`). */
  lemma OfferedTargetsGoThrough(s: Store, a: Actor, orderId: nat, role: string, t: string)
    requires orderId < |s.orders|
    requires t in AvailableStatuses(StatusName(s.orders[orderId].status), role)
    requires (role == "supplier" && a.role == Supplier && a.supplierId.Some? && s.orders[orderId].supplierId == a.supplierId)
          || (role != "supplier" && a.role == Customer && a.customerId == Some(s.orders[orderId].customerId))
    ensures Orders.UpdateStatus(s, a, orderId, t).status == 200
  {
    OfferedAreAcceptedTargets(StatusName(s.orders[orderId].status), role);
    TransitionTable(s.orders[orderId].status);
  }

  // ---------------------------------------------------------------------------
  // handleStatusUpdate

  /** An order as the page holds it. */
  datatype OrderView = OrderView(id: nat, status: string, total: real)

  /** `orders.map(order => order.id === orderId ? { ...order, status } : order)`. */
  function ApplyStatusUpdate(orders: seq<OrderView>, orderId: nat, status: string): (r: seq<OrderView>)
    ensures |r| == |orders|
    ensures forall i | 0 <= i < |orders| :: r[i].id == orders[i].id && r[i].total == orders[i].total
    ensures forall i | 0 <= i < |orders| && orders[i].id != orderId :: r[i] == orders[i]
    ensures forall i | 0 <= i < |orders| && orders[i].id == orderId :: r[i].status == status
  {
    seq(|orders|, i requires 0 <= i < |orders| =>
      if orders[i].id == orderId then orders[i].(status := status) else orders[i])
  }

  /** Re-applying the same update changes nothing more. */
  lemma ApplyStatusUpdateIdempotent(orders: seq<OrderView>, orderId: nat, status: string)
    ensures ApplyStatusUpdate(ApplyStatusUpdate(orders, orderId, status), orderId, status)
      == ApplyStatusUpdate(orders, orderId, status)
  {
  }
}
