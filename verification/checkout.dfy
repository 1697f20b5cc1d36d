/** `CheckoutController`: turning a list of (product, quantity) lines and a
    shipping form into a pending order, its items, stock decrements and,
    when the gateway accepts, an initiated payment.

    Nothing here is transactional: the order and its items are written, the
    stock is decremented, and only then is the gateway called, so a gateway
    failure leaves the order and the decrements in place. */
module Checkout {
  import opened Wrappers
  import opened Entities
  import opened Gateway
  import Text

  const TaxRate: real := 0.15
  const TxRefPrefix: string := "b2b_"
  const Currency: string := "ETB"
  const Provider: string := "chapa"
  const MixedSuppliers: string := "All products must be from the same supplier"

  datatype LineRequest = LineRequest(productId: nat, quantity: int)

  datatype Shipping = Shipping(
    fullName: string,
    email: string,
    phone: string,
    address: string,
    city: string,
    region: string,
    shippingCost: real)

  datatype CheckoutRequest = CheckoutRequest(items: seq<LineRequest>, shipping: Shipping)

  /** The success body: the order, the gateway's checkout URL and the transaction reference. */
  datatype Placed = Placed(orderId: nat, order: Order, checkoutUrl: string, txRef: string)

  function StockMessage(name: string): string {
    "Insufficient stock for product " + name
  }

  // ---------------------------------------------------------------------------
  // Validation

  /** Laravel's `email` rule, reduced to: an `@` with something on both sides. */
  predicate ValidEmail(e: string) {
    exists i | 0 < i < |e| - 1 :: e[i] == '@'
  }

  predicate AllFound(ps: seq<Product>, items: seq<LineRequest>) {
    forall i | 0 <= i < |items| :: HasProduct(ps, items[i].productId)
  }

  /** `items` is a non-empty array, every `product_id` exists, every `quantity` is an integer ≥ 1. */
  predicate ValidLines(ps: seq<Product>, items: seq<LineRequest>) {
    && |items| >= 1
    && AllFound(ps, items)
    && forall i | 0 <= i < |items| :: items[i].quantity >= 1
  }

  /** Every shipping field passes `required` (something is left after
      trimming), the email is an email, the cost is ≥ 0. */
  predicate ValidShipping(sh: Shipping) {
    && Text.Filled(sh.fullName)
    && Text.Filled(sh.email) && ValidEmail(sh.email)
    && Text.Filled(sh.phone)
    && Text.Filled(sh.address)
    && Text.Filled(sh.city)
    && Text.Filled(sh.region)
    && sh.shippingCost >= 0.0
  }

  predicate ValidCheckout(ps: seq<Product>, req: CheckoutRequest) {
    ValidLines(ps, req.items) && ValidShipping(req.shipping)
  }

  // ---------------------------------------------------------------------------
  // The per-line scan

  /** One entry of `$itemsData`. */
  datatype Line = Line(productId: nat, quantity: int, unitPrice: real, lineTotal: real, supplierId: nat)

  datatype Scan = Reject(message: string) | Accept(supplier: Option<nat>, lines: seq<Line>)

  /** PHP truthiness of the `$supplierId` accumulator: unset and `0` are both false. */
  predicate Truthy(o: Option<nat>) {
    o.Some? && o.value != 0
  }

  function LineFor(p: Product, l: LineRequest): Line {
    Line(p.id, l.quantity, p.price, p.price * l.quantity as real, p.supplierId)
  }

  /** The checkout loop: for each line in order, the stock test, then the
      supplier test, then the line's data. The first failing line ends the
      scan with its message. */
  function ScanLines(ps: seq<Product>, items: seq<LineRequest>, sup: Option<nat>): (r: Scan)
    requires AllFound(ps, items)
    ensures r.Accept? ==> |r.lines| == |items|
    ensures r.Accept? ==> forall i | 0 <= i < |items| ::
      && r.lines[i] == LineFor(ProductOf(ps, items[i].productId), items[i])
      && ProductOf(ps, items[i].productId).stock >= items[i].quantity
    ensures r.Accept? && Truthy(sup) ==>
      r.supplier == sup && forall i | 0 <= i < |items| :: r.lines[i].supplierId == sup.value
    decreases |items|
  {
    if |items| == 0 then Accept(sup, [])
    else
      var p := ProductOf(ps, items[0].productId);
      if p.stock < items[0].quantity then Reject(StockMessage(p.name))
      else if Truthy(sup) && sup.value != p.supplierId then Reject(MixedSuppliers)
      else
        var next := if Truthy(sup) then sup else Some(p.supplierId);
        match ScanLines(ps, items[1..], next)
        case Reject(m) => Reject(m)
        case Accept(final, lines) => Accept(final, [LineFor(p, items[0])] + lines)
  }

  /** A line fails against the order's supplier when its product lacks stock
      or belongs to another supplier. */
  predicate Offends(ps: seq<Product>, l: LineRequest, supplierId: nat)
    requires HasProduct(ps, l.productId)
  {
    ProductOf(ps, l.productId).stock < l.quantity || ProductOf(ps, l.productId).supplierId != supplierId
  }

  /** The message the first failing line produces: stock is tested first. */
  function RejectMessage(ps: seq<Product>, l: LineRequest): string
    requires HasProduct(ps, l.productId)
  {
    var p := ProductOf(ps, l.productId);
    if p.stock < l.quantity then StockMessage(p.name) else MixedSuppliers
  }

  /** Once the supplier is fixed, the scan accepts exactly when no line
      offends, and otherwise rejects with the first offending line's message. */
  lemma {:induction false} ScanAgainstSupplier(ps: seq<Product>, items: seq<LineRequest>, sup: Option<nat>)
    requires AllFound(ps, items)
    requires Truthy(sup)
    ensures ScanLines(ps, items, sup).Accept? <==>
      forall i | 0 <= i < |items| :: !Offends(ps, items[i], sup.value)
    ensures forall i | 0 <= i < |items| && Offends(ps, items[i], sup.value) ::
      (forall j | 0 <= j < i :: !Offends(ps, items[j], sup.value)) ==>
        ScanLines(ps, items, sup) == Reject(RejectMessage(ps, items[i]))
    decreases |items|
  {
    if |items| > 0 {
      var tail := items[1..];
      assert AllFound(ps, tail) by {
        assert forall i | 0 <= i < |tail| :: tail[i] == items[i + 1];
      }
      ScanAgainstSupplier(ps, tail, sup);
      if Offends(ps, items[0], sup.value) {
        assert ScanLines(ps, items, sup) == Reject(RejectMessage(ps, items[0]));
      } else {
        assert forall i | 1 <= i < |items| :: items[i] == tail[i - 1];
        forall i | 0 <= i < |items| && Offends(ps, items[i], sup.value)
            && (forall j | 0 <= j < i :: !Offends(ps, items[j], sup.value))
          ensures ScanLines(ps, items, sup) == Reject(RejectMessage(ps, items[i]))
        {
          assert i >= 1;
          assert forall j | 0 <= j < i - 1 :: tail[j] == items[j + 1];
        }
      }
    }
  }

  /** A line offends the checkout when it fails against the first line's supplier. */
  predicate OffendsCheckout(ps: seq<Product>, items: seq<LineRequest>, i: int)
    requires AllFound(ps, items)
    requires 0 <= i < |items|
  {
    Offends(ps, items[i], ProductOf(ps, items[0].productId).supplierId)
  }

  /** The whole scan, from an unset supplier: it accepts exactly when every line
      is in stock and every product has the first product's supplier; it
      rejects with the first offending line's message, stock before supplier.
      (Supplier ids start at 1, so the first product's supplier id is truthy.) */
  lemma ScanVerdict(ps: seq<Product>, items: seq<LineRequest>)
    requires AllFound(ps, items)
    requires |items| >= 1
    requires ProductOf(ps, items[0].productId).supplierId != 0
    ensures ScanLines(ps, items, None).Accept? <==>
      forall i | 0 <= i < |items| :: !OffendsCheckout(ps, items, i)
    ensures forall i | 0 <= i < |items| && OffendsCheckout(ps, items, i) ::
      (forall j | 0 <= j < i :: !OffendsCheckout(ps, items, j)) ==>
        ScanLines(ps, items, None) == Reject(RejectMessage(ps, items[i]))
  {
    var p := ProductOf(ps, items[0].productId);
    var sid := p.supplierId;
    var tail := items[1..];
    TailFound(ps, items);
    if p.stock >= items[0].quantity {
      ScanAgainstSupplier(ps, tail, Some(sid));
      ScanFirstStep(ps, items);
      OffendsShift(ps, items);
      forall i | 0 <= i < |items| && OffendsCheckout(ps, items, i)
          && (forall j | 0 <= j < i :: !OffendsCheckout(ps, items, j))
        ensures ScanLines(ps, items, None) == Reject(RejectMessage(ps, items[i]))
      {
        assert i >= 1;
        forall j | 0 <= j < i - 1
          ensures !Offends(ps, tail[j], sid)
        {
          assert !OffendsCheckout(ps, items, j + 1);
        }
        assert Offends(ps, tail[i - 1], sid);
        assert tail[i - 1] == items[i];
      }
    } else {
      assert OffendsCheckout(ps, items, 0);
      assert ScanLines(ps, items, None) == Reject(RejectMessage(ps, items[0]));
    }
  }

  lemma TailFound(ps: seq<Product>, items: seq<LineRequest>)
    requires AllFound(ps, items)
    requires |items| >= 1
    ensures AllFound(ps, items[1..])
  {
    assert forall i | 0 <= i < |items| - 1 :: items[1..][i] == items[i + 1];
  }

  /** When the first line is in stock, the scan from an unset supplier is the
      scan of the rest against the first product's supplier. */
  lemma ScanFirstStep(ps: seq<Product>, items: seq<LineRequest>)
    requires AllFound(ps, items)
    requires |items| >= 1
    requires ProductOf(ps, items[0].productId).supplierId != 0
    requires ProductOf(ps, items[0].productId).stock >= items[0].quantity
    ensures AllFound(ps, items[1..])
    ensures var rest := ScanLines(ps, items[1..], Some(ProductOf(ps, items[0].productId).supplierId));
      && (ScanLines(ps, items, None).Accept? <==> rest.Accept?)
      && (rest.Reject? ==> ScanLines(ps, items, None) == rest)
  {
    TailFound(ps, items);
  }

  /** Offending the checkout at line `i ≥ 1` is offending the first product's
      supplier at position `i - 1` of the rest. */
  lemma OffendsShift(ps: seq<Product>, items: seq<LineRequest>)
    requires AllFound(ps, items)
    requires |items| >= 1
    requires ProductOf(ps, items[0].productId).stock >= items[0].quantity
    ensures AllFound(ps, items[1..])
    ensures forall i | 1 <= i < |items| ::
      OffendsCheckout(ps, items, i) == Offends(ps, items[1..][i - 1], ProductOf(ps, items[0].productId).supplierId)
    ensures !OffendsCheckout(ps, items, 0)
    ensures (forall i | 0 <= i < |items| :: !OffendsCheckout(ps, items, i)) <==>
      (forall i | 0 <= i < |items| - 1 :: !Offends(ps, items[1..][i], ProductOf(ps, items[0].productId).supplierId))
  {
    TailFound(ps, items);
    var sid := ProductOf(ps, items[0].productId).supplierId;
    assert forall i | 1 <= i < |items| :: items[1..][i - 1] == items[i];
    if forall i | 0 <= i < |items| :: !OffendsCheckout(ps, items, i) {
      forall i | 0 <= i < |items| - 1
        ensures !Offends(ps, items[1..][i], sid)
      {
        assert !OffendsCheckout(ps, items, i + 1);
      }
    }
  }

  // ---------------------------------------------------------------------------
  // Totals

  /** `$subtotal += $lineTotal` over the lines. */
  function Subtotal(lines: seq<Line>): real
    decreases |lines|
  {
    if |lines| == 0 then 0.0 else lines[0].lineTotal + Subtotal(lines[1..])
  }

  /** Σ price × quantity over the request, priced from the product table. */
  function RequestValue(ps: seq<Product>, items: seq<LineRequest>): real
    requires AllFound(ps, items)
    decreases |items|
  {
    if |items| == 0 then 0.0
    else ProductOf(ps, items[0].productId).price * items[0].quantity as real + RequestValue(ps, items[1..])
  }

  /** Lines priced at checkout add up to the request's value. */
  lemma {:induction false} SubtotalIsRequestValue(ps: seq<Product>, items: seq<LineRequest>, lines: seq<Line>)
    requires AllFound(ps, items)
    requires |lines| == |items|
    requires forall i | 0 <= i < |items| :: lines[i] == LineFor(ProductOf(ps, items[i].productId), items[i])
    ensures Subtotal(lines) == RequestValue(ps, items)
    decreases |items|
  {
    if |items| > 0 {
      SubtotalIsRequestValue(ps, items[1..], lines[1..]);
    }
  }

  /** The order `Order::create` persists: `tax`, `shipping_cost` and
      `shipping_info` are computed and passed but are not fillable, so only
      the subtotal and the total that includes them survive. */
  function NewOrder(customerId: nat, sup: Option<nat>, lines: seq<Line>, shippingCost: real): Order {
    var subtotal := Subtotal(lines);
    var tax := subtotal * TaxRate;
    Order(customerId, sup, Some(subtotal), subtotal + tax + shippingCost, Pending)
  }

  function ItemOf(orderId: nat, l: Line): OrderItem {
    OrderItem(orderId, l.productId, Some(l.supplierId), l.quantity, l.unitPrice, l.lineTotal)
  }

  function ItemsFor(orderId: nat, lines: seq<Line>): (r: seq<OrderItem>)
    ensures |r| == |lines|
    ensures forall i | 0 <= i < |lines| :: r[i] == ItemOf(orderId, lines[i])
  {
    seq(|lines|, i requires 0 <= i < |lines| => ItemOf(orderId, lines[i]))
  }

  // ---------------------------------------------------------------------------
  // Stock

  /** The total quantity the request asks of product `id`. */
  function QtyFor(items: seq<LineRequest>, id: nat): int
    decreases |items|
  {
    if |items| == 0 then 0
    else (if items[0].productId == id then items[0].quantity else 0) + QtyFor(items[1..], id)
  }

  /** The decrement loop: one blind `decrement('stock', quantity)` per line. */
  function DecrementAll(ps: seq<Product>, items: seq<LineRequest>): (r: seq<Product>)
    ensures |r| == |ps|
    decreases |items|
  {
    if |items| == 0 then ps
    else DecrementAll(DecrementStock(ps, items[0].productId, items[0].quantity), items[1..])
  }

  /** Each product row loses exactly the quantity the request asks of it, and
      nothing else about it changes. */
  lemma {:induction false} DecrementAllEffect(ps: seq<Product>, items: seq<LineRequest>)
    ensures |DecrementAll(ps, items)| == |ps|
    ensures forall k | 0 <= k < |ps| ::
      DecrementAll(ps, items)[k] == ps[k].(stock := ps[k].stock - QtyFor(items, ps[k].id))
    decreases |items|
  {
    if |items| > 0 {
      var ps1 := DecrementStock(ps, items[0].productId, items[0].quantity);
      DecrementAllEffect(ps1, items[1..]);
      forall k | 0 <= k < |ps|
        ensures DecrementAll(ps, items)[k] == ps[k].(stock := ps[k].stock - QtyFor(items, ps[k].id))
      {
        assert ps1[k].id == ps[k].id;
      }
    }
  }

  predicate DistinctProducts(items: seq<LineRequest>) {
    forall i, j | 0 <= i < j < |items| :: items[i].productId != items[j].productId
  }

  /** With distinct product ids, the quantity asked of a product is its line's quantity, or 0. */
  lemma {:induction false} QtyForDistinct(items: seq<LineRequest>, id: nat)
    requires DistinctProducts(items)
    ensures forall i | 0 <= i < |items| && items[i].productId == id :: QtyFor(items, id) == items[i].quantity
    ensures (forall i | 0 <= i < |items| :: items[i].productId != id) ==> QtyFor(items, id) == 0
    decreases |items|
  {
    if |items| > 0 {
      var tail := items[1..];
      assert DistinctProducts(tail) by {
        assert forall i | 0 <= i < |tail| :: tail[i] == items[i + 1];
      }
      QtyForDistinct(tail, id);
      assert forall i | 1 <= i < |items| :: items[i] == tail[i - 1];
      if items[0].productId == id {
        assert forall i | 0 <= i < |tail| :: tail[i].productId != id;
      }
    }
  }

  /** With unique ids, the row `Product::find` returns for a row's id is that row. */
  lemma ProductOfRow(ps: seq<Product>, k: nat)
    requires UniqueProductIds(ps) && k < |ps|
    ensures HasProduct(ps, ps[k].id) && ProductOf(ps, ps[k].id) == ps[k]
  {
  }

  /** One row of `AcceptedDistinctStaysNonNegative`. */
  lemma RowStaysNonNegative(ps: seq<Product>, items: seq<LineRequest>, k: nat)
    requires AllFound(ps, items)
    requires UniqueProductIds(ps) && k < |ps| && ps[k].stock >= 0
    requires DistinctProducts(items)
    requires forall i | 0 <= i < |items| :: ProductOf(ps, items[i].productId).stock >= items[i].quantity
    ensures ps[k].stock - QtyFor(items, ps[k].id) >= 0
  {
    QtyForDistinct(items, ps[k].id);
    ProductOfRow(ps, k);
    if i :| 0 <= i < |items| && items[i].productId == ps[k].id {
      assert ProductOf(ps, items[i].productId) == ps[k];
    }
  }

  /** When the request names each product once, an accepted scan leaves no
      product row with negative stock (given none started negative). */
  lemma AcceptedDistinctStaysNonNegative(ps: seq<Product>, items: seq<LineRequest>, sup: Option<nat>)
    requires AllFound(ps, items)
    requires UniqueProductIds(ps)
    requires forall k | 0 <= k < |ps| :: ps[k].stock >= 0
    requires DistinctProducts(items)
    requires ScanLines(ps, items, sup).Accept?
    ensures forall k | 0 <= k < |ps| :: DecrementAll(ps, items)[k].stock >= 0
  {
    DecrementAllEffect(ps, items);
    forall k | 0 <= k < |ps|
      ensures DecrementAll(ps, items)[k].stock >= 0
    {
      RowStaysNonNegative(ps, items, k);
    }
  }

  // ---------------------------------------------------------------------------
  // Payer name

  /** `explode(' ', $fullName)[0]`; the `?? 'Customer'` fallback never applies
      because `explode` always yields at least one piece. */
  function FirstName(fullName: string): string {
    Text.Explode(fullName)[0]
  }

  /** `explode(' ', $fullName)[1] ?? 'User'`. */
  function LastName(fullName: string): string {
    var parts := Text.Explode(fullName);
    if |parts| > 1 then parts[1] else "User"
  }

  /** The first piece of a string is its text before the first space. */
  lemma {:induction false} FirstPiece(s: string)
    ensures |Text.Explode(s)[0]| <= |s|
    ensures s[..|Text.Explode(s)[0]|] == Text.Explode(s)[0]
    ensures |Text.Explode(s)[0]| < |s| ==> s[|Text.Explode(s)[0]|] == ' '
    decreases |s|
  {
    if |s| > 0 && s[0] != ' ' {
      FirstPiece(s[1..]);
    }
  }

  /** The first name is the text before the first space (all of it when there
      is none); the last name is the text between the first and the second
      space, or `User` when the name has no space. */
  lemma NameSplit(name: string)
    ensures ' ' !in FirstName(name)
    ensures |FirstName(name)| <= |name| && name[..|FirstName(name)|] == FirstName(name)
    ensures ' ' !in name ==> FirstName(name) == name && LastName(name) == "User"
    ensures ' ' in name ==>
      && |FirstName(name)| < |name|
      && name[|FirstName(name)|] == ' '
      && LastName(name) == FirstName(name[|FirstName(name)| + 1..])
  {
    FirstPiece(name);
    var first := FirstName(name);
    if ' ' !in name {
      Text.ExplodeNoSpace(name);
    } else {
      assert name[..|name|] == name;
      assert |first| < |name|;
      var rest := name[|first| + 1..];
      assert name == first + " " + rest;
      Text.ExplodeWord(first, rest);
    }
  }

  /** The gateway initialisation request for an order. */
  function PaymentRequest(orderId: nat, amount: real, sh: Shipping, txRef: string): InitRequest {
    InitRequest(amount, Currency, sh.email, FirstName(sh.fullName), LastName(sh.fullName), txRef,
                "Payment for Order " + Text.NatToString(orderId))
  }

  // ---------------------------------------------------------------------------
  // CheckoutController::checkout

  /** The store once the order, its items and the decrements are written. */
  function PlaceOrder(s: Store, order: Order, lines: seq<Line>, items: seq<LineRequest>): Store {
    s.(orders := s.orders + [order],
       items := s.items + ItemsFor(|s.orders|, lines),
       products := DecrementAll(s.products, items))
  }

  /** `POST /checkout`. `uuid` is the fresh value the transaction reference is
      built from; `initialize` stands for the gateway. */
  function Checkout(s: Store, a: Actor, req: CheckoutRequest, uuid: string, initialize: InitRequest -> InitAnswer)
    : (r: Reply<Placed>)
    ensures a.role != Customer ==> r.status == 403 && r.store == s
    ensures a.role == Customer && !ValidCheckout(s.products, req) ==> r.status == 422 && r.store == s
    ensures a.role == Customer && ValidCheckout(s.products, req) && ScanLines(s.products, req.items, None).Reject? ==>
      r.status == 400 && r.store == s
    ensures r.store.users == s.users && r.store.cart == s.cart && r.store.rfqs == s.rfqs
    ensures r.store.messages == s.messages && r.store.notifications == s.notifications
    ensures r.status == 200 ==>
      && r.body.Data?
      && r.body.value.txRef == TxRefPrefix + uuid
      && |r.store.payments| == |s.payments| + 1
      && r.store.payments[|s.payments|].txRef == TxRefPrefix + uuid
      && r.store.payments[|s.payments|].status == Initiated
      && r.store.payments[|s.payments|].orderId == r.body.value.orderId == |s.orders|
  {
    if a.role != Customer then Reply(s, 403, Note("Forbidden"))
    else if !ValidCheckout(s.products, req) then Reply(s, 422, Note(ValidationFailed))
    else match ScanLines(s.products, req.items, None)
      case Reject(m) => Reply(s, 400, Note(m))
      case Accept(sup, lines) =>
        if a.customerId.None? then Reply(s, 500, Note(NullProfile))
        else
          var orderId := |s.orders|;
          var order := NewOrder(a.customerId.value, sup, lines, req.shipping.shippingCost);
          var placed := PlaceOrder(s, order, lines, req.items);
          var txRef := TxRefPrefix + uuid;
          match initialize(PaymentRequest(orderId, order.total, req.shipping, txRef))
          case Threw(_) => Reply(placed, 500, Note("Payment error"))
          case Answered(verdict, url, raw) =>
            if verdict == Success then
              var payment := Payment(orderId, Provider, txRef, url, Initiated, raw);
              Reply(placed.(payments := placed.payments + [payment]), 200, Data(Placed(orderId, order, url, txRef)))
            else Reply(placed, 400, Note("Payment initiation failed"))
  }

  /** The conditions under which the checkout gets past validation and the scan. */
  predicate Proceeds(s: Store, a: Actor, req: CheckoutRequest) {
    && a.role == Customer
    && a.customerId.Some?
    && ValidCheckout(s.products, req)
    && ScanLines(s.products, req.items, None).Accept?
  }

  /** The order a checkout that gets past the scan writes. */
  function PlacedOrder(s: Store, a: Actor, req: CheckoutRequest): Order
    requires Proceeds(s, a, req)
  {
    var scan := ScanLines(s.products, req.items, None);
    NewOrder(a.customerId.value, scan.supplier, scan.lines, req.shipping.shippingCost)
  }

  /** Past the scan, the order, its items and the decrements are written
      whatever the gateway answers; only the payments table depends on it. */
  lemma CheckoutWrites(s: Store, a: Actor, req: CheckoutRequest, uuid: string, initialize: InitRequest -> InitAnswer)
    requires Proceeds(s, a, req)
    ensures var r := Checkout(s, a, req, uuid, initialize);
      var scan := ScanLines(s.products, req.items, None);
      && r.store.orders == s.orders + [PlacedOrder(s, a, req)]
      && r.store.items == s.items + ItemsFor(|s.orders|, scan.lines)
      && r.store.products == DecrementAll(s.products, req.items)
  {
  }

  /** A checkout that gets past the scan appends exactly one pending order for
      the caller's customer profile, whose subtotal is the request's value and
      whose total adds 15% tax and the shipping cost. */
  lemma CheckoutOrder(s: Store, a: Actor, req: CheckoutRequest, uuid: string, initialize: InitRequest -> InitAnswer)
    requires Proceeds(s, a, req)
    ensures var r := Checkout(s, a, req, uuid, initialize);
      && |r.store.orders| == |s.orders| + 1
      && r.store.orders[..|s.orders|] == s.orders
      && r.store.orders[|s.orders|].status == Pending
      && r.store.orders[|s.orders|].customerId == a.customerId.value
      && r.store.orders[|s.orders|].subtotal == Some(RequestValue(s.products, req.items))
      && r.store.orders[|s.orders|].total
         == RequestValue(s.products, req.items) * (1.0 + TaxRate) + req.shipping.shippingCost
  {
    var scan := ScanLines(s.products, req.items, None);
    SubtotalIsRequestValue(s.products, req.items, scan.lines);
    CheckoutWrites(s, a, req, uuid, initialize);
    var r := Checkout(s, a, req, uuid, initialize);
    assert r.store.orders[..|s.orders|] == s.orders;
  }

  /** An order item records its request line at the product's current price,
      with `line_total = unit_price × quantity`. */
  predicate RecordsLine(it: OrderItem, orderId: nat, l: LineRequest, p: Product) {
    && it.orderId == orderId
    && it.productId == l.productId
    && it.quantity == l.quantity
    && it.unitPrice == p.price
    && it.lineTotal == it.unitPrice * it.quantity as real
  }

  /** The items written for accepted lines record their request lines. */
  lemma {:induction false} ItemsRecordLines(ps: seq<Product>, items: seq<LineRequest>, orderId: nat, lines: seq<Line>)
    requires AllFound(ps, items)
    requires |lines| == |items|
    requires forall i | 0 <= i < |items| :: lines[i] == LineFor(ProductOf(ps, items[i].productId), items[i])
    ensures forall i | 0 <= i < |items| ::
      RecordsLine(ItemsFor(orderId, lines)[i], orderId, items[i], ProductOf(ps, items[i].productId))
  {
    var added := ItemsFor(orderId, lines);
    forall i | 0 <= i < |items|
      ensures RecordsLine(added[i], orderId, items[i], ProductOf(ps, items[i].productId))
    {
      assert added[i] == ItemOf(orderId, lines[i]);
    }
  }

  /** ... and one item per request line, in request order. */
  lemma CheckoutItems(s: Store, a: Actor, req: CheckoutRequest, uuid: string, initialize: InitRequest -> InitAnswer)
    requires Proceeds(s, a, req)
    ensures var r := Checkout(s, a, req, uuid, initialize);
      && |r.store.items| == |s.items| + |req.items|
      && r.store.items[..|s.items|] == s.items
      && forall i | 0 <= i < |req.items| ::
        RecordsLine(r.store.items[|s.items| + i], |s.orders|, req.items[i], ProductOf(s.products, req.items[i].productId))
  {
    CheckoutWrites(s, a, req, uuid, initialize);
    var items := Checkout(s, a, req, uuid, initialize).store.items;
    var scan := ScanLines(s.products, req.items, None);
    var added := ItemsFor(|s.orders|, scan.lines);
    ItemsRecordLines(s.products, req.items, |s.orders|, scan.lines);
    assert items == s.items + added;
    assert items[..|s.items|] == s.items;
    assert forall i | 0 <= i < |req.items| :: items[|s.items| + i] == added[i];
  }

  /** The common supplier: when supplier ids start at 1, every product of the
      request belongs to the first product's supplier, and the order and each
      of its items carry that supplier. */
  lemma CheckoutSingleSupplier(s: Store, a: Actor, req: CheckoutRequest, uuid: string, initialize: InitRequest -> InitAnswer)
    requires Proceeds(s, a, req)
    requires ProductOf(s.products, req.items[0].productId).supplierId != 0
    ensures var r := Checkout(s, a, req, uuid, initialize);
      var sid := ProductOf(s.products, req.items[0].productId).supplierId;
      && r.store.orders[|s.orders|].supplierId == Some(sid)
      && (forall i | 0 <= i < |req.items| :: ProductOf(s.products, req.items[i].productId).supplierId == sid)
      && |r.store.items| == |s.items| + |req.items|
      && (forall k | |s.items| <= k < |r.store.items| :: r.store.items[k].supplierId == Some(sid))
  {
    var sid := ProductOf(s.products, req.items[0].productId).supplierId;
    ScanVerdict(s.products, req.items);
    var tail := req.items[1..];
    assert AllFound(s.products, tail) by {
      assert forall i | 0 <= i < |tail| :: tail[i] == req.items[i + 1];
    }
    var rest := ScanLines(s.products, tail, Some(sid));
    var scan := ScanLines(s.products, req.items, None);
    assert scan.supplier == rest.supplier == Some(sid);
    assert forall i | 0 <= i < |scan.lines| :: scan.lines[i].supplierId == sid by {
      assert scan.lines == [LineFor(ProductOf(s.products, req.items[0].productId), req.items[0])] + rest.lines;
    }
    assert forall i | 0 <= i < |req.items| :: !OffendsCheckout(s.products, req.items, i);
    CheckoutWrites(s, a, req, uuid, initialize);
  }

  /** After a checkout that gets past the scan, every product row has lost
      exactly the quantity the request asks of it, whatever the gateway answers. */
  lemma CheckoutStock(s: Store, a: Actor, req: CheckoutRequest, uuid: string, initialize: InitRequest -> InitAnswer)
    requires Proceeds(s, a, req)
    ensures var r := Checkout(s, a, req, uuid, initialize);
      && |r.store.products| == |s.products|
      && forall k | 0 <= k < |s.products| ::
        r.store.products[k] == s.products[k].(stock := s.products[k].stock - QtyFor(req.items, s.products[k].id))
  {
    CheckoutWrites(s, a, req, uuid, initialize);
    DecrementAllEffect(s.products, req.items);
  }

  /** The payment record is created exactly when the gateway answers `success`;
      the request sent carries the order total and the `b2b_` reference. A
      gateway failure answers 400 and an exception 500, both with no payment. */
  lemma CheckoutPayment(s: Store, a: Actor, req: CheckoutRequest, uuid: string, initialize: InitRequest -> InitAnswer)
    requires Proceeds(s, a, req)
    ensures var r := Checkout(s, a, req, uuid, initialize);
      var sent := PaymentRequest(|s.orders|, PlacedOrder(s, a, req).total, req.shipping, TxRefPrefix + uuid);
      var answer := initialize(sent);
      && sent.amount == r.store.orders[|s.orders|].total
      && sent.txRef == TxRefPrefix + uuid
      && ((answer.Answered? && answer.verdict == Success) <==> r.status == 200)
      && (answer.Answered? && answer.verdict == Success ==>
            r.store.payments == s.payments + [Payment(|s.orders|, Provider, TxRefPrefix + uuid, answer.checkoutUrl, Initiated, answer.raw)])
      && (r.status != 200 ==> r.store.payments == s.payments)
      && (answer.Threw? ==> r.status == 500)
      && (answer.Answered? && answer.verdict == Failure ==> r.status == 400)
  {
    CheckoutWrites(s, a, req, uuid, initialize);
  }

  /** Lines are checked one at a time against the stock before any decrement,
      so two lines for the last unit of one product both pass and the stock
      ends at -1. */
  lemma RepeatedLinesOverdraw(initialize: InitRequest -> InitAnswer)
    ensures var p := Product(1, 7, "Widget", None, 10.0, 1, "tools");
      var s := Store(map[], {7}, [p], 2, [], 1, [], [], [], [], [], [], []);
      var a := Actor(3, Customer, Some(4), None);
      var sh := Shipping("Abebe Kebede", "a@b.et", "0911", "Bole", "Addis Ababa", "AA", 0.0);
      var req := CheckoutRequest([LineRequest(1, 1), LineRequest(1, 1)], sh);
      Checkout(s, a, req, "u", initialize).store.products[0].stock == -1
  {
    var p := Product(1, 7, "Widget", None, 10.0, 1, "tools");
    var s := Store(map[], {7}, [p], 2, [], 1, [], [], [], [], [], [], []);
    var a := Actor(3, Customer, Some(4), None);
    var sh := Shipping("Abebe Kebede", "a@b.et", "0911", "Bole", "Addis Ababa", "AA", 0.0);
    var req := CheckoutRequest([LineRequest(1, 1), LineRequest(1, 1)], sh);
    assert FindProduct([p], 1) == Some(0);
    assert sh.email[1] == '@';
    assert !Text.IsTrimmed(sh.fullName[0]) && !Text.IsTrimmed(sh.email[0]) && !Text.IsTrimmed(sh.phone[0]);
    assert !Text.IsTrimmed(sh.address[0]) && !Text.IsTrimmed(sh.city[0]) && !Text.IsTrimmed(sh.region[0]);
    assert ValidCheckout(s.products, req);
    assert ScanLines(s.products, req.items, None).Accept?;
    CheckoutStock(s, a, req, "u", initialize);
    assert QtyFor(req.items, 1) == 2;
  }

  // ---------------------------------------------------------------------------
  // CheckoutController::store

  datatype Fill = Filled(store: Store, total: real) | Missing(store: Store)

  /** The item loop of `store`: each line is looked up and its item written
      immediately, so a missing product stops the loop with the earlier items
      already saved. */
  function FillOrder(s: Store, orderId: nat, items: seq<LineRequest>, total: real): (r: Fill)
    ensures r.store.products == s.products && r.store.orders == s.orders && r.store.payments == s.payments
    ensures r.Filled? <==> AllFound(s.products, items)
    ensures r.Filled? ==> r.total == total + RequestValue(s.products, items)
    ensures r.Filled? ==> |r.store.items| == |s.items| + |items|
    ensures |r.store.items| >= |s.items| && r.store.items[..|s.items|] == s.items
    ensures forall k | |s.items| <= k < |r.store.items| :: r.store.items[k].orderId == orderId
    decreases |items|
  {
    if |items| == 0 then Filled(s, total)
    else if !HasProduct(s.products, items[0].productId) then Missing(s)
    else
      var p := ProductOf(s.products, items[0].productId);
      var line := p.price * items[0].quantity as real;
      var item := OrderItem(orderId, p.id, Some(p.supplierId), items[0].quantity, p.price, line);
      assert AllFound(s.products, items) <==> AllFound(s.products, items[1..]) by {
        assert forall i | 1 <= i < |items| :: items[i] == items[1..][i - 1];
      }
      FillOrder(s.(items := s.items + [item]), orderId, items[1..], total + line)
  }

  /** `CheckoutController::store` (not routed): an order for the caller's
      *user* id with no supplier, subtotal, tax or stock change; the total is
      the sum of the line totals. */
  function StoreOrder(s: Store, a: Actor, items: seq<LineRequest>): (r: Reply<OrderRow>)
    ensures r.store.products == s.products && r.store.payments == s.payments
    ensures |r.store.orders| == |s.orders| + 1 && r.store.orders[..|s.orders|] == s.orders
    ensures var o := r.store.orders[|s.orders|];
      && o.customerId == a.userId
      && o.status == Pending
      && o.supplierId.None?
      && o.subtotal.None?
    ensures r.status == 201 <==> AllFound(s.products, items)
    ensures r.status == 201 ==> r.store.orders[|s.orders|].total == RequestValue(s.products, items)
    ensures r.status != 201 ==> r.status == 404 && r.store.orders[|s.orders|].total == 0.0
  {
    var orderId := |s.orders|;
    var created := s.(orders := s.orders + [Order(a.userId, None, None, 0.0, Pending)]);
    match FillOrder(created, orderId, items, 0.0)
    case Missing(st) => Reply(st, 404, Note("No query results for model [App\\Models\\Product]."))
    case Filled(st, total) =>
      var order := st.orders[orderId].(total := total);
      Reply(st.(orders := st.orders[orderId := order]), 201, Data(OrderRow(orderId, order)))
  }
}
