/** The rows of the marketplace database, the store that holds every table,
    the authenticated caller, and the shape of an HTTP reply.

    Tables that are never deleted from (orders, order items, payments, RFQs,
    RFQ responses, messages, notifications) are sequences whose row id is the
    row's position. Tables the core deletes from (products, cart items) are
    sequences of rows that carry their own id, in ascending id order, next to
    the auto-increment counter that numbers the next insert. */
module Entities {
  import opened Wrappers

  /** `users.role`; every role other than the two the marketplace knows is kept by name. */
  datatype Role = Customer | Supplier | OtherRole(name: string)

  /** The authenticated user as the controllers see it: the user id, the role,
      and the ids of the customer and supplier profiles the user owns, if any. */
  datatype Actor = Actor(userId: nat, role: Role, customerId: Option<nat>, supplierId: Option<nat>)

  datatype User = User(name: string, role: Role)

  datatype Product = Product(
    id: nat,
    supplierId: nat,
    name: string,
    description: Option<string>,
    price: real,
    stock: int,
    category: string)

  datatype OrderStatus = Pending | Approved | Paid | Shipped | Delivered | Cancelled

  /** The value stored in `orders.status`. */
  function StatusName(st: OrderStatus): (r: string)
    ensures |r| > 0
  {
    match st
    case Pending => "pending"
    case Approved => "approved"
    case Paid => "paid"
    case Shipped => "shipped"
    case Delivered => "delivered"
    case Cancelled => "cancelled"
  }

  /** Distinct statuses are stored as distinct strings. */
  lemma StatusNameInjective(a: OrderStatus, b: OrderStatus)
    ensures StatusName(a) == StatusName(b) <==> a == b
  {
  }

  /** An order as it is persisted. Mass assignment keeps only `customer_id`,
      `supplier_id`, `subtotal`, `total` and `status`, so tax, shipping cost
      and the shipping snapshot are not columns of the model. A column the
      creating controller leaves unset is `None`. */
  datatype Order = Order(
    customerId: nat,
    supplierId: Option<nat>,
    subtotal: Option<real>,
    total: real,
    status: OrderStatus)

  /** An order together with its id, as a response body. */
  datatype OrderRow = OrderRow(id: nat, order: Order)

  datatype OrderItem = OrderItem(
    orderId: nat,
    productId: nat,
    supplierId: Option<nat>,
    quantity: int,
    unitPrice: real,
    lineTotal: real)

  datatype PaymentStatus = Initiated | PaymentSucceeded | PaymentFailed

  /** A payment attempt; `payload` is the gateway's last answer, kept as opaque text. */
  datatype Payment = Payment(
    orderId: nat,
    provider: string,
    txRef: string,
    checkoutUrl: string,
    status: PaymentStatus,
    payload: string)

  datatype CartItem = CartItem(id: nat, userId: nat, productId: nat, quantity: int)

  datatype RfqStatus = Open | Closed

  datatype Rfq = Rfq(customerId: nat, title: string, description: Option<string>, status: RfqStatus)

  datatype RfqResponse = RfqResponse(
    rfqId: nat,
    supplierId: nat,
    price: real,
    quantity: int,
    message: Option<string>)

  datatype Message = Message(senderId: nat, receiverId: nat, content: string, isRead: bool, createdAt: int)

  /** The `OrderUpdated` notification, recorded as an event for the order's customer. */
  datatype Notification = OrderUpdated(customerId: nat, orderId: nat, status: OrderStatus)

  datatype Store = Store(
    users: map<nat, User>,
    suppliers: set<nat>,
    products: seq<Product>,
    nextProductId: nat,
    cart: seq<CartItem>,
    nextCartId: nat,
    orders: seq<Order>,
    items: seq<OrderItem>,
    payments: seq<Payment>,
    rfqs: seq<Rfq>,
    responses: seq<RfqResponse>,
    messages: seq<Message>,
    notifications: seq<Notification>)

  /** A JSON body: either a bare `message`/`error` text or a data payload. */
  datatype Body<T> = Note(text: string) | Data(value: T)

  /** What a controller action leaves behind: the store after the request, the
      HTTP status and the body. */
  datatype Reply<T> = Reply(store: Store, status: int, body: Body<T>)

  const ValidationFailed := "The given data was invalid."
  const NullProfile := "Attempt to read property \"id\" on null"
  /** The framework handler's message for an exception no action catches. */
  const ServerError := "Server Error"

  // ---------------------------------------------------------------------------
  // Products table

  /** Position of the first product row with id `id` (`Product::find`). */
  function FindProduct(ps: seq<Product>, id: nat): (r: Option<nat>)
    ensures r.Some? ==> r.value < |ps| && ps[r.value].id == id
    ensures r.Some? ==> forall j | 0 <= j < r.value :: ps[j].id != id
    ensures r.None? <==> forall j | 0 <= j < |ps| :: ps[j].id != id
    decreases |ps|
  {
    if |ps| == 0 then None
    else if ps[0].id == id then Some(0)
    else match FindProduct(ps[1..], id)
      case None => None
      case Some(k) => Some(k + 1)
  }

  predicate HasProduct(ps: seq<Product>, id: nat) {
    FindProduct(ps, id).Some?
  }

  /** The row `Product::findOrFail($id)` returns. */
  function ProductOf(ps: seq<Product>, id: nat): Product
    requires HasProduct(ps, id)
  {
    ps[FindProduct(ps, id).value]
  }

  /** `$product->decrement('stock', $q)`: an UPDATE of every row with that id. */
  function DecrementStock(ps: seq<Product>, id: nat, q: int): (r: seq<Product>)
    ensures |r| == |ps|
    ensures forall k | 0 <= k < |ps| ::
      r[k] == (if ps[k].id == id then ps[k].(stock := ps[k].stock - q) else ps[k])
  {
    seq(|ps|, k requires 0 <= k < |ps| => if ps[k].id == id then ps[k].(stock := ps[k].stock - q) else ps[k])
  }

  /** Product ids are a primary key. */
  predicate UniqueProductIds(ps: seq<Product>) {
    forall i, j | 0 <= i < j < |ps| :: ps[i].id != ps[j].id
  }
}
