/** The checkout page: the shipping form (with `parseFloat(value) || 0` for
    the cost), the totals it shows, the validation it does before posting,
    the item list it posts, and clearing the cart once a checkout URL comes
    back. */
module CheckoutPage {
  import opened Wrappers
  import opened Entities
  import Text
  import Checkout
  import CartContext
  import Gateway

  datatype ShippingForm = ShippingForm(
    fullName: string,
    email: string,
    phone: string,
    address: string,
    city: string,
    region: string,
    shippingCost: real)

  datatype FormField = FullName | Email | Phone | Address | City | Region | ShippingCost

  /** What one field of the form holds: text as typed, or the parsed cost. */
  datatype FieldValue = Typed(text: string) | Cost(amount: real)

  /** The value the form holds for `f`. */
  function Get(form: ShippingForm, f: FormField): (v: FieldValue)
    ensures v.Cost? <==> f == ShippingCost
  {
    match f
    case FullName => Typed(form.fullName)
    case Email => Typed(form.email)
    case Phone => Typed(form.phone)
    case Address => Typed(form.address)
    case City => Typed(form.city)
    case Region => Typed(form.region)
    case ShippingCost => Cost(form.shippingCost)
  }

  /** The value a posted shipping object holds under the form field's key. */
  function ShippingGet(sh: Checkout.Shipping, f: FormField): FieldValue {
    match f
    case FullName => Typed(sh.fullName)
    case Email => Typed(sh.email)
    case Phone => Typed(sh.phone)
    case Address => Typed(sh.address)
    case City => Typed(sh.city)
    case Region => Typed(sh.region)
    case ShippingCost => Cost(sh.shippingCost)
  }

  /** A form is determined by what its fields hold. */
  lemma FormByFields(a: ShippingForm, b: ShippingForm)
    requires forall f: FormField :: Get(a, f) == Get(b, f)
    ensures a == b
  {
    assert Get(a, FullName) == Get(b, FullName) && Get(a, Email) == Get(b, Email);
    assert Get(a, Phone) == Get(b, Phone) && Get(a, Address) == Get(b, Address);
    assert Get(a, City) == Get(b, City) && Get(a, Region) == Get(b, Region);
    assert Get(a, ShippingCost) == Get(b, ShippingCost);
  }

  // ---------------------------------------------------------------------------
  // parseFloat(value) || 0

  /** The input with leading spaces removed. */
  function TrimStart(s: string): (r: string)
    ensures |r| <= |s| && r == s[|s| - |r|..]
    ensures |r| > 0 ==> r[0] != ' '
    decreases |s|
  {
    if |s| > 0 && s[0] == ' ' then TrimStart(s[1..]) else s
  }

  /** The fraction digits after a leading `.`, if any. */
  function Fraction(after: string): (r: string)
    ensures Text.AllDigits(r)
  {
    if |after| > 0 && after[0] == '.' then Text.LeadingDigits(after[1..]) else ""
  }

  /** `parseFloat` of an unsigned decimal literal prefix; `None` stands for `NaN`. */
  function Unsigned(body: string): Option<real> {
    var whole := Text.LeadingDigits(body);
    var frac := Fraction(body[|whole|..]);
    if |whole| == 0 && |frac| == 0 then None
    else if |frac| == 0 then Some(Text.DigitsValue(whole) as real)
    else Some(Text.DigitsValue(whole) as real + Text.DigitsValue(frac) as real / Text.Pow10(|frac|) as real)
  }

  /** JavaScript `parseFloat` on a decimal literal prefix: leading spaces, an
      optional sign, digits and an optional fraction; `None` stands for `NaN`. */
  function ParseFloat(s: string): Option<real> {
    var t := TrimStart(s);
    if |t| > 0 && t[0] == '-' then
      match Unsigned(t[1..])
      case None => None
      case Some(x) => Some(-x)
    else if |t| > 0 && t[0] == '+' then Unsigned(t[1..])
    else Unsigned(t)
  }

  /** `parseFloat(value) || 0`: `NaN` (and zero) become 0. */
  function ParseCost(value: string): real {
    match ParseFloat(value)
    case None => 0.0
    case Some(x) => if x == 0.0 then 0.0 else x
  }

  /** A non-empty run of digits parses as the number it spells. */
  lemma ParseFloatDigits(s: string)
    requires |s| >= 1 && Text.AllDigits(s)
    ensures ParseFloat(s) == Some(Text.DigitsValue(s) as real)
  {
    assert Text.IsDigit(s[0]);
    assert TrimStart(s) == s;
    Text.LeadingDigitsAll(s);
    assert Fraction(s[|s|..]) == "";
  }

  /** The decimal spelling of a whole number reads back as that number. */
  lemma ParseCostWhole(n: nat)
    ensures ParseCost(Text.NatToString(n)) == n as real
  {
    ParseFloatDigits(Text.NatToString(n));
    Text.DigitsRoundTrip(n);
  }

  /** Within the decimal literals `ParseFloat` models, input that does not
      start like a number is stored as 0. */
  lemma ParseCostNonNumeric(value: string)
    requires |value| == 0 || (!Text.IsDigit(value[0]) && value[0] !in " +-.")
    ensures ParseCost(value) == 0.0
  {
  }

  /** `handleInputChange`: the field named by the input takes the new value
      (the cost parsed, the others verbatim) and every other field keeps its own. */
  function HandleInputChange(form: ShippingForm, field: FormField, value: string): (r: ShippingForm)
    ensures field != ShippingCost ==> Get(r, field) == Typed(value)
    ensures field == ShippingCost ==> Get(r, field) == Cost(ParseCost(value))
    ensures forall f: FormField | f != field :: Get(r, f) == Get(form, f)
    ensures field == ShippingCost ==> r == form.(shippingCost := ParseCost(value))
    ensures field != ShippingCost ==> r.shippingCost == form.shippingCost
    ensures field == Email ==> r.email == value && r.(email := form.email) == form
  {
    match field
    case FullName => form.(fullName := value)
    case Email => form.(email := value)
    case Phone => form.(phone := value)
    case Address => form.(address := value)
    case City => form.(city := value)
    case Region => form.(region := value)
    case ShippingCost => form.(shippingCost := ParseCost(value))
  }

  // ---------------------------------------------------------------------------
  // Totals and validation

  datatype Totals = Totals(subtotal: real, tax: real, grandTotal: real)

  /** `subtotal = getTotal()`, `tax = subtotal × 0.15`, `grandTotal = subtotal + tax + shipping`. */
  function ComputeTotals(items: seq<CartContext.ClientItem>, shippingCost: real): (r: Totals)
    ensures r.tax == r.subtotal * Checkout.TaxRate
    ensures r.grandTotal == r.subtotal * (1.0 + Checkout.TaxRate) + shippingCost
    ensures r.subtotal == CartContext.Sum(items)
  {
    CartContext.GetTotalIsSum(items);
    var subtotal := CartContext.GetTotal(items);
    Totals(subtotal, subtotal * 0.15, subtotal + subtotal * 0.15 + shippingCost)
  }

  /** The checks `handleCheckout` makes before posting. */
  predicate FormValid(form: ShippingForm) {
    && Text.Contains(form.email, "@")
    && |form.fullName| > 0
    && |form.phone| > 0
    && |form.address| > 0
    && |form.city| > 0
    && |form.region| > 0
    && form.shippingCost >= 0.0
  }

  /** `items.map(item => ({ product_id: item.product_id || item.product.id, quantity }))`. */
  function ItemsPayload(items: seq<CartContext.ClientItem>): (r: seq<Checkout.LineRequest>)
    ensures |r| == |items|
    ensures forall i | 0 <= i < |items| ::
      && r[i].quantity == items[i].quantity
      && r[i].productId == (if items[i].productId != 0 then items[i].productId else items[i].product.id)
  {
    seq(|items|, i requires 0 <= i < |items| =>
      Checkout.LineRequest(if items[i].productId != 0 then items[i].productId else items[i].product.id,
                           items[i].quantity))
  }

  /** `shippingInfo` as the request's `shipping` object: every key carries the form's value. */
  function ToShipping(form: ShippingForm): (sh: Checkout.Shipping)
    ensures forall f: FormField :: Get(form, f) == ShippingGet(sh, f)
  {
    Checkout.Shipping(form.fullName, form.email, form.phone, form.address, form.city, form.region, form.shippingCost)
  }

  /** The request `handleCheckout` posts, or `None` when the form is refused. */
  function BuildRequest(form: ShippingForm, items: seq<CartContext.ClientItem>): (r: Option<Checkout.CheckoutRequest>)
    ensures r.None? <==> !FormValid(form)
    ensures r.Some? ==> r.value.items == ItemsPayload(items) && r.value.shipping.shippingCost >= 0.0
    ensures r.Some? ==> r.value.shipping == ToShipping(form)
  {
    if FormValid(form) then Some(Checkout.CheckoutRequest(ItemsPayload(items), ToShipping(form))) else None
  }

  /** Every shipping form the server accepts passes the page's checks too. */
  lemma ServerValidIsClientValid(form: ShippingForm)
    requires Checkout.ValidShipping(ToShipping(form))
    ensures FormValid(form)
  {
    var i :| 0 < i < |form.email| - 1 && form.email[i] == '@';
    assert Text.OccursAt(form.email, "@", i);
  }

  /** The converse fails: an email that starts with `@` passes the page and
      is refused by the server. */
  lemma ClientValidNotServerValid()
    ensures var form := ShippingForm("A B", "@x", "1", "s", "c", "r", 0.0);
      FormValid(form) && !Checkout.ValidShipping(ToShipping(form))
  {
    var form := ShippingForm("A B", "@x", "1", "s", "c", "r", 0.0);
    assert Text.OccursAt(form.email, "@", 0);
  }

  /** After the response: the cart is cleared only when a checkout URL came back. */
  function AfterResponse(items: seq<CartContext.ClientItem>, user: Option<nat>, checkoutUrl: Option<string>, cleared: bool)
    : (r: seq<CartContext.ClientItem>)
    ensures checkoutUrl.None? || checkoutUrl == Some("") ==> r == items
    ensures r != items ==> r == [] && checkoutUrl.Some? && checkoutUrl.value != ""
    ensures checkoutUrl.Some? && checkoutUrl.value != "" && user.Some? && cleared ==> r == []
    ensures checkoutUrl.Some? && checkoutUrl.value != "" && (user.None? || !cleared) ==> r == items
  {
    if checkoutUrl.Some? && checkoutUrl.value != "" then CartContext.ClearCart(items, user, cleared) else items
  }

  // ---------------------------------------------------------------------------
  // The page against the server

  /** Each cart line's product id and price are those of the product table. */
  predicate PricesCurrent(ps: seq<Product>, items: seq<CartContext.ClientItem>) {
    && Checkout.AllFound(ps, ItemsPayload(items))
    && forall i | 0 <= i < |items| ::
      ProductOf(ps, ItemsPayload(items)[i].productId).price == items[i].product.price
  }

  lemma {:induction false} SumIsRequestValue(ps: seq<Product>, items: seq<CartContext.ClientItem>)
    requires PricesCurrent(ps, items)
    ensures CartContext.Sum(items) == Checkout.RequestValue(ps, ItemsPayload(items))
    decreases |items|
  {
    if |items| > 0 {
      var tail := items[1..];
      assert ItemsPayload(items)[1..] == ItemsPayload(tail);
      assert PricesCurrent(ps, tail) by {
        assert forall i | 0 <= i < |tail| :: tail[i] == items[i + 1];
      }
      SumIsRequestValue(ps, tail);
    }
  }

  /** When the cart's prices are current, the grand total the page shows is
      the total of the order the server writes for the posted request. */
  lemma PageTotalIsOrderTotal(s: Store, a: Actor, form: ShippingForm, items: seq<CartContext.ClientItem>,
                              uuid: string, initialize: Gateway.InitRequest -> Gateway.InitAnswer)
    requires FormValid(form) && PricesCurrent(s.products, items)
    requires Checkout.Proceeds(s, a, BuildRequest(form, items).value)
    ensures var r := Checkout.Checkout(s, a, BuildRequest(form, items).value, uuid, initialize);
      r.store.orders[|s.orders|].total == ComputeTotals(items, form.shippingCost).grandTotal
  {
    var req := BuildRequest(form, items).value;
    Checkout.CheckoutOrder(s, a, req, uuid, initialize);
    CartContext.GetTotalIsSum(items);
    SumIsRequestValue(s.products, items);
  }
}
