/** `ProductController`: supplier-owned product rows. Creating needs a
    supplier; changing or deleting needs the supplier who owns the row. */
module Products {
  import opened Wrappers
  import opened Entities
  import Seqs
  import Text

  const MaxText: nat := 255

  /** The fields of a new product as the request supplies them. */
  datatype ProductInput = ProductInput(
    name: string,
    description: Option<string>,
    price: real,
    stock: int,
    category: string)

  /** A `required|string|max:255` field: something is left after trimming,
      and at most 255 characters. */
  predicate ValidText(t: string) {
    Text.Filled(t) && |t| <= MaxText
  }

  /** A sent `sometimes|string|max:255` field. The validator skips rules that
      are not implicit on a blank string, so a blank value passes as it is;
      any other value must fit in 255 characters. */
  predicate ValidOptionalText(t: string) {
    !Text.Filled(t) || |t| <= MaxText
  }

  predicate ValidInput(inp: ProductInput) {
    && ValidText(inp.name)
    && inp.price >= 0.0
    && inp.stock >= 0
    && ValidText(inp.category)
  }

  /** Ids are ascending and below the next id to be issued; ascending ids are in particular distinct. */
  predicate IdsIssued(ps: seq<Product>, next: nat) {
    Ascending(ps) && forall i | 0 <= i < |ps| :: ps[i].id < next
  }

  predicate Ascending(ps: seq<Product>) {
    forall i, j | 0 <= i < j < |ps| :: ps[i].id < ps[j].id
  }

  // ---------------------------------------------------------------------------
  // ProductController::store

  /** `POST /products`. */
  function Create(s: Store, a: Actor, inp: ProductInput): (r: Reply<Product>)
    ensures a.role != Supplier ==> r.status == 403 && r.store == s
    ensures a.role == Supplier && !ValidInput(inp) ==> r.status == 422 && r.store == s
    ensures r.status != 201 ==> r.store == s
    ensures r.status == 201 <==> a.role == Supplier && ValidInput(inp) && a.supplierId.Some?
    ensures r.store.(products := s.products, nextProductId := s.nextProductId) == s
    ensures r.status == 201 ==>
      && r.body.Data?
      && r.store.products == s.products + [r.body.value]
      && r.store.nextProductId == s.nextProductId + 1
      && r.body.value.id == s.nextProductId
      && r.body.value.supplierId == a.supplierId.value
      && r.body.value.price >= 0.0 && r.body.value.stock >= 0
      && r.body.value.name == inp.name && r.body.value.category == inp.category
      && Text.Filled(r.body.value.name) && Text.Filled(r.body.value.category)
  {
    if a.role != Supplier then Reply(s, 403, Note("Only suppliers can add products"))
    else if !ValidInput(inp) then Reply(s, 422, Note(ValidationFailed))
    else if a.supplierId.None? then Reply(s, 500, Note(NullProfile))
    else
      var p := Product(s.nextProductId, a.supplierId.value, inp.name, inp.description, inp.price, inp.stock, inp.category);
      Reply(s.(products := s.products + [p], nextProductId := s.nextProductId + 1), 201, Data(p))
  }

  /** Creating keeps ids issued in order. */
  lemma CreateKeepsIds(s: Store, a: Actor, inp: ProductInput)
    requires IdsIssued(s.products, s.nextProductId)
    ensures var r := Create(s, a, inp);
      IdsIssued(r.store.products, r.store.nextProductId)
  {
  }

  /** A name made only of white space is refused, since `required` trims
      before it looks. */
  lemma BlankNameRefused(s: Store, a: Actor, inp: ProductInput)
    requires a.role == Supplier
    requires forall i | 0 <= i < |inp.name| :: Text.IsTrimmed(inp.name[i])
    ensures Create(s, a, inp).status == 422 && Create(s, a, inp).store == s
  {
  }

  // ---------------------------------------------------------------------------
  // ProductController::update

  /** A request field that may be left out. */
  datatype Field<T> = Absent | Present(value: T)

  /** The fields an update may carry; `description` may be sent as null. */
  datatype ProductPatch = ProductPatch(
    name: Field<string>,
    description: Field<Option<string>>,
    price: Field<real>,
    stock: Field<int>,
    category: Field<string>)

  /** The `sometimes` rules: a field that is sent must be valid. */
  predicate ValidPatch(pa: ProductPatch) {
    && (pa.name.Present? ==> ValidOptionalText(pa.name.value))
    && (pa.price.Present? ==> pa.price.value >= 0.0)
    && (pa.stock.Present? ==> pa.stock.value >= 0)
    && (pa.category.Present? ==> ValidOptionalText(pa.category.value))
  }

  /** The sent value, or the current one when the field is left out. */
  function Pick<T>(f: Field<T>, current: T): (r: T)
    ensures f.Absent? ==> r == current
  {
    if f.Present? then f.value else current
  }

  /** `$product->update($validated)`: the fields sent replace the row's, the rest stay. */
  function Patch(p: Product, pa: ProductPatch): (r: Product)
    ensures r.id == p.id && r.supplierId == p.supplierId
  {
    p.(name := Pick(pa.name, p.name),
       description := Pick(pa.description, p.description),
       price := Pick(pa.price, p.price),
       stock := Pick(pa.stock, p.stock),
       category := Pick(pa.category, p.category))
  }

  /** A patch changes exactly the fields it carries, and a patched row keeps
      non-negative price and stock when it had them and the patch is valid. */
  lemma PatchChangesOnlySupplied(p: Product, pa: ProductPatch)
    ensures var r := Patch(p, pa);
      && (pa.name.Present? <==> r.name != p.name || pa.name == Present(p.name))
      && (pa.stock.Absent? ==> r.stock == p.stock)
      && (pa.price.Absent? ==> r.price == p.price)
      && (pa.description.Absent? ==> r.description == p.description)
      && (pa.category.Absent? ==> r.category == p.category)
      && (pa.name.Present? ==> r.name == pa.name.value)
      && (pa.description.Present? ==> r.description == pa.description.value)
      && (pa.price.Present? ==> r.price == pa.price.value)
      && (pa.stock.Present? ==> r.stock == pa.stock.value)
      && (pa.category.Present? ==> r.category == pa.category.value)
      && (ValidPatch(pa) && p.stock >= 0 && p.price >= 0.0 ==> r.stock >= 0 && r.price >= 0.0)
  {
  }

  /** The caller owns the row: a supplier whose profile is the row's supplier. */
  predicate Owns(a: Actor, p: Product) {
    a.role == Supplier && a.supplierId == Some(p.supplierId)
  }

  /** The authorisation both `update` and `destroy` open with; `None` lets
      the action proceed. */
  function Guard<T>(s: Store, a: Actor, id: nat): (r: Option<Reply<T>>)
    ensures r.Some? ==> r.value.store == s && r.value.status != 200
    ensures r.None? <==> HasProduct(s.products, id) && Owns(a, ProductOf(s.products, id))
    ensures HasProduct(s.products, id) && a.role == Supplier && a.supplierId.Some? && !Owns(a, ProductOf(s.products, id)) ==>
      r == Some(Reply(s, 403, Note("Unauthorized")))
  {
    if !HasProduct(s.products, id) then Some(Reply(s, 404, Note("No query results for model [App\\Models\\Product].")))
    else if a.role != Supplier then Some(Reply(s, 403, Note("Unauthorized")))
    else if a.supplierId.None? then Some(Reply(s, 500, Note(NullProfile)))
    else if ProductOf(s.products, id).supplierId != a.supplierId.value then Some(Reply(s, 403, Note("Unauthorized")))
    else None
  }

  /** `PUT /products/{product}`. */
  function Update(s: Store, a: Actor, id: nat, pa: ProductPatch): (r: Reply<Product>)
    ensures r.status != 200 ==> r.store == s
    ensures r.store.(products := s.products) == s
    ensures r.status == 200 <==> HasProduct(s.products, id) && Owns(a, ProductOf(s.products, id)) && ValidPatch(pa)
    ensures HasProduct(s.products, id) && a.role != Supplier ==> r.status == 403
    ensures r.status == 200 ==>
      var k := FindProduct(s.products, id).value;
      && r.store.products == s.products[k := Patch(s.products[k], pa)]
      && r.body == Data(Patch(s.products[k], pa))
  {
    match Guard(s, a, id)
    case Some(refused) => refused
    case None =>
      if !ValidPatch(pa) then Reply(s, 422, Note(ValidationFailed))
      else
        var k := FindProduct(s.products, id).value;
        var p := Patch(s.products[k], pa);
        Reply(s.(products := s.products[k := p]), 200, Data(p))
  }

  /** Every product row other than the target is untouched by an update, and
      the stock ≥ 0 rule survives it. */
  lemma UpdateKeepsOthers(s: Store, a: Actor, id: nat, pa: ProductPatch)
    requires forall k | 0 <= k < |s.products| :: s.products[k].stock >= 0
    ensures var r := Update(s, a, id, pa);
      && |r.store.products| == |s.products|
      && (forall k | 0 <= k < |s.products| && s.products[k].id != id :: r.store.products[k] == s.products[k])
      && (forall k | 0 <= k < |s.products| :: r.store.products[k].stock >= 0)
  {
  }

  /** A blank name sent to `update` passes `sometimes|string|max:255`, whose
      rules are not implicit, and is written to the row as sent; a name of more
      than 255 other characters is refused. */
  lemma BlankPatchStored(s: Store, a: Actor, id: nat, blank: string)
    requires HasProduct(s.products, id) && Owns(a, ProductOf(s.products, id))
    requires forall i | 0 <= i < |blank| :: Text.IsTrimmed(blank[i])
    ensures var r := Update(s, a, id, ProductPatch(Present(blank), Absent, Absent, Absent, Absent));
      r.status == 200 && r.body.Data? && r.body.value.name == blank
  {
  }

  // ---------------------------------------------------------------------------
  // ProductController::destroy

  /** `DELETE /products/{product}`. */
  function Destroy(s: Store, a: Actor, id: nat): (r: Reply<()>)
    ensures r.status != 200 ==> r.store == s
    ensures r.store.(products := s.products) == s
    ensures r.status == 200 <==> HasProduct(s.products, id) && Owns(a, ProductOf(s.products, id))
    ensures r.status == 200 ==>
      var k := FindProduct(s.products, id).value;
      r.store.products == s.products[..k] + s.products[k + 1..]
  {
    match Guard(s, a, id)
    case Some(refused) => refused
    case None =>
      var k := FindProduct(s.products, id).value;
      Reply(s.(products := s.products[..k] + s.products[k + 1..]), 200, Note("Product deleted"))
  }

  /** With ids issued in order, a successful destroy removes exactly the
      product with that id and keeps every other row, in order. */
  lemma DestroyRemovesExactly(s: Store, a: Actor, id: nat)
    requires IdsIssued(s.products, s.nextProductId)
    ensures var r := Destroy(s, a, id);
      && (r.status == 200 ==> Seqs.Filter(s.products, (p: Product) => p.id != id) == r.store.products)
      && IdsIssued(r.store.products, r.store.nextProductId)
  {
    var r := Destroy(s, a, id);
    if r.status == 200 {
      var k := FindProduct(s.products, id).value;
      FilterOthers(s.products, s.nextProductId, k);
    }
  }

  /** Removing the row at `k` is filtering out its id, when ids are ascending. */
  lemma FilterOthers(ps: seq<Product>, next: nat, k: nat)
    requires IdsIssued(ps, next) && k < |ps|
    ensures Seqs.Filter(ps, (p: Product) => p.id != ps[k].id) == ps[..k] + ps[k + 1..]
    ensures IdsIssued(ps[..k] + ps[k + 1..], next)
  {
    var rest := ps[..k] + ps[k + 1..];
    assert forall j | 0 <= j < k :: rest[j] == ps[j];
    assert forall j | k <= j < |rest| :: rest[j] == ps[j + 1];
    Seqs.FilterDropsOne(ps, (p: Product) => p.id != ps[k].id, k);
  }

  // ---------------------------------------------------------------------------
  // ProductController::available

  /** `GET /products/available`: the rows with stock > 0, in table order. */
  function Available(ps: seq<Product>): (r: seq<Product>)
    ensures forall i | 0 <= i < |r| :: r[i].stock > 0 && r[i] in ps
    ensures forall i | 0 <= i < |ps| :: ps[i].stock > 0 ==> ps[i] in r
  {
    Seqs.Filter(ps, (p: Product) => p.stock > 0)
  }

  /** The listing keeps table order. */
  lemma AvailableInOrder(ps: seq<Product>)
    ensures Seqs.IsSubseq(Available(ps), ps)
  {
    Seqs.FilterIsSubseq(ps, (p: Product) => p.stock > 0);
  }
}
