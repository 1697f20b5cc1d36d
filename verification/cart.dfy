/** `CartController`: adding to the caller's cart (merging into an existing
    line for the same product), changing a line's quantity under the stock
    cap, and removing a line. Every action needs an authenticated caller and
    only ever finds lines the caller owns. */
module Cart {
  import opened Wrappers
  import opened Entities

  const Unauthorized: string := "Unauthorized"

  /** Position of the caller's first line for `productId`. */
  function FindLine(cart: seq<CartItem>, userId: nat, productId: nat): (r: Option<nat>)
    ensures r.Some? ==> r.value < |cart| && cart[r.value].userId == userId && cart[r.value].productId == productId
    ensures r.None? <==> forall j | 0 <= j < |cart| :: !(cart[j].userId == userId && cart[j].productId == productId)
    decreases |cart|
  {
    if |cart| == 0 then None
    else if cart[0].userId == userId && cart[0].productId == productId then Some(0)
    else match FindLine(cart[1..], userId, productId)
      case None => None
      case Some(k) => Some(k + 1)
  }

  /** Position of line `id` among the caller's lines (`where('user_id', …)->findOrFail($id)`). */
  function FindOwned(cart: seq<CartItem>, userId: nat, id: nat): (r: Option<nat>)
    ensures r.Some? ==> r.value < |cart| && cart[r.value].userId == userId && cart[r.value].id == id
    ensures r.None? <==> forall j | 0 <= j < |cart| :: !(cart[j].userId == userId && cart[j].id == id)
    decreases |cart|
  {
    if |cart| == 0 then None
    else if cart[0].userId == userId && cart[0].id == id then Some(0)
    else match FindOwned(cart[1..], userId, id)
      case None => None
      case Some(k) => Some(k + 1)
  }

  /** At most one line per (user, product). */
  predicate OneLinePerProduct(cart: seq<CartItem>) {
    forall i, j | 0 <= i < j < |cart| :: !(cart[i].userId == cart[j].userId && cart[i].productId == cart[j].productId)
  }

  /** Line ids are ascending and below the next id to be issued. */
  predicate IdsIssued(cart: seq<CartItem>, next: nat) {
    && (forall i, j | 0 <= i < j < |cart| :: cart[i].id < cart[j].id)
    && (forall i | 0 <= i < |cart| :: cart[i].id < next)
  }

  // ---------------------------------------------------------------------------
  // CartController::store

  /** `POST /cart`. `userId` is the authenticated user, if any. */
  function Add(s: Store, userId: Option<nat>, productId: nat, quantity: int): (r: Reply<()>)
    ensures userId.None? ==> r.status == 401 && r.store == s
    ensures userId.Some? && (!HasProduct(s.products, productId) || quantity < 1) ==> r.status == 422 && r.store == s
    ensures r.status == 200 <==> userId.Some? && HasProduct(s.products, productId) && quantity >= 1
    ensures r.store.(cart := s.cart, nextCartId := s.nextCartId) == s
    ensures r.status == 200 ==> match FindLine(s.cart, userId.value, productId)
      case Some(k) =>
        && r.store.cart == s.cart[k := s.cart[k].(quantity := s.cart[k].quantity + quantity)]
        && r.store.nextCartId == s.nextCartId
      case None =>
        && r.store.cart == s.cart + [CartItem(s.nextCartId, userId.value, productId, quantity)]
        && r.store.nextCartId == s.nextCartId + 1
  {
    if userId.None? then Reply(s, 401, Note(Unauthorized))
    else if !HasProduct(s.products, productId) || quantity < 1 then Reply(s, 422, Note(ValidationFailed))
    else
      var uid := userId.value;
      var cart := match FindLine(s.cart, uid, productId)
        case Some(k) => s.cart[k := s.cart[k].(quantity := s.cart[k].quantity + quantity)]
        case None => s.cart + [CartItem(s.nextCartId, uid, productId, quantity)];
      var next := if FindLine(s.cart, uid, productId).Some? then s.nextCartId else s.nextCartId + 1;
      Reply(s.(cart := cart, nextCartId := next), 200, Note("Item added to cart"))
  }

  /** Adding keeps one line per (user, product) and keeps line ids issued in order. */
  lemma AddKeepsInvariants(s: Store, userId: Option<nat>, productId: nat, quantity: int)
    requires OneLinePerProduct(s.cart) && IdsIssued(s.cart, s.nextCartId)
    ensures var r := Add(s, userId, productId, quantity);
      OneLinePerProduct(r.store.cart) && IdsIssued(r.store.cart, r.store.nextCartId)
  {
  }

  /** After a successful add, the caller holds exactly one line for the
      product, whose quantity is what it held before plus the amount added —
      however much stock the product has. */
  lemma AddMerges(s: Store, uid: nat, productId: nat, quantity: int)
    requires OneLinePerProduct(s.cart)
    requires HasProduct(s.products, productId) && quantity >= 1
    ensures var r := Add(s, Some(uid), productId, quantity);
      var before := FindLine(s.cart, uid, productId);
      var after := FindLine(r.store.cart, uid, productId);
      && r.status == 200
      && after.Some?
      && r.store.cart[after.value].quantity == (if before.Some? then s.cart[before.value].quantity else 0) + quantity
      && (forall j | 0 <= j < |r.store.cart| && j != after.value ::
            !(r.store.cart[j].userId == uid && r.store.cart[j].productId == productId))
  {
    var r := Add(s, Some(uid), productId, quantity);
    match FindLine(s.cart, uid, productId)
    case Some(k) =>
      assert r.store.cart[k].userId == uid && r.store.cart[k].productId == productId;
      assert forall j | 0 <= j < k :: r.store.cart[j] == s.cart[j];
      assert FindLine(r.store.cart, uid, productId) == Some(k) by {
        FirstOfOne(r.store.cart, uid, productId, k);
      }
    case None =>
      var n := |s.cart|;
      assert r.store.cart[n].userId == uid && r.store.cart[n].productId == productId;
      assert FindLine(r.store.cart, uid, productId) == Some(n) by {
        FirstOfOne(r.store.cart, uid, productId, n);
      }
  }

  /** With one line per (user, product), the line a search finds is the only one. */
  lemma {:induction false} FirstOfOne(cart: seq<CartItem>, uid: nat, productId: nat, k: nat)
    requires k < |cart| && cart[k].userId == uid && cart[k].productId == productId
    requires forall j | 0 <= j < |cart| && j != k :: !(cart[j].userId == uid && cart[j].productId == productId)
    ensures FindLine(cart, uid, productId) == Some(k)
    decreases |cart|
  {
    if k > 0 {
      var tail := cart[1..];
      forall j | 0 <= j < |tail| && j != k - 1
        ensures !(tail[j].userId == uid && tail[j].productId == productId)
      {
        assert tail[j] == cart[j + 1];
      }
      FirstOfOne(tail, uid, productId, k - 1);
    }
  }

  // ---------------------------------------------------------------------------
  // CartController::update

  /** `PATCH /cart/{id}`: the new quantity must be ≥ 1 and at most the product's stock. */
  function Update(s: Store, userId: Option<nat>, id: nat, quantity: int): (r: Reply<()>)
    ensures userId.None? ==> r.status == 401 && r.store == s
    ensures r.status != 200 ==> r.store == s
    ensures r.store.(cart := s.cart) == s
    ensures userId.Some? && quantity < 1 ==> r.status == 422
    ensures userId.Some? && quantity >= 1 && FindOwned(s.cart, userId.value, id).None? ==> r.status == 404
    ensures userId.Some? && quantity >= 1 && FindOwned(s.cart, userId.value, id).Some? ==>
      var line := s.cart[FindOwned(s.cart, userId.value, id).value];
      HasProduct(s.products, line.productId) && quantity > ProductOf(s.products, line.productId).stock ==>
        r.status == 400
    ensures r.status == 200 <==>
      && userId.Some? && quantity >= 1
      && FindOwned(s.cart, userId.value, id).Some?
      && var line := s.cart[FindOwned(s.cart, userId.value, id).value];
         HasProduct(s.products, line.productId) && quantity <= ProductOf(s.products, line.productId).stock
    ensures r.status == 200 ==>
      var k := FindOwned(s.cart, userId.value, id).value;
      r.store.cart == s.cart[k := s.cart[k].(quantity := quantity)]
  {
    if userId.None? then Reply(s, 401, Note(Unauthorized))
    else if quantity < 1 then Reply(s, 422, Note(ValidationFailed))
    else match FindOwned(s.cart, userId.value, id)
      case None => Reply(s, 404, Note("No query results for model [App\\Models\\CartItem]."))
      case Some(k) =>
        var line := s.cart[k];
        if !HasProduct(s.products, line.productId) then Reply(s, 500, Note("Attempt to read property \"stock\" on null"))
        else if quantity > ProductOf(s.products, line.productId).stock then
          Reply(s, 400, Note("Quantity exceeds available stock"))
        else Reply(s.(cart := s.cart[k := line.(quantity := quantity)]), 200, Note("Cart item updated"))
  }

  /** An update touches only the caller's line `id`: every other line, the
      other users' lines among them, is as it was, and the line keeps its id,
      owner and product. */
  lemma UpdateScoped(s: Store, uid: nat, id: nat, quantity: int)
    ensures var r := Update(s, Some(uid), id, quantity);
      && |r.store.cart| == |s.cart|
      && (forall j | 0 <= j < |s.cart| && !(s.cart[j].userId == uid && s.cart[j].id == id) ::
            r.store.cart[j] == s.cart[j])
      && (forall j | 0 <= j < |s.cart| ::
            r.store.cart[j].(quantity := 0) == s.cart[j].(quantity := 0))
  {
  }

  // ---------------------------------------------------------------------------
  // CartController::destroy

  /** `DELETE /cart/{id}`: removes the caller's line `id`. */
  function Destroy(s: Store, userId: Option<nat>, id: nat): (r: Reply<()>)
    ensures userId.None? ==> r.status == 401 && r.store == s
    ensures r.status != 200 ==> r.store == s
    ensures r.store.(cart := s.cart) == s
    ensures userId.Some? ==> (r.status == 200 <==> FindOwned(s.cart, userId.value, id).Some?)
    ensures r.status == 200 ==>
      var k := FindOwned(s.cart, userId.value, id).value;
      r.store.cart == s.cart[..k] + s.cart[k + 1..]
  {
    if userId.None? then Reply(s, 401, Note(Unauthorized))
    else match FindOwned(s.cart, userId.value, id)
      case None => Reply(s, 404, Note("No query results for model [App\\Models\\CartItem]."))
      case Some(k) => Reply(s.(cart := s.cart[..k] + s.cart[k + 1..]), 200, Note("Item removed from cart"))
  }

  /** Removing line `k` from a cart whose ids are issued in order leaves
      exactly the lines with another id, still in order. */
  lemma RemoveLine(cart: seq<CartItem>, next: nat, k: nat)
    requires IdsIssued(cart, next) && k < |cart|
    ensures var rest := cart[..k] + cart[k + 1..];
      && (forall j | 0 <= j < |cart| && cart[j].id != cart[k].id :: cart[j] in rest)
      && (forall j | 0 <= j < |rest| :: rest[j].id != cart[k].id)
      && IdsIssued(rest, next)
  {
    var rest := cart[..k] + cart[k + 1..];
    assert forall j | 0 <= j < k :: rest[j] == cart[j];
    assert forall j | k <= j < |rest| :: rest[j] == cart[j + 1];
    forall j | 0 <= j < |cart| && cart[j].id != cart[k].id
      ensures cart[j] in rest
    {
      if j < k {
        assert rest[j] == cart[j];
      } else {
        assert rest[j - 1] == cart[j];
      }
    }
  }

  /** With ids issued in order, a successful destroy leaves exactly the lines
      whose id differs, so no other user's line is lost. */
  lemma DestroyRemovesExactly(s: Store, uid: nat, id: nat)
    requires IdsIssued(s.cart, s.nextCartId)
    ensures var r := Destroy(s, Some(uid), id);
      && (r.status == 200 ==> forall j | 0 <= j < |s.cart| :: s.cart[j].id != id ==> s.cart[j] in r.store.cart)
      && (r.status == 200 ==> forall j | 0 <= j < |r.store.cart| :: r.store.cart[j].id != id)
      && IdsIssued(r.store.cart, r.store.nextCartId)
  {
    match FindOwned(s.cart, uid, id)
    case None =>
    case Some(k) =>
      RemoveLine(s.cart, s.nextCartId, k);
  }
}
