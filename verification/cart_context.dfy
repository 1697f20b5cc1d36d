/** The client's cart state (`CartContext`): the running total, the add guard
    and the clear action. Network calls are reduced to the fact of their
    success. */
module CartContext {
  import opened Wrappers

  datatype CartProduct = CartProduct(id: nat, name: string, price: real)

  /** A cart line as the client holds it; `productId` 0 stands for a missing `product_id`. */
  datatype ClientItem = ClientItem(id: nat, productId: nat, quantity: int, product: CartProduct)

  function LineValue(it: ClientItem): real {
    it.product.price * it.quantity as real
  }

  /** `items.reduce((total, item) => total + price × quantity, acc)`: a left fold. */
  function Fold(acc: real, items: seq<ClientItem>): real
    decreases |items|
  {
    if |items| == 0 then acc else Fold(acc + LineValue(items[0]), items[1..])
  }

  /** `getTotal`. */
  function GetTotal(items: seq<ClientItem>): real {
    Fold(0.0, items)
  }

  /** Σ price × quantity, as a right-nested sum. */
  function Sum(items: seq<ClientItem>): real
    decreases |items|
  {
    if |items| == 0 then 0.0 else LineValue(items[0]) + Sum(items[1..])
  }

  lemma {:induction false} FoldIsSum(acc: real, items: seq<ClientItem>)
    ensures Fold(acc, items) == acc + Sum(items)
    decreases |items|
  {
    if |items| > 0 {
      FoldIsSum(acc + LineValue(items[0]), items[1..]);
    }
  }

  /** The total is Σ price × quantity; an empty cart totals 0. */
  lemma GetTotalIsSum(items: seq<ClientItem>)
    ensures GetTotal(items) == Sum(items)
    ensures GetTotal([]) == 0.0
  {
    FoldIsSum(0.0, items);
  }

  lemma {:induction false} SumConcat(a: seq<ClientItem>, b: seq<ClientItem>)
    ensures Sum(a + b) == Sum(a) + Sum(b)
    decreases |a|
  {
    if |a| == 0 {
      assert a + b == b;
    } else {
      assert (a + b)[0] == a[0];
      assert (a + b)[1..] == a[1..] + b;
      SumConcat(a[1..], b);
    }
  }

  /** The total of a concatenation is the sum of the totals. */
  lemma GetTotalAdditive(a: seq<ClientItem>, b: seq<ClientItem>)
    ensures GetTotal(a + b) == GetTotal(a) + GetTotal(b)
  {
    GetTotalIsSum(a);
    GetTotalIsSum(b);
    GetTotalIsSum(a + b);
    SumConcat(a, b);
  }

  /** Taking line `j` out of a list takes its value out of the sum. */
  lemma SumRemove(b: seq<ClientItem>, j: nat)
    requires j < |b|
    ensures Sum(b) == LineValue(b[j]) + Sum(b[..j] + b[j + 1..])
  {
    SplitAround(b, j);
    SumConcat(b[..j], [b[j]] + b[j + 1..]);
    SumCons(b[j], b[j + 1..]);
    SumConcat(b[..j], b[j + 1..]);
  }

  lemma SplitAround(b: seq<ClientItem>, j: nat)
    requires j < |b|
    ensures b == b[..j] + ([b[j]] + b[j + 1..])
  {
  }

  lemma SumCons(x: ClientItem, ys: seq<ClientItem>)
    ensures Sum([x] + ys) == LineValue(x) + Sum(ys)
  {
    assert ([x] + ys)[1..] == ys;
  }

  /** Taking line `j` out of a list takes one copy out of its multiset. */
  lemma MultisetRemove(b: seq<ClientItem>, j: nat)
    requires j < |b|
    ensures multiset(b[..j] + b[j + 1..]) == multiset(b) - multiset{b[j]}
  {
    assert b == b[..j] + [b[j]] + b[j + 1..];
  }

  /** Taking the first line out of one list and a copy of it out of the other keeps them permutations. */
  lemma PermutationTail(a: seq<ClientItem>, b: seq<ClientItem>, j: nat)
    requires multiset(a) == multiset(b) && |a| > 0 && j < |b| && b[j] == a[0]
    ensures multiset(a[1..]) == multiset(b[..j] + b[j + 1..])
  {
    MultisetRemove(b, j);
    assert a == [a[0]] + a[1..];
    assert multiset(a) == multiset{a[0]} + multiset(a[1..]);
  }

  lemma {:induction false} SumPermutation(a: seq<ClientItem>, b: seq<ClientItem>)
    requires multiset(a) == multiset(b)
    ensures Sum(a) == Sum(b)
    decreases |a|
  {
    if |a| > 0 {
      assert a[0] in multiset(b);
      var j :| 0 <= j < |b| && b[j] == a[0];
      PermutationTail(a, b, j);
      SumPermutation(a[1..], b[..j] + b[j + 1..]);
      SumRemove(b, j);
    }
  }

  /** The total does not depend on the order of the lines. */
  lemma GetTotalOrderIndependent(a: seq<ClientItem>, b: seq<ClientItem>)
    requires multiset(a) == multiset(b)
    ensures GetTotal(a) == GetTotal(b)
  {
    GetTotalIsSum(a);
    GetTotalIsSum(b);
    SumPermutation(a, b);
  }

  /** With non-negative prices and quantities the total is non-negative. */
  lemma {:induction false} GetTotalNonNegative(items: seq<ClientItem>)
    requires forall i | 0 <= i < |items| :: items[i].product.price >= 0.0 && items[i].quantity >= 0
    ensures GetTotal(items) >= 0.0
  {
    GetTotalIsSum(items);
    SumNonNegative(items);
  }

  lemma {:induction false} SumNonNegative(items: seq<ClientItem>)
    requires forall i | 0 <= i < |items| :: items[i].product.price >= 0.0 && items[i].quantity >= 0
    ensures Sum(items) >= 0.0
    decreases |items|
  {
    if |items| > 0 {
      assert forall i | 0 <= i < |items| - 1 :: items[1..][i] == items[i + 1];
      SumNonNegative(items[1..]);
    }
  }

  // ---------------------------------------------------------------------------
  // addToCart and clearCart

  /** The body `addToCart` posts. */
  datatype AddRequest = AddRequest(productId: nat, quantity: int)

  /** `addToCart`: without a signed-in user nothing is sent. */
  function AddToCart(user: Option<nat>, productId: nat, quantity: int): (r: Option<AddRequest>)
    ensures r.None? <==> user.None?
    ensures r.Some? ==> r.value.productId == productId && r.value.quantity == quantity
  {
    if user.None? then None else Some(AddRequest(productId, quantity))
  }

  /** `clearCart`: with a user and a successful `DELETE /cart` the items are
      emptied; otherwise they stay. */
  function ClearCart(items: seq<ClientItem>, user: Option<nat>, deleted: bool): (r: seq<ClientItem>)
    ensures user.Some? && deleted ==> r == []
    ensures user.None? || !deleted ==> r == items
  {
    if user.None? then items else if deleted then [] else items
  }

  /** After a successful clear the total is 0. */
  lemma ClearedTotalIsZero(items: seq<ClientItem>, user: nat)
    ensures GetTotal(ClearCart(items, Some(user), true)) == 0.0
  {
  }
}
