/** The product catalogue pages (the public listing and the dashboard
    listing): the search-and-category filter, the category list, who may add
    to the cart, which endpoint the listing loads, and the list updates after
    an edit or a delete. The rows are the product rows the server returns. */
module Catalog {
  import opened Wrappers
  import opened Entities
  import Seqs
  import Text
  import Products

  // ---------------------------------------------------------------------------
  // Search and category filter

  /** `product.name.toLowerCase().includes(searchTerm.toLowerCase())`. */
  predicate NameMatches(p: Product, term: string) {
    Text.Contains(Text.ToLower(p.name), Text.ToLower(term))
  }

  /** The search test reads the description only when the name does not
      match, and reading a missing description throws. */
  predicate Throws(p: Product, term: string) {
    !NameMatches(p, term) && p.description.None?
  }

  predicate MatchesSearch(p: Product, term: string) {
    || NameMatches(p, term)
    || (p.description.Some? && Text.Contains(Text.ToLower(p.description.value), Text.ToLower(term)))
  }

  predicate MatchesCategory(p: Product, category: string) {
    category == "all" || p.category == category
  }

  predicate Keep(p: Product, term: string, category: string) {
    MatchesSearch(p, term) && MatchesCategory(p, category)
  }

  /** `filteredProducts`; `None` when the filter callback throws on some row. */
  function FilterProducts(ps: seq<Product>, term: string, category: string): (r: Option<seq<Product>>)
    ensures r.None? <==> exists i | 0 <= i < |ps| :: Throws(ps[i], term)
    ensures r.Some? ==> r.value == Seqs.Filter(ps, (p: Product) => Keep(p, term, category))
    decreases |ps|
  {
    if |ps| == 0 then Some([])
    else if Throws(ps[0], term) then None
    else match FilterProducts(ps[1..], term, category)
      case None => None
      case Some(rest) => Some((if Keep(ps[0], term, category) then [ps[0]] else []) + rest)
  }

  /** Every row shown passes both tests, and every row that passes is shown, in list order. */
  lemma FilterExact(ps: seq<Product>, term: string, category: string)
    requires FilterProducts(ps, term, category).Some?
    ensures var shown := FilterProducts(ps, term, category).value;
      && Seqs.IsSubseq(shown, ps)
      && (forall i | 0 <= i < |shown| :: MatchesSearch(shown[i], term) && MatchesCategory(shown[i], category))
      && (forall i | 0 <= i < |ps| :: Keep(ps[i], term, category) ==> ps[i] in shown)
  {
    Seqs.FilterIsSubseq(ps, (p: Product) => Keep(p, term, category));
  }

  /** The search ignores the case of the search term. */
  lemma SearchIgnoresCase(ps: seq<Product>, term: string, category: string)
    ensures FilterProducts(ps, Text.ToLower(term), category) == FilterProducts(ps, term, category)
  {
    Text.ToLowerIdempotent(term);
    var lowered := FilterProducts(ps, Text.ToLower(term), category);
    var plain := FilterProducts(ps, term, category);
    assert forall p: Product :: Keep(p, Text.ToLower(term), category) == Keep(p, term, category);
    assert forall p: Product :: Throws(p, Text.ToLower(term)) == Throws(p, term);
    Seqs.FilterAgree(ps, (p: Product) => Keep(p, Text.ToLower(term), category), (p: Product) => Keep(p, term, category));
  }

  /** With an empty search and the `all` category, every row is shown. */
  lemma EmptySearchShowsAll(ps: seq<Product>)
    ensures FilterProducts(ps, "", "all") == Some(ps)
  {
    forall i | 0 <= i < |ps|
      ensures NameMatches(ps[i], "")
    {
      Text.ContainsEmpty(Text.ToLower(ps[i].name));
    }
    Seqs.KeepAll(ps, (p: Product) => Keep(p, "", "all"));
  }

  /** A search term matches wherever a longer term starting with it matches. */
  lemma MatchesShorter(p: Product, term: string, more: string)
    requires MatchesSearch(p, term + more)
    ensures MatchesSearch(p, term)
  {
    Text.ToLowerConcat(term, more);
    if NameMatches(p, term + more) {
      Text.ContainsPrefix(Text.ToLower(p.name), Text.ToLower(term), Text.ToLower(more));
    } else {
      Text.ContainsPrefix(Text.ToLower(p.description.value), Text.ToLower(term), Text.ToLower(more));
    }
  }

  /** Typing more of the search term only narrows the list. */
  lemma TypingNarrows(ps: seq<Product>, term: string, more: string, category: string)
    requires FilterProducts(ps, term, category).Some? && FilterProducts(ps, term + more, category).Some?
    ensures Seqs.IsSubseq(FilterProducts(ps, term + more, category).value, FilterProducts(ps, term, category).value)
  {
    forall p | p in ps && Keep(p, term + more, category)
      ensures Keep(p, term, category)
    {
      MatchesShorter(p, term, more);
    }
    Seqs.FilterMonotone(ps, (p: Product) => Keep(p, term + more, category), (p: Product) => Keep(p, term, category));
  }

  /** The filter throws as soon as one row has no description and a name that
      does not match, whatever the category and wherever the row stands. */
  lemma MissingDescriptionThrows(ps: seq<Product>, p: Product, term: string, category: string)
    requires p in ps && p.description.None? && !NameMatches(p, term)
    ensures FilterProducts(ps, term, category).None?
  {
    var i :| 0 <= i < |ps| && ps[i] == p;
    assert Throws(ps[i], term);
  }

  /** A row with an empty name and no description makes every non-empty
      search throw. */
  lemma EmptyNameThrows(p: Product, term: string, category: string)
    requires p.name == "" && p.description.None? && |term| > 0
    ensures FilterProducts([p], term, category).None?
  {
    assert !NameMatches(p, term);
    MissingDescriptionThrows([p], p, term, category);
  }

  // ---------------------------------------------------------------------------
  // Categories

  function CategoriesOf(ps: seq<Product>): (r: seq<string>)
    ensures |r| == |ps| && forall i | 0 <= i < |ps| :: r[i] == ps[i].category
  {
    seq(|ps|, i requires 0 <= i < |ps| => ps[i].category)
  }

  /** `[...new Set(products.map(p => p.category).filter(Boolean))]`. */
  function Categories(ps: seq<Product>): (r: seq<string>)
    ensures Seqs.Distinct(r)
    ensures forall i | 0 <= i < |r| :: |r[i]| > 0 && r[i] in CategoriesOf(ps)
    ensures forall j | 0 <= j < |ps| && |ps[j].category| > 0 :: ps[j].category in r
  {
    var named := Seqs.Filter(CategoriesOf(ps), (c: string) => |c| > 0);
    NamedCategories(ps);
    Seqs.Dedup(named)
  }

  /** The non-empty categories, before de-duplication, hold every non-empty category. */
  lemma NamedCategories(ps: seq<Product>)
    ensures var named := Seqs.Filter(CategoriesOf(ps), (c: string) => |c| > 0);
      forall j | 0 <= j < |ps| && |ps[j].category| > 0 :: ps[j].category in named
  {
    var all := CategoriesOf(ps);
    forall j | 0 <= j < |ps| && |ps[j].category| > 0
      ensures ps[j].category in Seqs.Filter(all, (c: string) => |c| > 0)
    {
      assert all[j] == ps[j].category;
    }
  }

  // ---------------------------------------------------------------------------
  // Adding to the cart, loading and updating the list

  /** The signed-in user as the page sees it. */
  datatype PageUser = PageUser(id: nat, role: string)

  datatype AddOutcome = LoginRequired | AccessDenied | AddsOne(productId: nat)

  /** `handleAddToCart`: only a signed-in customer adds, and always one unit. */
  function HandleAddToCart(user: Option<PageUser>, productId: nat): (r: AddOutcome)
    ensures r.AddsOne? <==> user.Some? && user.value.role == "customer"
    ensures r == LoginRequired <==> user.None?
    ensures r.AddsOne? ==> r.productId == productId
  {
    if user.None? then LoginRequired
    else if user.value.role != "customer" then AccessDenied
    else AddsOne(productId)
  }

  /** The dashboard listing loads a supplier's own products, everyone else the whole catalogue. */
  function Endpoint(user: Option<PageUser>): (r: string)
    ensures r == "/supplier/products" <==> user.Some? && user.value.role == "supplier"
    ensures r != "/supplier/products" ==> r == "/products"
  {
    if user.Some? && user.value.role == "supplier" then "/supplier/products" else "/products"
  }

  /** After an edit: `products.map(p => p.id === id ? updated : p)`. */
  function ReplaceProduct(ps: seq<Product>, id: nat, updated: Product): (r: seq<Product>)
    ensures |r| == |ps|
    ensures forall i | 0 <= i < |ps| :: r[i] == (if ps[i].id == id then updated else ps[i])
  {
    seq(|ps|, i requires 0 <= i < |ps| => if ps[i].id == id then updated else ps[i])
  }

  /** After a delete: `products.filter(p => p.id !== id)`. */
  function DeleteProduct(ps: seq<Product>, id: nat): (r: seq<Product>)
    ensures forall i | 0 <= i < |r| :: r[i].id != id && r[i] in ps
    ensures forall i | 0 <= i < |ps| && ps[i].id != id :: ps[i] in r
  {
    Seqs.Filter(ps, (p: Product) => p.id != id)
  }

  /** Deleting from the list keeps the remaining products in their order. */
  lemma DeleteKeepsOrder(ps: seq<Product>, id: nat)
    ensures Seqs.IsSubseq(DeleteProduct(ps, id), ps)
  {
    Seqs.FilterIsSubseq(ps, (p: Product) => p.id != id);
  }

  /** A list that mirrors the product table still mirrors it after a
      successful edit. */
  lemma EditMirrorsServer(s: Store, a: Actor, id: nat, pa: Products.ProductPatch)
    requires Products.IdsIssued(s.products, s.nextProductId)
    requires Products.Update(s, a, id, pa).status == 200
    ensures var r := Products.Update(s, a, id, pa);
      r.body.Data? && ReplaceProduct(s.products, id, r.body.value) == r.store.products
  {
    var r := Products.Update(s, a, id, pa);
    var k := FindProduct(s.products, id).value;
    assert forall i | 0 <= i < |s.products| && i != k :: s.products[i].id != id;
  }

  /** A list that mirrors the product table still mirrors it after a
      successful delete. */
  lemma DeleteMirrorsServer(s: Store, a: Actor, id: nat)
    requires Products.IdsIssued(s.products, s.nextProductId)
    requires Products.Destroy(s, a, id).status == 200
    ensures DeleteProduct(s.products, id) == Products.Destroy(s, a, id).store.products
  {
    Products.DestroyRemovesExactly(s, a, id);
  }
}
