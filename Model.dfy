/**
 * The app's records (the data/model package, and the `Category` record they refer
 * to) and the first-match lookups (`find { ... }`) done on their lists.
 */
module Model {
  import opened Options
  import opened Text
  import opened Seqs

  /** A product. `price` is left out: the loader always passes null and no
      logic reads it; `imageUrl` is never set. */
  datatype Product = Product(id: string, name: string, categoryId: string, ingredients: Option<seq<string>>)

  datatype Category = Category(id: string, name: string)

  /** A product and how many units of it are in the basket. */
  datatype BasketItem = BasketItem(product: Product, quantity: int)

  /** A completed purchase; the date is an abstract timestamp. */
  datatype PurchaseHistory = PurchaseHistory(purchaseId: string, purchaseDate: int, items: seq<BasketItem>)

  /** One row of the remote favorites list. */
  datatype FavoriteItem = FavoriteItem(productNo: Int32)

  /** `products.find { it.id == id }`: the first product with that id. */
  function FindProduct(ps: seq<Product>, id: string): (r: Option<Product>)
    ensures r.None? <==> forall k :: 0 <= k < |ps| ==> ps[k].id != id
    ensures r.Some? ==> r.value in ps && r.value.id == id
    ensures r.Some? ==> exists k :: 0 <= k < |ps| && ps[k] == r.value &&
                          forall j :: 0 <= j < k ==> ps[j].id != id
  {
    var k := FirstIndex(ps, (p: Product) => p.id == id);
    if k < 0 then None else Some(ps[k])
  }

  /** `categories.find { it.id == id }`: the first category with that id. */
  function FindCategory(cs: seq<Category>, id: string): (r: Option<Category>)
    ensures r.None? <==> forall k :: 0 <= k < |cs| ==> cs[k].id != id
    ensures r.Some? ==> r.value in cs && r.value.id == id
    ensures r.Some? ==> exists k :: 0 <= k < |cs| && cs[k] == r.value &&
                          forall j :: 0 <= j < k ==> cs[j].id != id
  {
    var k := FirstIndex(cs, (c: Category) => c.id == id);
    if k < 0 then None else Some(cs[k])
  }

  /** `categories.find { it.name.equals(name, ignoreCase = true) }`; a null
      name equals no category name. */
  function FindCategoryByName(cs: seq<Category>, name: Option<string>): (r: Option<Category>)
    ensures r.None? <==> name.None? || forall k :: 0 <= k < |cs| ==> !EqualsIgnoreCase(cs[k].name, name.value)
    ensures r.Some? ==> r.value in cs && EqualsIgnoreCase(r.value.name, name.value)
    ensures r.Some? ==> exists k :: 0 <= k < |cs| && cs[k] == r.value &&
                          forall j :: 0 <= j < k ==> !EqualsIgnoreCase(cs[j].name, name.value)
  {
    if name.None? then None
    else
      var k := FirstIndex(cs, (c: Category) => EqualsIgnoreCase(c.name, name.value));
      if k < 0 then None else Some(cs[k])
  }

  /** `pastPurchases.find { it.purchaseId == id }` */
  function FindPurchase(hs: seq<PurchaseHistory>, id: string): (r: Option<PurchaseHistory>)
    ensures r.None? <==> forall k :: 0 <= k < |hs| ==> hs[k].purchaseId != id
    ensures r.Some? ==> r.value in hs && r.value.purchaseId == id
    ensures r.Some? ==> exists k :: 0 <= k < |hs| && hs[k] == r.value &&
                          forall j :: 0 <= j < k ==> hs[j].purchaseId != id
  {
    var k := FirstIndex(hs, (h: PurchaseHistory) => h.purchaseId == id);
    if k < 0 then None else Some(hs[k])
  }
}
