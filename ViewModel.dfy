/**
 * The shop's state holder (`SharedViewModel`): the catalog, the search and
 * tab state, the basket, the favourites, the purchase history, the clicked
 * ids and three recommendation lists, each a field its operations reassign.
 *
 * Every remote call is a parameter: `ok` says whether a call that only
 * succeeds or fails succeeded, and an `Option` holds what a fetch returned
 * (`None` for a non-success response or an exception). Each operation runs
 * as one atomic step; the refreshes it triggers afterwards are separate
 * calls of the corresponding methods.
 */
module ViewModel {
  import opened Options
  import opened Text
  import opened Seqs
  import opened Model
  import opened Basket
  import opened Recommend
  import opened ProductList

  /** A remote call on `id.toInt()` that reports success: the id must parse
      (otherwise the `NumberFormatException` is caught and nothing happens)
      and the call must succeed. */
  predicate Confirmed(id: string, ok: bool) {
    ToInt(id).Some? && ok
  }

  /** The favourite ids the remote list yields: `productNo.toString()` of each row. */
  function FavoriteIds(items: seq<FavoriteItem>): set<string> {
    set i | 0 <= i < |items| :: DecimalString(items[i].productNo)
  }

  /** Each row's id is a favourite, and every favourite id parses back to the
      number of a row (so a later `toInt()` of it succeeds). */
  lemma FavoriteIdsSpec(items: seq<FavoriteItem>)
    ensures forall i :: 0 <= i < |items| ==> DecimalString(items[i].productNo) in FavoriteIds(items)
    ensures forall s :: s in FavoriteIds(items) ==>
              ToInt(s).Some? && exists i :: 0 <= i < |items| && items[i].productNo == ToInt(s).value
  {
    forall s | s in FavoriteIds(items)
      ensures ToInt(s).Some? && exists i :: 0 <= i < |items| && items[i].productNo == ToInt(s).value
    {
      var i :| 0 <= i < |items| && s == DecimalString(items[i].productNo);
      ToIntOfDecimalString(items[i].productNo);
    }
  }

  /** `toggleFavorite`: a favourite is removed once the remote delete is
      confirmed; any other id is added, locally, when it names a catalog
      product. */
  function ToggledFavorites(favs: set<string>, catalog: seq<Product>, id: string, ok: bool): set<string> {
    if id in favs then (if Confirmed(id, ok) then favs - {id} else favs)
    else if FindProduct(catalog, id).Some? then favs + {id}
    else favs
  }

  lemma ToggledFavoritesSpec(favs: set<string>, catalog: seq<Product>, id: string, ok: bool)
    ensures id in favs ==> (id !in ToggledFavorites(favs, catalog, id, ok) <==> Confirmed(id, ok))
    ensures id !in favs ==> (id in ToggledFavorites(favs, catalog, id, ok) <==> FindProduct(catalog, id).Some?)
    ensures forall x :: x != id ==> (x in ToggledFavorites(favs, catalog, id, ok) <==> x in favs)
  {
  }

  /** Toggling a catalog product with a numeric id twice, both remote calls
      succeeding, gives back the original favourites. */
  lemma ToggleTwice(favs: set<string>, catalog: seq<Product>, id: string)
    requires FindProduct(catalog, id).Some? && ToInt(id).Some?
    ensures ToggledFavorites(ToggledFavorites(favs, catalog, id, true), catalog, id, true) == favs
  {
    if id in favs {
      assert ToggledFavorites(favs, catalog, id, true) == favs - {id};
      assert favs - {id} + {id} == favs;
    } else {
      assert ToggledFavorites(favs, catalog, id, true) == favs + {id};
      assert favs + {id} - {id} == favs;
    }
  }

  /** `takeLast(n)` */
  function TakeLast<T>(s: seq<T>, n: nat): (r: seq<T>)
    ensures |r| == (if |s| <= n then |s| else n)
    ensures r == s[|s| - |r|..]
  {
    if |s| <= n then s else s[|s| - n..]
  }

  /** The clicked-id set after a click: `(clicks + id).toList().takeLast(20)`,
      where adding an id already in the insertion-ordered set keeps it in place. */
  function TrackClick(clicks: seq<string>, id: string): seq<string> {
    TakeLast(if id in clicks then clicks else clicks + [id], 20)
  }

  /** On a duplicate-free history of at most 20 ids, a click keeps it
      duplicate-free and at most 20 long and records the id: a known id
      changes nothing, a new one is appended, and on a full history the
      oldest id is dropped. */
  lemma TrackClickSpec(clicks: seq<string>, id: string)
    requires Unique(clicks) && |clicks| <= 20
    ensures Unique(TrackClick(clicks, id)) && |TrackClick(clicks, id)| <= 20
    ensures id in TrackClick(clicks, id)
    ensures id in clicks ==> TrackClick(clicks, id) == clicks
    ensures id !in clicks && |clicks| < 20 ==> TrackClick(clicks, id) == clicks + [id]
    ensures id !in clicks && |clicks| == 20 ==> TrackClick(clicks, id) == clicks[1..] + [id]
  {
    if id !in clicks {
      var t := clicks + [id];
      assert t[|t| - 1] == id;
      assert Unique(t) by {
        forall i, j | 0 <= i < j < |t| ensures t[i] != t[j] {
          if j == |clicks| {
            assert t[i] == clicks[i];
          }
        }
      }
      if |clicks| == 20 {
        assert t[1..] == clicks[1..] + [id];
      }
    }
  }

  /** `updateProductDetailRecommendations`: no product id means nothing to
      show; an id that does not parse throws inside the `try`, which also
      leaves nothing; otherwise the response is resolved. */
  function DetailRecommendations(productId: Option<string>, response: Option<seq<Int32>>,
                                 catalog: seq<Product>): (r: seq<Product>)
    ensures productId.None? || ToInt(productId.value).None? ==> r == []
    ensures productId.Some? && ToInt(productId.value).Some? ==> r == Refresh(response, catalog)
  {
    if productId.None? || ToInt(productId.value).None? then [] else Refresh(response, catalog)
  }

  class SharedViewModel {
    var allProducts: seq<Product>
    var allCategories: seq<Category>
    var searchQuery: Option<string>
    var selectedCategoryIdFromTab: Option<string>
    var basketItems: seq<BasketItem>
    var favoriteProducts: set<string>
    var pastPurchases: seq<PurchaseHistory>
    /** The insertion-ordered set of clicked ids. */
    var clickedProductIds: seq<string>
    var productDetailRecommendations: seq<Product>
    var basketRecommendations: seq<Product>
    var forYouRecommendations: seq<Product>

    /** The basket holds each product once with a positive quantity; the
        clicked ids are distinct and at most 20. */
    predicate Valid()
      reads this
    {
      WellFormed(basketItems) && Unique(clickedProductIds) && |clickedProductIds| <= 20
    }

    /** `loadInitialData`: the catalog and the seeded history from the loader. */
    constructor(products: seq<Product>, categories: seq<Category>, history: seq<PurchaseHistory>)
      ensures allProducts == products && allCategories == categories && pastPurchases == history
      ensures searchQuery == None && selectedCategoryIdFromTab == None
      ensures basketItems == [] && favoriteProducts == {} && clickedProductIds == []
      ensures productDetailRecommendations == [] && basketRecommendations == [] && forYouRecommendations == []
      ensures Valid()
    {
      allProducts := products;
      allCategories := categories;
      pastPurchases := history;
      searchQuery := None;
      selectedCategoryIdFromTab := None;
      basketItems := [];
      favoriteProducts := {};
      clickedProductIds := [];
      productDetailRecommendations := [];
      basketRecommendations := [];
      forYouRecommendations := [];
    }

    /** The product list the shop screen currently shows. */
    function ProductListNow(): seq<ProductListItem>
      reads this
    {
      CategorizedProductList(searchQuery, allProducts, allCategories, selectedCategoryIdFromTab)
    }

    // -------------------------------------------------------------------
    // Favourites

    /** `loadFavorites`: a successful fetch replaces the favourites by the
        ids of the rows; a failure keeps them. */
    method LoadFavorites(response: Option<seq<FavoriteItem>>)
      requires Valid()
      modifies this`favoriteProducts
      ensures favoriteProducts == if response.Some? then FavoriteIds(response.value) else old(favoriteProducts)
      ensures Valid()
    {
      if response.Some? {
        favoriteProducts := FavoriteIds(response.value);
      }
    }

    method ToggleFavorite(productId: string, ok: bool)
      requires Valid()
      modifies this`favoriteProducts
      ensures favoriteProducts == ToggledFavorites(old(favoriteProducts), allProducts, productId, ok)
      ensures Valid()
    {
      var isCurrentlyFavorite := productId in favoriteProducts;
      if isCurrentlyFavorite {
        if ToInt(productId).Some? && ok {
          favoriteProducts := favoriteProducts - {productId};
        }
      } else {
        var product := GetProductById(productId);
        if product.Some? {
          favoriteProducts := favoriteProducts + {productId};
        }
      }
    }

    // -------------------------------------------------------------------
    // Basket

    /** `loadBasket`: a successful fetch against a loaded catalog replaces the
        basket by the reconciled rows; a failure or an empty catalog keeps it. */
    method LoadBasket(response: Option<seq<Int32>>)
      requires Valid()
      modifies this`basketItems
      ensures basketItems == if response.None? || allProducts == [] then old(basketItems)
                             else Reconcile(response.value, allProducts)
      ensures Valid()
    {
      if response.Some? && allProducts != [] {
        var items := Aggregate(response.value, allProducts);
        ReconcileSpec(response.value, allProducts);
        basketItems := items;
      }
    }

    /** `addProductToBasket`: on remote success the product's quantity grows
        by `quantityToAdd` (a new item at the end when absent). */
    method AddProductToBasket(product: Product, quantityToAdd: int, ok: bool)
      requires Valid()
      modifies this`basketItems
      ensures basketItems == if Confirmed(product.id, ok) then Add(old(basketItems), product, quantityToAdd)
                             else old(basketItems)
      ensures quantityToAdd >= 1 ==> Valid()
    {
      if ToInt(product.id).Some? && ok {
        AddSpec(basketItems, product, quantityToAdd);
        basketItems := Add(basketItems, product, quantityToAdd);
      }
    }

    /** `decreaseBasketQuantity`: the remote delete only matters when the
        quantity would drop to zero or below. */
    method DecreaseBasketQuantity(productId: string, quantityToDecrease: int, ok: bool)
      requires Valid()
      modifies this`basketItems
      ensures basketItems == Decrease(old(basketItems), productId, quantityToDecrease, Confirmed(productId, ok))
      ensures Valid()
    {
      DecreaseSpec(basketItems, productId, quantityToDecrease, Confirmed(productId, ok));
      basketItems := Decrease(basketItems, productId, quantityToDecrease, Confirmed(productId, ok));
    }

    /** `removeProductFromBasket`: on remote success the product's item goes. */
    method RemoveProductFromBasket(productId: string, ok: bool)
      requires Valid()
      modifies this`basketItems
      ensures basketItems == if Confirmed(productId, ok) then Remove(old(basketItems), productId)
                             else old(basketItems)
      ensures Valid()
    {
      if ToInt(productId).Some? && ok {
        RemoveSpec(basketItems, productId);
        basketItems := Remove(basketItems, productId);
      }
    }

    /** `updateBasketItemQuantity`, with no remote call. */
    method UpdateBasketItemQuantity(productId: string, newQuantity: int)
      requires Valid()
      modifies this`basketItems
      ensures basketItems == SetQuantity(old(basketItems), productId, newQuantity)
      ensures Valid()
    {
      SetQuantitySpec(basketItems, productId, newQuantity);
      basketItems := SetQuantity(basketItems, productId, newQuantity);
    }

    /** `completePurchase`: refuses an empty basket; otherwise records the
        basket as read now as the newest purchase, ahead of the older ones.
        The basket itself is only emptied by the `loadBasket` that follows a
        successful remote clear. */
    method CompletePurchase(purchaseId: string, purchaseDate: int) returns (placed: bool)
      requires Valid()
      modifies this`pastPurchases
      ensures placed <==> basketItems != []
      ensures pastPurchases == if placed then [PurchaseHistory(purchaseId, purchaseDate, basketItems)] + old(pastPurchases)
                               else old(pastPurchases)
      ensures Valid()
    {
      if basketItems == [] {
        return false;
      }
      pastPurchases := [PurchaseHistory(purchaseId, purchaseDate, basketItems)] + pastPurchases;
      return true;
    }

    // -------------------------------------------------------------------
    // Clicks and recommendations

    method TrackProductClick(productId: string)
      requires Valid()
      modifies this`clickedProductIds
      ensures clickedProductIds == TrackClick(old(clickedProductIds), productId)
      ensures productId in clickedProductIds
      ensures Valid()
    {
      TrackClickSpec(clickedProductIds, productId);
      clickedProductIds := TrackClick(clickedProductIds, productId);
    }

    /** `updateForYouRecommendations` */
    method UpdateForYouRecommendations(response: Option<seq<Int32>>)
      requires Valid()
      modifies this`forYouRecommendations
      ensures forYouRecommendations == Refresh(response, allProducts)
      ensures Valid()
    {
      forYouRecommendations := Refresh(response, allProducts);
    }

    /** `updateBasketRecommendations` */
    method UpdateBasketRecommendations(response: Option<seq<Int32>>)
      requires Valid()
      modifies this`basketRecommendations
      ensures basketRecommendations == Refresh(response, allProducts)
      ensures Valid()
    {
      basketRecommendations := Refresh(response, allProducts);
    }

    /** `updateProductDetailRecommendations` */
    method UpdateProductDetailRecommendations(productId: Option<string>, response: Option<seq<Int32>>)
      requires Valid()
      modifies this`productDetailRecommendations
      ensures productDetailRecommendations == DetailRecommendations(productId, response, allProducts)
      ensures Valid()
    {
      if productId.None? {
        productDetailRecommendations := [];
        return;
      }
      if ToInt(productId.value).None? {
        productDetailRecommendations := [];
      } else {
        productDetailRecommendations := Refresh(response, allProducts);
      }
    }

    // -------------------------------------------------------------------
    // Search and tab state

    /** `searchProductsOrFilterByCategory`: a text naming a category (ignoring
        case) selects that category by id, in the query and the tab, so the
        list becomes that category's exact view; any other text becomes the
        query, and a missing or blank one also clears the tab. */
    method SearchProductsOrFilterByCategory(queryOrCategoryName: Option<string>)
      requires Valid()
      modifies this`searchQuery, this`selectedCategoryIdFromTab
      ensures FindCategoryByName(allCategories, queryOrCategoryName).Some? ==>
                searchQuery == Some(FindCategoryByName(allCategories, queryOrCategoryName).value.id) &&
                selectedCategoryIdFromTab == searchQuery &&
                FindCategory(allCategories, searchQuery.value).Some?
      ensures FindCategoryByName(allCategories, queryOrCategoryName).None? ==>
                searchQuery == queryOrCategoryName &&
                selectedCategoryIdFromTab ==
                  if queryOrCategoryName.None? || IsBlank(queryOrCategoryName.value) then None
                  else old(selectedCategoryIdFromTab)
      ensures Valid()
    {
      var category := FindCategoryByName(allCategories, queryOrCategoryName);
      if category.Some? {
        var c := category.value;
        searchQuery := Some(c.id);
        selectedCategoryIdFromTab := Some(c.id);
        var k :| 0 <= k < |allCategories| && allCategories[k] == c;
        assert allCategories[k].id == c.id;
      } else {
        searchQuery := queryOrCategoryName;
        if queryOrCategoryName.None? || IsBlank(queryOrCategoryName.value) {
          selectedCategoryIdFromTab := None;
        }
      }
    }

    /** `filterByCategoryFromTab`: the tab and the query become the id; a
        catalog category's id then lists exactly that category. */
    method FilterByCategoryFromTab(categoryId: Option<string>)
      requires Valid()
      modifies this`searchQuery, this`selectedCategoryIdFromTab
      ensures searchQuery == categoryId && selectedCategoryIdFromTab == categoryId
      ensures IsDetailView(categoryId) && FindCategory(allCategories, categoryId.value).Some? ==>
                Listed(ProductListNow()) == InCategory(allProducts, categoryId.value)
      ensures Valid()
    {
      selectedCategoryIdFromTab := categoryId;
      searchQuery := categoryId;
      if categoryId.None? {
        ClearSearchOrFilter();
      }
      if IsDetailView(categoryId) && FindCategory(allCategories, categoryId.value).Some? {
        CategoryFilterView(categoryId, allProducts, allCategories, categoryId);
      }
    }

    method ClearSearchOrFilter()
      requires Valid()
      modifies this`searchQuery, this`selectedCategoryIdFromTab
      ensures searchQuery == None && selectedCategoryIdFromTab == None
      ensures Valid()
    {
      searchQuery := None;
      selectedCategoryIdFromTab := None;
    }

    // -------------------------------------------------------------------
    // Lookups

    /** `getProductById` on the loaded catalog. */
    function GetProductById(productId: string): (r: Option<Product>)
      reads this
      ensures r.None? <==> forall k :: 0 <= k < |allProducts| ==> allProducts[k].id != productId
      ensures r.Some? ==> r.value in allProducts && r.value.id == productId
    {
      FindProduct(allProducts, productId)
    }

    /** `getCategoryById` on the loaded categories. */
    function GetCategoryById(categoryId: string): (r: Option<Category>)
      reads this
      ensures r.None? <==> forall k :: 0 <= k < |allCategories| ==> allCategories[k].id != categoryId
      ensures r.Some? ==> r.value in allCategories && r.value.id == categoryId
    {
      FindCategory(allCategories, categoryId)
    }

    /** `getPurchaseById` on the history. */
    function GetPurchaseById(id: string): (r: Option<PurchaseHistory>)
      reads this
      ensures r.None? <==> forall k :: 0 <= k < |pastPurchases| ==> pastPurchases[k].purchaseId != id
      ensures r.Some? ==> r.value in pastPurchases && r.value.purchaseId == id
    {
      FindPurchase(pastPurchases, id)
    }

    /** `isFavorite` */
    function IsFavorite(productId: string): bool
      reads this
    {
      productId in favoriteProducts
    }

    /** `isInBasket`: on a well-formed basket, exactly the products with a
        positive quantity. */
    function IsInBasket(productId: string): (r: bool)
      reads this
      ensures Valid() ==> (r <==> QuantityOf(basketItems, productId) > 0)
    {
      assert Valid() ==> (InBasket(basketItems, productId) <==> QuantityOf(basketItems, productId) > 0) by {
        if Valid() {
          QuantityPositiveIffInBasket(basketItems, productId);
        }
      }
      InBasket(basketItems, productId)
    }
  }
}
