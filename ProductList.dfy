/**
 * The product list the shop screen shows (`categorizedProductList`): from
 * the search query, the catalog and the selected tab, a list of category
 * headers, product items and, when browsing, one category selector.
 *
 * Three views: a query equal to a category id lists that category in full;
 * any other non-blank query lists the products whose name or category name
 * contains it; no query (or a blank one) lists every category with a
 * preview of at most four products, after a selector.
 */
module ProductList {
  import opened Options
  import opened Text
  import opened Seqs
  import opened Model

  datatype ProductListItem =
    | CategoryHeader(category: Category, isShowingAll: bool)
    | ProductItem(product: Product)
    | CategorySelectorItem(categories: seq<Category>, selectedCategoryId: Option<string>)

  // ---------------------------------------------------------------------
  // The filters

  /** `products.filter { it.categoryId == cid }` */
  function InCategory(ps: seq<Product>, cid: string): seq<Product> {
    if ps == [] then []
    else
      (if ps[0].categoryId == cid then [ps[0]] else []) + InCategory(ps[1..], cid)
  }

  /** The text-search condition: the name contains the query, or the
      product's category is known and its name contains the query, both
      ignoring case. */
  predicate TextMatch(p: Product, q: string, cats: seq<Category>) {
    ContainsIgnoreCase(p.name, q) ||
    (FindCategory(cats, p.categoryId).Some? && ContainsIgnoreCase(FindCategory(cats, p.categoryId).value.name, q))
  }

  /** `products.filter { TextMatch }` */
  function TextMatches(ps: seq<Product>, q: string, cats: seq<Category>): seq<Product> {
    if ps == [] then []
    else
      (if TextMatch(ps[0], q, cats) then [ps[0]] else []) + TextMatches(ps[1..], q, cats)
  }

  /** `products.map { it.categoryId }` */
  function CategoryIds(ps: seq<Product>): (r: seq<string>)
    ensures |r| == |ps| && forall i :: 0 <= i < |ps| ==> r[i] == ps[i].categoryId
  {
    seq(|ps|, i requires 0 <= i < |ps| => ps[i].categoryId)
  }

  /** `categories.filter { ids.contains(it.id) }` */
  function CategoriesIn(cs: seq<Category>, ids: seq<string>): seq<Category> {
    if cs == [] then []
    else
      (if cs[0].id in ids then [cs[0]] else []) + CategoriesIn(cs[1..], ids)
  }

  /** The categories of `cs` that have at least one product in `shown`, in
      the order of `cs`. */
  function NonEmptyCategories(cs: seq<Category>, shown: seq<Product>): seq<Category> {
    if cs == [] then []
    else
      (if InCategory(shown, cs[0].id) != [] then [cs[0]] else []) + NonEmptyCategories(cs[1..], shown)
  }

  lemma {:induction false} InCategoryMembers(ps: seq<Product>, cid: string)
    ensures |InCategory(ps, cid)| <= |ps|
    ensures forall p :: p in InCategory(ps, cid) <==> p in ps && p.categoryId == cid
  {
    if ps != [] {
      InCategoryMembers(ps[1..], cid);
      assert ps == [ps[0]] + ps[1..];
    }
  }

  lemma {:induction false} TextMatchesMembers(ps: seq<Product>, q: string, cats: seq<Category>)
    ensures forall p :: p in TextMatches(ps, q, cats) <==> p in ps && TextMatch(p, q, cats)
  {
    if ps != [] {
      TextMatchesMembers(ps[1..], q, cats);
      assert ps == [ps[0]] + ps[1..];
    }
  }

  lemma {:induction false} NonEmptyCategoriesMembers(cs: seq<Category>, shown: seq<Product>)
    ensures forall c :: c in NonEmptyCategories(cs, shown) <==> c in cs && InCategory(shown, c.id) != []
  {
    if cs != [] {
      NonEmptyCategoriesMembers(cs[1..], shown);
      assert cs == [cs[0]] + cs[1..];
    }
  }

  /** `take(4)` on a product list. */
  function Preview(ps: seq<Product>): (r: seq<Product>)
    ensures |r| == (if |ps| <= 4 then |ps| else 4) && r == ps[..|r|]
  {
    if |ps| <= 4 then ps else ps[..4]
  }

  function ProductItems(ps: seq<Product>): (r: seq<ProductListItem>)
    ensures |r| == |ps| && forall i :: 0 <= i < |ps| ==> r[i] == ProductItem(ps[i])
  {
    seq(|ps|, i requires 0 <= i < |ps| => ProductItem(ps[i]))
  }

  // ---------------------------------------------------------------------
  // The derivation

  /** One category's part of the `flatMap`: nothing when it has no product
      to show; else its header, then all its products in the detail views
      and the first four when browsing. */
  function Section(c: Category, shown: seq<Product>, detail: bool): seq<ProductListItem> {
    var inCat := InCategory(shown, c.id);
    if inCat == [] then []
    else [CategoryHeader(c, detail || |inCat| <= 4)] + ProductItems(if detail then inCat else Preview(inCat))
  }

  function Sections(cs: seq<Category>, shown: seq<Product>, detail: bool): seq<ProductListItem> {
    if cs == [] then [] else Section(cs[0], shown, detail) + Sections(cs[1..], shown, detail)
  }

  /** `!queryOrCategoryId.isNullOrBlank()` */
  predicate IsDetailView(query: Option<string>) {
    query.Some? && !IsBlank(query.value)
  }

  /** `productsToDisplay` */
  function Displayed(query: Option<string>, ps: seq<Product>, cats: seq<Category>): seq<Product> {
    if !IsDetailView(query) then ps
    else if FindCategory(cats, query.value).Some? then InCategory(ps, query.value)
    else TextMatches(ps, query.value, cats)
  }

  /** `categoriesToConsider` */
  function Considered(query: Option<string>, ps: seq<Product>, cats: seq<Category>): seq<Category> {
    if !IsDetailView(query) then cats
    else if FindCategory(cats, query.value).Some? then [FindCategory(cats, query.value).value]
    else CategoriesIn(cats, Distinct(CategoryIds(TextMatches(ps, query.value, cats))))
  }

  /** `categorizedProductList` for the current query, catalog and tab. */
  function CategorizedProductList(query: Option<string>, ps: seq<Product>, cats: seq<Category>,
                                  tab: Option<string>): seq<ProductListItem>
  {
    var detail := IsDetailView(query);
    var items := Sections(Considered(query, ps, cats), Displayed(query, ps, cats), detail);
    if !detail && cats != [] then [CategorySelectorItem(cats, tab)] + items else items
  }

  // ---------------------------------------------------------------------
  // Reading a list back: its headers and its products

  function Headers(items: seq<ProductListItem>): seq<Category> {
    if items == [] then []
    else (if items[0].CategoryHeader? then [items[0].category] else []) + Headers(items[1..])
  }

  function Listed(items: seq<ProductListItem>): seq<Product> {
    if items == [] then []
    else (if items[0].ProductItem? then [items[0].product] else []) + Listed(items[1..])
  }

  predicate NoSelector(items: seq<ProductListItem>) {
    forall i :: 0 <= i < |items| ==> !items[i].CategorySelectorItem?
  }

  /** Every header says whether its whole category is shown, as `flag` for its size. */
  predicate FlagsAgree(items: seq<ProductListItem>, shown: seq<Product>, detail: bool) {
    forall i :: 0 <= i < |items| && items[i].CategoryHeader? ==>
      items[i].isShowingAll == (detail || |InCategory(shown, items[i].category.id)| <= 4)
  }

  lemma {:induction false} HeadersAppend(a: seq<ProductListItem>, b: seq<ProductListItem>)
    ensures Headers(a + b) == Headers(a) + Headers(b)
  {
    if a != [] {
      assert (a + b)[1..] == a[1..] + b;
      HeadersAppend(a[1..], b);
    } else {
      assert a + b == b;
    }
  }

  lemma {:induction false} ListedAppend(a: seq<ProductListItem>, b: seq<ProductListItem>)
    ensures Listed(a + b) == Listed(a) + Listed(b)
  {
    if a != [] {
      assert (a + b)[1..] == a[1..] + b;
      ListedAppend(a[1..], b);
    } else {
      assert a + b == b;
    }
  }

  lemma {:induction false} ProductItemsRead(ps: seq<Product>)
    ensures Headers(ProductItems(ps)) == []
    ensures Listed(ProductItems(ps)) == ps
  {
    if ps != [] {
      assert ProductItems(ps)[1..] == ProductItems(ps[1..]);
      ProductItemsRead(ps[1..]);
    }
  }

  /** A section is empty for a category without products; otherwise it
      holds exactly one header, of that category, followed by all its
      products (detail) or the first four in catalog order (browsing). */
  lemma SectionContents(c: Category, shown: seq<Product>, detail: bool)
    ensures InCategory(shown, c.id) == [] ==> Section(c, shown, detail) == []
    ensures Headers(Section(c, shown, detail)) == if InCategory(shown, c.id) == [] then [] else [c]
    ensures Listed(Section(c, shown, detail)) ==
              if detail then InCategory(shown, c.id) else Preview(InCategory(shown, c.id))
  {
    var inCat := InCategory(shown, c.id);
    if inCat != [] {
      var ps := if detail then inCat else Preview(inCat);
      var h := [CategoryHeader(c, detail || |inCat| <= 4)];
      HeadersAppend(h, ProductItems(ps));
      ListedAppend(h, ProductItems(ps));
      ProductItemsRead(ps);
    }
  }

  /** A section starts with its header, whose `isShowingAll` flag holds in
      the detail views and otherwise says the category has at most four
      products; it has no selector. */
  lemma SectionShape(c: Category, shown: seq<Product>, detail: bool)
    ensures InCategory(shown, c.id) != [] ==>
              Section(c, shown, detail)[0] == CategoryHeader(c, detail || |InCategory(shown, c.id)| <= 4)
    ensures NoSelector(Section(c, shown, detail))
    ensures FlagsAgree(Section(c, shown, detail), shown, detail)
  {
  }

  lemma NoSelectorAppend(a: seq<ProductListItem>, b: seq<ProductListItem>)
    requires NoSelector(a) && NoSelector(b)
    ensures NoSelector(a + b)
  {
    assert forall i :: 0 <= i < |b| ==> (a + b)[|a| + i] == b[i];
  }

  lemma FlagsAppend(a: seq<ProductListItem>, b: seq<ProductListItem>, shown: seq<Product>, detail: bool)
    requires FlagsAgree(a, shown, detail) && FlagsAgree(b, shown, detail)
    ensures FlagsAgree(a + b, shown, detail)
  {
    assert forall i :: 0 <= i < |b| ==> (a + b)[|a| + i] == b[i];
  }

  /** The sections hold the headers of exactly the categories with
      products, in category order. */
  lemma {:induction false} SectionsHeaders(cs: seq<Category>, shown: seq<Product>, detail: bool)
    ensures Headers(Sections(cs, shown, detail)) == NonEmptyCategories(cs, shown)
  {
    if cs != [] {
      SectionContents(cs[0], shown, detail);
      SectionsHeaders(cs[1..], shown, detail);
      HeadersAppend(Section(cs[0], shown, detail), Sections(cs[1..], shown, detail));
    }
  }

  /** No selector among the sections, and every header's flag agrees with
      its category's size. */
  lemma {:induction false} SectionsShape(cs: seq<Category>, shown: seq<Product>, detail: bool)
    ensures NoSelector(Sections(cs, shown, detail))
    ensures FlagsAgree(Sections(cs, shown, detail), shown, detail)
  {
    if cs != [] {
      var s, rest := Section(cs[0], shown, detail), Sections(cs[1..], shown, detail);
      SectionShape(cs[0], shown, detail);
      SectionsShape(cs[1..], shown, detail);
      NoSelectorAppend(s, rest);
      FlagsAppend(s, rest, shown, detail);
    }
  }

  /** The sections list only products of `shown`, each under a category of `cs`. */
  lemma {:induction false} SectionsListSound(cs: seq<Category>, shown: seq<Product>, detail: bool)
    ensures forall p :: p in Listed(Sections(cs, shown, detail)) ==>
              p in shown && exists c :: c in cs && c.id == p.categoryId
  {
    if cs != [] {
      var s, rest := Section(cs[0], shown, detail), Sections(cs[1..], shown, detail);
      SectionContents(cs[0], shown, detail);
      SectionsListSound(cs[1..], shown, detail);
      ListedAppend(s, rest);
      var inCat := InCategory(shown, cs[0].id);
      InCategoryMembers(shown, cs[0].id);
      assert forall p :: p in Listed(s) ==> p in inCat by {
        if !detail {
          assert Preview(inCat) == inCat[..|Preview(inCat)|];
        }
      }
      assert cs[0] in cs;
      assert forall c :: c in cs[1..] ==> c in cs;
    }
  }

  /** In the detail views every product of `shown` whose category is in
      `cs` is listed. */
  lemma {:induction false} SectionsListComplete(cs: seq<Category>, shown: seq<Product>)
    ensures forall p, c :: p in shown && c in cs && c.id == p.categoryId ==>
              p in Listed(Sections(cs, shown, true))
  {
    if cs != [] {
      var s, rest := Section(cs[0], shown, true), Sections(cs[1..], shown, true);
      SectionContents(cs[0], shown, true);
      SectionsListComplete(cs[1..], shown);
      ListedAppend(s, rest);
      InCategoryMembers(shown, cs[0].id);
      assert forall c :: c in cs ==> c == cs[0] || c in cs[1..];
    }
  }

  /** Filtering categories by the ids of the matched products keeps exactly
      the categories that have a matched product. */
  lemma {:induction false} CategoriesInMatchedIds(cs: seq<Category>, shown: seq<Product>)
    ensures CategoriesIn(cs, Distinct(CategoryIds(shown))) == NonEmptyCategories(cs, shown)
  {
    if cs != [] {
      CategoriesInMatchedIds(cs[1..], shown);
      var c := cs[0];
      var ids := CategoryIds(shown);
      InCategoryMembers(shown, c.id);
      assert c.id in Distinct(ids) <==> InCategory(shown, c.id) != [] by {
        if c.id in ids {
          var i :| 0 <= i < |ids| && ids[i] == c.id;
          assert shown[i] in InCategory(shown, c.id);
        }
        if InCategory(shown, c.id) != [] {
          var p := InCategory(shown, c.id)[0];
          assert p in shown;
          var i :| 0 <= i < |shown| && shown[i] == p;
          assert ids[i] == c.id;
        }
      }
    }
  }

  /** Keeping the non-empty categories twice is keeping them once. */
  lemma {:induction false} NonEmptyCategoriesIdempotent(cs: seq<Category>, shown: seq<Product>)
    ensures NonEmptyCategories(NonEmptyCategories(cs, shown), shown) == NonEmptyCategories(cs, shown)
  {
    if cs != [] {
      NonEmptyCategoriesIdempotent(cs[1..], shown);
      var rest := NonEmptyCategories(cs[1..], shown);
      if InCategory(shown, cs[0].id) != [] {
        assert ([cs[0]] + rest)[1..] == rest;
      } else {
        assert NonEmptyCategories(cs, shown) == rest;
      }
    }
  }

  // ---------------------------------------------------------------------
  // The three views

  /** In the category view the list is that category's section. */
  lemma CategoryFilterList(query: Option<string>, ps: seq<Product>, cats: seq<Category>, tab: Option<string>)
    requires IsDetailView(query) && FindCategory(cats, query.value).Some?
    ensures CategorizedProductList(query, ps, cats, tab) ==
              Section(FindCategory(cats, query.value).value, InCategory(ps, query.value), true)
  {
    var c := FindCategory(cats, query.value).value;
    var inC := InCategory(ps, query.value);
    assert Considered(query, ps, cats) == [c];
    assert Displayed(query, ps, cats) == inC;
    assert [c][1..] == [];
    assert Sections([c], inC, true) == Section(c, inC, true) + [];
  }

  /** A query equal to the id of a catalog category selects that category
      exactly (before any text matching): only its header can appear, it
      says "showing all", every product of the category is listed in
      catalog order and no other product is; no selector. */
  lemma CategoryFilterView(query: Option<string>, ps: seq<Product>, cats: seq<Category>, tab: Option<string>)
    requires IsDetailView(query) && FindCategory(cats, query.value).Some?
    ensures Listed(CategorizedProductList(query, ps, cats, tab)) == InCategory(ps, query.value)
    ensures forall p :: p in Listed(CategorizedProductList(query, ps, cats, tab)) ==> p.categoryId == query.value
    ensures Headers(CategorizedProductList(query, ps, cats, tab)) ==
              if InCategory(ps, query.value) == [] then [] else [FindCategory(cats, query.value).value]
    ensures NoSelector(CategorizedProductList(query, ps, cats, tab))
    ensures FlagsAgree(CategorizedProductList(query, ps, cats, tab), ps, true)
  {
    var c := FindCategory(cats, query.value).value;
    var inC := InCategory(ps, query.value);
    CategoryFilterList(query, ps, cats, tab);
    InCategoryIdempotent(ps, query.value);
    SectionContents(c, inC, true);
    SectionShape(c, inC, true);
    InCategoryMembers(ps, query.value);
  }

  lemma {:induction false} InCategoryIdempotent(ps: seq<Product>, cid: string)
    ensures InCategory(InCategory(ps, cid), cid) == InCategory(ps, cid)
  {
    if ps != [] {
      InCategoryIdempotent(ps[1..], cid);
      var rest := InCategory(ps[1..], cid);
      if ps[0].categoryId == cid {
        assert ([ps[0]] + rest)[1..] == rest;
      } else {
        assert InCategory(ps, cid) == rest;
      }
    }
  }

  /** Any other non-blank query: every listed product is a catalog product
      whose name or category name contains the query; every such product
      of a known category is listed; the headers are exactly the categories
      having a match, in catalog order, all showing all; no selector. */
  lemma TextSearchView(query: Option<string>, ps: seq<Product>, cats: seq<Category>, tab: Option<string>)
    requires IsDetailView(query) && FindCategory(cats, query.value).None?
    ensures forall p :: p in Listed(CategorizedProductList(query, ps, cats, tab)) ==>
              p in ps && TextMatch(p, query.value, cats)
    ensures forall p :: p in ps && TextMatch(p, query.value, cats) && FindCategory(cats, p.categoryId).Some? ==>
              p in Listed(CategorizedProductList(query, ps, cats, tab))
    ensures Headers(CategorizedProductList(query, ps, cats, tab)) ==
              NonEmptyCategories(cats, TextMatches(ps, query.value, cats))
    ensures NoSelector(CategorizedProductList(query, ps, cats, tab))
    ensures FlagsAgree(CategorizedProductList(query, ps, cats, tab), TextMatches(ps, query.value, cats), true)
  {
    var shown := TextMatches(ps, query.value, cats);
    var cs := CategoriesIn(cats, Distinct(CategoryIds(shown)));
    assert CategorizedProductList(query, ps, cats, tab) == Sections(cs, shown, true);
    CategoriesInMatchedIds(cats, shown);
    SectionsHeaders(cs, shown, true);
    SectionsShape(cs, shown, true);
    SectionsListSound(cs, shown, true);
    SectionsListComplete(cs, shown);
    NonEmptyCategoriesIdempotent(cats, shown);
    TextMatchesMembers(ps, query.value, cats);
    forall p | p in shown && FindCategory(cats, p.categoryId).Some?
      ensures exists c :: c in cs && c.id == p.categoryId
    {
      var c := FindCategory(cats, p.categoryId).value;
      InCategoryMembers(shown, c.id);
      assert p in InCategory(shown, c.id);
      NonEmptyCategoriesMembers(cats, shown);
      assert c in cs;
    }
  }

  /** No query (or a blank one): a single selector holding all categories
      and the tab comes first exactly when there are categories; then every
      category with products, in catalog order, with a header whose
      `isShowingAll` says it has at most four products. */
  lemma BrowseView(query: Option<string>, ps: seq<Product>, cats: seq<Category>, tab: Option<string>)
    requires !IsDetailView(query)
    ensures cats != [] ==>
              CategorizedProductList(query, ps, cats, tab)[0] == CategorySelectorItem(cats, tab) &&
              NoSelector(CategorizedProductList(query, ps, cats, tab)[1..])
    ensures cats == [] ==> CategorizedProductList(query, ps, cats, tab) == []
    ensures Headers(CategorizedProductList(query, ps, cats, tab)) == NonEmptyCategories(cats, ps)
    ensures FlagsAgree(CategorizedProductList(query, ps, cats, tab), ps, false)
    ensures forall p :: p in Listed(CategorizedProductList(query, ps, cats, tab)) ==> p in ps
  {
    var items := Sections(cats, ps, false);
    SectionsHeaders(cats, ps, false);
    SectionsShape(cats, ps, false);
    SectionsListSound(cats, ps, false);
    if cats != [] {
      var r := [CategorySelectorItem(cats, tab)] + items;
      assert r[1..] == items;
      HeadersAppend([CategorySelectorItem(cats, tab)], items);
      ListedAppend([CategorySelectorItem(cats, tab)], items);
      assert forall i :: 1 <= i < |r| ==> r[i] == items[i - 1];
    }
  }
}
