/**
 * The catalog loader (`DataSource`): reads the product file line by line,
 * skips the header, turns every line with at least four tokens into a
 * product, interns category names as ids `cat1`, `cat2`, ... in order of
 * first appearance, seeds two demo purchases, and answers id lookups.
 *
 * The file is given as its lines; `None` stands for an `IOException`, after
 * which the loader keeps nothing.
 */
module Catalog {
  import opened Options
  import opened Text
  import opened Seqs
  import opened Model
  import opened Csv
  import opened Basket

  /** The four fields read from an accepted line: id, name, ingredients, category name. */
  datatype Row = Row(productId: string, name: string, ingredients: string, category: string)

  /** The row of one data line, when it has at least four tokens. */
  function RowOf(line: string): Option<Row> {
    var tokens := LineTokens(line);
    if |tokens| >= 4 then Some(Row(tokens[0], tokens[1], tokens[2], tokens[3])) else None
  }

  /** The accepted rows of the data lines, in file order. */
  function Rows(data: seq<string>): seq<Row> {
    if data == [] then []
    else
      Rows(data[..|data| - 1]) + match RowOf(data[|data| - 1]) { case Some(r) => [r] case None => [] }
  }

  /** The lines after the header. */
  function DataLines(lines: seq<string>): seq<string> {
    if lines == [] then [] else lines[1..]
  }

  function CategoryNames(rows: seq<Row>): (r: seq<string>)
    ensures |r| == |rows| && forall i :: 0 <= i < |rows| ==> r[i] == rows[i].category
  {
    seq(|rows|, i requires 0 <= i < |rows| => rows[i].category)
  }

  /** The id of the k-th interned category, counting from 0: `"cat${k + 1}"`. */
  function CategoryId(k: nat): string {
    "cat" + DecimalString(k + 1)
  }

  /** Every row's category is among `names`. */
  predicate Covered(rows: seq<Row>, names: seq<string>) {
    forall i :: 0 <= i < |rows| ==> rows[i].category in names
  }

  function ProductOf(r: Row, names: seq<string>): Product
    requires r.category in names
  {
    Product(r.productId, r.name, CategoryId(IndexOf(names, r.category)), Some(ParseIngredients(Some(r.ingredients))))
  }

  function ProductsOf(rows: seq<Row>, names: seq<string>): (r: seq<Product>)
    requires Covered(rows, names)
    ensures |r| == |rows| && forall i :: 0 <= i < |rows| ==> r[i] == ProductOf(rows[i], names)
  {
    seq(|rows|, i requires 0 <= i < |rows| => ProductOf(rows[i], names))
  }

  function CategoriesOf(names: seq<string>): (r: seq<Category>)
    ensures |r| == |names| && forall k :: 0 <= k < |names| ==> r[k] == Category(CategoryId(k), names[k])
  {
    seq(|names|, k requires 0 <= k < |names| => Category(CategoryId(k), names[k]))
  }

  lemma CoveredByNames(rows: seq<Row>)
    ensures Covered(rows, Distinct(CategoryNames(rows)))
  {
    var cn := CategoryNames(rows);
    forall i | 0 <= i < |rows| ensures rows[i].category in Distinct(cn) {
      assert cn[i] in cn;
    }
  }

  /** The interned category names, in order of first appearance. */
  function Names(file: Option<seq<string>>): seq<string> {
    if file.None? then [] else Distinct(CategoryNames(Rows(DataLines(file.value))))
  }

  /** `products` after loading `file`. */
  function LoadedProducts(file: Option<seq<string>>): (r: seq<Product>)
    ensures file.None? ==> r == []
  {
    if file.None? then []
    else
      var rows := Rows(DataLines(file.value));
      CoveredByNames(rows);
      ProductsOf(rows, Distinct(CategoryNames(rows)))
  }

  /** `categories` after loading `file`. */
  function LoadedCategories(file: Option<seq<string>>): (r: seq<Category>)
    ensures file.None? ==> r == []
  {
    CategoriesOf(Names(file))
  }

  // ---------------------------------------------------------------------
  // The loading loop

  lemma RowsSnoc(data: seq<string>, i: int)
    requires 0 <= i < |data|
    ensures Rows(data[..i + 1]) ==
              Rows(data[..i]) + match RowOf(data[i]) { case Some(r) => [r] case None => [] }
  {
    assert data[..i + 1][..i] == data[..i];
  }

  /** Growing the name list keeps the ids already handed out. */
  lemma ProductsOfGrow(rows: seq<Row>, names: seq<string>, x: string)
    requires Covered(rows, names)
    ensures Covered(rows, names + [x])
    ensures ProductsOf(rows, names + [x]) == ProductsOf(rows, names)
  {
    forall i | 0 <= i < |rows| ensures IndexOf(names + [x], rows[i].category) == IndexOf(names, rows[i].category) {
      IndexOfAppend(names, x, rows[i].category);
    }
  }

  lemma ProductsOfSnoc(rows: seq<Row>, r: Row, names: seq<string>)
    requires Covered(rows, names) && r.category in names
    ensures Covered(rows + [r], names)
    ensures ProductsOf(rows + [r], names) == ProductsOf(rows, names) + [ProductOf(r, names)]
  {
  }

  /** The category table after interning `names`: `idOf` maps exactly
      those names, the k-th to `cat(k+1)`, and the counter is the next number. */
  ghost predicate Interned(names: seq<string>, idOf: map<string, string>, counter: int) {
    counter == |names| + 1 &&
    (forall n :: n in idOf <==> n in names) &&
    (forall k :: 0 <= k < |names| ==> idOf[names[k]] == CategoryId(k))
  }

  /** The state of the loop after the first `i` data lines. */
  ghost predicate LoopState(data: seq<string>, i: int, products: seq<Product>, names: seq<string>,
                            idOf: map<string, string>, counter: int)
    requires 0 <= i <= |data|
  {
    names == Distinct(CategoryNames(Rows(data[..i]))) &&
    Interned(names, idOf, counter) &&
    Covered(Rows(data[..i]), names) &&
    products == ProductsOf(Rows(data[..i]), names)
  }

  lemma RowsAccept(data: seq<string>, i: int, r: Row)
    requires 0 <= i < |data| && RowOf(data[i]) == Some(r)
    ensures Rows(data[..i + 1]) == Rows(data[..i]) + [r]
    ensures CategoryNames(Rows(data[..i + 1])) == CategoryNames(Rows(data[..i])) + [r.category]
  {
    RowsSnoc(data, i);
    CategoryNamesSnoc(Rows(data[..i]), r);
  }

  lemma CategoryNamesSnoc(rows: seq<Row>, r: Row)
    ensures CategoryNames(rows + [r]) == CategoryNames(rows) + [r.category]
  {
  }

  lemma InternedKnown(names: seq<string>, idOf: map<string, string>, counter: int, x: string)
    requires Interned(names, idOf, counter) && x in idOf
    ensures x in names && idOf[x] == CategoryId(IndexOf(names, x))
  {
    var k := IndexOf(names, x);
    assert idOf[names[k]] == CategoryId(k);
  }

  lemma InternedKeys(names: seq<string>, idOf: map<string, string>, x: string, id: string)
    requires forall n :: n in idOf <==> n in names
    ensures forall n :: n in idOf[x := id] <==> n in names + [x]
  {
  }

  lemma InternedIds(names: seq<string>, idOf: map<string, string>, x: string)
    requires x !in names
    requires forall k :: 0 <= k < |names| ==> names[k] in idOf && idOf[names[k]] == CategoryId(k)
    ensures forall k :: 0 <= k < |names| + 1 ==>
              (names + [x])[k] in idOf[x := CategoryId(|names|)] &&
              idOf[x := CategoryId(|names|)][(names + [x])[k]] == CategoryId(k)
  {
    var names' := names + [x];
    forall k | 0 <= k < |names| ensures names'[k] == names[k] && names[k] != x {
    }
  }

  /** `getOrPut` of a new name: it gets the counter's id and the counter moves on. */
  lemma InternedNew(names: seq<string>, idOf: map<string, string>, counter: int, x: string)
    requires Interned(names, idOf, counter) && x !in idOf
    ensures x !in names
    ensures IndexOf(names + [x], x) == |names|
    ensures "cat" + DecimalString(counter) == CategoryId(|names|)
    ensures Interned(names + [x], idOf[x := "cat" + DecimalString(counter)], counter + 1)
  {
    IndexOfNew(names, x);
    InternedKeys(names, idOf, x, CategoryId(|names|));
    InternedIds(names, idOf, x);
  }

  /** An accepted line whose category name is already interned adds its
      product with the stored id. */
  lemma LoopStepKnown(data: seq<string>, i: int, products: seq<Product>, names: seq<string>,
                      idOf: map<string, string>, counter: int, r: Row)
    requires 0 <= i < |data| && LoopState(data, i, products, names, idOf, counter)
    requires RowOf(data[i]) == Some(r) && r.category in idOf
    ensures LoopState(data, i + 1,
                      products + [Product(r.productId, r.name, idOf[r.category], Some(ParseIngredients(Some(r.ingredients))))],
                      names, idOf, counter)
  {
    var rows := Rows(data[..i]);
    RowsAccept(data, i, r);
    DistinctSnoc(CategoryNames(rows), r.category);
    InternedKnown(names, idOf, counter, r.category);
    assert Distinct(CategoryNames(rows + [r])) == names;
    ProductsOfSnoc(rows, r, names);
  }

  /** An accepted line with a new category name interns it as the next
      `cat` id and adds its product with that id. */
  lemma LoopStepNew(data: seq<string>, i: int, products: seq<Product>, names: seq<string>,
                    idOf: map<string, string>, counter: int, r: Row)
    requires 0 <= i < |data| && LoopState(data, i, products, names, idOf, counter)
    requires RowOf(data[i]) == Some(r) && r.category !in idOf
    ensures LoopState(data, i + 1,
                      products + [Product(r.productId, r.name, "cat" + DecimalString(counter), Some(ParseIngredients(Some(r.ingredients))))],
                      names + [r.category], idOf[r.category := "cat" + DecimalString(counter)], counter + 1)
  {
    var rows := Rows(data[..i]);
    var names' := names + [r.category];
    RowsAccept(data, i, r);
    InternedNew(names, idOf, counter, r.category);
    DistinctSnoc(CategoryNames(rows), r.category);
    assert Distinct(CategoryNames(rows + [r])) == names';
    ProductsOfGrow(rows, names, r.category);
    ProductsOfSnoc(rows, r, names');
    assert ProductOf(r, names') ==
             Product(r.productId, r.name, "cat" + DecimalString(counter), Some(ParseIngredients(Some(r.ingredients))));
    assert ProductsOf(rows + [r], names') == products + [ProductOf(r, names')];
  }

  /** `tempCategoryMap.map { Category(id = it.value, name = it.key) }`, in
      insertion order. */
  function CategoryTable(names: seq<string>, idOf: map<string, string>): seq<Category>
    requires forall n :: n in names ==> n in idOf
  {
    seq(|names|, k requires 0 <= k < |names| => Category(idOf[names[k]], names[k]))
  }

  /** The category list built from the table is the interned one. */
  lemma CategoriesFromTable(names: seq<string>, idOf: map<string, string>, counter: int)
    requires Interned(names, idOf, counter)
    ensures CategoryTable(names, idOf) == CategoriesOf(names)
  {
  }

  lemma LoopSkip(data: seq<string>, i: int, products: seq<Product>, names: seq<string>,
                 idOf: map<string, string>, counter: int)
    requires 0 <= i < |data| && LoopState(data, i, products, names, idOf, counter)
    requires RowOf(data[i]).None?
    ensures LoopState(data, i + 1, products, names, idOf, counter)
  {
    RowsSnoc(data, i);
    assert Rows(data[..i + 1]) == Rows(data[..i]);
  }

  /** The loop state over all data lines is the loaded catalog. */
  lemma LoopDone(file: Option<seq<string>>, products: seq<Product>, names: seq<string>,
                 idOf: map<string, string>, counter: int)
    requires file.Some?
    requires LoopState(DataLines(file.value), |DataLines(file.value)|, products, names, idOf, counter)
    ensures products == LoadedProducts(file)
    ensures forall n :: n in names ==> n in idOf
    ensures CategoryTable(names, idOf) == LoadedCategories(file)
  {
    var data := DataLines(file.value);
    assert data[..|data|] == data;
    CategoriesFromTable(names, idOf, counter);
  }

  /** One pass of the loop body: split the line, and when it has at least
      four tokens, `getOrPut` its category name and add its product. */
  method LoadLine(data: seq<string>, i: int, products: seq<Product>, names: seq<string>,
                  idOf: map<string, string>, counter: int)
    returns (products': seq<Product>, names': seq<string>, idOf': map<string, string>, counter': int)
    requires 0 <= i < |data| && LoopState(data, i, products, names, idOf, counter)
    ensures LoopState(data, i + 1, products', names', idOf', counter')
  {
    var tokens := LineTokens(data[i]);
    if |tokens| < 4 {
      LoopSkip(data, i, products, names, idOf, counter);
      return products, names, idOf, counter;
    }
    var r := Row(tokens[0], tokens[1], tokens[2], tokens[3]);
    var categoryId: string;
    if r.category in idOf {
      LoopStepKnown(data, i, products, names, idOf, counter, r);
      categoryId := idOf[r.category];
      names', idOf', counter' := names, idOf, counter;
    } else {
      LoopStepNew(data, i, products, names, idOf, counter, r);
      categoryId := "cat" + DecimalString(counter);
      names', idOf', counter' := names + [r.category], idOf[r.category := categoryId], counter + 1;
    }
    products' := products + [Product(r.productId, r.name, categoryId, Some(ParseIngredients(Some(r.ingredients))))];
  }

  /** `loadProductsAndCategoriesFromCsv` */
  method LoadProductsAndCategoriesFromCsv(file: Option<seq<string>>)
    returns (products: seq<Product>, categories: seq<Category>)
    ensures products == LoadedProducts(file) && categories == LoadedCategories(file)
  {
    if file.None? {
      return [], [];
    }
    var data := DataLines(file.value);
    var tempProducts: seq<Product> := [];
    var names: seq<string> := [];
    var tempCategoryMap: map<string, string> := map[];
    var categoryCounter := 1;
    var i := 0;
    assert data[..0] == [];
    while i < |data|
      invariant 0 <= i <= |data|
      invariant LoopState(data, i, tempProducts, names, tempCategoryMap, categoryCounter)
    {
      tempProducts, names, tempCategoryMap, categoryCounter :=
        LoadLine(data, i, tempProducts, names, tempCategoryMap, categoryCounter);
      i := i + 1;
    }
    LoopDone(file, tempProducts, names, tempCategoryMap, categoryCounter);
    products := tempProducts;
    categories := CategoryTable(names, tempCategoryMap);
  }

  // ---------------------------------------------------------------------
  // What a load gives

  lemma CategoryIdInjective(j: nat, k: nat)
    ensures CategoryId(j) == CategoryId(k) ==> j == k
  {
    if CategoryId(j) == CategoryId(k) {
      assert CategoryId(j)[3..] == DecimalString(j + 1);
      assert CategoryId(k)[3..] == DecimalString(k + 1);
      DecimalStringInjective(j + 1, k + 1);
    }
  }

  /** The k-th category in the loaded list has id `cat(k+1)` and the k-th
      distinct name; names, and hence ids, are all different. After an I/O
      failure there are none. */
  lemma InterningSpec(file: Option<seq<string>>)
    ensures file.None? ==> LoadedCategories(file) == []
    ensures forall k :: 0 <= k < |LoadedCategories(file)| ==>
              LoadedCategories(file)[k] == Category("cat" + DecimalString(k + 1), Names(file)[k])
    ensures Unique(Names(file))
    ensures forall j, k :: 0 <= j < k < |LoadedCategories(file)| ==>
              LoadedCategories(file)[j].id != LoadedCategories(file)[k].id
  {
    forall j, k | 0 <= j < k < |LoadedCategories(file)|
      ensures LoadedCategories(file)[j].id != LoadedCategories(file)[k].id
    {
      CategoryIdInjective(j, k);
    }
  }

  /** The interned names are the distinct category fields of the accepted
      rows, in order of first appearance. */
  lemma NamesFirstAppearance(file: Option<seq<string>>)
    requires file.Some?
    ensures forall n :: n in Names(file) <==> n in CategoryNames(Rows(DataLines(file.value)))
    ensures forall i, j :: 0 <= i < j < |Names(file)| ==>
              IndexOf(CategoryNames(Rows(DataLines(file.value))), Names(file)[i]) <
              IndexOf(CategoryNames(Rows(DataLines(file.value))), Names(file)[j])
  {
    DistinctKeepsFirstOccurrenceOrder(CategoryNames(Rows(DataLines(file.value))));
  }

  /** Products keep the order of the accepted rows; two products share a
      category id exactly when their rows name the same category, and each
      product's category id finds the category of that name. */
  lemma LoadedProductsSpec(file: Option<seq<string>>)
    requires file.Some?
    ensures |LoadedProducts(file)| == |Rows(DataLines(file.value))|
    ensures forall i :: 0 <= i < |LoadedProducts(file)| ==>
              LoadedProducts(file)[i].id == Rows(DataLines(file.value))[i].productId &&
              LoadedProducts(file)[i].name == Rows(DataLines(file.value))[i].name
    ensures forall i, j :: 0 <= i < |LoadedProducts(file)| && 0 <= j < |LoadedProducts(file)| ==>
              (LoadedProducts(file)[i].categoryId == LoadedProducts(file)[j].categoryId <==>
               Rows(DataLines(file.value))[i].category == Rows(DataLines(file.value))[j].category)
    ensures forall i :: 0 <= i < |LoadedProducts(file)| ==>
              FindCategory(LoadedCategories(file), LoadedProducts(file)[i].categoryId) ==
                Some(Category(LoadedProducts(file)[i].categoryId, Rows(DataLines(file.value))[i].category))
  {
    var rows := Rows(DataLines(file.value));
    var names := Names(file);
    var ps, cs := LoadedProducts(file), LoadedCategories(file);
    CoveredByNames(rows);
    InterningSpec(file);
    forall i, j | 0 <= i < |ps| && 0 <= j < |ps|
      ensures ps[i].categoryId == ps[j].categoryId <==> rows[i].category == rows[j].category
    {
      CategoryIdInjective(IndexOf(names, rows[i].category), IndexOf(names, rows[j].category));
    }
    forall i | 0 <= i < |ps|
      ensures FindCategory(cs, ps[i].categoryId) == Some(Category(ps[i].categoryId, rows[i].category))
    {
      var k := IndexOf(names, rows[i].category);
      assert cs[k] == Category(ps[i].categoryId, rows[i].category);
      var found := FindCategory(cs, ps[i].categoryId);
      assert found.Some?;
      var m :| 0 <= m < |cs| && cs[m] == found.value;
      assert m == k;
    }
  }

  /** Every loaded product's category id is the id of some loaded category. */
  predicate AllResolve(ps: seq<Product>, cats: seq<Category>) {
    forall i :: 0 <= i < |ps| ==> FindCategory(cats, ps[i].categoryId).Some?
  }

  lemma LoadedResolve(file: Option<seq<string>>)
    ensures AllResolve(LoadedProducts(file), LoadedCategories(file))
  {
    if file.Some? {
      LoadedProductsSpec(file);
    }
  }

  /** The product list does not depend on the header line. */
  lemma HeaderSkipped(h1: string, h2: string, rest: seq<string>)
    ensures LoadedProducts(Some([h1] + rest)) == LoadedProducts(Some([h2] + rest))
    ensures LoadedCategories(Some([h1] + rest)) == LoadedCategories(Some([h2] + rest))
  {
    assert DataLines([h1] + rest) == rest == DataLines([h2] + rest);
  }

  // ---------------------------------------------------------------------
  // Seeded history and grouping

  /** One day in milliseconds. */
  const DayMillis := 86400000

  /** `initializePastPurchases`, with the two UUIDs and the two clock reads
      (`now1` for the first record, `now2`, read later, for the second) as
      parameters. */
  function SeededHistory(ps: seq<Product>, firstId: string, secondId: string, now1: int, now2: int): seq<PurchaseHistory> {
    if |ps| >= 2 then
      [PurchaseHistory(firstId, now1 - DayMillis * 7, [BasketItem(ps[0], 2), BasketItem(ps[1], 1)]),
       PurchaseHistory(secondId, now2 - DayMillis * 2, if |ps| >= 3 then [BasketItem(ps[2], 5)] else [])]
    else []
  }

  /** Two records exactly when there are two products: first two units of
      the first product and one of the second, a week before the first
      clock read; then five units of the third product, if any, two days
      before the second read, so at least five days later. With distinct
      first product ids both records are well-formed baskets. */
  lemma SeededHistorySpec(ps: seq<Product>, firstId: string, secondId: string, now1: int, now2: int)
    ensures |ps| < 2 ==> SeededHistory(ps, firstId, secondId, now1, now2) == []
    ensures |ps| >= 2 ==>
              var h := SeededHistory(ps, firstId, secondId, now1, now2);
              |h| == 2 &&
              h[0].items == [BasketItem(ps[0], 2), BasketItem(ps[1], 1)] &&
              QuantityOf(h[0].items, ps[0].id) == 2 &&
              (ps[1].id != ps[0].id ==> QuantityOf(h[0].items, ps[1].id) == 1) &&
              (|ps| >= 3 ==> h[1].items == [BasketItem(ps[2], 5)]) &&
              (|ps| == 2 ==> h[1].items == []) &&
              h[0].purchaseDate == now1 - 7 * DayMillis &&
              h[1].purchaseDate == now2 - 2 * DayMillis &&
              (now1 <= now2 ==> h[1].purchaseDate - h[0].purchaseDate >= 5 * DayMillis)
    ensures |ps| >= 2 && ps[0].id != ps[1].id ==>
              forall k :: 0 <= k < 2 ==> WellFormed(SeededHistory(ps, firstId, secondId, now1, now2)[k].items)
  {
    if |ps| >= 2 {
      var b := [BasketItem(ps[0], 2), BasketItem(ps[1], 1)];
      assert FirstIndex(b, IdIs(ps[0].id)) == 0;
      if ps[1].id != ps[0].id {
        assert !IdIs(ps[1].id)(b[0]);
        assert FirstIndex(b, IdIs(ps[1].id)) == 1;
        QuantityAt(b, 0);
        QuantityAt(b, 1);
      }
      if |ps| >= 3 {
        var c := [BasketItem(ps[2], 5)];
        assert WellFormed(c);
      }
    }
  }

  /** The category a product belongs to. */
  function CategoryFor(cats: seq<Category>, p: Product): Category
    requires FindCategory(cats, p.categoryId).Some?
  {
    FindCategory(cats, p.categoryId).value
  }

  /** The products of one category, in catalog order. */
  function GroupOf(ps: seq<Product>, cats: seq<Category>, c: Category): seq<Product>
    requires AllResolve(ps, cats)
  {
    if ps == [] then []
    else (if CategoryFor(cats, ps[0]) == c then [ps[0]] else []) + GroupOf(ps[1..], cats, c)
  }

  /** `products.groupBy { category of it }`: the categories in order of
      first use, each with its products. */
  function GroupByCategory(ps: seq<Product>, cats: seq<Category>): seq<(Category, seq<Product>)>
    requires AllResolve(ps, cats)
  {
    var used := seq(|ps|, i requires 0 <= i < |ps| => CategoryFor(cats, ps[i]));
    var keys := Distinct(used);
    seq(|keys|, j requires 0 <= j < |keys| => (keys[j], GroupOf(ps, cats, keys[j])))
  }

  lemma {:induction false} GroupOfMembers(ps: seq<Product>, cats: seq<Category>, c: Category)
    requires AllResolve(ps, cats)
    ensures forall p :: p in GroupOf(ps, cats, c) <==> p in ps && FindCategory(cats, p.categoryId) == Some(c)
  {
    if ps != [] {
      var rest := GroupOf(ps[1..], cats, c);
      GroupOfMembers(ps[1..], cats, c);
      assert forall p :: p in ps <==> p == ps[0] || p in ps[1..];
      if CategoryFor(cats, ps[0]) == c {
        assert GroupOf(ps, cats, c) == [ps[0]] + rest;
      } else {
        assert GroupOf(ps, cats, c) == rest;
      }
    }
  }

  /** The groups have distinct categories. */
  lemma GroupKeysDistinct(ps: seq<Product>, cats: seq<Category>)
    requires AllResolve(ps, cats)
    ensures forall i, j :: 0 <= i < j < |GroupByCategory(ps, cats)| ==>
              GroupByCategory(ps, cats)[i].0 != GroupByCategory(ps, cats)[j].0
  {
    var used := seq(|ps|, i requires 0 <= i < |ps| => CategoryFor(cats, ps[i]));
    assert Unique(Distinct(used));
  }

  /** Each group is non-empty and holds exactly the products of its category. */
  lemma GroupMembers(ps: seq<Product>, cats: seq<Category>)
    requires AllResolve(ps, cats)
    ensures forall j, p :: 0 <= j < |GroupByCategory(ps, cats)| ==>
              (p in GroupByCategory(ps, cats)[j].1 <==>
                 p in ps && FindCategory(cats, p.categoryId) == Some(GroupByCategory(ps, cats)[j].0))
    ensures forall j :: 0 <= j < |GroupByCategory(ps, cats)| ==> GroupByCategory(ps, cats)[j].1 != []
  {
    var used := seq(|ps|, i requires 0 <= i < |ps| => CategoryFor(cats, ps[i]));
    var keys := Distinct(used);
    var g := GroupByCategory(ps, cats);
    forall j | 0 <= j < |g|
      ensures forall p :: p in g[j].1 <==> p in ps && FindCategory(cats, p.categoryId) == Some(g[j].0)
      ensures g[j].1 != []
    {
      assert g[j] == (keys[j], GroupOf(ps, cats, keys[j]));
      GroupOfMembers(ps, cats, keys[j]);
      assert keys[j] in used;
      var i :| 0 <= i < |ps| && used[i] == keys[j];
      assert ps[i] in g[j].1;
    }
  }

  /** Every product is in some group. */
  lemma GroupCovers(ps: seq<Product>, cats: seq<Category>)
    requires AllResolve(ps, cats)
    ensures forall i :: 0 <= i < |ps| ==>
              exists j :: 0 <= j < |GroupByCategory(ps, cats)| && GroupByCategory(ps, cats)[j].0 == CategoryFor(cats, ps[i])
  {
    var used := seq(|ps|, i requires 0 <= i < |ps| => CategoryFor(cats, ps[i]));
    var keys := Distinct(used);
    var g := GroupByCategory(ps, cats);
    forall i | 0 <= i < |ps|
      ensures exists j :: 0 <= j < |g| && g[j].0 == CategoryFor(cats, ps[i])
    {
      assert used[i] in keys;
      var j :| 0 <= j < |keys| && keys[j] == used[i];
      assert g[j].0 == CategoryFor(cats, ps[i]);
    }
  }

  // ---------------------------------------------------------------------
  // The loader object

  class DataSource {
    var products: seq<Product>
    var categories: seq<Category>
    var pastPurchases: seq<PurchaseHistory>
    /** Whether the `lateinit` lists have been set. */
    var initialized: bool

    /** Once loaded, every product's category can be found. */
    predicate Valid()
      reads this
    {
      initialized ==> AllResolve(products, categories)
    }

    constructor()
      ensures !initialized && products == [] && categories == [] && pastPurchases == []
      ensures Valid()
    {
      products := [];
      categories := [];
      pastPurchases := [];
      initialized := false;
    }

    /** `init`: loads once; later calls keep what is loaded. */
    method Init(file: Option<seq<string>>, firstId: string, secondId: string, now1: int, now2: int)
      requires Valid()
      modifies this
      ensures old(initialized) ==>
                initialized && products == old(products) && categories == old(categories) &&
                pastPurchases == old(pastPurchases)
      ensures !old(initialized) ==>
                initialized && products == LoadedProducts(file) && categories == LoadedCategories(file) &&
                pastPurchases == SeededHistory(products, firstId, secondId, now1, now2)
      ensures Valid()
    {
      if initialized {
        return;
      }
      products, categories := LoadProductsAndCategoriesFromCsv(file);
      initialized := true;
      LoadedResolve(file);
      pastPurchases := SeededHistory(products, firstId, secondId, now1, now2);
    }

    /** `getProductById`: nothing before loading, else the first product with the id. */
    function GetProductById(id: string): (r: Option<Product>)
      reads this
      ensures r.None? <==> !initialized || forall k :: 0 <= k < |products| ==> products[k].id != id
      ensures r.Some? ==> r.value in products && r.value.id == id
    {
      if !initialized then None else FindProduct(products, id)
    }

    /** `getCategoryById`: nothing before loading, else the first category with the id. */
    function GetCategoryById(id: string): (r: Option<Category>)
      reads this
      ensures r.None? <==> !initialized || forall k :: 0 <= k < |categories| ==> categories[k].id != id
      ensures r.Some? ==> r.value in categories && r.value.id == id
    {
      if !initialized then None else FindCategory(categories, id)
    }

    /** `getProductsByCategory`: empty before loading. */
    function GetProductsByCategory(): (r: seq<(Category, seq<Product>)>)
      reads this
      requires Valid()
      ensures !initialized ==> r == []
      ensures initialized ==> forall j, p :: 0 <= j < |r| ==>
                (p in r[j].1 <==> p in products && FindCategory(categories, p.categoryId) == Some(r[j].0))
    {
      if !initialized then []
      else
        GroupMembers(products, categories);
        GroupByCategory(products, categories)
    }
  }
}
