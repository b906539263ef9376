/**
 * The basket as a list of `BasketItem`s and the list transformations the
 * view model applies to it (the bodies of its `_basketItems.update { ... }`
 * blocks), plus the reconciliation of the remote basket in `loadBasket`.
 *
 * A basket is "well formed" when no product occurs twice and every quantity
 * is at least one; every operation here keeps that invariant.
 */
module Basket {
  import opened Options
  import opened Text
  import opened Seqs
  import opened Model
  import opened Recommend

  /** The predicate `{ it.product.id == id }` used by every lookup. */
  function IdIs(id: string): BasketItem -> bool {
    (it: BasketItem) => it.product.id == id
  }

  /** `indexOfFirst { it.product.id == id }` */
  function ItemIndex(b: seq<BasketItem>, id: string): int {
    FirstIndex(b, IdIs(id))
  }

  /** `any { it.product.id == id }` (isInBasket) */
  predicate InBasket(b: seq<BasketItem>, id: string) {
    exists i :: 0 <= i < |b| && b[i].product.id == id
  }

  /** `find { it.product.id == id }?.quantity ?: 0`: the quantity of the
      first item for the product, and 0 when there is none. */
  function QuantityOf(b: seq<BasketItem>, id: string): int {
    var k := ItemIndex(b, id);
    if k < 0 then 0 else b[k].quantity
  }

  predicate UniqueIds(b: seq<BasketItem>) {
    forall i, j :: 0 <= i < j < |b| ==> b[i].product.id != b[j].product.id
  }

  /** The basket invariant. */
  predicate WellFormed(b: seq<BasketItem>) {
    UniqueIds(b) && forall i :: 0 <= i < |b| ==> b[i].quantity >= 1
  }

  /** Same products in the same order (only quantities may differ). */
  predicate SameProducts(b: seq<BasketItem>, c: seq<BasketItem>) {
    |b| == |c| && forall i :: 0 <= i < |b| ==> b[i].product == c[i].product
  }

  // ---------------------------------------------------------------------
  // The update bodies

  /** `filterNot { it.product.id == id }` */
  function Remove(b: seq<BasketItem>, id: string): seq<BasketItem> {
    if b == [] then []
    else if b[0].product.id == id then Remove(b[1..], id)
    else [b[0]] + Remove(b[1..], id)
  }

  /** `set(existingItemIndex, item.copy(quantity = q))` on the first item of the product. */
  function SetAt(b: seq<BasketItem>, id: string, q: int): seq<BasketItem>
    requires ItemIndex(b, id) >= 0
  {
    var k := ItemIndex(b, id);
    b[k := b[k].(quantity := q)]
  }

  /** The update of `addProductToBasket` once the server accepted the add:
      the first item of the product grows by `n`, or a new item is appended. */
  function Add(b: seq<BasketItem>, product: Product, n: int): seq<BasketItem> {
    var k := ItemIndex(b, product.id);
    if k != -1 then SetAt(b, product.id, b[k].quantity + n)
    else b + [BasketItem(product, n)]
  }

  /** `decreaseBasketQuantity`: a product not in the basket leaves it alone;
      a quantity above `n` is lowered locally; otherwise the item is removed,
      but only when the server confirmed the delete. */
  function Decrease(b: seq<BasketItem>, id: string, n: int, deleteConfirmed: bool): seq<BasketItem> {
    var k := ItemIndex(b, id);
    if k == -1 then b
    else if b[k].quantity > n then SetAt(b, id, b[k].quantity - n)
    else if deleteConfirmed then Remove(b, id)
    else b
  }

  /** `updateBasketItemQuantity`: a positive quantity replaces the item's
      quantity, any other removes the product; an absent product changes nothing. */
  function SetQuantity(b: seq<BasketItem>, id: string, q: int): seq<BasketItem> {
    var k := ItemIndex(b, id);
    if k == -1 then b
    else if q > 0 then SetAt(b, id, q)
    else Remove(b, id)
  }

  // ---------------------------------------------------------------------
  // Lookups

  lemma InBasketIndex(b: seq<BasketItem>, id: string)
    ensures InBasket(b, id) <==> ItemIndex(b, id) >= 0
  {
    if InBasket(b, id) {
      var i :| 0 <= i < |b| && b[i].product.id == id;
      assert IdIs(id)(b[i]);
    }
  }

  /** `QuantityOf` is positive exactly for the products in a well-formed basket. */
  lemma {:induction false} QuantityPositiveIffInBasket(b: seq<BasketItem>, id: string)
    requires WellFormed(b)
    ensures QuantityOf(b, id) > 0 <==> InBasket(b, id)
  {
    InBasketIndex(b, id);
  }

  /** In a basket without duplicates, the item at any position determines the
      quantity of its product. */
  lemma QuantityAt(b: seq<BasketItem>, i: int)
    requires UniqueIds(b) && 0 <= i < |b|
    ensures ItemIndex(b, b[i].product.id) == i
    ensures QuantityOf(b, b[i].product.id) == b[i].quantity
  {
    FirstIndexIs(b, IdIs(b[i].product.id), i);
  }

  /** Changing the quantity of the first item of a product changes the
      quantity of that product only. */
  lemma QuantityAfterUpdate(b: seq<BasketItem>, k: int, q: int, x: string)
    requires 0 <= k < |b| && k == ItemIndex(b, b[k].product.id)
    ensures QuantityOf(b[k := b[k].(quantity := q)], x) ==
            if x == b[k].product.id then q else QuantityOf(b, x)
  {
    var c := b[k := b[k].(quantity := q)];
    assert forall j :: 0 <= j < |b| ==> c[j].product == b[j].product;
    FirstIndexIs(c, IdIs(x), ItemIndex(b, x));
  }

  /** Appending an item leaves the quantities of the products already present alone. */
  lemma QuantityAfterAppend(b: seq<BasketItem>, it: BasketItem, x: string)
    ensures QuantityOf(b + [it], x) ==
            if InBasket(b, x) then QuantityOf(b, x)
            else if it.product.id == x then it.quantity
            else 0
  {
    InBasketIndex(b, x);
    var c := b + [it];
    var k := ItemIndex(b, x);
    if k >= 0 {
      FirstIndexIs(c, IdIs(x), k);
    } else if it.product.id == x {
      FirstIndexIs(c, IdIs(x), |b|);
    } else {
      FirstIndexIs(c, IdIs(x), -1);
    }
  }

  lemma InBasketAfterUpdate(b: seq<BasketItem>, k: int, q: int)
    requires 0 <= k < |b|
    ensures SameProducts(b, b[k := b[k].(quantity := q)])
    ensures forall x :: InBasket(b[k := b[k].(quantity := q)], x) <==> InBasket(b, x)
  {
    var c := b[k := b[k].(quantity := q)];
    forall x ensures InBasket(c, x) <==> InBasket(b, x) {
      if InBasket(b, x) {
        var i :| 0 <= i < |b| && b[i].product.id == x;
        assert c[i].product.id == x;
      }
      if InBasket(c, x) {
        var i :| 0 <= i < |c| && c[i].product.id == x;
        assert b[i].product.id == x;
      }
    }
  }

  lemma WellFormedAfterUpdate(b: seq<BasketItem>, k: int, q: int)
    requires WellFormed(b) && 0 <= k < |b| && q >= 1
    ensures WellFormed(b[k := b[k].(quantity := q)])
  {
    var c := b[k := b[k].(quantity := q)];
    assert forall j :: 0 <= j < |b| ==> c[j].product == b[j].product;
  }

  /** Setting the quantity of a product in the basket changes that
      product's quantity and nothing else, and keeps a well-formed basket
      well formed when the new quantity is at least one. */
  lemma SetAtSpec(b: seq<BasketItem>, id: string, q: int)
    requires ItemIndex(b, id) >= 0
    ensures QuantityOf(SetAt(b, id, q), id) == q
    ensures forall x :: x != id ==> QuantityOf(SetAt(b, id, q), x) == QuantityOf(b, x)
    ensures SameProducts(b, SetAt(b, id, q))
    ensures forall x :: InBasket(SetAt(b, id, q), x) <==> InBasket(b, x)
    ensures WellFormed(b) && q >= 1 ==> WellFormed(SetAt(b, id, q))
  {
    var k := ItemIndex(b, id);
    forall x ensures QuantityOf(SetAt(b, id, q), x) == if x == id then q else QuantityOf(b, x) {
      QuantityAfterUpdate(b, k, q, x);
    }
    InBasketAfterUpdate(b, k, q);
    if WellFormed(b) && q >= 1 {
      WellFormedAfterUpdate(b, k, q);
    }
  }

  /** Appending an item for a product not yet in the basket adds that
      product with the item's quantity and changes nothing else. */
  lemma AppendSpec(b: seq<BasketItem>, it: BasketItem)
    requires !InBasket(b, it.product.id)
    ensures QuantityOf(b + [it], it.product.id) == it.quantity
    ensures forall x :: x != it.product.id ==> QuantityOf(b + [it], x) == QuantityOf(b, x)
    ensures InBasket(b + [it], it.product.id)
    ensures forall x :: x != it.product.id ==> (InBasket(b + [it], x) <==> InBasket(b, x))
    ensures WellFormed(b) && it.quantity >= 1 ==> WellFormed(b + [it])
  {
    var r := b + [it];
    forall x ensures QuantityOf(r, x) == if InBasket(b, x) then QuantityOf(b, x) else if it.product.id == x then it.quantity else 0 {
      QuantityAfterAppend(b, it, x);
    }
    forall x ensures !InBasket(b, x) ==> QuantityOf(b, x) == 0 {
      InBasketIndex(b, x);
    }
    assert r[|b|].product.id == it.product.id;
    forall x | x != it.product.id ensures InBasket(r, x) <==> InBasket(b, x) {
      if InBasket(r, x) {
        var i :| 0 <= i < |r| && r[i].product.id == x;
        assert b[i].product.id == x;
      }
      if InBasket(b, x) {
        var i :| 0 <= i < |b| && b[i].product.id == x;
        assert r[i].product.id == x;
      }
    }
    if WellFormed(b) && it.quantity >= 1 {
      forall i, j | 0 <= i < j < |r| ensures r[i].product.id != r[j].product.id {
        if j == |b| {
          assert r[i] == b[i];
        }
      }
    }
  }

  // ---------------------------------------------------------------------
  // The update bodies, against the quantities they promise

  lemma InBasketCons(a: BasketItem, t: seq<BasketItem>, x: string)
    ensures InBasket([a] + t, x) <==> a.product.id == x || InBasket(t, x)
  {
    var b := [a] + t;
    assert forall j :: 1 <= j < |b| ==> b[j] == t[j - 1];
    if InBasket(b, x) && a.product.id != x {
      var i :| 0 <= i < |b| && b[i].product.id == x;
      assert i >= 1 && t[i - 1].product.id == x;
    }
    if InBasket(t, x) {
      var i :| 0 <= i < |t| && t[i].product.id == x;
      assert b[i + 1].product.id == x;
    }
    if a.product.id == x {
      assert b[0].product.id == x;
    }
  }

  lemma QuantityCons(a: BasketItem, t: seq<BasketItem>, x: string)
    ensures ItemIndex([a] + t, x) ==
            if a.product.id == x then 0 else if ItemIndex(t, x) < 0 then -1 else ItemIndex(t, x) + 1
    ensures QuantityOf([a] + t, x) == if a.product.id == x then a.quantity else QuantityOf(t, x)
  {
    var b := [a] + t;
    var k := ItemIndex(t, x);
    if a.product.id == x {
      FirstIndexIs(b, IdIs(x), 0);
    } else {
      assert forall j :: 1 <= j < |b| ==> b[j] == t[j - 1];
      FirstIndexIs(b, IdIs(x), if k < 0 then -1 else k + 1);
    }
  }

  lemma UniqueIdsCons(a: BasketItem, t: seq<BasketItem>)
    ensures UniqueIds([a] + t) <==> UniqueIds(t) && !InBasket(t, a.product.id)
  {
    var b := [a] + t;
    assert forall j :: 1 <= j < |b| ==> b[j] == t[j - 1];
    if UniqueIds(b) {
      assert UniqueIds(t) by {
        forall i, j | 0 <= i < j < |t| ensures t[i].product.id != t[j].product.id {
          assert b[i + 1] == t[i] && b[j + 1] == t[j];
        }
      }
    }
    if InBasket(t, a.product.id) {
      var i :| 0 <= i < |t| && t[i].product.id == a.product.id;
      assert b[i + 1].product.id == b[0].product.id;
    }
    if UniqueIds(t) && !InBasket(t, a.product.id) {
      forall i, j | 0 <= i < j < |b| ensures b[i].product.id != b[j].product.id {
        if i == 0 {
          assert b[j] == t[j - 1];
        } else {
          assert b[i] == t[i - 1] && b[j] == t[j - 1];
        }
      }
    }
  }

  lemma {:induction false} RemoveQuantities(b: seq<BasketItem>, id: string)
    ensures !InBasket(Remove(b, id), id)
    ensures forall x :: x != id ==> QuantityOf(Remove(b, id), x) == QuantityOf(b, x)
    ensures forall x :: x != id ==> (InBasket(Remove(b, id), x) <==> InBasket(b, x))
  {
    if b != [] {
      var t := b[1..];
      assert b == [b[0]] + t;
      RemoveQuantities(t, id);
      forall x ensures (InBasket(b, x) <==> b[0].product.id == x || InBasket(t, x)) &&
                       QuantityOf(b, x) == (if b[0].product.id == x then b[0].quantity else QuantityOf(t, x)) &&
                       (InBasket([b[0]] + Remove(t, id), x) <==> b[0].product.id == x || InBasket(Remove(t, id), x)) &&
                       QuantityOf([b[0]] + Remove(t, id), x) ==
                         (if b[0].product.id == x then b[0].quantity else QuantityOf(Remove(t, id), x)) {
        InBasketCons(b[0], t, x);
        QuantityCons(b[0], t, x);
        InBasketCons(b[0], Remove(t, id), x);
        QuantityCons(b[0], Remove(t, id), x);
      }
    }
  }

  lemma {:induction false} RemoveAbsent(b: seq<BasketItem>, id: string)
    requires !InBasket(b, id)
    ensures Remove(b, id) == b
  {
    if b != [] {
      InBasketCons(b[0], b[1..], id);
      assert b == [b[0]] + b[1..];
      RemoveAbsent(b[1..], id);
    }
  }

  lemma {:induction false} RemoveWellFormed(b: seq<BasketItem>, id: string)
    requires WellFormed(b)
    ensures WellFormed(Remove(b, id))
  {
    if b != [] {
      var t := b[1..];
      assert b == [b[0]] + t;
      UniqueIdsCons(b[0], t);
      assert forall i :: 0 <= i < |t| ==> t[i] == b[i + 1];
      RemoveWellFormed(t, id);
      if b[0].product.id != id {
        var rt := Remove(t, id);
        RemoveQuantities(t, id);
        UniqueIdsCons(b[0], rt);
        assert forall i :: 1 <= i < |rt| + 1 ==> ([b[0]] + rt)[i] == rt[i - 1];
      }
    }
  }

  lemma {:induction false} RemoveOne(b: seq<BasketItem>, id: string)
    requires UniqueIds(b) && InBasket(b, id)
    ensures Remove(b, id) == b[..ItemIndex(b, id)] + b[ItemIndex(b, id) + 1..]
  {
    var t := b[1..];
    assert [b[0]] + t == b;
    UniqueIdsCons(b[0], t);
    InBasketCons(b[0], t, id);
    QuantityCons(b[0], t, id);
    if b[0].product.id == id {
      RemoveAbsent(t, id);
    } else {
      RemoveOne(t, id);
      var k := ItemIndex(t, id);
      calc {
        Remove(b, id);
        [b[0]] + Remove(t, id);
        [b[0]] + (t[..k] + t[k + 1..]);
        { assert b[..k + 1] == [b[0]] + t[..k]; assert b[k + 2..] == t[k + 1..]; }
        b[..k + 1] + b[k + 2..];
      }
    }
  }

  /** `filterNot` takes the product out, keeps every other product's quantity
      and presence, and in a well-formed basket removes exactly the one item
      of the product, keeping the order of the rest. */
  lemma RemoveSpec(b: seq<BasketItem>, id: string)
    ensures !InBasket(Remove(b, id), id)
    ensures forall x :: x != id ==> QuantityOf(Remove(b, id), x) == QuantityOf(b, x)
    ensures forall x :: x != id ==> (InBasket(Remove(b, id), x) <==> InBasket(b, x))
    ensures !InBasket(b, id) ==> Remove(b, id) == b
    ensures UniqueIds(b) && InBasket(b, id) ==>
              Remove(b, id) == b[..ItemIndex(b, id)] + b[ItemIndex(b, id) + 1..]
    ensures WellFormed(b) ==> WellFormed(Remove(b, id))
  {
    RemoveQuantities(b, id);
    if !InBasket(b, id) {
      RemoveAbsent(b, id);
    }
    if UniqueIds(b) && InBasket(b, id) {
      RemoveOne(b, id);
    }
    if WellFormed(b) {
      RemoveWellFormed(b, id);
    }
  }

  /** After a confirmed add, the product's quantity has grown by `n` and
      every other product's quantity is unchanged; a product already present
      keeps its place, a new one is appended; with `n >= 1` the basket stays
      well formed. */
  lemma AddSpec(b: seq<BasketItem>, product: Product, n: int)
    ensures QuantityOf(Add(b, product, n), product.id) == QuantityOf(b, product.id) + n
    ensures forall x :: x != product.id ==> QuantityOf(Add(b, product, n), x) == QuantityOf(b, x)
    ensures InBasket(Add(b, product, n), product.id)
    ensures forall x :: x != product.id ==> (InBasket(Add(b, product, n), x) <==> InBasket(b, x))
    ensures InBasket(b, product.id) ==> SameProducts(b, Add(b, product, n))
    ensures !InBasket(b, product.id) ==> Add(b, product, n) == b + [BasketItem(product, n)]
    ensures WellFormed(b) && n >= 1 ==> WellFormed(Add(b, product, n))
  {
    var id := product.id;
    var k := ItemIndex(b, id);
    InBasketIndex(b, id);
    if k != -1 {
      assert Add(b, product, n) == SetAt(b, id, b[k].quantity + n);
      SetAtSpec(b, id, b[k].quantity + n);
    } else {
      assert Add(b, product, n) == b + [BasketItem(product, n)];
      AppendSpec(b, BasketItem(product, n));
    }
  }

  /** `decreaseBasketQuantity` lowers the product's quantity by `n` when it
      has more than `n` units and leaves the rest of the basket alone; with
      `n` units or fewer it removes the product, only if the server confirmed
      the delete. The basket stays well formed. */
  lemma DecreaseSpec(b: seq<BasketItem>, id: string, n: int, deleteConfirmed: bool)
    ensures !InBasket(b, id) ==> Decrease(b, id, n, deleteConfirmed) == b
    ensures InBasket(b, id) && QuantityOf(b, id) > n ==>
              QuantityOf(Decrease(b, id, n, deleteConfirmed), id) == QuantityOf(b, id) - n &&
              SameProducts(b, Decrease(b, id, n, deleteConfirmed)) &&
              forall x :: x != id ==> QuantityOf(Decrease(b, id, n, deleteConfirmed), x) == QuantityOf(b, x)
    ensures InBasket(b, id) && QuantityOf(b, id) <= n ==>
              Decrease(b, id, n, deleteConfirmed) == if deleteConfirmed then Remove(b, id) else b
    ensures WellFormed(b) ==> WellFormed(Decrease(b, id, n, deleteConfirmed))
  {
    var k := ItemIndex(b, id);
    InBasketIndex(b, id);
    var r := Decrease(b, id, n, deleteConfirmed);
    if k == -1 {
      assert r == b;
    } else if b[k].quantity > n {
      assert r == SetAt(b, id, b[k].quantity - n);
      SetAtSpec(b, id, b[k].quantity - n);
    } else if deleteConfirmed {
      assert r == Remove(b, id);
      if WellFormed(b) {
        RemoveWellFormed(b, id);
      }
    } else {
      assert r == b;
    }
  }

  /** `updateBasketItemQuantity` sets the product's quantity to a positive
      `q` and leaves the rest alone, removes the product for any other `q`,
      and ignores a product not in the basket. The basket stays well formed. */
  lemma SetQuantitySpec(b: seq<BasketItem>, id: string, q: int)
    ensures !InBasket(b, id) ==> SetQuantity(b, id, q) == b
    ensures InBasket(b, id) && q > 0 ==>
              QuantityOf(SetQuantity(b, id, q), id) == q &&
              SameProducts(b, SetQuantity(b, id, q)) &&
              forall x :: x != id ==> QuantityOf(SetQuantity(b, id, q), x) == QuantityOf(b, x)
    ensures InBasket(b, id) && q <= 0 ==> SetQuantity(b, id, q) == Remove(b, id)
    ensures WellFormed(b) ==> WellFormed(SetQuantity(b, id, q))
  {
    var k := ItemIndex(b, id);
    InBasketIndex(b, id);
    var r := SetQuantity(b, id, q);
    if k == -1 {
      assert r == b;
    } else if q > 0 {
      assert r == SetAt(b, id, q);
      SetAtSpec(b, id, q);
    } else {
      assert r == Remove(b, id);
      if WellFormed(b) {
        RemoveWellFormed(b, id);
      }
    }
  }

  // ---------------------------------------------------------------------
  // loadBasket: counting the remote rows and resolving them in the catalog

  /** The basket `loadBasket` builds for the keys `keys` (in this order):
      one item per key whose decimal string is a catalog id, holding the
      number of rows with that key; keys not in the catalog are dropped. */
  function ItemsFor(keys: seq<Int32>, rows: seq<Int32>, catalog: seq<Product>): seq<BasketItem>
    decreases |keys|
  {
    if keys == [] then []
    else
      var init := ItemsFor(keys[..|keys| - 1], rows, catalog);
      var key := keys[|keys| - 1];
      match FindProduct(catalog, DecimalString(key))
      case None => init
      case Some(p) => init + [BasketItem(p, multiset(rows)[key])]
  }

  /** The local basket `loadBasket` derives from the remote rows (their
      `product_no`s): the keys of the counting map in insertion order, each
      resolved by its decimal string. */
  function Reconcile(rows: seq<Int32>, catalog: seq<Product>): seq<BasketItem> {
    ItemsFor(Distinct(rows), rows, catalog)
  }

  /** `counts` holds, for each `product_no` among `seen`, how many rows carry it. */
  ghost predicate Counted(counts: map<Int32, int>, seen: seq<Int32>) {
    (forall k :: k in counts <==> k in seen) &&
    (forall k :: k in counts ==> counts[k] == multiset(seen)[k])
  }

  /** One step of the counting loop: `productCounts[x] = getOrDefault(x, 0) + 1`. */
  lemma CountStep(counts: map<Int32, int>, seen: seq<Int32>, x: Int32)
    requires Counted(counts, seen)
    ensures Counted(counts[x := (if x in counts then counts[x] else 0) + 1], seen + [x])
  {
    assert multiset(seen + [x]) == multiset(seen) + multiset{x};
  }

  /** The same step appends `x` to the map's key order when it is new. */
  lemma KeyStep(keys: seq<Int32>, counts: map<Int32, int>, seen: seq<Int32>, x: Int32)
    requires keys == Distinct(seen) && Counted(counts, seen)
    ensures (if x in counts then keys else keys + [x]) == Distinct(seen + [x])
  {
    DistinctSnoc(seen, x);
  }

  /** The first loop of `loadBasket`: count the rows per `product_no` in an
      insertion-ordered map, modelled as its key list beside a map. */
  method CountRows(rows: seq<Int32>) returns (keys: seq<Int32>, counts: map<Int32, int>)
    ensures keys == Distinct(rows)
    ensures Counted(counts, rows)
  {
    keys, counts := [], map[];
    ghost var seen: seq<Int32> := [];
    for i := 0 to |rows|
      invariant seen == rows[..i]
      invariant keys == Distinct(seen)
      invariant Counted(counts, seen)
    {
      var x := rows[i];
      KeyStep(keys, counts, seen, x);
      CountStep(counts, seen, x);
      var current := if x in counts then counts[x] else 0;
      if x !in counts {
        keys := keys + [x];
      }
      counts := counts[x := current + 1];
      seen := seen + [x];
      assert seen == rows[..i + 1];
    }
    assert seen == rows;
  }

  /** The second loop of `loadBasket`: resolve each key in the catalog. */
  method ResolveCounts(keys: seq<Int32>, counts: map<Int32, int>, rows: seq<Int32>, catalog: seq<Product>)
    returns (items: seq<BasketItem>)
    requires forall i :: 0 <= i < |keys| ==> keys[i] in counts && counts[keys[i]] == multiset(rows)[keys[i]]
    ensures items == ItemsFor(keys, rows, catalog)
  {
    items := [];
    for j := 0 to |keys|
      invariant items == ItemsFor(keys[..j], rows, catalog)
    {
      assert keys[..j + 1][..j] == keys[..j];
      var found := FindProduct(catalog, DecimalString(keys[j]));
      if found.Some? {
        items := items + [BasketItem(found.value, counts[keys[j]])];
      }
    }
    assert keys[..|keys|] == keys;
  }

  /** `loadBasket` after a successful fetch with a non-empty catalog. */
  method Aggregate(rows: seq<Int32>, catalog: seq<Product>) returns (items: seq<BasketItem>)
    ensures items == Reconcile(rows, catalog)
  {
    var keys, counts := CountRows(rows);
    items := ResolveCounts(keys, counts, rows, catalog);
  }

  lemma {:induction false} ItemsForProvenance(keys: seq<Int32>, rows: seq<Int32>, catalog: seq<Product>)
    ensures forall i :: 0 <= i < |ItemsFor(keys, rows, catalog)| ==>
              ItemsFor(keys, rows, catalog)[i].product in catalog &&
              exists n :: n in keys && ItemsFor(keys, rows, catalog)[i].product.id == DecimalString(n)
  {
    if keys != [] {
      var keys', key := keys[..|keys| - 1], keys[|keys| - 1];
      assert keys == keys' + [key];
      ItemsForProvenance(keys', rows, catalog);
      var init := ItemsFor(keys', rows, catalog);
      if FindProduct(catalog, DecimalString(key)).Some? {
        var r := ItemsFor(keys, rows, catalog);
        assert r == init + [BasketItem(FindProduct(catalog, DecimalString(key)).value, multiset(rows)[key])];
        assert r[|init|].product.id == DecimalString(key);
        assert forall i :: 0 <= i < |init| ==> r[i] == init[i];
      }
    }
  }

  /** A key not among `keys` names no item of their basket. */
  lemma KeyNotInItems(keys: seq<Int32>, rows: seq<Int32>, catalog: seq<Product>, key: Int32)
    requires key !in keys
    ensures !InBasket(ItemsFor(keys, rows, catalog), DecimalString(key))
  {
    var init := ItemsFor(keys, rows, catalog);
    ItemsForProvenance(keys, rows, catalog);
    forall i | 0 <= i < |init| ensures init[i].product.id != DecimalString(key) {
      var m :| m in keys && init[i].product.id == DecimalString(m);
      DecimalStringInjective(m, key);
    }
  }

  lemma {:induction false} ItemsForQuantities(keys: seq<Int32>, rows: seq<Int32>, catalog: seq<Product>)
    requires Unique(keys)
    ensures forall n: Int32 :: FindProduct(catalog, DecimalString(n)).Some? ==>
              QuantityOf(ItemsFor(keys, rows, catalog), DecimalString(n)) ==
              if n in keys then multiset(rows)[n] else 0
  {
    if keys != [] {
      var keys', key := keys[..|keys| - 1], keys[|keys| - 1];
      assert keys == keys' + [key];
      assert forall n :: n in keys <==> n in keys' || n == key;
      ItemsForQuantities(keys', rows, catalog);
      var init := ItemsFor(keys', rows, catalog);
      if FindProduct(catalog, DecimalString(key)).Some? {
        var it := BasketItem(FindProduct(catalog, DecimalString(key)).value, multiset(rows)[key]);
        var r := init + [it];
        assert ItemsFor(keys, rows, catalog) == r;
        KeyNotInItems(keys', rows, catalog, key);
        forall n: Int32 | FindProduct(catalog, DecimalString(n)).Some?
          ensures QuantityOf(r, DecimalString(n)) == if n in keys then multiset(rows)[n] else 0
        {
          QuantityAfterAppend(init, it, DecimalString(n));
          InBasketIndex(init, DecimalString(n));
          DecimalStringInjective(n, key);
        }
      }
    }
  }

  lemma {:induction false} ItemsForWellFormed(keys: seq<Int32>, rows: seq<Int32>, catalog: seq<Product>)
    requires Unique(keys)
    requires forall i :: 0 <= i < |keys| ==> keys[i] in rows
    ensures WellFormed(ItemsFor(keys, rows, catalog))
  {
    if keys != [] {
      var keys', key := keys[..|keys| - 1], keys[|keys| - 1];
      assert keys == keys' + [key];
      assert forall i :: 0 <= i < |keys'| ==> keys'[i] == keys[i];
      ItemsForWellFormed(keys', rows, catalog);
      var init := ItemsFor(keys', rows, catalog);
      if FindProduct(catalog, DecimalString(key)).Some? {
        var it := BasketItem(FindProduct(catalog, DecimalString(key)).value, multiset(rows)[key]);
        var r := init + [it];
        assert ItemsFor(keys, rows, catalog) == r;
        KeyNotInItems(keys', rows, catalog, key);
        assert key in rows;
        forall i, j | 0 <= i < j < |r| ensures r[i].product.id != r[j].product.id {
          if j == |init| {
            assert r[i] == init[i];
          }
        }
      }
    }
  }

  /** `loadBasket` gives a well-formed basket of catalog products whose ids
      are decimal strings of remote rows, holding for every catalog product
      the number of remote rows naming it; rows naming no catalog product
      leave no trace. */
  lemma ReconcileSpec(rows: seq<Int32>, catalog: seq<Product>)
    ensures WellFormed(Reconcile(rows, catalog))
    ensures forall i :: 0 <= i < |Reconcile(rows, catalog)| ==>
              Reconcile(rows, catalog)[i].product in catalog &&
              exists n :: n in rows && Reconcile(rows, catalog)[i].product.id == DecimalString(n)
    ensures forall n: Int32 :: FindProduct(catalog, DecimalString(n)).Some? ==>
              QuantityOf(Reconcile(rows, catalog), DecimalString(n)) == multiset(rows)[n]
    ensures forall n: Int32 :: FindProduct(catalog, DecimalString(n)).None? ==>
              !InBasket(Reconcile(rows, catalog), DecimalString(n))
  {
    var d := Distinct(rows);
    assert forall n :: n in d <==> n in rows;
    ItemsForProvenance(d, rows, catalog);
    ItemsForQuantities(d, rows, catalog);
    ItemsForWellFormed(d, rows, catalog);
  }

  lemma {:induction false} ItemsForAllKnown(keys: seq<Int32>, rows: seq<Int32>, catalog: seq<Product>)
    requires forall n :: n in keys ==> FindProduct(catalog, DecimalString(n)).Some?
    ensures |ItemsFor(keys, rows, catalog)| == |keys|
    ensures forall i :: 0 <= i < |keys| ==> ItemsFor(keys, rows, catalog)[i].product.id == DecimalString(keys[i])
  {
    if keys != [] {
      var keys', key := keys[..|keys| - 1], keys[|keys| - 1];
      assert keys == keys' + [key];
      ItemsForAllKnown(keys', rows, catalog);
      var init := ItemsFor(keys', rows, catalog);
      var r := init + [BasketItem(FindProduct(catalog, DecimalString(key)).value, multiset(rows)[key])];
      assert ItemsFor(keys, rows, catalog) == r;
      forall i | 0 <= i < |keys| ensures r[i].product.id == DecimalString(keys[i]) {
        if i < |keys'| {
          assert r[i] == init[i] && keys[i] == keys'[i];
        }
      }
    }
  }

  /** When every remote row names a catalog product, the basket lists one
      item per distinct row, in the order the rows first name them. */
  lemma ReconcileAllKnown(rows: seq<Int32>, catalog: seq<Product>)
    requires forall n :: n in rows ==> FindProduct(catalog, DecimalString(n)).Some?
    ensures |Reconcile(rows, catalog)| == |Distinct(rows)|
    ensures forall i :: 0 <= i < |Distinct(rows)| ==>
              Reconcile(rows, catalog)[i].product.id == DecimalString(Distinct(rows)[i])
  {
    ItemsForAllKnown(Distinct(rows), rows, catalog);
  }

  lemma {:induction false} ItemsForKnownOrder(keys: seq<Int32>, rows: seq<Int32>, catalog: seq<Product>)
    ensures |ItemsFor(keys, rows, catalog)| == |KnownIds(keys, catalog)|
    ensures forall i :: 0 <= i < |KnownIds(keys, catalog)| ==>
              ItemsFor(keys, rows, catalog)[i].product.id == DecimalString(KnownIds(keys, catalog)[i])
  {
    if keys != [] {
      var keys', key := keys[..|keys| - 1], keys[|keys| - 1];
      assert keys == keys' + [key];
      ItemsForKnownOrder(keys', rows, catalog);
      KnownIdsSnoc(keys', key, catalog);
      var init, known := ItemsFor(keys', rows, catalog), KnownIds(keys', catalog);
      var found := FindProduct(catalog, DecimalString(key));
      if found.Some? {
        var r := init + [BasketItem(found.value, multiset(rows)[key])];
        assert ItemsFor(keys, rows, catalog) == r;
        assert KnownIds(keys, catalog) == known + [key];
        forall i | 0 <= i < |known| + 1 ensures r[i].product.id == DecimalString((known + [key])[i]) {
          if i < |known| {
            assert r[i] == init[i] && (known + [key])[i] == known[i];
          }
        }
      } else {
        assert ItemsFor(keys, rows, catalog) == init;
        assert KnownIds(keys, catalog) == known;
      }
    }
  }

  /** For any response, the basket lists one item per distinct row that
      names a catalog product, in the order the rows first name them; rows
      naming no catalog product are skipped without disturbing that order. */
  lemma ReconcileOrder(rows: seq<Int32>, catalog: seq<Product>)
    ensures |Reconcile(rows, catalog)| == |KnownIds(Distinct(rows), catalog)|
    ensures forall i :: 0 <= i < |KnownIds(Distinct(rows), catalog)| ==>
              Reconcile(rows, catalog)[i].product.id == DecimalString(KnownIds(Distinct(rows), catalog)[i])
  {
    ItemsForKnownOrder(Distinct(rows), rows, catalog);
  }
}
