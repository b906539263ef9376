/**
 * Turning the integer ids a recommendation endpoint returns into catalog
 * products: `ids.mapNotNull { id -> allProds.find { it.id == id.toString() } }`,
 * guarded by the failure and empty-catalog cases of the three refreshes.
 */
module Recommend {
  import opened Options
  import opened Text
  import opened Model

  /** The ids whose decimal string is the id of some catalog product, in order. */
  function KnownIds(ids: seq<Int32>, catalog: seq<Product>): (r: seq<Int32>)
    ensures |r| <= |ids|
    ensures forall n :: n in r <==> n in ids && FindProduct(catalog, DecimalString(n)).Some?
  {
    if ids == [] then []
    else
      var rest := KnownIds(ids[1..], catalog);
      assert ids == [ids[0]] + ids[1..];
      if FindProduct(catalog, DecimalString(ids[0])).Some? then [ids[0]] + rest else rest
  }

  /** `mapNotNull` of the first-match lookup. */
  function Resolve(ids: seq<Int32>, catalog: seq<Product>): seq<Product> {
    if ids == [] then []
    else
      var rest := Resolve(ids[1..], catalog);
      match FindProduct(catalog, DecimalString(ids[0]))
      case None => rest
      case Some(p) => [p] + rest
  }

  /** The resolved list has one product per known id, in the order of the
      ids, and each is the first catalog product carrying that id. */
  lemma {:induction false} ResolveKeepsOrder(ids: seq<Int32>, catalog: seq<Product>)
    ensures |Resolve(ids, catalog)| == |KnownIds(ids, catalog)|
    ensures forall i :: 0 <= i < |Resolve(ids, catalog)| ==>
              Some(Resolve(ids, catalog)[i]) == FindProduct(catalog, DecimalString(KnownIds(ids, catalog)[i]))
  {
    if ids != [] {
      var rest := ids[1..];
      ResolveKeepsOrder(rest, catalog);
      var found := FindProduct(catalog, DecimalString(ids[0]));
      var r, k := Resolve(rest, catalog), KnownIds(rest, catalog);
      if found.Some? {
        assert Resolve(ids, catalog) == [found.value] + r;
        assert KnownIds(ids, catalog) == [ids[0]] + k;
      } else {
        assert Resolve(ids, catalog) == r;
        assert KnownIds(ids, catalog) == k;
      }
    }
  }

  /** Filtering one more id at the end adds it exactly when it is known. */
  lemma {:induction false} KnownIdsSnoc(ids: seq<Int32>, x: Int32, catalog: seq<Product>)
    ensures KnownIds(ids + [x], catalog) ==
              KnownIds(ids, catalog) + (if FindProduct(catalog, DecimalString(x)).Some? then [x] else [])
  {
    if ids == [] {
      assert ids + [x] == [x];
      assert [x][1..] == [];
    } else {
      assert (ids + [x])[0] == ids[0];
      assert (ids + [x])[1..] == ids[1..] + [x];
      KnownIdsSnoc(ids[1..], x, catalog);
    }
  }

  lemma {:induction false} KnownIdsEmptyCatalog(ids: seq<Int32>)
    ensures KnownIds(ids, []) == []
  {
    if ids != [] {
      KnownIdsEmptyCatalog(ids[1..]);
    }
  }

  /** Every resolved product is a catalog product. */
  lemma ResolveFromCatalog(ids: seq<Int32>, catalog: seq<Product>)
    ensures forall i :: 0 <= i < |Resolve(ids, catalog)| ==> Resolve(ids, catalog)[i] in catalog
  {
    ResolveKeepsOrder(ids, catalog);
  }

  /** When every id is known, nothing is dropped: the i-th product answers the i-th id. */
  lemma AllKnownResolve(ids: seq<Int32>, catalog: seq<Product>)
    requires forall n :: n in ids ==> FindProduct(catalog, DecimalString(n)).Some?
    ensures |Resolve(ids, catalog)| == |ids|
    ensures forall i :: 0 <= i < |ids| ==> Some(Resolve(ids, catalog)[i]) == FindProduct(catalog, DecimalString(ids[i]))
  {
    AllKnownIds(ids, catalog);
    ResolveKeepsOrder(ids, catalog);
  }

  lemma {:induction false} AllKnownIds(ids: seq<Int32>, catalog: seq<Product>)
    requires forall n :: n in ids ==> FindProduct(catalog, DecimalString(n)).Some?
    ensures KnownIds(ids, catalog) == ids
  {
    if ids != [] {
      assert ids == [ids[0]] + ids[1..];
      AllKnownIds(ids[1..], catalog);
    }
  }

  /** What a refresh stores for an endpoint response: nothing after a
      non-success response or an exception (`None`), nothing with an empty
      catalog, and otherwise the products of the known ids in the order of
      the response. A missing body counts as no ids. */
  function Refresh(response: Option<seq<Int32>>, catalog: seq<Product>): (r: seq<Product>)
    ensures response.None? || catalog == [] ==> r == []
    ensures response.Some? ==>
              |r| == |KnownIds(response.value, catalog)| &&
              forall i :: 0 <= i < |r| ==>
                Some(r[i]) == FindProduct(catalog, DecimalString(KnownIds(response.value, catalog)[i]))
  {
    if response.None? then []
    else if catalog == [] then
      KnownIdsEmptyCatalog(response.value);
      []
    else
      ResolveKeepsOrder(response.value, catalog);
      Resolve(response.value, catalog)
  }

  /** A worked case: ids 5, 7 and 99 against a catalog holding "5" and "7"
      give those two products in that order; 99 is dropped. */
  lemma ResolveExample(a: Product, b: Product)
    requires a.id == "5" && b.id == "7"
    ensures Resolve([5, 7, 99], [a, b]) == [a, b]
  {
    var c := [a, b];
    assert DecimalString(5) == "5" && DecimalString(7) == "7";
    assert Digits(99) == Digits(9) + [DigitChar(9)];
    assert DecimalString(99) == "99";
    assert c[0].id == "5" && c[1].id == "7" && "5" != "7";
    assert FindProduct(c, "5") == Some(a);
    assert FindProduct(c, "7") == Some(b);
    assert "99" != "5" && "99" != "7";
    assert FindProduct(c, "99") == None;
    assert [99][1..] == [];
    assert Resolve([99], c) == [];
    assert [7, 99][1..] == [99];
    assert Resolve([7, 99], c) == [b];
    assert [5, 7, 99][1..] == [7, 99];
  }
}
