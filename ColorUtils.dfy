/**
 * `CategoryColorUtil`: gives each category a (background, text) colour
 * pair, memoised per category id, taking the six palette entries in turn.
 * Colours are the ARGB values `Color.parseColor` gives for the palette's
 * `#RRGGBB` literals (opaque, so the alpha byte is `FF`), written as
 * unsigned 32-bit numbers.
 */
module ColorUtils {
  import opened Seqs

  datatype ColorPair = ColorPair(background: int, text: int)

  /** `colorPairs`: green, blue, yellow, pink, purple, teal. */
  const Palette: seq<ColorPair> := [
    ColorPair(0xFFE8F5E9, 0xFF1B5E20),
    ColorPair(0xFFE3F2FD, 0xFF0D47A1),
    ColorPair(0xFFFFFDE7, 0xFFF57F17),
    ColorPair(0xFFFCE4EC, 0xFF880E4F),
    ColorPair(0xFFEDE7F6, 0xFF311B92),
    ColorPair(0xFFE0F2F1, 0xFF004D40)
  ]

  /** `defaultColorPair`: gray. */
  const DefaultPair := ColorPair(0xFFECEFF1, 0xFF263238)

  /** `colorPairs.getOrElse(index) { defaultColorPair }` */
  function PairAt(index: int): (r: ColorPair)
    ensures 0 <= index < |Palette| ==> r == Palette[index]
    ensures !(0 <= index < |Palette|) ==> r == DefaultPair
  {
    if 0 <= index < |Palette| then Palette[index] else DefaultPair
  }

  /** The pair handed to the request with counter value `n`. */
  function PairFor(n: nat): ColorPair {
    PairAt(n % |Palette|)
  }

  /** The default pair is never handed out, the pairs cycle with period six,
      and six consecutive requests get six different pairs. */
  lemma PairForSpec(n: nat, m: nat)
    ensures PairFor(n) != DefaultPair
    ensures PairFor(n) in Palette
    ensures PairFor(n + |Palette|) == PairFor(n)
    ensures n < m < n + |Palette| ==> PairFor(n) != PairFor(m)
  {
    assert PairFor(n) == Palette[n % 6];
    assert (n + 6) % 6 == n % 6;
    if n < m < n + 6 {
      assert n % 6 != m % 6;
      assert PairFor(m) == Palette[m % 6];
    }
  }

  /** The memo table after the requests `requested` (in order of first
      request): one entry per requested id, the k-th holding the pair of
      counter value k, and the counter equal to the number of entries. */
  ghost predicate Assigned(m: map<string, ColorPair>, counter: nat, requested: seq<string>) {
    counter == |requested| == |m| &&
    Unique(requested) &&
    (forall id :: id in m <==> id in requested) &&
    (forall k :: 0 <= k < |requested| ==> requested[k] in m && m[requested[k]] == PairFor(k))
  }

  /** A new id extends the table with the pair at the counter. */
  lemma AssignNew(m: map<string, ColorPair>, counter: nat, requested: seq<string>, id: string)
    requires Assigned(m, counter, requested) && id !in m
    ensures Assigned(m[id := PairFor(counter)], counter + 1, requested + [id])
  {
    UniqueSnoc(requested, id);
    AssignNewKeys(m, requested, id, PairFor(counter));
    AssignNewPairs(m, requested, id);
  }

  lemma AssignNewKeys(m: map<string, ColorPair>, requested: seq<string>, id: string, pair: ColorPair)
    requires forall x :: x in m <==> x in requested
    ensures forall x :: x in m[id := pair] <==> x in requested + [id]
  {
  }

  lemma AssignNewPairs(m: map<string, ColorPair>, requested: seq<string>, id: string)
    requires id !in requested
    requires forall k :: 0 <= k < |requested| ==> requested[k] in m && m[requested[k]] == PairFor(k)
    ensures forall k :: 0 <= k < |requested| + 1 ==>
              (requested + [id])[k] in m[id := PairFor(|requested|)] &&
              m[id := PairFor(|requested|)][(requested + [id])[k]] == PairFor(k)
  {
    var r := requested + [id];
    forall k | 0 <= k < |requested| ensures r[k] == requested[k] && requested[k] != id {
    }
  }

  class CategoryColorUtil {
    var categoryColorMap: map<string, ColorPair>
    var nextColorIndex: nat
    /** The category ids in the order of their first request. */
    ghost var requested: seq<string>

    /** The map holds one entry per id requested so far; the k-th id
        requested got the pair of counter value k, and the counter is the
        number of entries. */
    ghost predicate Valid()
      reads this
    {
      Assigned(categoryColorMap, nextColorIndex, requested)
    }

    constructor()
      ensures Valid() && categoryColorMap == map[] && nextColorIndex == 0
    {
      categoryColorMap := map[];
      nextColorIndex := 0;
      requested := [];
    }

    /** `getColorsForCategory`: the stored pair of a known id; a new id takes
        the pair at the counter and moves the counter on. */
    method GetColorsForCategory(categoryId: string) returns (pair: ColorPair)
      requires Valid()
      modifies this
      ensures Valid()
      ensures categoryId in categoryColorMap && pair == categoryColorMap[categoryId]
      ensures pair == PairFor(IndexOf(requested, categoryId))
      ensures categoryId in old(categoryColorMap) ==>
                pair == old(categoryColorMap)[categoryId] &&
                categoryColorMap == old(categoryColorMap) && nextColorIndex == old(nextColorIndex) &&
                requested == old(requested)
      ensures categoryId !in old(categoryColorMap) ==>
                pair == PairFor(old(nextColorIndex)) &&
                categoryColorMap == old(categoryColorMap)[categoryId := pair] &&
                nextColorIndex == old(nextColorIndex) + 1 &&
                requested == old(requested) + [categoryId]
    {
      if categoryId in categoryColorMap {
        pair := categoryColorMap[categoryId];
        var k := IndexOf(requested, categoryId);
        assert categoryColorMap[requested[k]] == PairFor(k);
        return;
      }
      AssignNew(categoryColorMap, nextColorIndex, requested, categoryId);
      IndexOfNew(requested, categoryId);
      pair := PairAt(nextColorIndex % |Palette|);
      nextColorIndex := nextColorIndex + 1;
      categoryColorMap := categoryColorMap[categoryId := pair];
      requested := requested + [categoryId];
    }
  }

  /** Two requested categories share a colour pair exactly when their
      positions in the order of first request differ by a multiple of six;
      in particular the seventh category gets the first one's pair. */
  lemma SharedColors(u: CategoryColorUtil, j: nat, k: nat)
    requires u.Valid() && j < |u.requested| && k < |u.requested|
    ensures u.categoryColorMap[u.requested[j]] == u.categoryColorMap[u.requested[k]] <==> j % 6 == k % 6
  {
    assert u.categoryColorMap[u.requested[j]] == Palette[j % 6];
    assert u.categoryColorMap[u.requested[k]] == Palette[k % 6];
  }
}
