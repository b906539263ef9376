/**
 * The pure parts of the product detail screen: the label drawn over the
 * product image, the ingredients text, and the quantity controls driven by
 * the basket.
 */
module ProductDetail {
  import opened Options
  import opened Text
  import opened Model
  import opened Basket
  import opened ProductAdapter

  /** The label over the image before upper-casing: a leading number and the
      next word go on two lines when that fits in 20 characters, and are
      otherwise cut to 20 characters on one line; any other name shows its
      first word, up to 12 characters. */
  function DetailText(name: string): (r: string)
    ensures |r| <= 20
  {
    var words := SplitOn(name, ' ');
    var first := words[0];
    if NumberWord(first) then
      if |words| > 1 then
        var twoWords := first + "\n" + words[1];
        if |twoWords| <= 20 then twoWords else Take(first + " " + words[1], 20)
      else Take(first, 12)
    else Take(first, 12)
  }

  /** The label as displayed: the text upper-cased. */
  function DetailLabel(name: string): (r: string)
    ensures |r| <= 20
    ensures |r| == |DetailText(name)|
  {
    Upper(DetailText(name))
  }

  /** `r` is the beginning of `name`, except that the space after the first
      word `w` is shown as a line break. */
  predicate BrokenAfter(r: string, name: string, w: string) {
    |w| < |r| <= |name| &&
    r[..|w|] == name[..|w|] && r[|w|] == '\n' && name[|w|] == ' ' &&
    r[|w| + 1..] == name[|w| + 1..|r|]
  }

  /** The detail label is the beginning of the name, or the beginning with
      the first space turned into a line break when a leading number and the
      next word fit; apart from a leading number followed by another word it
      is at most 12 characters and holds no space. */
  lemma DetailTextSpec(name: string)
    ensures DetailText(name) <= name || BrokenAfter(DetailText(name), name, SplitOn(name, ' ')[0])
    ensures !(NumberWord(SplitOn(name, ' ')[0]) && |SplitOn(name, ' ')| > 1) ==>
              |DetailText(name)| <= 12 && ' ' !in DetailText(name)
    ensures NumberWord(SplitOn(name, ' ')[0]) && |SplitOn(name, ' ')| > 1 ==>
              var twoWords := SplitOn(name, ' ')[0] + "\n" + SplitOn(name, ' ')[1];
              (|twoWords| <= 20 ==> DetailText(name) == twoWords) &&
              (|twoWords| > 20 ==> DetailText(name) == Take(SplitOn(name, ' ')[0] + " " + SplitOn(name, ' ')[1], 20))
  {
    var words := SplitOn(name, ' ');
    var w := words[0];
    SplitPrefixes(name, ' ');
    TakePrefix(w, 12, name);
    assert ' ' !in w;
    if NumberWord(w) && |words| > 1 {
      var oneLine := w + " " + words[1];
      var twoWords := w + "\n" + words[1];
      if |twoWords| <= 20 {
        assert oneLine <= name;
        assert name[|w|] == oneLine[|w|] == ' ';
        assert twoWords[..|w|] == w == name[..|w|];
        assert twoWords[|w| + 1..] == words[1] == oneLine[|w| + 1..] == name[|w| + 1..|twoWords|];
        assert BrokenAfter(twoWords, name, w);
      } else {
        TakePrefix(oneLine, 20, name);
      }
    }
  }

  /** A name without spaces, a number or not, shows its first 12 characters. */
  lemma DetailTextOneWord(name: string)
    requires ' ' !in name
    ensures DetailText(name) == Take(name, 12)
  {
    SplitOnFree(name, ' ');
  }

  /** The ingredients shown on the detail screen: `None` selects the
      "no ingredients" text (no list, or an empty one); otherwise the
      ingredients joined with `", "`. */
  function IngredientsText(ingredients: Option<seq<string>>): (r: Option<string>)
    ensures r.None? <==> ingredients.None? || ingredients.value == []
  {
    if ingredients.None? || ingredients.value == [] then None
    else Some(Join(ingredients.value, ", "))
  }

  function TrimAll(parts: seq<string>): (r: seq<string>)
    ensures |r| == |parts| && forall k :: 0 <= k < |parts| ==> r[k] == Trim(parts[k])
  {
    seq(|parts|, k requires 0 <= k < |parts| => Trim(parts[k]))
  }

  lemma TrimPadded(pad: string, x: string)
    requires pad == "" || pad == " "
    requires Trimmed(x)
    ensures Trim(pad + x) == x
  {
    if pad == "" {
      assert pad + x == x;
      TrimTrimmed(x);
    } else {
      TrimSpaced(x);
    }
  }

  lemma TrimAllCons(x: string, parts: seq<string>)
    ensures TrimAll([x] + parts) == [Trim(x)] + TrimAll(parts)
  {
  }

  lemma TrimAllOne(x: string)
    ensures TrimAll([x]) == [Trim(x)]
  {
  }

  lemma JoinCommaSpace(pad: string, xs: seq<string>)
    requires |xs| >= 2
    ensures pad + Join(xs, ", ") == (pad + xs[0]) + [','] + (" " + Join(xs[1..], ", "))
  {
  }

  lemma SplitIngredientsOne(pad: string, x: string)
    requires pad == "" || pad == " "
    requires ',' !in x && Trimmed(x)
    ensures TrimAll(SplitOn(pad + Join([x], ", "), ',')) == [x]
  {
    assert Join([x], ", ") == x;
    assert ',' !in pad + x;
    SplitOnFree(pad + x, ',');
    TrimAllOne(pad + x);
    TrimPadded(pad, x);
  }

  lemma SplitIngredientsStep(pad: string, x: string, rest: seq<string>)
    requires pad == "" || pad == " "
    requires rest != []
    requires ',' !in x && Trimmed(x)
    requires TrimAll(SplitOn(" " + Join(rest, ", "), ',')) == rest
    ensures TrimAll(SplitOn(pad + Join([x] + rest, ", "), ',')) == [x] + rest
  {
    var head := pad + x;
    var tail := " " + Join(rest, ", ");
    assert ',' !in head;
    assert pad + Join([x] + rest, ", ") == head + [','] + tail by {
      JoinCommaSpace(pad, [x] + rest);
      assert ([x] + rest)[1..] == rest;
    }
    SplitOnCons(head, tail, ',');
    TrimAllCons(head, SplitOn(tail, ','));
    TrimPadded(pad, x);
  }

  lemma {:induction false} SplitIngredients(pad: string, xs: seq<string>)
    requires pad == "" || pad == " "
    requires |xs| >= 1
    requires forall k :: 0 <= k < |xs| ==> ',' !in xs[k] && Trimmed(xs[k])
    ensures TrimAll(SplitOn(pad + Join(xs, ", "), ',')) == xs
    decreases |xs|
  {
    if |xs| == 1 {
      assert xs == [xs[0]];
      SplitIngredientsOne(pad, xs[0]);
    } else {
      SplitIngredients(" ", xs[1..]);
      SplitIngredientsStep(pad, xs[0], xs[1..]);
      assert xs == [xs[0]] + xs[1..];
    }
  }

  /** The ingredients line reads back: splitting it at the commas and
      trimming gives the ingredients again, whenever they are trimmed and
      free of commas, as the loader produces them. */
  lemma IngredientsTextRoundTrip(xs: seq<string>)
    requires xs != []
    requires forall k :: 0 <= k < |xs| ==> ',' !in xs[k] && Trimmed(xs[k])
    ensures IngredientsText(Some(xs)).Some?
    ensures TrimAll(SplitOn(IngredientsText(Some(xs)).value, ',')) == xs
  {
    SplitIngredients("", xs);
    assert "" + Join(xs, ", ") == Join(xs, ", ");
  }

  /** What `updateQuantityUI` shows: the quantity selector (with the number)
      and an enabled decrease button for a positive quantity, the initial
      add button otherwise; `quantityText` is `None` where the text is left
      as it was. */
  datatype QuantityControls = QuantityControls(selectorVisible: bool, addButtonVisible: bool,
                                               decreaseEnabled: bool, quantityText: Option<string>)

  function QuantityUI(quantity: int): (r: QuantityControls)
    ensures r.selectorVisible <==> quantity > 0
    ensures r.addButtonVisible <==> !r.selectorVisible
    ensures r.decreaseEnabled <==> r.selectorVisible
    ensures r.quantityText.Some? <==> r.selectorVisible
  {
    if quantity > 0 then QuantityControls(true, false, true, Some(DecimalString(quantity)))
    else QuantityControls(false, true, false, None)
  }

  /** The controls for the basket's quantity of the product: the selector
      shows exactly when the product is in the basket, and its number is
      the basket quantity written in decimal, so it reads back as that
      quantity. */
  lemma DetailQuantityControls(b: seq<BasketItem>, productId: string)
    requires WellFormed(b)
    requires QuantityOf(b, productId) < 0x8000_0000
    ensures QuantityUI(QuantityOf(b, productId)).selectorVisible <==> InBasket(b, productId)
    ensures InBasket(b, productId) ==>
              ToInt(QuantityUI(QuantityOf(b, productId)).quantityText.value) == Some(QuantityOf(b, productId))
  {
    QuantityPositiveIffInBasket(b, productId);
    var q := QuantityOf(b, productId);
    if q > 0 {
      ToIntOfDecimalString(q);
    }
  }
}
