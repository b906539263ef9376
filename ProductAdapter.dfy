/**
 * The pure parts of the product list adapter: the short label printed on a
 * product card, the view type of each list row, and the identity test the
 * list differ uses to match old rows with new ones.
 */
module ProductAdapter {
  import opened Options
  import opened Text
  import opened Model
  import opened ProductList

  const VIEW_TYPE_CATEGORY_SELECTOR := 0
  const VIEW_TYPE_HEADER := 1
  const VIEW_TYPE_PRODUCT := 2

  /** `getItemViewType`: one view type per kind of row. */
  function ViewType(item: ProductListItem): (r: int)
    ensures r == VIEW_TYPE_CATEGORY_SELECTOR <==> item.CategorySelectorItem?
    ensures r == VIEW_TYPE_HEADER <==> item.CategoryHeader?
    ensures r == VIEW_TYPE_PRODUCT <==> item.ProductItem?
  {
    match item
    case CategorySelectorItem(_, _) => VIEW_TYPE_CATEGORY_SELECTOR
    case CategoryHeader(_, _) => VIEW_TYPE_HEADER
    case ProductItem(_) => VIEW_TYPE_PRODUCT
  }

  /** The first word of a name is a number: non-blank and digits only. */
  predicate NumberWord(w: string) {
    !IsBlank(w) && AllDigits(w)
  }

  /** The text put on a product card before upper-casing (the `split(" ")`
      case analysis of `ProductViewHolder.bind`): a leading number keeps
      the word after it, up to 15 characters; otherwise the first word, up
      to 10. `split` never returns an empty list, so the `isNotEmpty` guard
      always holds. */
  function CardText(name: string): (r: string)
    ensures |r| <= 15
  {
    var words := SplitOn(name, ' ');
    var first := words[0];
    if NumberWord(first) then
      if |words| > 1 then Take(first + " " + words[1], 15) else Take(first, 10)
    else Take(first, 10)
  }

  /** The card label as displayed: the card text upper-cased. */
  function CardLabel(name: string): (r: string)
    ensures |r| <= 15
    ensures |r| == |CardText(name)|
  {
    Upper(CardText(name))
  }

  /** A prefix of a prefix is a prefix. */
  lemma TakePrefix(s: string, n: nat, t: string)
    requires s <= t
    ensures Take(s, n) <= t
  {
  }

  /** The card text is always the beginning of the name. It is at most 10
      characters, and holds no space, unless the name starts with a number
      followed by another word; then it is the number, one space and the
      beginning of the next word. */
  lemma CardTextSpec(name: string)
    ensures CardText(name) <= name
    ensures !(NumberWord(SplitOn(name, ' ')[0]) && |SplitOn(name, ' ')| > 1) ==>
              |CardText(name)| <= 10 && ' ' !in CardText(name)
    ensures NumberWord(SplitOn(name, ' ')[0]) && |SplitOn(name, ' ')| > 1 ==>
              CardText(name) == Take(SplitOn(name, ' ')[0] + " " + SplitOn(name, ' ')[1], 15)
  {
    var words := SplitOn(name, ' ');
    SplitPrefixes(name, ' ');
    TakePrefix(words[0], 10, name);
    if |words| > 1 {
      TakePrefix(words[0] + " " + words[1], 15, name);
    }
    assert ' ' !in words[0];
  }

  /** A name without spaces, a number or not, shows its first 10 characters. */
  lemma CardTextOneWord(name: string)
    requires ' ' !in name
    ensures CardText(name) == Take(name, 10)
  {
    SplitOnFree(name, ' ');
  }

  /** A name that is empty or starts with a space shows nothing. */
  lemma CardTextLeadingSpace(name: string)
    requires name == [] || name[0] == ' '
    ensures CardText(name) == ""
  {
    FirstPiece("", name, ' ');
  }

  /** A worked case: a pack size followed by the product name keeps both words. */
  lemma CardLabelExample()
    ensures CardLabel("500 g Milk") == "500 G"
  {
    var words := ["500", "g", "Milk"];
    assert Join(words, " ") == "500 g Milk" by {
      assert Join(words[2..], " ") == "Milk";
      assert Join(words[1..], " ") == "g Milk";
    }
    SplitOnJoin(words, ' ');
    assert NumberWord("500") by {
      assert !IsWhitespace('5');
    }
    assert Take("500" + " " + "g", 15) == "500 g";
    var t := "500 g";
    assert Upper(t) == [UpperChar(t[0]), UpperChar(t[1]), UpperChar(t[2]), UpperChar(t[3]), UpperChar(t[4])];
  }

  /** `areItemsTheSame`: selectors match on the selected id and the number of
      categories, headers on the category id and the show-all flag,
      products on the product id; rows of different kinds never match. */
  predicate AreItemsTheSame(a: ProductListItem, b: ProductListItem) {
    match (a, b)
    case (CategorySelectorItem(ca, sa), CategorySelectorItem(cb, sb)) => sa == sb && |ca| == |cb|
    case (CategoryHeader(ca, fa), CategoryHeader(cb, fb)) => ca.id == cb.id && fa == fb
    case (ProductItem(pa), ProductItem(pb)) => pa.id == pb.id
    case _ => false
  }

  /** `areContentsTheSame`: structural equality of the rows. */
  predicate AreContentsTheSame(a: ProductListItem, b: ProductListItem) {
    a == b
  }

  /** The identity test is an equivalence relation that only relates rows of
      one view type, and rows with equal contents are the same row, as the
      list differ requires. */
  lemma ItemsTheSameIsEquivalence(a: ProductListItem, b: ProductListItem, c: ProductListItem)
    ensures AreItemsTheSame(a, a)
    ensures AreItemsTheSame(a, b) ==> AreItemsTheSame(b, a)
    ensures AreItemsTheSame(a, b) && AreItemsTheSame(b, c) ==> AreItemsTheSame(a, c)
    ensures AreItemsTheSame(a, b) ==> ViewType(a) == ViewType(b)
    ensures AreContentsTheSame(a, b) ==> AreItemsTheSame(a, b)
  {
  }

  /** Two product rows are the same row exactly when their products share an id. */
  lemma ProductRowsSame(p: Product, q: Product)
    ensures AreItemsTheSame(ProductItem(p), ProductItem(q)) <==> p.id == q.id
  {
  }
}
