/**
 * The line format of the product file: a line is split at the commas that
 * lie outside double quotes (those followed by an even number of `"` up to
 * the end of the line), each token is trimmed and loses one pair of
 * surrounding quotes; the ingredients field is a `/`-separated list.
 */
module Csv {
  import opened Options
  import opened Text

  /** The number of `"` characters in `s`. */
  function QuoteCount(s: string): nat {
    if s == [] then 0 else (if s[0] == '"' then 1 else 0) + QuoteCount(s[1..])
  }

  lemma {:induction false} QuoteCountAppend(a: string, b: string)
    ensures QuoteCount(a + b) == QuoteCount(a) + QuoteCount(b)
  {
    if a == [] {
      assert a + b == b;
    } else {
      assert (a + b)[1..] == a[1..] + b;
      QuoteCountAppend(a[1..], b);
    }
  }

  lemma {:induction false} QuoteFree(s: string)
    requires '"' !in s
    ensures QuoteCount(s) == 0
  {
    if s != [] {
      assert s[0] in s;
      QuoteFree(s[1..]);
    }
  }

  /** The split `,(?=(?:[^"]*"[^"]*")*[^"]*$)`: the pieces between the
      commas followed by an even number of quotes, empty pieces included. */
  function Tokens(s: string): (r: seq<string>)
    ensures |r| >= 1
  {
    if s == [] then [""]
    else
      var rest := Tokens(s[1..]);
      if s[0] == ',' && QuoteCount(s[1..]) % 2 == 0 then [""] + rest
      else [[s[0]] + rest[0]] + rest[1..]
  }

  /** Every comma of `t` is followed, within `t`, by an odd number of quotes:
      inside a quoted section. */
  predicate CommasQuoted(t: string) {
    forall j :: 0 <= j < |t| && t[j] == ',' ==> QuoteCount(t[j + 1..]) % 2 == 1
  }

  /** A field that the split keeps whole: its commas are quoted and its
      quotes are balanced. */
  predicate Field(t: string) {
    CommasQuoted(t) && QuoteCount(t) % 2 == 0
  }

  /** Joining the tokens with commas gives back the line. */
  lemma {:induction false} JoinTokens(s: string)
    ensures Join(Tokens(s), [',']) == s
  {
    if s != [] {
      var rest := Tokens(s[1..]);
      JoinTokens(s[1..]);
      if s[0] == ',' && QuoteCount(s[1..]) % 2 == 0 {
        assert ([""] + rest)[1..] == rest;
      } else if |rest| > 1 {
        assert ([[s[0]] + rest[0]] + rest[1..])[1..] == rest[1..];
      }
    }
  }

  /** Without quotes every comma splits. */
  lemma {:induction false} TokensWithoutQuotes(s: string)
    requires '"' !in s
    ensures Tokens(s) == SplitOn(s, ',')
  {
    if s != [] {
      assert forall c :: c in s[1..] ==> c in s;
      TokensWithoutQuotes(s[1..]);
      QuoteFree(s[1..]);
    }
  }

  lemma {:induction false} TokensOfQuotedCommas(t: string)
    requires CommasQuoted(t)
    ensures Tokens(t) == [t]
  {
    if t != [] {
      assert CommasQuoted(t[1..]) by {
        forall j | 0 <= j < |t[1..]| && t[1..][j] == ','
          ensures QuoteCount(t[1..][j + 1..]) % 2 == 1
        {
          assert t[1..][j + 1..] == t[j + 2..];
        }
      }
      TokensOfQuotedCommas(t[1..]);
      assert [t[0]] + t[1..] == t;
    }
  }

  /** A piece whose commas are quoted, then a comma followed by balanced
      quotes, splits off as the first token. */
  lemma {:induction false} TokensCons(t: string, u: string)
    requires CommasQuoted(t) && QuoteCount(u) % 2 == 0
    ensures Tokens(t + [','] + u) == [t] + Tokens(u)
  {
    var s := t + [','] + u;
    if t == [] {
      assert s[1..] == u;
    } else {
      assert s[1..] == t[1..] + [','] + u;
      assert CommasQuoted(t[1..]) by {
        forall j | 0 <= j < |t[1..]| && t[1..][j] == ','
          ensures QuoteCount(t[1..][j + 1..]) % 2 == 1
        {
          assert t[1..][j + 1..] == t[j + 2..];
        }
      }
      TokensCons(t[1..], u);
      if t[0] == ',' {
        QuoteCountAppend(t[1..] + [','], u);
        QuoteCountAppend(t[1..], [',']);
        assert QuoteCount([',']) == 0;
      }
      assert [t[0]] + t[1..] == t;
    }
  }

  lemma {:induction false} JoinBalanced(parts: seq<string>)
    requires forall k :: 0 <= k < |parts| ==> QuoteCount(parts[k]) % 2 == 0
    ensures QuoteCount(Join(parts, [','])) % 2 == 0
  {
    if |parts| > 1 {
      JoinBalanced(parts[1..]);
      QuoteCountAppend(parts[0] + [','], Join(parts[1..], [',']));
      QuoteCountAppend(parts[0], [',']);
      assert QuoteCount([',']) == 0;
    }
  }

  /** Splitting a comma-join of fields gives back the fields. */
  lemma {:induction false} TokensJoin(parts: seq<string>)
    requires |parts| >= 1
    requires forall k :: 0 <= k < |parts| ==> Field(parts[k])
    ensures Tokens(Join(parts, [','])) == parts
  {
    if |parts| == 1 {
      TokensOfQuotedCommas(parts[0]);
    } else {
      TokensJoin(parts[1..]);
      JoinBalanced(parts[1..]);
      TokensCons(parts[0], Join(parts[1..], [',']));
      assert [parts[0]] + parts[1..] == parts;
    }
  }

  /** `removeSurrounding(c)`: drops a leading and a trailing `c` when both are there. */
  function RemoveSurrounding(s: string, c: char): (r: string)
    ensures (|s| >= 2 && s[0] == c && s[|s| - 1] == c) ==> r == s[1..|s| - 1]
    ensures !(|s| >= 2 && s[0] == c && s[|s| - 1] == c) ==> r == s
  {
    if |s| >= 2 && s[0] == c && s[|s| - 1] == c then s[1..|s| - 1] else s
  }

  /** `it.trim().removeSurrounding("\"")` */
  function CleanToken(t: string): string {
    RemoveSurrounding(Trim(t), '"')
  }

  /** The cleaned tokens of one line. */
  function LineTokens(line: string): (r: seq<string>)
    ensures |r| == |Tokens(line)| && forall k :: 0 <= k < |r| ==> r[k] == CleanToken(Tokens(line)[k])
  {
    seq(|Tokens(line)|, k requires 0 <= k < |Tokens(line)| => CleanToken(Tokens(line)[k]))
  }

  function Quote(x: string): string {
    ['"'] + x + ['"']
  }

  lemma QuoteIsField(x: string)
    requires '"' !in x
    ensures Field(Quote(x))
  {
    var q := Quote(x);
    forall j | 0 <= j < |q| && q[j] == ',' ensures QuoteCount(q[j + 1..]) % 2 == 1 {
      assert 1 <= j <= |x|;
      assert q[j + 1..] == x[j..] + ['"'];
      assert forall c :: c in x[j..] ==> c in x;
      QuoteFree(x[j..]);
      QuoteCountAppend(x[j..], ['"']);
    }
    assert q[1..] == x + ['"'];
    QuoteFree(x);
    QuoteCountAppend(x, ['"']);
  }

  lemma QuoteCleans(x: string)
    ensures CleanToken(Quote(x)) == x
  {
    var q := Quote(x);
    assert q[0] == '"' && q[|q| - 1] == '"';
    TrimTrimmed(q);
    assert q[1..|q| - 1] == x;
  }

  /** A quote-free text in quotes is one field, and cleaning it gives the text back. */
  lemma QuotedField(x: string)
    requires '"' !in x
    ensures Field(Quote(x))
    ensures CleanToken(Quote(x)) == x
  {
    QuoteIsField(x);
    QuoteCleans(x);
  }

  /** A line whose fields are all quoted (and quote-free inside) parses back
      into exactly those fields, whatever commas they contain. */
  lemma ParseQuotedLine(xs: seq<string>)
    requires |xs| >= 1
    requires forall k :: 0 <= k < |xs| ==> '"' !in xs[k]
    ensures LineTokens(Join(seq(|xs|, k requires 0 <= k < |xs| => Quote(xs[k])), [','])) == xs
  {
    var qs := seq(|xs|, k requires 0 <= k < |xs| => Quote(xs[k]));
    forall k | 0 <= k < |xs| ensures Field(qs[k]) && CleanToken(qs[k]) == xs[k] {
      QuotedField(xs[k]);
    }
    TokensJoin(qs);
  }

  // ---------------------------------------------------------------------
  // Ingredients

  /** `map { it.trim() }.filter { it.isNotEmpty() }` */
  function TrimNonEmpty(pieces: seq<string>): (r: seq<string>)
    ensures |r| <= |pieces|
  {
    if pieces == [] then []
    else
      var t := Trim(pieces[0]);
      (if t == [] then [] else [t]) + TrimNonEmpty(pieces[1..])
  }

  /** `parseIngredients`: the trimmed, non-empty pieces between the slashes;
      no text at all gives no ingredients. */
  function ParseIngredients(s: Option<string>): seq<string> {
    if s.None? then [] else TrimNonEmpty(SplitOn(s.value, '/'))
  }

  /** Every piece is non-empty and trimmed. */
  predicate AllTrimmed(xs: seq<string>) {
    xs == [] || (xs[0] != [] && Trimmed(xs[0]) && AllTrimmed(xs[1..]))
  }

  lemma {:induction false} AllTrimmedAt(xs: seq<string>)
    requires AllTrimmed(xs)
    ensures forall k :: 0 <= k < |xs| ==> xs[k] != [] && Trimmed(xs[k])
  {
    if xs != [] {
      AllTrimmedAt(xs[1..]);
      assert forall k :: 1 <= k < |xs| ==> xs[k] == xs[1..][k - 1];
    }
  }

  lemma {:induction false} TrimNonEmptyTrimmed(pieces: seq<string>)
    ensures AllTrimmed(TrimNonEmpty(pieces))
  {
    if pieces != [] {
      var rest := TrimNonEmpty(pieces[1..]);
      TrimNonEmptyTrimmed(pieces[1..]);
      var t := Trim(pieces[0]);
      TrimIsTrimmed(pieces[0]);
      if t != [] {
        assert TrimNonEmpty(pieces) == [t] + rest;
        assert ([t] + rest)[1..] == rest;
      } else {
        assert TrimNonEmpty(pieces) == rest;
      }
    }
  }

  lemma {:induction false} TrimNonEmptyPieces(pieces: seq<string>)
    requires forall k :: 0 <= k < |pieces| ==> '/' !in pieces[k]
    ensures forall k :: 0 <= k < |TrimNonEmpty(pieces)| ==> '/' !in TrimNonEmpty(pieces)[k]
  {
    if pieces != [] {
      TrimNonEmptyPieces(pieces[1..]);
      TrimChars(pieces[0]);
    }
  }

  /** Every ingredient is non-empty, trimmed and free of `/`. */
  lemma ParseIngredientsSpec(s: Option<string>)
    ensures forall k :: 0 <= k < |ParseIngredients(s)| ==>
              ParseIngredients(s)[k] != [] && Trimmed(ParseIngredients(s)[k]) && '/' !in ParseIngredients(s)[k]
  {
    if s.Some? {
      TrimNonEmptyTrimmed(SplitOn(s.value, '/'));
      AllTrimmedAt(TrimNonEmpty(SplitOn(s.value, '/')));
      TrimNonEmptyPieces(SplitOn(s.value, '/'));
    }
  }

  lemma {:induction false} TrimNonEmptyKeeps(parts: seq<string>)
    requires forall k :: 0 <= k < |parts| ==> parts[k] != [] && Trimmed(parts[k])
    ensures TrimNonEmpty(parts) == parts
  {
    if parts != [] {
      TrimTrimmed(parts[0]);
      TrimNonEmptyKeeps(parts[1..]);
      assert [parts[0]] + parts[1..] == parts;
    }
  }

  /** Non-empty trimmed ingredients without `/`, joined with slashes, parse
      back into themselves. */
  lemma IngredientsRoundTrip(parts: seq<string>)
    requires |parts| >= 1
    requires forall k :: 0 <= k < |parts| ==> parts[k] != [] && Trimmed(parts[k]) && '/' !in parts[k]
    ensures ParseIngredients(Some(Join(parts, ['/']))) == parts
  {
    SplitOnJoin(parts, '/');
    TrimNonEmptyKeeps(parts);
  }
}
