/**
 * The pieces of the Kotlin standard library the app relies on for strings:
 * character classes, case conversion, `trim`, `take`, `split` on one
 * character, `joinToString`, `Int.toString` and `String.toInt`.
 * Character classes and case mapping are those of ASCII.
 */
module Text {
  import opened Options

  /** Kotlin's 32-bit `Int`. */
  type Int32 = x: int | -0x8000_0000 <= x < 0x8000_0000

  // ---------------------------------------------------------------------
  // Character classes and case mapping (ASCII)

  /** `Char.isWhitespace()`: tab, line feed, vertical tab, form feed,
      carriage return, the four information separators and the space. */
  predicate IsWhitespace(c: char) {
    c == ' ' || 9 <= c as int <= 13 || 28 <= c as int <= 31
  }

  /** `Char.isDigit()` */
  predicate IsDigit(c: char) {
    '0' <= c <= '9'
  }

  function LowerChar(c: char): char {
    if 'A' <= c <= 'Z' then (c as int + 32) as char else c
  }

  function UpperChar(c: char): char {
    if 'a' <= c <= 'z' then (c as int - 32) as char else c
  }

  /** `lowercase()`, one character at a time. */
  function Lower(s: string): (r: string)
    ensures |r| == |s|
  {
    seq(|s|, i requires 0 <= i < |s| => LowerChar(s[i]))
  }

  /** `uppercase()`, one character at a time. */
  function Upper(s: string): (r: string)
    ensures |r| == |s|
  {
    seq(|s|, i requires 0 <= i < |s| => UpperChar(s[i]))
  }

  predicate AllDigits(s: string) {
    forall i :: 0 <= i < |s| ==> IsDigit(s[i])
  }

  /** `isBlank()`: empty or whitespace only. */
  predicate IsBlank(s: string) {
    forall i :: 0 <= i < |s| ==> IsWhitespace(s[i])
  }

  /** `a.equals(b, ignoreCase = true)` */
  predicate EqualsIgnoreCase(a: string, b: string) {
    |a| == |b| && Lower(a) == Lower(b)
  }

  /** `q` occurs in `s` at offset `i`, ignoring case. */
  predicate MatchesAt(s: string, q: string, i: int) {
    0 <= i && i + |q| <= |s| && Lower(s[i..i + |q|]) == Lower(q)
  }

  /** `s.contains(q, ignoreCase = true)` */
  predicate ContainsIgnoreCase(s: string, q: string) {
    exists i | 0 <= i <= |s| - |q| :: MatchesAt(s, q, i)
  }

  // ---------------------------------------------------------------------
  // trim and take

  /** The leading whitespace dropped. */
  function TrimStart(s: string): (r: string)
    ensures |r| <= |s|
  {
    if s != [] && IsWhitespace(s[0]) then TrimStart(s[1..]) else s
  }

  /** The trailing whitespace dropped. */
  function TrimEnd(s: string): (r: string)
    ensures |r| <= |s|
  {
    if s != [] && IsWhitespace(s[|s| - 1]) then TrimEnd(s[..|s| - 1]) else s
  }

  /** `TrimStart` keeps a suffix and drops only whitespace. */
  lemma {:induction false} TrimStartSpec(s: string)
    ensures TrimStart(s) == s[|s| - |TrimStart(s)|..]
    ensures IsBlank(s[..|s| - |TrimStart(s)|])
    ensures TrimStart(s) == [] || !IsWhitespace(TrimStart(s)[0])
  {
    if s != [] && IsWhitespace(s[0]) {
      TrimStartSpec(s[1..]);
      var r := TrimStart(s[1..]);
      assert s[..|s| - |r|] == [s[0]] + s[1..][..|s| - 1 - |r|];
    }
  }

  /** `TrimEnd` keeps a prefix and drops only whitespace. */
  lemma {:induction false} TrimEndSpec(s: string)
    ensures TrimEnd(s) == s[..|TrimEnd(s)|]
    ensures IsBlank(s[|TrimEnd(s)|..])
    ensures TrimEnd(s) == [] || !IsWhitespace(TrimEnd(s)[|TrimEnd(s)| - 1])
  {
    if s != [] && IsWhitespace(s[|s| - 1]) {
      TrimEndSpec(s[..|s| - 1]);
      var r := TrimEnd(s[..|s| - 1]);
      assert s[|r|..] == s[..|s| - 1][|r|..] + [s[|s| - 1]];
    }
  }

  /** `trim()`: drops leading and trailing whitespace. */
  function Trim(s: string): (r: string)
    ensures |r| <= |s|
  {
    TrimEnd(TrimStart(s))
  }

  /** The trimmed text is empty exactly when `s` is blank, and otherwise
      starts and ends with a non-whitespace character. */
  lemma TrimSpec(s: string)
    ensures Trim(s) == [] <==> IsBlank(s)
    ensures Trim(s) != [] ==> !IsWhitespace(Trim(s)[0]) && !IsWhitespace(Trim(s)[|Trim(s)| - 1])
  {
    var t := TrimStart(s);
    var r := TrimEnd(t);
    TrimStartSpec(s);
    TrimEndSpec(t);
    BlankConcat(s[..|s| - |t|], t);
    BlankConcat(r, t[|r|..]);
    assert s == s[..|s| - |t|] + t;
    assert t == r + t[|r|..];
    assert r != [] ==> r[0] == t[0];
  }

  /** `trim()` keeps a slice of its input: no character is introduced. */
  lemma TrimChars(s: string)
    ensures forall c :: c in Trim(s) ==> c in s
  {
    var t := TrimStart(s);
    var r := TrimEnd(t);
    TrimStartSpec(s);
    TrimEndSpec(t);
    assert forall i :: 0 <= i < |r| ==> r[i] == s[|s| - |t| + i];
  }

  /** Neither end is whitespace: what `trim()` returns. */
  predicate Trimmed(s: string) {
    s == [] || (!IsWhitespace(s[0]) && !IsWhitespace(s[|s| - 1]))
  }

  lemma TrimIsTrimmed(s: string)
    ensures Trimmed(Trim(s))
  {
    TrimSpec(s);
  }

  /** `trim()` leaves a trimmed string alone. */
  lemma TrimTrimmed(s: string)
    requires Trimmed(s)
    ensures Trim(s) == s
  {
    assert TrimStart(s) == s;
    assert TrimEnd(s) == s;
  }

  /** `trim()` drops one leading space from a trimmed string. */
  lemma TrimSpaced(s: string)
    requires Trimmed(s)
    ensures Trim(" " + s) == s
  {
    var t := " " + s;
    assert t[1..] == s;
    assert TrimStart(s) == s;
    assert TrimStart(t) == s;
    assert TrimEnd(s) == s;
  }

  lemma BlankConcat(a: string, b: string)
    ensures IsBlank(a + b) <==> IsBlank(a) && IsBlank(b)
  {
    var c := a + b;
    assert forall i :: 0 <= i < |a| ==> c[i] == a[i];
    assert forall i :: 0 <= i < |b| ==> c[|a| + i] == b[i];
  }

  /** `take(n)`: the first `min(n, |s|)` characters. */
  function Take(s: string, n: nat): (r: string)
    ensures |r| == (if |s| <= n then |s| else n)
    ensures r == s[..|r|]
  {
    if |s| <= n then s else s[..n]
  }

  // ---------------------------------------------------------------------
  // split on one character, and join

  /** `s.split(sep)` for a one-character delimiter: the pieces between the
      occurrences of `sep`, empty pieces included; never an empty list,
      and no piece contains `sep`. */
  function SplitOn(s: string, sep: char): (r: seq<string>)
    ensures |r| >= 1
    ensures forall k :: 0 <= k < |r| ==> sep !in r[k]
  {
    if s == [] then [""]
    else
      var rest := SplitOn(s[1..], sep);
      if s[0] == sep then [""] + rest else [[s[0]] + rest[0]] + rest[1..]
  }

  /** `parts.joinToString(sep)` */
  function Join(parts: seq<string>, sep: string): string {
    if parts == [] then ""
    else if |parts| == 1 then parts[0]
    else parts[0] + sep + Join(parts[1..], sep)
  }

  /** Joining the pieces of a split with the delimiter gives back the string. */
  lemma {:induction false} JoinSplitOn(s: string, sep: char)
    ensures Join(SplitOn(s, sep), [sep]) == s
  {
    if s != [] {
      var rest := SplitOn(s[1..], sep);
      JoinSplitOn(s[1..], sep);
      if s[0] == sep {
        assert ([""] + rest)[1..] == rest;
      } else if |rest| > 1 {
        assert ([[s[0]] + rest[0]] + rest[1..])[1..] == rest[1..];
      }
    }
  }

  /** The first part of a join is a prefix of it. */
  lemma JoinHead(parts: seq<string>, sep: string)
    requires |parts| >= 1
    ensures parts[0] <= Join(parts, sep)
  {
  }

  /** The first piece of a split, and the first two pieces with the
      delimiter between them, are prefixes of the string. */
  lemma SplitPrefixes(s: string, sep: char)
    ensures SplitOn(s, sep)[0] <= s
    ensures |SplitOn(s, sep)| >= 2 ==> SplitOn(s, sep)[0] + [sep] + SplitOn(s, sep)[1] <= s
  {
    var parts := SplitOn(s, sep);
    JoinSplitOn(s, sep);
    JoinHead(parts, [sep]);
    if |parts| >= 2 {
      JoinHead(parts[1..], [sep]);
      assert Join(parts, [sep]) == parts[0] + [sep] + Join(parts[1..], [sep]);
    }
  }

  lemma {:induction false} SplitOnFree(t: string, sep: char)
    requires sep !in t
    ensures SplitOn(t, sep) == [t]
  {
    if t != [] {
      SplitOnFree(t[1..], sep);
      assert [t[0]] + t[1..] == t;
    }
  }

  /** A piece free of the delimiter, then the delimiter, splits off as the first piece. */
  lemma {:induction false} SplitOnCons(t: string, u: string, sep: char)
    requires sep !in t
    ensures SplitOn(t + [sep] + u, sep) == [t] + SplitOn(u, sep)
  {
    var s := t + [sep] + u;
    if t == [] {
      assert s[1..] == u;
    } else {
      assert s[1..] == t[1..] + [sep] + u;
      SplitOnCons(t[1..], u, sep);
      assert [t[0]] + t[1..] == t;
    }
  }

  /** Splitting a join of delimiter-free pieces gives back the pieces. */
  lemma {:induction false} SplitOnJoin(parts: seq<string>, sep: char)
    requires |parts| >= 1
    requires forall k :: 0 <= k < |parts| ==> sep !in parts[k]
    ensures SplitOn(Join(parts, [sep]), sep) == parts
  {
    if |parts| == 1 {
      SplitOnFree(parts[0], sep);
    } else {
      SplitOnJoin(parts[1..], sep);
      SplitOnCons(parts[0], Join(parts[1..], [sep]), sep);
      assert [parts[0]] + parts[1..] == parts;
    }
  }

  /** The first piece of a split is the longest delimiter-free prefix. */
  lemma FirstPiece(w: string, u: string, sep: char)
    requires sep !in w
    requires u == [] || u[0] == sep
    ensures SplitOn(w + u, sep)[0] == w
  {
    if u == [] {
      assert w + u == w;
      SplitOnFree(w, sep);
    } else {
      assert w + u == w + [sep] + u[1..];
      SplitOnCons(w, u[1..], sep);
    }
  }

  // ---------------------------------------------------------------------
  // Int.toString and String.toInt (decimal)

  function DigitChar(d: nat): (c: char)
    requires d < 10
    ensures IsDigit(c)
  {
    (48 + d) as char
  }

  /** The decimal digits of `n`, most significant first, no leading zero. */
  function Digits(n: nat): (r: string)
    ensures |r| >= 1 && AllDigits(r)
  {
    if n < 10 then [DigitChar(n)] else Digits(n / 10) + [DigitChar(n % 10)]
  }

  /** The number a string of decimal digits denotes. */
  function DigitsValue(s: string): nat
    requires AllDigits(s)
  {
    if s == [] then 0
    else
      assert IsDigit(s[|s| - 1]);
      DigitsValue(s[..|s| - 1]) * 10 + (s[|s| - 1] as int - '0' as int)
  }

  /** `Int.toString()` */
  function DecimalString(n: int): string {
    if n < 0 then "-" + Digits(-n) else Digits(n)
  }

  /** `String.toInt()`: an optional sign, then at least one digit, denoting a
      value in the `Int` range; `None` where Kotlin throws
      `NumberFormatException`. */
  function ToInt(s: string): Option<Int32> {
    if s == [] then None
    else
      var signed := s[0] < '0';
      if signed && (|s| == 1 || (s[0] != '-' && s[0] != '+')) then None
      else
        var body := if signed then s[1..] else s;
        if !AllDigits(body) then None
        else
          var v: int := if s[0] == '-' then -(DigitsValue(body) as int) else DigitsValue(body);
          if -0x8000_0000 <= v < 0x8000_0000 then Some(v) else None
  }

  lemma {:induction false} DigitsValueOfDigits(n: nat)
    ensures DigitsValue(Digits(n)) == n
  {
    if n >= 10 {
      var s := Digits(n);
      assert s[..|s| - 1] == Digits(n / 10);
      DigitsValueOfDigits(n / 10);
    }
  }

  /** `toInt` parses back what `toString` prints. */
  lemma ToIntOfDecimalString(n: Int32)
    ensures ToInt(DecimalString(n)) == Some(n)
  {
    if n < 0 {
      var m: nat := -(n as int);
      assert DecimalString(n)[1..] == Digits(m);
      DigitsValueOfDigits(m);
    } else {
      DigitsValueOfDigits(n);
    }
  }

  lemma DigitsInjective(m: nat, n: nat)
    ensures Digits(m) == Digits(n) ==> m == n
  {
    DigitsValueOfDigits(m);
    DigitsValueOfDigits(n);
  }

  /** Different numbers print differently. */
  lemma DecimalStringInjective(a: int, b: int)
    ensures DecimalString(a) == DecimalString(b) ==> a == b
  {
    if a < 0 && b < 0 {
      assert DecimalString(a)[1..] == Digits(-a);
      assert DecimalString(b)[1..] == Digits(-b);
      DigitsInjective(-a, -b);
    } else if a >= 0 && b >= 0 {
      DigitsInjective(a, b);
    } else {
      // exactly one of the two strings starts with '-', the other with a digit
      var neg, pos := if a < 0 then a else b, if a < 0 then b else a;
      assert DecimalString(neg)[0] == '-';
      assert IsDigit(Digits(pos)[0]);
    }
  }
}
