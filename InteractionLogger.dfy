/**
 * `InteractionLogger`: one CSV row per user interaction, appended to a
 * local file, keyed by a per-installation user number that is read from
 * the preferences or freshly generated once.
 *
 * The file is modelled as the list of text chunks appended to it (`None`
 * while it does not exist), the preferences entry as an optional string,
 * and the generated UUID, the formatted timestamp and the success of each
 * file write as parameters.
 */
module InteractionLogger {
  import opened Options
  import opened Text

  const CSV_HEADER := "userno,etkileşim türü,ürünid,tarih\n"

  const PRODUCT_CLICK := "product_click"
  const ADD_FAVORITE := "add_favorite"
  const REMOVE_FAVORITE := "remove_favorite"
  const SEARCH := "search"
  const PURCHASED_ITEM := "purchased_item"

  /** `replace(c.toString(), "")`: every `c` removed, the rest kept in order. */
  function RemoveChar(s: string, c: char): (r: string)
    ensures c !in r
    ensures |r| <= |s|
  {
    if s == [] then []
    else (if s[0] == c then [] else [s[0]]) + RemoveChar(s[1..], c)
  }

  /** `replace(c.toString(), d.toString())`: every `c` becomes `d`. */
  function ReplaceChar(s: string, c: char, d: char): (r: string)
    ensures |r| == |s|
    ensures forall i :: 0 <= i < |s| ==> r[i] == if s[i] == c then d else s[i]
  {
    seq(|s|, i requires 0 <= i < |s| => if s[i] == c then d else s[i])
  }

  /** `productId?.replace(",", "")?.replace("\n", " ") ?: ""` */
  function Sanitize(productId: Option<string>): (r: string)
    ensures productId.None? ==> r == ""
    ensures ',' !in r && '\n' !in r
  {
    match productId
    case None => ""
    case Some(s) =>
      var t := RemoveChar(s, ',');
      var r := ReplaceChar(t, '\n', ' ');
      assert forall i :: 0 <= i < |r| ==> r[i] != ',';
      r
  }

  /** The sanitised field of `s` character by character: commas vanish, a
      line feed becomes a space, and everything else (`\r` included) stays. */
  function Cleaned(s: string): string {
    if s == [] then []
    else (if s[0] == ',' then "" else if s[0] == '\n' then " " else [s[0]]) + Cleaned(s[1..])
  }

  lemma ReplaceCharCons(x: string, y: string, c: char, d: char)
    ensures ReplaceChar(x + y, c, d) == ReplaceChar(x, c, d) + ReplaceChar(y, c, d)
  {
  }

  /** The two `replace` calls amount to the one-pass cleaning. */
  lemma {:induction false} SanitizeIsCleaned(s: string)
    ensures Sanitize(Some(s)) == Cleaned(s)
  {
    if s != [] {
      SanitizeIsCleaned(s[1..]);
      var head := if s[0] == ',' then "" else [s[0]];
      assert RemoveChar(s, ',') == head + RemoveChar(s[1..], ',');
      ReplaceCharCons(head, RemoveChar(s[1..], ','), '\n', ' ');
      if s[0] == ',' {
        assert head + RemoveChar(s[1..], ',') == RemoveChar(s[1..], ',');
      }
    }
  }

  /** Cleaning works piece by piece. */
  lemma {:induction false} CleanedAppend(a: string, b: string)
    ensures Cleaned(a + b) == Cleaned(a) + Cleaned(b)
  {
    if a == [] {
      assert a + b == b;
    } else {
      assert (a + b)[1..] == a[1..] + b;
      CleanedAppend(a[1..], b);
    }
  }

  /** An id with no comma and no line feed is written as it is, so
      sanitising twice is sanitising once. */
  lemma {:induction false} CleanedClean(s: string)
    requires ',' !in s && '\n' !in s
    ensures Cleaned(s) == s
  {
    if s != [] {
      assert s == [s[0]] + s[1..];
      CleanedClean(s[1..]);
    }
  }

  lemma SanitizeIdempotent(s: string)
    ensures Sanitize(Some(Sanitize(Some(s)))) == Sanitize(Some(s))
  {
    var r := Sanitize(Some(s));
    SanitizeIsCleaned(r);
    CleanedClean(r);
  }

  /** `"$userNo,$interactionType,$sanitizedProductId,$timestamp\n"` */
  function CsvRow(userNo: string, interactionType: string, productId: Option<string>, timestamp: string): (r: string)
    ensures |r| >= 1 && r[|r| - 1] == '\n'
  {
    userNo + "," + interactionType + "," + Sanitize(productId) + "," + timestamp + "\n"
  }

  lemma JoinFour(a: string, b: string, c: string, d: string)
    ensures Join([a, b, c, d], [',']) == a + "," + b + "," + c + "," + d
  {
    var fields := [a, b, c, d];
    assert Join(fields[3..], [',']) == d;
    assert Join(fields[2..], [',']) == c + "," + d;
    assert Join(fields[1..], [',']) == b + "," + c + "," + d;
  }

  /** With a user number, type and timestamp free of commas and line feeds,
      the row has exactly one line feed, at its end, and splits at its
      commas into exactly the four fields. */
  lemma CsvRowFields(userNo: string, interactionType: string, productId: Option<string>, timestamp: string)
    requires ',' !in userNo && '\n' !in userNo
    requires ',' !in interactionType && '\n' !in interactionType
    requires ',' !in timestamp && '\n' !in timestamp
    ensures var r := CsvRow(userNo, interactionType, productId, timestamp);
            '\n' !in r[..|r| - 1] &&
            SplitOn(r[..|r| - 1], ',') == [userNo, interactionType, Sanitize(productId), timestamp]
  {
    var id := Sanitize(productId);
    var fields := [userNo, interactionType, id, timestamp];
    var line := userNo + "," + interactionType + "," + id + "," + timestamp;
    var r := CsvRow(userNo, interactionType, productId, timestamp);
    assert r[..|r| - 1] == line;
    JoinFour(userNo, interactionType, id, timestamp);
    SplitOnJoin(fields, ',');
  }

  class Logger {
    /** The in-memory user number. */
    var userNo: Option<string>
    /** The user number kept in the preferences. */
    var storedUserNo: Option<string>
    /** The log file's appended chunks; `None` while the file does not exist. */
    var file: Option<seq<string>>

    constructor(stored: Option<string>, existing: Option<seq<string>>)
      ensures userNo == None && storedUserNo == stored && file == existing
    {
      userNo := None;
      storedUserNo := stored;
      file := existing;
    }

    /** `initialize`: the first call takes the stored user number, or
        generates (`freshId`) and stores one; later calls keep it. Then the
        header is written if the file does not exist (`writeOk` says whether
        that write succeeds). */
    method Initialize(freshId: string, writeOk: bool)
      modifies this
      ensures old(userNo).Some? ==> userNo == old(userNo) && storedUserNo == old(storedUserNo)
      ensures old(userNo).None? && old(storedUserNo).Some? ==>
                userNo == old(storedUserNo) && storedUserNo == old(storedUserNo)
      ensures old(userNo).None? && old(storedUserNo).None? ==>
                userNo == Some(freshId) && storedUserNo == Some(freshId)
      ensures userNo.Some?
      ensures file == if old(file).None? && writeOk then Some([CSV_HEADER]) else old(file)
    {
      if userNo.None? {
        if storedUserNo.None? {
          storedUserNo := Some(freshId);
        }
        userNo := storedUserNo;
      }
      if file.None? && writeOk {
        file := Some([CSV_HEADER]);
      }
    }

    /** `logInteraction`: initialises first when there is no user number,
        then appends the row (an append creates a missing file). Since
        `initialize` always leaves a user number, the early return for a
        missing one is never taken. */
    method LogInteraction(interactionType: string, productId: Option<string>, timestamp: string,
                          freshId: string, headerOk: bool, writeOk: bool)
      modifies this
      ensures old(userNo).Some? ==> userNo == old(userNo)
      ensures userNo.Some?
      ensures var before := if old(userNo).None? && old(file).None? && headerOk then Some([CSV_HEADER]) else old(file);
              file == if writeOk
                      then Some((if before.None? then [] else before.value) +
                                [CsvRow(userNo.value, interactionType, productId, timestamp)])
                      else before
    {
      if userNo.None? {
        Initialize(freshId, headerOk);
        if userNo.None? {
          return;
        }
      }
      var row := CsvRow(userNo.value, interactionType, productId, timestamp);
      if writeOk {
        file := Some((if file.None? then [] else file.value) + [row]);
      }
    }
  }
}
