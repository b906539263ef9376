/** Sequence helpers: duplicate-freedom, `distinct()`, and first index. */
module Seqs {

  predicate Unique<T(==)>(s: seq<T>) {
    forall i, j :: 0 <= i < j < |s| ==> s[i] != s[j]
  }

  /** `indexOf(x)`: the first position of `x`. */
  function IndexOf<T(==)>(s: seq<T>, x: T): (i: nat)
    requires x in s
    ensures i < |s| && s[i] == x && x !in s[..i]
  {
    if s[0] == x then 0 else 1 + IndexOf(s[1..], x)
  }

  /** `indexOfFirst(p)`: the position of the first element satisfying `p`, or -1. */
  function FirstIndex<T>(s: seq<T>, p: T -> bool): (k: int)
    ensures -1 <= k < |s|
    ensures k >= 0 ==> p(s[k])
    ensures forall j :: 0 <= j < (if k < 0 then |s| else k) ==> !p(s[j])
  {
    if s == [] then -1
    else if p(s[0]) then 0
    else
      var k := FirstIndex(s[1..], p);
      if k < 0 then -1 else k + 1
  }

  /** The conditions that pin down `FirstIndex`. */
  lemma FirstIndexIs<T>(s: seq<T>, p: T -> bool, k: int)
    requires -1 <= k < |s|
    requires k >= 0 ==> p(s[k])
    requires forall j :: 0 <= j < (if k < 0 then |s| else k) ==> !p(s[j])
    ensures FirstIndex(s, p) == k
  {
  }

  /** `distinct()`, and the key order of a `LinkedHashMap` filled from `s`:
      each element once, in order of first occurrence. Defined from the
      right, the way a loop that appends unseen elements builds it. */
  function Distinct<T(==,!new)>(s: seq<T>): (r: seq<T>)
    ensures Unique(r)
    ensures forall x :: x in r <==> x in s
  {
    if s == [] then []
    else
      var d := Distinct(s[..|s| - 1]);
      var x := s[|s| - 1];
      assert s == s[..|s| - 1] + [x];
      if x in d then d else d + [x]
  }

  /** `Distinct` of a sequence grown by one element. */
  lemma DistinctSnoc<T(!new)>(s: seq<T>, x: T)
    ensures Distinct(s + [x]) == if x in s then Distinct(s) else Distinct(s) + [x]
  {
    var t := s + [x];
    assert t[..|t| - 1] == s;
  }

  lemma {:induction false} IndexOfAppend<T>(s: seq<T>, y: T, x: T)
    requires x in s
    ensures IndexOf(s + [y], x) == IndexOf(s, x)
  {
    if s[0] != x {
      assert (s + [y])[1..] == s[1..] + [y];
      IndexOfAppend(s[1..], y, x);
    }
  }

  /** Appending a new element keeps a sequence duplicate-free. */
  lemma UniqueSnoc<T>(s: seq<T>, x: T)
    requires Unique(s) && x !in s
    ensures Unique(s + [x])
  {
    var t := s + [x];
    forall i, j | 0 <= i < j < |t| ensures t[i] != t[j] {
      assert t[i] == s[i];
      if j == |s| {
        assert t[j] == x;
      } else {
        assert t[j] == s[j];
      }
    }
  }

  /** An element appended to a sequence that lacked it sits at the end. */
  lemma IndexOfNew<T>(s: seq<T>, x: T)
    requires x !in s
    ensures IndexOf(s + [x], x) == |s|
  {
    var t := s + [x];
    assert t[|s|] == x;
    assert t[..|s|] == s;
  }

  /** `Distinct` keeps the order of first occurrence. */
  lemma {:induction false} DistinctKeepsFirstOccurrenceOrder<T(!new)>(s: seq<T>)
    ensures forall i, j :: 0 <= i < j < |Distinct(s)| ==>
              IndexOf(s, Distinct(s)[i]) < IndexOf(s, Distinct(s)[j])
  {
    if s != [] {
      var s', x := s[..|s| - 1], s[|s| - 1];
      assert s == s' + [x];
      var d := Distinct(s');
      DistinctKeepsFirstOccurrenceOrder(s');
      forall y | y in s' ensures IndexOf(s, y) == IndexOf(s', y) {
        IndexOfAppend(s', x, y);
      }
      if x !in d {
        assert IndexOf(s, x) == |s'| by {
          assert s[|s'|] == x;
          assert x !in s';
        }
      }
    }
  }
}
