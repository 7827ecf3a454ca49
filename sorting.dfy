/** Python's `sorted(xs, key=...)`: a stable sort by an integer rank. Python's sort is a
    built-in; it is modelled as an insertion sort that puts each element after every
    earlier element of the same rank, which is the order a stable sort yields. */
module Sorting {

  predicate SortedBy<T>(s: seq<T>, rank: T -> int) {
    forall i, j :: 0 <= i < j < |s| ==> rank(s[i]) <= rank(s[j])
  }

  /** `x` placed after every element of `s` whose rank is at most its own. */
  function Insert<T>(x: T, s: seq<T>, rank: T -> int): (r: seq<T>)
    requires SortedBy(s, rank)
    ensures multiset(r) == multiset(s) + multiset{x} && |r| == |s| + 1
    ensures SortedBy(r, rank)
    decreases |s|
  {
    if s == [] || rank(s[|s| - 1]) <= rank(x) then s + [x]
    else
      var r := Insert(x, s[..|s| - 1], rank);
      assert s[..|s| - 1] + [s[|s| - 1]] == s;
      InsertTail(r, s[|s| - 1], x, s[..|s| - 1], rank);
      r + [s[|s| - 1]]
  }

  /** Appending the last element of `s` after `Insert(x, s[..|s|-1])` keeps the order:
      every element of that insertion ranks at most as high. */
  lemma InsertTail<T>(r: seq<T>, last: T, x: T, init: seq<T>, rank: T -> int)
    requires SortedBy(r, rank) && SortedBy(init + [last], rank)
    requires multiset(r) == multiset(init) + multiset{x} && rank(x) < rank(last)
    ensures SortedBy(r + [last], rank)
  {
    forall i | 0 <= i < |r|
      ensures rank(r[i]) <= rank(last)
    {
      assert r[i] in multiset(r);
      if r[i] != x {
        assert r[i] in multiset(init);
        var k :| 0 <= k < |init| && init[k] == r[i];
        assert (init + [last])[k] == r[i] && (init + [last])[|init|] == last;
      }
    }
  }

  /** Inserting before the last element of `s`: the insertion into the rest, then that
      element. */
  lemma InsertBeforeLast<T>(x: T, s: seq<T>, rank: T -> int)
    requires SortedBy(s, rank) && s != [] && rank(s[|s| - 1]) > rank(x)
    ensures SortedBy(s[..|s| - 1], rank)
    ensures Insert(x, s, rank) == Insert(x, s[..|s| - 1], rank) + [s[|s| - 1]]
  {
  }

  /** `sorted(s, key=rank)`. */
  function SortBy<T>(s: seq<T>, rank: T -> int): (r: seq<T>)
    ensures multiset(r) == multiset(s) && |r| == |s|
    ensures SortedBy(r, rank)
    decreases |s|
  {
    if s == [] then []
    else
      assert s[..|s| - 1] + [s[|s| - 1]] == s;
      Insert(s[|s| - 1], SortBy(s[..|s| - 1], rank), rank)
  }

  /** Sorting gives a list with the same elements, in order: the sorted list is the only
      list that is ordered and holds each element as often as the input does, up to the
      order among elements of equal rank. */
  lemma SortedElements<T>(s: seq<T>, rank: T -> int, x: T)
    ensures x in SortBy(s, rank) <==> x in s
  {
    var r := SortBy(s, rank);
    assert x in r <==> x in multiset(r);
    assert x in s <==> x in multiset(s);
  }

  lemma SortedElementsAll<T>(s: seq<T>, rank: T -> int)
    ensures forall x :: x in SortBy(s, rank) <==> x in s
  {
    forall x
      ensures x in SortBy(s, rank) <==> x in s
    {
      SortedElements(s, rank, x);
    }
  }
}
