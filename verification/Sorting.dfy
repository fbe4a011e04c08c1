/**
 The stable sort of `Array.prototype.sort`, over any order.
 */
module Sorting {

  function InsertBy<T>(x: T, s: seq<T>, atMost: (T, T) -> bool): seq<T> {
    if s == [] || atMost(x, s[0]) then [x] + s else [s[0]] + InsertBy(x, s[1..], atMost)
  }

  function SortBy<T>(s: seq<T>, atMost: (T, T) -> bool): seq<T> {
    if s == [] then [] else InsertBy(s[0], SortBy(s[1..], atMost), atMost)
  }

  ghost predicate SortedBy<T>(s: seq<T>, atMost: (T, T) -> bool) {
    forall i, j :: 0 <= i < j < |s| ==> atMost(s[i], s[j])
  }

  /** Any two are comparable, and the order is transitive. */
  ghost predicate IsOrder<T(!new)>(atMost: (T, T) -> bool) {
    && (forall x, y :: atMost(x, y) || atMost(y, x))
    && (forall x, y, z :: atMost(x, y) && atMost(y, z) ==> atMost(x, z))
  }

  // ----- nothing is lost -----

  lemma {:induction false} InsertByKeeps<T>(x: T, s: seq<T>, atMost: (T, T) -> bool)
    ensures multiset(InsertBy(x, s, atMost)) == multiset(s) + multiset{x}
  {
    if s != [] {
      assert s == [s[0]] + s[1..];
      InsertByKeeps(x, s[1..], atMost);
    }
  }

  lemma {:induction false} SortByKeeps<T>(s: seq<T>, atMost: (T, T) -> bool)
    ensures multiset(SortBy(s, atMost)) == multiset(s)
    ensures |SortBy(s, atMost)| == |s|
    ensures forall x :: x in SortBy(s, atMost) <==> x in s
  {
    if s != [] {
      assert s == [s[0]] + s[1..];
      SortByKeeps(s[1..], atMost);
      InsertByKeeps(s[0], SortBy(s[1..], atMost), atMost);
    }
    SameElements(SortBy(s, atMost), s);
  }

  lemma SameElements<T>(a: seq<T>, b: seq<T>)
    requires multiset(a) == multiset(b)
    ensures |a| == |b|
    ensures forall x :: x in a <==> x in b
  {
    assert |multiset(a)| == |a| && |multiset(b)| == |b|;
    forall x
      ensures x in a <==> x in b
    {
      assert x in a <==> x in multiset(a);
      assert x in b <==> x in multiset(b);
    }
  }

  // ----- the result is sorted -----

  lemma {:induction false} InsertBySorts<T(!new)>(x: T, s: seq<T>, atMost: (T, T) -> bool)
    requires IsOrder(atMost) && SortedBy(s, atMost)
    ensures SortedBy(InsertBy(x, s, atMost), atMost)
  {
    if s != [] && !atMost(x, s[0]) {
      var rest := InsertBy(x, s[1..], atMost);
      InsertBySorts(x, s[1..], atMost);
      InsertByKeeps(x, s[1..], atMost);
      forall i | 0 <= i < |rest|
        ensures atMost(s[0], rest[i])
      {
        assert rest[i] in multiset(rest);
        assert rest[i] in multiset(s[1..]) || rest[i] == x;
      }
    }
  }

  lemma {:induction false} SortBySorts<T(!new)>(s: seq<T>, atMost: (T, T) -> bool)
    requires IsOrder(atMost)
    ensures SortedBy(SortBy(s, atMost), atMost)
  {
    if s != [] {
      SortBySorts(s[1..], atMost);
      InsertBySorts(s[0], SortBy(s[1..], atMost), atMost);
    }
  }

  lemma {:induction false} SortBySorted<T>(s: seq<T>, atMost: (T, T) -> bool)
    requires SortedBy(s, atMost)
    ensures SortBy(s, atMost) == s
  {
    if s != [] {
      SortBySorted(s[1..], atMost);
      assert s == [s[0]] + s[1..];
    }
  }

  // ----- the result is the only one -----

  /** Elements of `s` that are in order both ways are the same. */
  ghost predicate Separates<T>(s: seq<T>, atMost: (T, T) -> bool) {
    forall x, y :: x in s && y in s && atMost(x, y) && atMost(y, x) ==> x == y
  }

  lemma {:induction false} SortedIsUnique<T>(a: seq<T>, b: seq<T>, atMost: (T, T) -> bool)
    requires SortedBy(a, atMost) && SortedBy(b, atMost) && multiset(a) == multiset(b) && Separates(a, atMost)
    ensures a == b
  {
    SameElements(a, b);
    if a != [] {
      assert b[0] in a && a[0] in b;
      HeadIsLeast(a, b[0], atMost);
      HeadIsLeast(b, a[0], atMost);
      assert a[0] == b[0];
      TailOf(a);
      TailOf(b);
      assert Separates(a[1..], atMost);
      hide Separates;
      SortedIsUnique(a[1..], b[1..], atMost);
    }
  }

  lemma TailOf<T>(s: seq<T>)
    requires s != []
    ensures s == [s[0]] + s[1..] && multiset(s[1..]) == multiset(s) - multiset{s[0]}
  {
    assert s == [s[0]] + s[1..];
  }

  lemma HeadIsLeast<T>(s: seq<T>, x: T, atMost: (T, T) -> bool)
    requires SortedBy(s, atMost) && x in s
    ensures x == s[0] || atMost(s[0], x)
  {
    var i :| 0 <= i < |s| && s[i] == x;
  }
}
