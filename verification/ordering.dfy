/** The two list operations the queries are made of: keeping the rows that
    match (a `WHERE` clause) and ordering rows newest first (`ORDER BY ... DESC`). */
module Ordering {

  /** The elements of `s` that satisfy `p`, in their original order. */
  function Filter<T(!new)>(s: seq<T>, p: T -> bool): (r: seq<T>)
    ensures |r| <= |s|
    ensures forall x :: multiset(r)[x] == if p(x) then multiset(s)[x] else 0
  {
    if s == [] then []
    else
      assert s == [s[0]] + s[1..];
      (if p(s[0]) then [s[0]] else []) + Filter(s[1..], p)
  }

  lemma FilterMembers<T(!new)>(s: seq<T>, p: T -> bool, x: T)
    ensures x in Filter(s, p) <==> x in s && p(x)
  {
    assert x in Filter(s, p) <==> multiset(Filter(s, p))[x] > 0;
    assert x in s <==> multiset(s)[x] > 0;
  }

  predicate SortedDesc<T>(s: seq<T>, key: T -> int) {
    forall i, j :: 0 <= i < j < |s| ==> key(s[i]) >= key(s[j])
  }

  /** A list holding `x` and the elements of `s` has no key above a bound
      that `x` and every element of `s` keep to. */
  lemma BoundedByHead<T>(x: T, s: seq<T>, r: seq<T>, key: T -> int, bound: int)
    requires multiset(r) == multiset(s) + multiset{x}
    requires key(x) <= bound && forall k :: 0 <= k < |s| ==> key(s[k]) <= bound
    ensures forall j :: 0 <= j < |r| ==> key(r[j]) <= bound
  {
    forall j | 0 <= j < |r| ensures key(r[j]) <= bound {
      assert r[j] in multiset(r);
      if r[j] != x {
        assert r[j] in multiset(s);
        var k :| 0 <= k < |s| && s[k] == r[j];
      }
    }
  }

  /** Insert `x` into a list ordered by decreasing key, after the elements
      whose key is at least as large. */
  function InsertDesc<T>(x: T, s: seq<T>, key: T -> int): (r: seq<T>)
    requires SortedDesc(s, key)
    ensures SortedDesc(r, key)
    ensures multiset(r) == multiset(s) + multiset{x}
  {
    if s == [] || key(x) > key(s[0]) then
      [x] + s
    else
      var tail := InsertDesc(x, s[1..], key);
      assert s == [s[0]] + s[1..];
      BoundedByHead(x, s[1..], tail, key, key(s[0]));
      [s[0]] + tail
  }

  /** The rows of `s` ordered by decreasing key. */
  function SortDesc<T>(s: seq<T>, key: T -> int): (r: seq<T>)
    ensures SortedDesc(r, key)
    ensures multiset(r) == multiset(s)
  {
    if s == [] then []
    else
      assert s == [s[0]] + s[1..];
      InsertDesc(s[0], SortDesc(s[1..], key), key)
  }

  /** The first row of the ordered list has the largest key of all rows. */
  lemma SortDescHeadIsMax<T>(s: seq<T>, key: T -> int, x: T)
    requires x in s
    ensures SortDesc(s, key) != [] && key(SortDesc(s, key)[0]) >= key(x)
  {
    var r := SortDesc(s, key);
    assert x in multiset(s);
    assert x in multiset(r);
    var i :| 0 <= i < |r| && r[i] == x;
    assert i == 0 || key(r[0]) >= key(r[i]);
  }
}
