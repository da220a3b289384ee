/** Ordered insertion under a total preorder: how the store produces the rows of a
    `SELECT ... ORDER BY` one row at a time. */
module Sorting {

  /** `le` is total and transitive: a sort key with ties allowed. */
  ghost predicate TotalPreorder<T(!new)>(le: (T, T) -> bool) {
    && (forall a, b :: le(a, b) || le(b, a))
    && (forall a, b, c :: le(a, b) && le(b, c) ==> le(a, c))
  }

  /** Every element is `le` every later one. */
  predicate SortedBy<T>(le: (T, T) -> bool, s: seq<T>) {
    forall i, j :: 0 <= i < j < |s| ==> le(s[i], s[j])
  }

  predicate NoDuplicates<T(==)>(s: seq<T>) {
    forall i, j :: 0 <= i < j < |s| ==> s[i] != s[j]
  }

  /** `s` with `x` placed after the leading elements that are not `le` it. */
  function InsertBy<T(==)>(le: (T, T) -> bool, s: seq<T>, x: T): (r: seq<T>)
    ensures multiset(r) == multiset(s) + multiset{x}
  {
    if s == [] then [x]
    else if le(x, s[0]) then [x] + s
    else
      assert s == [s[0]] + s[1..];
      [s[0]] + InsertBy(le, s[1..], x)
  }

  /** Inserting into a sorted sequence keeps it sorted, and adds no duplicate when
      the new element was absent. */
  lemma {:induction false} InsertBySorted<T(!new)>(le: (T, T) -> bool, s: seq<T>, x: T)
    requires TotalPreorder(le) && SortedBy(le, s)
    ensures SortedBy(le, InsertBy(le, s, x))
    ensures NoDuplicates(s) && x !in s ==> NoDuplicates(InsertBy(le, s, x))
  {
    if s == [] {
    } else if le(x, s[0]) {
      var r := [x] + s;
      forall i, j | 0 <= i < j < |r| ensures le(r[i], r[j]) {
        if i == 0 && j > 1 {
          assert le(s[0], s[j - 1]);
        }
      }
    } else {
      var rest := InsertBy(le, s[1..], x);
      InsertBySorted(le, s[1..], x);
      assert le(s[0], x);
      var r := [s[0]] + rest;
      forall i, j | 0 <= i < j < |r| ensures le(r[i], r[j]) {
        if i == 0 {
          assert r[j] in multiset(rest);
          assert r[j] in s[1..] || r[j] == x;
        } else {
          assert r[i] == rest[i - 1] && r[j] == rest[j - 1];
        }
      }
      if NoDuplicates(s) && x !in s {
        assert s[0] !in multiset(rest);
      }
    }
  }

  /** One step of building an ordered, duplicate-free selection: inserting a new element
      keeps the order, adds no duplicate, and adds exactly that element. */
  lemma InsertByStep<T(!new)>(le: (T, T) -> bool, s: seq<T>, x: T)
    requires TotalPreorder(le) && SortedBy(le, s) && NoDuplicates(s) && x !in s
    ensures SortedBy(le, InsertBy(le, s, x)) && NoDuplicates(InsertBy(le, s, x))
    ensures forall y :: y in InsertBy(le, s, x) <==> y in s || y == x
  {
    InsertBySorted(le, s, x);
    var r := InsertBy(le, s, x);
    forall y ensures y in r <==> y in s || y == x {
      assert y in r <==> y in multiset(r);
      assert y in s <==> y in multiset(s);
    }
  }
}
