/** Ordering a finite set of rows by an integer key, the way an SQL
    `ORDER BY` hands back a table's rows. Ties come out in some order the
    caller cannot rely on, just as SQLite leaves them unspecified. */
module Sorting {

  predicate SortedBy<T>(s: seq<T>, key: T -> int) {
    forall i, j :: 0 <= i < j < |s| ==> key(s[i]) <= key(s[j])
  }

  predicate Distinct<T(==)>(s: seq<T>) {
    forall i, j :: 0 <= i < j < |s| ==> s[i] != s[j]
  }

  /** Every non-empty finite set has an element of least key. */
  lemma {:induction false} MinExists<T>(s: set<T>, key: T -> int)
    requires s != {}
    ensures exists m :: m in s && forall y :: y in s ==> key(m) <= key(y)
  {
    var x :| x in s;
    if s == {x} {
      assert forall y :: y in s ==> y == x;
    } else {
      var rest := s - {x};
      MinExists(rest, key);
      var m :| m in rest && forall y :: y in rest ==> key(m) <= key(y);
      if key(x) <= key(m) {
        assert forall y :: y in s ==> key(x) <= key(y);
      } else {
        assert forall y :: y in s ==> key(m) <= key(y);
      }
    }
  }

  /** Lists every element of `s` exactly once, in non-decreasing key order. */
  method SortByKey<T(==)>(s: set<T>, key: T -> int) returns (r: seq<T>)
    ensures |r| == |s|
    ensures forall x :: x in r <==> x in s
    ensures Distinct(r)
    ensures SortedBy(r, key)
  {
    r := [];
    var rest := s;
    while rest != {}
      invariant rest <= s
      invariant forall x :: x in r <==> x in s && x !in rest
      invariant Distinct(r)
      invariant SortedBy(r, key)
      invariant forall i, y :: 0 <= i < |r| && y in rest ==> key(r[i]) <= key(y)
      invariant |r| + |rest| == |s|
      decreases |rest|
    {
      MinExists(rest, key);
      var m :| m in rest && forall y :: y in rest ==> key(m) <= key(y);
      r := r + [m];
      rest := rest - {m};
    }
  }
}
