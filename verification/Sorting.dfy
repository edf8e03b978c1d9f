/** Ordered iteration: the list a sorted set or map is walked in, and its uniqueness. */
module Sorting {

  /** A strict total order on the whole type. */
  ghost predicate StrictOrder<T(!new)>(less: (T, T) -> bool) {
    && (forall x :: !less(x, x))
    && (forall x, y, z :: less(x, y) && less(y, z) ==> less(x, z))
    && (forall x, y :: x == y || less(x, y) || less(y, x))
  }

  /** Strictly increasing, so nothing is repeated. */
  ghost predicate Ascending<T>(s: seq<T>, less: (T, T) -> bool) {
    forall i, j :: 0 <= i < j < |s| ==> less(s[i], s[j])
  }

  lemma {:induction false} LeastExists<T(!new)>(s: set<T>, less: (T, T) -> bool)
    requires StrictOrder(less) && s != {}
    ensures exists m :: m in s && forall x :: x in s ==> x == m || less(m, x)
  {
    var a :| a in s;
    if s != {a} {
      LeastExists(s - {a}, less);
      var m :| m in s - {a} && forall x :: x in s - {a} ==> x == m || less(m, x);
      var least := if less(a, m) then a else m;
      forall x | x in s ensures x == least || less(least, x) {
        assert x == a || x in s - {a};
        assert a == m || less(a, m) || less(m, a);
      }
      assert least in s;
    }
  }

  function Least<T(==, !new)>(s: set<T>, less: (T, T) -> bool): (m: T)
    requires StrictOrder(less) && s != {}
    ensures m in s && forall x :: x in s ==> x == m || less(m, x)
  {
    LeastExists(s, less);
    var m :| m in s && forall x | x in s :: x == m || less(m, x);
    m
  }

  /** The elements of `s` in increasing order: how a sorted set, or the keys of a sorted map, are walked. */
  function Sorted<T(==, !new)>(s: set<T>, less: (T, T) -> bool): seq<T>
    requires StrictOrder(less)
  {
    if s == {} then []
    else
      var m := Least(s, less);
      [m] + Sorted(s - {m}, less)
  }

  lemma {:induction false} SortedCorrect<T(!new)>(s: set<T>, less: (T, T) -> bool)
    requires StrictOrder(less)
    ensures Ascending(Sorted(s, less), less)
    ensures forall x :: x in Sorted(s, less) <==> x in s
    ensures |Sorted(s, less)| == |s|
  {
    if s != {} {
      var m := Least(s, less);
      SortedCorrect(s - {m}, less);
    }
  }

  /** Two increasing lists of the same elements are the same list. */
  lemma {:induction false} AscendingUnique<T(!new)>(a: seq<T>, b: seq<T>, less: (T, T) -> bool)
    requires StrictOrder(less)
    requires Ascending(a, less) && Ascending(b, less)
    requires forall x :: x in a <==> x in b
    ensures a == b
  {
    assert a == [] || a[0] in b;
    assert b == [] || b[0] in a;
    if a != [] {
      assert a[0] == b[0];
      var a', b' := a[1..], b[1..];
      forall x | x in a' ensures x in b' {
        assert x in b && less(a[0], x);
      }
      forall x | x in b' ensures x in a' {
        assert x in a && less(b[0], x);
      }
      AscendingUnique(a', b', less);
    }
  }
}
