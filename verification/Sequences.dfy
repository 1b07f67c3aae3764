/** Lists in strictly rising order. */
module Sequences {
  predicate RisingBy<T>(s: seq<T>, key: T -> int) {
    forall i, j :: 0 <= i < j < |s| ==> key(s[i]) < key(s[j])
  }

  predicate AllIn<T(==)>(a: seq<T>, b: seq<T>) { forall i :: 0 <= i < |a| ==> a[i] in b }

  /** A list in strictly rising order is determined by what it holds. */
  lemma {:induction false} RisingUnique<T>(a: seq<T>, b: seq<T>, key: T -> int)
    requires RisingBy(a, key) && RisingBy(b, key)
    requires AllIn(a, b) && AllIn(b, a)
    ensures a == b
  {
    hide RisingBy, AllIn;
    if a == [] && b == [] {
    } else {
      var m, n := |a| - 1, |b| - 1;
      SameLast(a, b, key);
      FrontIn(a, b, key);
      FrontIn(b, a, key);
      RisingUnique(a[..m], b[..n], key);
      assert a == a[..m] + [a[m]] && b == b[..n] + [b[n]];
    }
  }

  lemma FrontIn<T>(a: seq<T>, b: seq<T>, key: T -> int)
    requires RisingBy(a, key) && RisingBy(b, key) && a != [] && b != [] && a[|a| - 1] == b[|b| - 1]
    requires AllIn(a, b)
    ensures RisingBy(a[..|a| - 1], key) && AllIn(a[..|a| - 1], b[..|b| - 1])
  {
    var m, n := |a| - 1, |b| - 1;
    forall i | 0 <= i < m ensures a[i] in b[..n] {
      var k :| 0 <= k < |b| && b[k] == a[i];
      assert key(a[i]) < key(a[m]);
      assert b[..n][k] == b[k];
    }
  }

  lemma SameLast<T>(a: seq<T>, b: seq<T>, key: T -> int)
    requires RisingBy(a, key) && RisingBy(b, key) && (a != [] || b != [])
    requires AllIn(a, b) && AllIn(b, a)
    ensures a != [] && b != [] && a[|a| - 1] == b[|b| - 1]
  {
    assert (a != [] ==> a[0] in b) && (b != [] ==> b[0] in a);
    var m, n := |a| - 1, |b| - 1;
    assert a[m] in b && b[n] in a;
    var i :| 0 <= i < |b| && b[i] == a[m];
    var j :| 0 <= j < |a| && a[j] == b[n];
    assert key(b[i]) <= key(b[n]) && key(a[j]) <= key(a[m]);
  }
}
