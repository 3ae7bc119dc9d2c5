// Counting finite sets by a key.
module Counting {
  ghost function Fibre<X, K>(xs: set<X>, key: X -> K, k: K): set<X> {
    set x | x in xs && key(x) == k
  }

  ghost function SumOver<K>(ks: set<K>, f: K -> int): int
    decreases |ks|
  {
    if exists k :: k in ks then
      var k :| k in ks;
      f(k) + SumOver(ks - {k}, f)
    else 0
  }

  lemma {:induction false} SumPick<K>(ks: set<K>, f: K -> int, k: K)
    requires k in ks
    ensures SumOver(ks, f) == f(k) + SumOver(ks - {k}, f)
    decreases |ks|
  {
    var first :| first in ks && SumOver(ks, f) == f(first) + SumOver(ks - {first}, f);
    if first != k {
      SumPick(ks - {first}, f, k);
      SumPick(ks - {k}, f, first);
      assert ks - {first} - {k} == ks - {k} - {first};
    }
  }

  /** A set is as large as its parts with each key together. */
  lemma {:induction false} FibresSum<X, K>(xs: set<X>, key: X -> K, ks: set<K>, size: K -> int)
    requires forall x :: x in xs ==> key(x) in ks
    requires forall k :: k in ks ==> size(k) == |Fibre(xs, key, k)|
    ensures |xs| == SumOver(ks, size)
    decreases |ks|
  {
    if exists k :: k in ks {
      var k :| k in ks;
      var here := Fibre(xs, key, k);
      var rest := xs - here;
      forall j | j in ks - {k}
        ensures size(j) == |Fibre(rest, key, j)|
      {
        assert Fibre(rest, key, j) == Fibre(xs, key, j);
      }
      FibresSum(rest, key, ks - {k}, size);
      SumPick(ks, size, k);
      assert xs == here + rest;
    } else if exists x :: x in xs {
      assert false;
    }
  }

  lemma {:induction false} FibresBounded<X, K>(xs: set<X>, key: X -> K, ks: set<K>, most: nat)
    requires forall x :: x in xs ==> key(x) in ks
    requires forall k :: k in ks ==> |Fibre(xs, key, k)| <= most
    ensures |xs| <= most * |ks|
    decreases |ks|
  {
    if exists k :: k in ks {
      var k :| k in ks;
      var here := Fibre(xs, key, k);
      var rest := xs - here;
      forall j | j in ks - {k}
        ensures |Fibre(rest, key, j)| <= most
      {
        assert Fibre(rest, key, j) == Fibre(xs, key, j);
      }
      FibresBounded(rest, key, ks - {k}, most);
      assert xs == here + rest;
      OneMore(most, |ks|);
    } else if exists x :: x in xs {
      assert false;
    }
  }

  lemma OneMore(m: nat, k: nat)
    requires k > 0
    ensures m * k == m * (k - 1) + m
  {
  }

  /** An injection keeps the size. */
  lemma {:induction false} ImageSize<X, Y>(xs: set<X>, f: X -> Y, ys: set<Y>)
    requires forall x, y :: x in xs && y in xs && f(x) == f(y) ==> x == y
    requires forall x :: x in xs ==> f(x) in ys
    requires forall y :: y in ys ==> exists x :: x in xs && f(x) == y
    ensures |xs| == |ys|
    decreases |xs|
  {
    if exists x :: x in xs {
      var x :| x in xs;
      assert f(x) in ys;
      ImageSize(xs - {x}, f, ys - {f(x)});
    } else if exists y :: y in ys {
      assert false;
    }
  }

  lemma {:induction false} SubsetSize<X>(a: set<X>, b: set<X>)
    requires a <= b
    ensures |a| <= |b|
    decreases |a|
  {
    if exists x :: x in a {
      var x :| x in a;
      SubsetSize(a - {x}, b - {x});
    }
  }
}
