/** Counting arguments on finite index ranges. */
module Pigeonhole {
  import opened Sequences

  ghost predicate Below(f: seq<nat>, m: nat) {
    forall i :: 0 <= i < |f| ==> f[i] < m
  }

  ghost function Range(m: nat): (r: set<nat>)
    ensures |r| == m && forall x: nat :: x in r <==> x < m
  {
    if m == 0 then {} else Range(m - 1) + {m - 1}
  }

  lemma {:induction false} ElementsSize<T>(f: seq<T>)
    requires Distinct(f)
    ensures |Elements(f)| == |f|
  {
    if f != [] {
      var front, last := f[..|f| - 1], f[|f| - 1];
      ElementsSize(front);
      assert f == front + [last];
      assert Elements(f) == Elements(front) + {last};
    }
  }

  lemma ElementsStep<T>(f: seq<T>, n: nat)
    requires n < |f|
    ensures Elements(f[..n + 1]) == Elements(f[..n]) + {f[n]}
  {
    assert f[..n + 1] == f[..n] + [f[n]];
  }

  /** A list has as many distinct entries as entries exactly when none repeats. */
  lemma {:induction false} ElementsCount<T>(f: seq<T>)
    ensures |Elements(f)| <= |f|
    ensures |Elements(f)| == |f| <==> Distinct(f)
  {
    if Distinct(f) {
      ElementsSize(f);
    } else {
      var front, last := f[..|f| - 1], f[|f| - 1];
      ElementsCount(front);
      assert f == front + [last];
      assert Elements(f) == Elements(front) + {last};
      if Distinct(front) {
        assert last in front;
        assert Elements(f) == Elements(front);
      }
    }
  }

  lemma {:induction false} SubsetSize<T>(a: set<T>, b: set<T>)
    requires a <= b
    ensures |a| <= |b|
    ensures |a| == |b| ==> a == b
  {
    if a != {} {
      var x :| x in a;
      SubsetSize(a - {x}, b - {x});
      if |a| == |b| {
        assert a == (a - {x}) + {x} && b == (b - {x}) + {x};
      }
    }
  }

  /** A list without repetition of numbers below m has at most m entries, and
      with m entries it holds all of them. */
  lemma Pigeons(f: seq<nat>, m: nat)
    requires Below(f, m) && Distinct(f)
    ensures |f| <= m
    ensures |f| == m ==> forall x: nat :: x < m ==> x in f
  {
    ElementsSize(f);
    assert Elements(f) <= Range(m);
    SubsetSize(Elements(f), Range(m));
    if |f| == m {
      forall x: nat | x < m
        ensures x in f
      {
        assert x in Range(m);
      }
    }
  }

  ghost predicate HasRight(i: nat, m: nat, rel: (nat, nat) -> bool) {
    exists j: nat :: j < m && rel(i, j)
  }

  ghost predicate HasLeft(n: nat, j: nat, rel: (nat, nat) -> bool) {
    exists i: nat :: i < n && rel(i, j)
  }

  /** No left item has two partners, and no right item has two. */
  ghost predicate AtMostOne(n: nat, m: nat, rel: (nat, nat) -> bool) {
    && (forall i: nat, j: nat, j': nat :: i < n && j < m && j' < m && rel(i, j) && rel(i, j') ==> j == j')
    && (forall i: nat, i': nat, j: nat :: i < n && i' < n && j < m && rel(i, j) && rel(i', j) ==> i == i')
  }

  /** Each of the n left items goes with exactly one of the m right items, and
      the other way round. */
  ghost predicate Bijection(n: nat, m: nat, rel: (nat, nat) -> bool) {
    && AtMostOne(n, m, rel)
    && (forall i: nat :: i < n ==> HasRight(i, m, rel))
    && (forall j: nat :: j < m ==> HasLeft(n, j, rel))
  }

  /** A choice of a partner for each of n items among m. */
  lemma {:induction false} Choose(n: nat, m: nat, rel: (nat, nat) -> bool) returns (f: seq<nat>)
    requires forall i: nat :: i < n ==> HasRight(i, m, rel)
    ensures |f| == n && Below(f, m)
    ensures forall i: nat :: i < n ==> rel(i, f[i])
  {
    if n == 0 {
      f := [];
    } else {
      var front := Choose(n - 1, m, rel);
      assert HasRight(n - 1, m, rel);
      var j: nat :| j < m && rel(n - 1, j);
      f := front + [j];
    }
  }

  lemma BijectionSizes(n: nat, m: nat, rel: (nat, nat) -> bool)
    requires Bijection(n, m, rel)
    ensures n == m
  {
    var f := Choose(n, m, rel);
    assert Distinct(f);
    Pigeons(f, m);
    var back := (j: nat, i: nat) => rel(i, j);
    forall j: nat | j < m
      ensures HasRight(j, n, back)
    {
      assert HasLeft(n, j, rel);
      var i: nat :| i < n && rel(i, j);
      assert back(j, i);
    }
    var g := Choose(m, n, back);
    assert forall j: nat :: j < m ==> back(j, g[j]) && rel(g[j], j);
    assert Distinct(g);
    Pigeons(g, n);
  }

  /** Between equally many items, checks on one side alone are enough: if every
      left item has exactly one partner and no two share one, nobody on the
      right is left over. */
  lemma OneSidedIsBijection(n: nat, rel: (nat, nat) -> bool)
    requires AtMostOne(n, n, rel)
    requires forall i: nat :: i < n ==> HasRight(i, n, rel)
    ensures Bijection(n, n, rel)
  {
    var f := Choose(n, n, rel);
    assert Distinct(f);
    Pigeons(f, n);
    forall j: nat | j < n
      ensures HasLeft(n, j, rel)
    {
      assert j in f;
      var i :| 0 <= i < n && f[i] == j;
      assert rel(i, f[i]);
    }
  }
}
