/** Sums of integer sequences and what reordering does to them. */
module Sums {

  function Sum(s: seq<int>): int {
    if s == [] then 0 else Sum(s[..|s| - 1]) + s[|s| - 1]
  }

  lemma {:induction false} SumConcat(a: seq<int>, b: seq<int>)
    ensures Sum(a + b) == Sum(a) + Sum(b)
  {
    if b == [] {
      assert a + b == a;
    } else {
      SumConcat(a, b[..|b| - 1]);
      assert (a + b)[..|a + b| - 1] == a + b[..|b| - 1];
    }
  }

  lemma {:induction false} SumLower(s: seq<int>, lo: int)
    requires forall i :: 0 <= i < |s| ==> lo <= s[i]
    ensures lo * |s| <= Sum(s)
  {
    if s != [] {
      SumLower(s[..|s| - 1], lo);
      assert lo * |s| == lo * (|s| - 1) + lo;
    }
  }

  /** A sum at its upper bound has every term at the bound. */
  lemma {:induction false} SumTight(s: seq<int>, hi: int)
    requires forall i :: 0 <= i < |s| ==> s[i] <= hi
    requires Sum(s) == hi * |s|
    ensures forall i :: 0 <= i < |s| ==> s[i] == hi
  {
    if s != [] {
      var front := s[..|s| - 1];
      SumUpper(front, hi);
      assert hi * |s| == hi * (|s| - 1) + hi;
      SumTight(front, hi);
      assert forall i :: 0 <= i < |front| ==> s[i] == front[i];
    }
  }

  lemma ScaleUp(x: int, y: int, n: nat)
    requires x <= y
    ensures x * n <= y * n
  {
  }

  lemma SplitProduct(k: int, lo: int, n: int, m: int)
    ensures (k - lo) * m + k * (n - m) == k * n - lo * m
  {
    assert (k - lo) * m == k * m - lo * m;
    assert k * (n - m) == k * n - k * m;
  }

  lemma {:induction false} SumUpper(s: seq<int>, hi: int)
    requires forall i :: 0 <= i < |s| ==> s[i] <= hi
    ensures Sum(s) <= hi * |s|
  {
    if s != [] {
      SumUpper(s[..|s| - 1], hi);
      assert hi * |s| == hi * (|s| - 1) + hi;
    }
  }

  // ----- Permutations of indices

  predicate Distinct(order: seq<int>) {
    forall i, j :: 0 <= i < j < |order| ==> order[i] != order[j]
  }

  predicate Permutation(order: seq<nat>, n: nat) {
    |order| == n && (forall i :: 0 <= i < n ==> order[i] < n) && Distinct(order)
  }

  function Elements(s: seq<int>): set<int> {
    set x | x in s
  }

  lemma {:induction false} DistinctSize(s: seq<int>)
    requires Distinct(s)
    ensures |Elements(s)| == |s|
  {
    if s != [] {
      DistinctSize(s[..|s| - 1]);
      assert Elements(s) == Elements(s[..|s| - 1]) + {s[|s| - 1]};
    }
  }

  /** The `n` numbers from `lo` on. */
  function Range(lo: int, n: nat): (r: set<int>)
    ensures forall x :: x in r <==> lo <= x < lo + n
    ensures |r| == n
  {
    if n == 0 then {} else Range(lo, n - 1) + {lo + n - 1}
  }

  lemma SubsetSize<T>(a: set<T>, b: set<T>)
    requires a <= b
    ensures |a| <= |b| && (|a| == |b| ==> a == b)
  {
    assert |b| == |a| + |b - a| by { assert b == a + (b - a); }
    if b - a != {} { var x :| x in b - a; } else { assert b == a; }
  }

  /** A permutation misses no index. */
  lemma IndexOccurs(order: seq<nat>, n: nat, t: nat)
    requires Permutation(order, n) && t < n
    ensures t in order
  {
    DistinctSize(order);
    SubsetSize(Elements(order), Range(0, n));
    assert t in Range(0, n);
  }

  /** The entries of `f` in the order given; an index out of range contributes 0. */
  function Pick(f: seq<int>, order: seq<nat>): (r: seq<int>)
    ensures |r| == |order| && forall i :: 0 <= i < |r| && order[i] < |f| ==> r[i] == f[order[i]]
  {
    seq(|order|, i requires 0 <= i < |order| => if order[i] < |f| then f[order[i]] else 0)
  }

  lemma PickConcat(f: seq<int>, a: seq<nat>, b: seq<nat>)
    ensures Pick(f, a + b) == Pick(f, a) + Pick(f, b)
    ensures Sum(Pick(f, a + b)) == Sum(Pick(f, a)) + Sum(Pick(f, b))
  {
    assert Pick(f, a + b) == Pick(f, a) + Pick(f, b);
    SumConcat(Pick(f, a), Pick(f, b));
  }

  lemma Remove(order: seq<nat>, n: nat, k: nat)
    requires Permutation(order, n) && k < n && order[k] == n - 1
    ensures Permutation(order[..k] + order[k + 1..], n - 1)
  {
    var r := order[..k] + order[k + 1..];
    forall i | 0 <= i < n - 1 ensures r[i] == order[if i < k then i else i + 1] && r[i] < n - 1 { }
  }

  lemma SumPickRemove(f: seq<int>, order: seq<nat>, k: nat)
    requires k < |order| && order[k] < |f|
    ensures Sum(Pick(f, order)) == Sum(Pick(f, order[..k] + order[k + 1..])) + f[order[k]]
  {
    var a, x, b := order[..k], [order[k]], order[k + 1..];
    assert order == a + x + b;
    PickConcat(f, a + x, b);
    PickConcat(f, a, x);
    PickConcat(f, a, b);
    assert Pick(f, x) == [f[order[k]]];
  }

  lemma PickFront(f: seq<int>, order: seq<nat>)
    requires f != [] && forall i :: 0 <= i < |order| ==> order[i] < |f| - 1
    ensures Pick(f[..|f| - 1], order) == Pick(f, order)
  {
  }

  /** Reordering does not change a sum. */
  lemma {:induction false} SumPick(f: seq<int>, order: seq<nat>)
    requires Permutation(order, |f|)
    ensures Sum(Pick(f, order)) == Sum(f)
    decreases |f|
  {
    var n := |f|;
    if n > 0 {
      IndexOccurs(order, n, n - 1);
      var k :| 0 <= k < n && order[k] == n - 1;
      var rest, front := order[..k] + order[k + 1..], f[..n - 1];
      Remove(order, n, k);
      SumPick(front, rest);
      PickFront(f, rest);
      SumPickRemove(f, order, k);
    }
  }

  lemma SumSplit(f: seq<int>, order: seq<nat>, n: nat)
    requires Permutation(order, |f|) && n <= |f|
    ensures Sum(f) == Sum(Pick(f, order[..n])) + Sum(Pick(f, order[n..]))
  {
    SumPick(f, order);
    assert order == order[..n] + order[n..];
    PickConcat(f, order[..n], order[n..]);
  }
}

/** Sums of real sequences. */
module RealSums {

  function Sum(s: seq<real>): real {
    if s == [] then 0.0 else Sum(s[..|s| - 1]) + s[|s| - 1]
  }

  lemma {:induction false} SumConcat(a: seq<real>, b: seq<real>)
    ensures Sum(a + b) == Sum(a) + Sum(b)
  {
    if b == [] {
      assert a + b == a;
    } else {
      SumConcat(a, b[..|b| - 1]);
      assert (a + b)[..|a + b| - 1] == a + b[..|b| - 1];
    }
  }
}
