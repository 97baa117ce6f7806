/** The order statistics used by the trend monitor, over exact reals. */
module Statistics {

  // ----- Sorting

  predicate Sorted(s: seq<real>) {
    forall i, j :: 0 <= i < j < |s| ==> s[i] <= s[j]
  }

  function Insert(s: seq<real>, x: real): seq<real> {
    if s == [] then [x]
    else if s[|s| - 1] <= x then s + [x]
    else Insert(s[..|s| - 1], x) + [s[|s| - 1]]
  }

  function Sort(s: seq<real>): seq<real> {
    if s == [] then [] else Insert(Sort(s[..|s| - 1]), s[|s| - 1])
  }

  lemma {:induction false} InsertBag(s: seq<real>, x: real)
    ensures multiset(Insert(s, x)) == multiset(s) + multiset{x}
  {
    if s != [] && x < s[|s| - 1] {
      InsertBag(s[..|s| - 1], x);
      assert s == s[..|s| - 1] + [s[|s| - 1]];
    }
  }

  lemma {:induction false} InsertBound(s: seq<real>, x: real, hi: real)
    requires x <= hi && forall i :: 0 <= i < |s| ==> s[i] <= hi
    ensures forall i :: 0 <= i < |Insert(s, x)| ==> Insert(s, x)[i] <= hi
  {
    if s != [] && x < s[|s| - 1] { InsertBound(s[..|s| - 1], x, hi); }
  }

  lemma {:induction false} InsertSorted(s: seq<real>, x: real)
    requires Sorted(s)
    ensures Sorted(Insert(s, x))
  {
    if s != [] && x < s[|s| - 1] {
      InsertSorted(s[..|s| - 1], x);
      InsertBound(s[..|s| - 1], x, s[|s| - 1]);
    }
  }

  lemma {:induction false} SortBag(s: seq<real>)
    ensures multiset(Sort(s)) == multiset(s) && |Sort(s)| == |s|
  {
    if s != [] {
      var front, last := s[..|s| - 1], s[|s| - 1];
      SortBag(front);
      InsertBag(Sort(front), last);
      assert s == front + [last];
    }
    assert |multiset(Sort(s))| == |multiset(s)|;
  }

  lemma {:induction false} SortSorts(s: seq<real>)
    ensures Sorted(Sort(s)) && |Sort(s)| == |s|
  {
    SortBag(s);
    if s != [] {
      SortSorts(s[..|s| - 1]);
      InsertSorted(Sort(s[..|s| - 1]), s[|s| - 1]);
    }
  }

  // ----- The median

  /** The middle of the sorted values, or the mean of the two middle ones. */
  function Median(s: seq<real>): real
    requires s != []
  {
    SortSorts(s);
    var t, n := Sort(s), |s|;
    if n % 2 == 1 then t[n / 2] else (t[n / 2 - 1] + t[n / 2]) / 2.0
  }

  /** How many values lie below `x`. */
  function Below(s: seq<real>, x: real): nat {
    if s == [] then 0 else Below(s[..|s| - 1], x) + if s[|s| - 1] < x then 1 else 0
  }

  function Above(s: seq<real>, x: real): nat {
    if s == [] then 0 else Above(s[..|s| - 1], x) + if s[|s| - 1] > x then 1 else 0
  }

  lemma CountAppend(s: seq<real>, v: real, x: real)
    ensures Below(s + [v], x) == Below(s, x) + if v < x then 1 else 0
    ensures Above(s + [v], x) == Above(s, x) + if v > x then 1 else 0
  {
    assert (s + [v])[..|s|] == s;
  }

  lemma {:induction false} CountInsert(s: seq<real>, v: real, x: real)
    ensures Below(Insert(s, v), x) == Below(s, x) + if v < x then 1 else 0
    ensures Above(Insert(s, v), x) == Above(s, x) + if v > x then 1 else 0
  {
    if s == [] || s[|s| - 1] <= v {
      assert s == [] ==> s + [v] == [v];
      CountAppend(s, v, x);
    } else {
      var front, last := s[..|s| - 1], s[|s| - 1];
      CountInsert(front, v, x);
      CountAppend(Insert(front, v), last, x);
    }
  }

  lemma {:induction false} CountSort(s: seq<real>, x: real)
    ensures Below(Sort(s), x) == Below(s, x) && Above(Sort(s), x) == Above(s, x)
  {
    if s != [] {
      CountSort(s[..|s| - 1], x);
      CountInsert(Sort(s[..|s| - 1]), s[|s| - 1], x);
    }
  }

  /** In a sorted list the values below `x` come first and those above it last. */
  lemma {:induction false} SortedCounts(t: seq<real>, x: real)
    requires Sorted(t)
    ensures Below(t, x) <= |t| && Above(t, x) <= |t|
    ensures forall k :: 0 <= k < |t| ==> (t[k] < x <==> k < Below(t, x))
    ensures forall k :: 0 <= k < |t| ==> (t[k] > x <==> k >= |t| - Above(t, x))
  {
    if t != [] {
      var front := t[..|t| - 1];
      SortedCounts(front, x);
      assert forall k :: 0 <= k < |front| ==> t[k] == front[k];
      if t[|t| - 1] < x && front != [] { assert t[|t| - 2] <= t[|t| - 1]; }
    }
  }

  /** The k-th smallest value is below `x` exactly when more than k values are. */
  lemma RankBelow(s: seq<real>, x: real, k: nat)
    requires k < |s|
    ensures |Sort(s)| == |s| && (Sort(s)[k] < x <==> k < Below(s, x))
  {
    SortSorts(s);
    CountSort(s, x);
    SortedCounts(Sort(s), x);
  }

  lemma RankAbove(s: seq<real>, x: real, k: nat)
    requires k < |s|
    ensures |Sort(s)| == |s| && (Sort(s)[k] > x <==> k >= |s| - Above(s, x))
  {
    SortSorts(s);
    CountSort(s, x);
    SortedCounts(Sort(s), x);
  }

  /**
    Robustness of the median: when fewer than half of the values lie outside [lo, hi], the median
    lies inside, whatever the outliers are.
  */
  lemma MedianInRange(s: seq<real>, lo: real, hi: real)
    requires s != [] && 2 * (Below(s, lo) + Above(s, hi)) < |s|
    ensures lo <= Median(s) <= hi
  {
    var n := |s|;
    RankBelow(s, lo, n / 2);
    RankAbove(s, hi, n / 2);
    if n % 2 == 0 {
      RankBelow(s, lo, n / 2 - 1);
      RankAbove(s, hi, n / 2 - 1);
    }
  }

  /** The value at position `i` when the values are put in order. */
  predicate AtRank(s: seq<real>, v: real, i: int) {
    v in s && Below(s, v) <= i < |s| - Above(s, v)
  }

  lemma SortAtRank(s: seq<real>, i: nat)
    requires i < |s|
    ensures |Sort(s)| == |s| && AtRank(s, Sort(s)[i], i)
  {
    SortBag(s);
    assert Sort(s)[i] in multiset(s);
    RankBelow(s, Sort(s)[i], i);
    RankAbove(s, Sort(s)[i], i);
  }

  /** The median is the value in the middle, or lies half way between the two in the middle. */
  lemma MedianIsMiddle(s: seq<real>) returns (lo: real, hi: real)
    requires s != []
    ensures AtRank(s, lo, (|s| - 1) / 2) && AtRank(s, hi, |s| / 2) && Median(s) == (lo + hi) / 2.0
  {
    SortAtRank(s, (|s| - 1) / 2);
    SortAtRank(s, |s| / 2);
    lo, hi := Sort(s)[(|s| - 1) / 2], Sort(s)[|s| / 2];
  }
}
