/**
  `MoEImbalanceSimulator.create_logits_from_counts` (benchmark/moe/utils.py): router logits that
  give every expert a prescribed number of tokens, built by a greedy fill of a token-by-slot
  matrix. `np.argsort` leaves the order of ties open, so it appears here only through a contract.
*/
module MoeAssignment {
  import opened Sums

  datatype Failure = EmptyCounts | NoTokens | TokensFull | NoSuchExpert

  /** `assignments[t]` holds the experts of token `t`, padded with -1. */
  datatype Routing = Routing(assignments: seq<seq<int>>, logits: seq<seq<real>>)

  datatype Result = Ok(routing: Routing) | Err(failure: Failure)

  // ----- Library routines

  predicate IsArgsort(keys: seq<int>, order: seq<nat>) {
    && Permutation(order, |keys|)
    && forall i, j :: 0 <= i < j < |order| ==> keys[order[i]] <= keys[order[j]]
  }

  lemma InsertKept(keys: seq<int>, order: seq<nat>, n: nat, k: nat)
    requires n < |keys| && k <= n && Permutation(order, n)
    requires forall i, j :: 0 <= i < j < n ==> keys[order[i]] <= keys[order[j]]
    requires forall i :: 0 <= i < k ==> keys[order[i]] <= keys[n]
    requires k < n ==> keys[n] <= keys[order[k]]
    ensures var r := order[..k] + [n] + order[k..];
      Permutation(r, n + 1) && forall i, j :: 0 <= i < j < n + 1 ==> keys[r[i]] <= keys[r[j]]
  {
    var r := order[..k] + [n] + order[k..];
    assert forall i :: 0 <= i < n + 1 ==>
      r[i] == if i < k then order[i] else if i == k then n else order[i - 1];
  }

  /** `np.argsort`: any order of the indices that sorts the keys. */
  method Argsort(keys: seq<int>) returns (order: seq<nat>)
    ensures IsArgsort(keys, order)
  {
    order := [];
    for n := 0 to |keys|
      invariant Permutation(order, n)
      invariant forall i, j :: 0 <= i < j < n ==> keys[order[i]] <= keys[order[j]]
    {
      var k := 0;
      while k < n && keys[order[k]] <= keys[n]
        invariant 0 <= k <= n
        invariant forall i :: 0 <= i < k ==> keys[order[i]] <= keys[n]
      {
        k := k + 1;
      }
      InsertKept(keys, order, n, k);
      order := order[..k] + [n] + order[k..];
    }
  }

  /** `np.argmax`: the first index of a largest entry. */
  function ArgMax(s: seq<int>): (k: nat)
    requires s != []
    ensures k < |s|
    ensures forall i :: 0 <= i < |s| ==> s[i] <= s[k] && (i < k ==> s[i] < s[k])
  {
    if |s| == 1 then 0
    else var k := ArgMax(s[..|s| - 1]); if s[k] < s[|s| - 1] then |s| - 1 else k
  }

  /** The repaired counts: a wrong total is corrected on the largest count. */
  function Repaired(counts: seq<int>, total: int): (c: seq<int>)
    requires counts != [] || total == 0
    ensures |c| == |counts|
  {
    if Sum(counts) == total then counts
    else var k := ArgMax(counts); counts[k := counts[k] + total - Sum(counts)]
  }

  /** Only the first of the largest counts is ever changed. */
  lemma RepairedOnLargest(counts: seq<int>, total: int, k: nat)
    requires k < |counts|
    requires forall i :: 0 <= i < |counts| ==> counts[i] <= counts[k]
    requires forall i :: 0 <= i < k ==> counts[i] < counts[k]
    ensures forall i :: 0 <= i < |counts| && i != k ==> Repaired(counts, total)[i] == counts[i]
    ensures Repaired(counts, total)[k] == counts[k] + (total - Sum(counts))
  {
  }

  lemma {:induction false} SumUpdate(s: seq<int>, k: nat, x: int)
    requires k < |s|
    ensures Sum(s[k := x]) == Sum(s) - s[k] + x
  {
    var n := |s| - 1;
    if k == n { assert s[k := x][..n] == s[..n]; }
    else {
      SumUpdate(s[..n], k, x);
      assert s[k := x][..n] == s[..n][k := x];
    }
  }

  lemma RepairedTotal(counts: seq<int>, total: int)
    requires counts != [] || total == 0
    ensures Sum(Repaired(counts, total)) == total
  {
    if Sum(counts) != total {
      var k := ArgMax(counts);
      SumUpdate(counts, k, counts[k] + total - Sum(counts));
    }
  }

  // ----- Rows: the experts each token has received so far

  type Rows = seq<seq<int>>

  function Fills(rows: Rows): (r: seq<int>)
    ensures |r| == |rows| && forall t :: 0 <= t < |r| ==> r[t] == |rows[t]|
  {
    seq(|rows|, t requires 0 <= t < |rows| => |rows[t]|)
  }

  /** The tokens that use expert `e`. */
  function Users(rows: Rows, e: int): set<int> {
    set t | 0 <= t < |rows| && e in rows[t]
  }

  predicate WellFilled(rows: Rows, topK: nat) {
    && (forall t :: 0 <= t < |rows| ==> |rows[t]| <= topK && Distinct(rows[t]))
    && (forall t, u :: 0 <= t < |rows| && 0 <= u < |rows| ==> |rows[t]| <= |rows[u]| + 1)
  }

  /** Expert `e` given to the chosen tokens. */
  function Place(rows: Rows, chosen: seq<nat>, e: int): (r: Rows)
    ensures |r| == |rows|
    ensures forall t :: 0 <= t < |r| ==> r[t] == if t in chosen then rows[t] + [e] else rows[t]
  {
    seq(|rows|, t requires 0 <= t < |rows| => if t in chosen then rows[t] + [e] else rows[t])
  }

  /** How many tokens an expert with count `c` can and does take. */
  function Demand(c: int, numTokens: nat): nat {
    if c <= 0 then 0 else if c < numTokens then c else numTokens
  }

  function Demands(counts: seq<int>, numTokens: nat): (r: seq<int>)
    ensures |r| == |counts| && forall e :: 0 <= e < |r| ==> r[e] == Demand(counts[e], numTokens)
  {
    seq(|counts|, e requires 0 <= e < |counts| => Demand(counts[e], numTokens))
  }

  // ----- One expert

  /** The picked values are bounded like the values they are picked from. */
  lemma PickAtLeast(f: seq<int>, order: seq<nat>, lo: int)
    requires forall i :: 0 <= i < |order| ==> order[i] < |f| && lo <= f[order[i]]
    ensures lo * |order| <= Sum(Pick(f, order))
  {
    SumLower(Pick(f, order), lo);
  }

  lemma PickAtMost(f: seq<int>, order: seq<nat>, hi: int)
    requires forall i :: 0 <= i < |order| ==> order[i] < |f| && f[order[i]] <= hi
    ensures Sum(Pick(f, order)) <= hi * |order|
  {
    SumUpper(Pick(f, order), hi);
  }

  lemma RoomIfFree(f: seq<int>, topK: nat, order: seq<nat>, n: nat)
    requires IsArgsort(f, order) && 1 <= n <= |f| && f[order[n - 1]] < topK
    requires forall t :: 0 <= t < |f| ==> f[t] <= topK
    ensures Sum(f) + n <= topK * |f|
  {
    SumSplit(f, order, n);
    HeadAtMost(f, order, n, topK - 1);
    PickAtMost(f, order[n..], topK);
    RoomArithmetic(Sum(Pick(f, order[..n])), Sum(Pick(f, order[n..])), topK, |f|, n);
  }

  lemma HeadAtMost(f: seq<int>, order: seq<nat>, n: nat, hi: int)
    requires IsArgsort(f, order) && 1 <= n <= |f| && f[order[n - 1]] <= hi
    ensures Sum(Pick(f, order[..n])) <= hi * n
  {
    PickAtMost(f, order[..n], hi);
  }

  lemma RoomArithmetic(head: int, tail: int, topK: int, size: int, n: int)
    ensures head <= (topK - 1) * n && tail <= topK * (size - n) ==> head + tail + n <= topK * size
    ensures head >= (topK - 1) * n && tail >= topK * (size - n) ==> head + tail + n >= topK * size
  {
    SplitProduct(topK, 1, size, n);
  }

  lemma NoRoomIfFull(f: seq<int>, topK: nat, order: seq<nat>, n: nat)
    requires IsArgsort(f, order) && 1 <= n <= |f| && f[order[n - 1]] >= topK
    requires forall u :: 0 <= u < |f| ==> topK <= f[u] + 1
    ensures Sum(f) + n > topK * |f|
  {
    SumSplit(f, order, n - 1);
    PickAtLeast(f, order[..n - 1], topK - 1);
    TailAtLeast(f, order, n - 1, topK);
    RoomArithmetic(Sum(Pick(f, order[..n - 1])), Sum(Pick(f, order[n - 1..])), topK, |f|, n - 1);
  }

  lemma TailAtLeast(f: seq<int>, order: seq<nat>, k: nat, lo: int)
    requires IsArgsort(f, order) && k < |f| && lo <= f[order[k]]
    ensures lo * (|f| - k) <= Sum(Pick(f, order[k..]))
  {
    var tail := order[k..];
    forall i | 0 <= i < |tail| ensures tail[i] < |f| && lo <= f[tail[i]] {
      assert tail[i] == order[k + i];
    }
    PickAtLeast(f, tail, lo);
  }

  /**
    The balanced-fill argument: as fills differ by at most one, the n-th least filled token has a
    free slot exactly when n more assignments fit into the matrix.
  */
  lemma FreeSlotIffRoom(rows: Rows, topK: nat, order: seq<nat>, n: nat)
    requires WellFilled(rows, topK) && IsArgsort(Fills(rows), order) && 1 <= n <= |rows|
    ensures |rows[order[n - 1]]| < topK <==> Sum(Fills(rows)) + n <= topK * |rows|
  {
    if |rows[order[n - 1]]| < topK {
      RoomIfFree(Fills(rows), topK, order, n);
    } else {
      NoRoomIfFull(Fills(rows), topK, order, n);
    }
  }

  lemma ChosenFills(rows: Rows, chosen: seq<nat>, e: int)
    requires forall i :: 0 <= i < |chosen| ==> chosen[i] < |rows|
    ensures Sum(Pick(Fills(Place(rows, chosen, e)), chosen)) == Sum(Pick(Fills(rows), chosen)) + |chosen|
  {
    var f, f' := Fills(rows), Fills(Place(rows, chosen, e));
    forall i | 0 <= i < |chosen| ensures Pick(f', chosen)[i] == Pick(f, chosen)[i] + 1 {
      assert chosen[i] in chosen;
    }
    SumShift(Pick(f, chosen), Pick(f', chosen));
  }

  lemma OtherFills(rows: Rows, chosen: seq<nat>, others: seq<nat>, e: int)
    requires forall i :: 0 <= i < |others| ==> others[i] < |rows| && others[i] !in chosen
    ensures Pick(Fills(Place(rows, chosen, e)), others) == Pick(Fills(rows), others)
  {
  }

  lemma TailApart(order: seq<nat>, size: nat, n: nat)
    requires Permutation(order, size) && n <= size
    ensures forall i :: 0 <= i < |order[n..]| ==> order[n..][i] < size && order[n..][i] !in order[..n]
  {
    forall i | 0 <= i < |order[n..]| ensures order[n..][i] < size && order[n..][i] !in order[..n] {
      assert order[n..][i] == order[n + i];
    }
  }

  lemma PlaceFills(rows: Rows, order: seq<nat>, n: nat, e: int)
    requires Permutation(order, |rows|) && n <= |rows|
    ensures Sum(Fills(Place(rows, order[..n], e))) == Sum(Fills(rows)) + n
  {
    var head, tail := order[..n], order[n..];
    var f, f' := Fills(rows), Fills(Place(rows, head, e));
    assert Sum(f) == Sum(Pick(f, head)) + Sum(Pick(f, tail)) by { SumSplit(f, order, n); }
    assert Sum(f') == Sum(Pick(f', head)) + Sum(Pick(f', tail)) by { SumSplit(f', order, n); }
    assert Sum(Pick(f', head)) == Sum(Pick(f, head)) + n by { ChosenFills(rows, head, e); }
    assert Pick(f', tail) == Pick(f, tail) by {
      TailApart(order, |rows|, n);
      OtherFills(rows, head, tail, e);
    }
  }

  lemma {:induction false} SumShift(s: seq<int>, s': seq<int>)
    requires |s| == |s'| && forall i :: 0 <= i < |s| ==> s'[i] == s[i] + 1
    ensures Sum(s') == Sum(s) + |s|
  {
    if s != [] { SumShift(s[..|s| - 1], s'[..|s| - 1]); }
  }

  lemma PlaceBalanced(rows: Rows, topK: nat, order: seq<nat>, n: nat, e: int, t: nat, u: nat)
    requires WellFilled(rows, topK) && IsArgsort(Fills(rows), order) && n <= |rows|
    requires t < |rows| && u < |rows|
    ensures var rows' := Place(rows, order[..n], e); |rows'[t]| <= |rows'[u]| + 1
  {
    var f := Fills(rows);
    if t in order[..n] && u !in order[..n] {
      var i :| 0 <= i < n && order[i] == t;
      IndexOccurs(order, |rows|, u);
      var j :| 0 <= j < |order| && order[j] == u;
      assert f[order[i]] <= f[order[j]];
    }
  }

  lemma PlaceDistinct(rows: Rows, topK: nat, order: seq<nat>, n: nat, e: int, t: nat)
    requires WellFilled(rows, topK) && IsArgsort(Fills(rows), order) && n <= |rows|
    requires n > 0 ==> |rows[order[n - 1]]| < topK
    requires t < |rows| && e !in rows[t]
    ensures var row := Place(rows, order[..n], e)[t]; |row| <= topK && Distinct(row)
  {
    if t in order[..n] {
      var i :| 0 <= i < n && order[i] == t;
      assert Fills(rows)[order[i]] <= Fills(rows)[order[n - 1]];
    }
  }

  /** Placing an unused expert on the least filled tokens keeps the rows balanced and distinct. */
  lemma PlaceKept(rows: Rows, topK: nat, order: seq<nat>, n: nat, e: int)
    requires WellFilled(rows, topK) && IsArgsort(Fills(rows), order) && n <= |rows|
    requires n > 0 ==> |rows[order[n - 1]]| < topK
    requires Users(rows, e) == {}
    ensures WellFilled(Place(rows, order[..n], e), topK)
  {
    var rows' := Place(rows, order[..n], e);
    forall t | 0 <= t < |rows'| ensures |rows'[t]| <= topK && Distinct(rows'[t]) {
      assert t !in Users(rows, e);
      PlaceDistinct(rows, topK, order, n, e, t);
    }
    forall t, u | 0 <= t < |rows'| && 0 <= u < |rows'| ensures |rows'[t]| <= |rows'[u]| + 1 {
      PlaceBalanced(rows, topK, order, n, e, t, u);
    }
  }

  lemma PlaceUsers(rows: Rows, order: seq<nat>, n: nat, e: int)
    requires Permutation(order, |rows|) && n <= |rows| && Users(rows, e) == {}
    ensures |Users(Place(rows, order[..n], e), e)| == n
    ensures forall e' :: e' != e ==> Users(Place(rows, order[..n], e), e') == Users(rows, e')
  {
    var rows', chosen := Place(rows, order[..n], e), order[..n];
    forall t | 0 <= t < |rows| ensures e !in rows[t] {
      assert t !in Users(rows, e);
    }
    assert Users(rows', e) == Elements(chosen);
    DistinctSize(chosen);
  }

  // ----- The matrix, filled in place

  /** The matrix holds the rows from the left, -1 elsewhere, and `fill` their lengths. */
  ghost predicate Holds(matrix: array2<int>, fill: array<int>, rows: Rows)
    reads matrix, fill
  {
    && matrix.Length0 == fill.Length == |rows|
    && (forall t :: 0 <= t < |rows| ==> fill[t] == |rows[t]| <= matrix.Length1)
    && (forall t, s :: 0 <= t < |rows| && 0 <= s < matrix.Length1 ==>
          matrix[t, s] == if s < |rows[t]| then rows[t][s] else -1)
  }

  method PlaceOne(matrix: array2<int>, fill: array<int>, t: nat, e: int, ghost rows: Rows)
    requires Holds(matrix, fill, rows) && t < |rows| && |rows[t]| < matrix.Length1
    modifies matrix, fill
    ensures Holds(matrix, fill, rows[t := rows[t] + [e]])
  {
    var slot := fill[t];
    matrix[t, slot] := e;
    fill[t] := fill[t] + 1;
  }

  lemma PlaceNext(rows: Rows, chosen: seq<nat>, j: nat, e: int)
    requires j < |chosen| && chosen[j] < |rows| && Distinct(chosen)
    ensures Place(rows, chosen[..j], e)[chosen[j]] == rows[chosen[j]]
    ensures Place(rows, chosen[..j + 1], e) ==
      Place(rows, chosen[..j], e)[chosen[j] := rows[chosen[j]] + [e]]
  {
    assert chosen[..j + 1] == chosen[..j] + [chosen[j]];
  }

  /** The inner loop over the chosen tokens. */
  method PlaceExpert(matrix: array2<int>, fill: array<int>, chosen: seq<nat>, e: int, ghost rows: Rows)
    requires Holds(matrix, fill, rows) && Distinct(chosen)
    requires forall i :: 0 <= i < |chosen| ==> chosen[i] < |rows| && |rows[chosen[i]]| < matrix.Length1
    modifies matrix, fill
    ensures Holds(matrix, fill, Place(rows, chosen, e))
  {
    assert Place(rows, chosen[..0], e) == rows;
    for j := 0 to |chosen|
      invariant Holds(matrix, fill, Place(rows, chosen[..j], e))
    {
      PlaceNext(rows, chosen, j, e);
      PlaceOne(matrix, fill, chosen[j], e, Place(rows, chosen[..j], e));
    }
    assert chosen[..|chosen|] == chosen;
  }

  // ----- The outer loop over the experts

  /** The rows after the first `k` experts of `order` have been served. */
  ghost predicate Served(rows: Rows, topK: nat, counts: seq<int>, order: seq<nat>, k: nat)
    requires Permutation(order, |counts|) && k <= |order|
  {
    && WellFilled(rows, topK)
    && Sum(Fills(rows)) == Sum(Pick(Demands(counts, |rows|), order[..k]))
    && (forall i :: 0 <= i < k ==> |Users(rows, order[i])| == Demand(counts[order[i]], |rows|))
    && (forall i :: k <= i < |order| ==> Users(rows, order[i]) == {})
    && (forall t, s :: 0 <= t < |rows| && 0 <= s < |rows[t]| ==> 0 <= rows[t][s] < |counts|)
  }

  lemma PickNext(f: seq<int>, order: seq<nat>, k: nat)
    requires Permutation(order, |f|) && k < |order|
    ensures Sum(Pick(f, order[..k + 1])) == Sum(Pick(f, order[..k])) + f[order[k]]
  {
    assert order[..k + 1] == order[..k] + [order[k]];
    PickConcat(f, order[..k], [order[k]]);
    assert Pick(f, [order[k]]) == [f[order[k]]];
  }

  lemma EntriesInRange(rows: Rows, chosen: seq<nat>, e: int, bound: int)
    requires forall t, s :: 0 <= t < |rows| && 0 <= s < |rows[t]| ==> 0 <= rows[t][s] < bound
    requires 0 <= e < bound
    ensures var rows' := Place(rows, chosen, e);
      forall t, s :: 0 <= t < |rows'| && 0 <= s < |rows'[t]| ==> 0 <= rows'[t][s] < bound
  {
  }

  lemma UsersNext(rows: Rows, counts: seq<int>, experts: seq<nat>, k: nat, tokens: seq<nat>, n: nat)
    requires Permutation(experts, |counts|) && k < |experts| && Permutation(tokens, |rows|)
    requires n == Demand(counts[experts[k]], |rows|)
    requires forall i :: 0 <= i < k ==> |Users(rows, experts[i])| == Demand(counts[experts[i]], |rows|)
    requires forall i :: k <= i < |experts| ==> Users(rows, experts[i]) == {}
    ensures var rows' := Place(rows, tokens[..n], experts[k]);
      && (forall i :: 0 <= i < k + 1 ==> |Users(rows', experts[i])| == Demand(counts[experts[i]], |rows|))
      && (forall i :: k + 1 <= i < |experts| ==> Users(rows', experts[i]) == {})
  {
    PlaceUsers(rows, tokens, n, experts[k]);
  }

  lemma ServeNext(rows: Rows, topK: nat, counts: seq<int>, experts: seq<nat>, k: nat, tokens: seq<nat>)
    requires Permutation(experts, |counts|) && k < |experts| && Served(rows, topK, counts, experts, k)
    requires IsArgsort(Fills(rows), tokens)
    requires var n := Demand(counts[experts[k]], |rows|); n > 0 ==> |rows[tokens[n - 1]]| < topK
    ensures var n := Demand(counts[experts[k]], |rows|);
      Served(Place(rows, tokens[..n], experts[k]), topK, counts, experts, k + 1)
  {
    var n, e := Demand(counts[experts[k]], |rows|), experts[k];
    PlaceKept(rows, topK, tokens, n, e);
    UsersNext(rows, counts, experts, k, tokens, n);
    EntriesInRange(rows, tokens[..n], e, |counts|);
    PlaceFills(rows, tokens, n, e);
    PickNext(Demands(counts, |rows|), experts, k);
  }

  /** Every token holds its experts in the order of their counts, the largest first. */
  predicate RowsDescend(rows: Rows, counts: seq<int>) {
    forall t, a, b :: 0 <= t < |rows| && 0 <= a < b < |rows[t]| ==>
      0 <= rows[t][a] < |counts| && 0 <= rows[t][b] < |counts| ==> counts[rows[t][b]] <= counts[rows[t][a]]
  }

  predicate Decreasing(counts: seq<int>, order: seq<nat>)
    requires Permutation(order, |counts|)
  {
    forall i, j :: 0 <= i < j < |order| ==> counts[order[j]] <= counts[order[i]]
  }

  /** Whoever has been served has at least the count of the next expert. */
  lemma ServedCountsMore(rows: Rows, topK: nat, counts: seq<int>, experts: seq<nat>, k: nat, t: nat, a: nat)
    requires Permutation(experts, |counts|) && Decreasing(counts, experts) && k < |experts|
    requires Served(rows, topK, counts, experts, k) && t < |rows| && a < |rows[t]|
    ensures 0 <= rows[t][a] < |counts| && counts[experts[k]] <= counts[rows[t][a]]
  {
    var x := rows[t][a];
    IndexOccurs(experts, |counts|, x);
    var i :| 0 <= i < |experts| && experts[i] == x;
    assert t in Users(rows, x);
  }

  lemma DescendNext(rows: Rows, topK: nat, counts: seq<int>, experts: seq<nat>, k: nat, chosen: seq<nat>)
    requires Permutation(experts, |counts|) && Decreasing(counts, experts) && k < |experts|
    requires Served(rows, topK, counts, experts, k) && RowsDescend(rows, counts)
    ensures RowsDescend(Place(rows, chosen, experts[k]), counts)
  {
    forall t, a | 0 <= t < |rows| && 0 <= a < |rows[t]|
      ensures 0 <= rows[t][a] < |counts| && counts[experts[k]] <= counts[rows[t][a]]
    {
      ServedCountsMore(rows, topK, counts, experts, k, t, a);
    }
    SmallestLast(rows, counts, experts[k], chosen);
  }

  lemma SmallestLast(rows: Rows, counts: seq<int>, e: nat, chosen: seq<nat>)
    requires RowsDescend(rows, counts) && e < |counts|
    requires forall t, a :: 0 <= t < |rows| && 0 <= a < |rows[t]| ==>
      0 <= rows[t][a] < |counts| && counts[e] <= counts[rows[t][a]]
    ensures RowsDescend(Place(rows, chosen, e), counts)
  {
    var rows' := Place(rows, chosen, e);
    forall t, a, b | 0 <= t < |rows'| && 0 <= a < b < |rows'[t]|
      ensures 0 <= rows'[t][a] < |counts| && 0 <= rows'[t][b] < |counts| && counts[rows'[t][b]] <= counts[rows'[t][a]]
    {
      assert rows'[t][a] == rows[t][a];
      assert rows'[t][b] == if b < |rows[t]| then rows[t][b] else e;
    }
  }

  lemma PlaceServed(
    rows: Rows, topK: nat, counts: seq<int>, experts: seq<nat>, k: nat, tokens: seq<nat>, rows': Rows)
    requires Permutation(experts, |counts|) && Decreasing(counts, experts) && k < |experts|
    requires Served(rows, topK, counts, experts, k) && RowsDescend(rows, counts) && IsArgsort(Fills(rows), tokens)
    requires var n := Demand(counts[experts[k]], |rows|);
      (n > 0 ==> |rows[tokens[n - 1]]| < topK) && rows' == Place(rows, tokens[..n], experts[k])
    ensures Served(rows', topK, counts, experts, k + 1) && RowsDescend(rows', counts)
  {
    ServeNext(rows, topK, counts, experts, k, tokens);
    DescendNext(rows, topK, counts, experts, k, tokens[..Demand(counts[experts[k]], |rows|)]);
  }

  lemma PartialDemand(counts: seq<int>, numTokens: nat, order: seq<nat>, k: nat)
    requires Permutation(order, |counts|) && k <= |order|
    ensures Sum(Pick(Demands(counts, numTokens), order[..k])) <= Sum(Demands(counts, numTokens))
    ensures k == |order| ==>
      Sum(Pick(Demands(counts, numTokens), order[..k])) == Sum(Demands(counts, numTokens))
  {
    var d := Demands(counts, numTokens);
    SumSplit(d, order, k);
    SumLower(Pick(d, order[k..]), 0);
  }

  /** A descending order of the experts, as `np.argsort(counts)[::-1]`. */
  method DescendingOrder(counts: seq<int>) returns (order: seq<nat>)
    ensures Permutation(order, |counts|)
    ensures Decreasing(counts, order)
  {
    var up := Argsort(counts);
    order := seq(|up|, i requires 0 <= i < |up| => up[|up| - 1 - i]);
  }

  /** What a finished assignment is. */
  ghost predicate Assigned(rows: Rows, numTokens: nat, topK: nat, counts: seq<int>) {
    && |rows| == numTokens
    && WellFilled(rows, topK)
    && Sum(Fills(rows)) == Sum(Demands(counts, numTokens))
    && RowsDescend(rows, counts)
    && (forall e :: 0 <= e < |counts| ==> |Users(rows, e)| == Demand(counts[e], numTokens))
    && (forall t, s :: 0 <= t < |rows| && 0 <= s < |rows[t]| ==> 0 <= rows[t][s] < |counts|)
  }

  lemma AllServed(rows: Rows, topK: nat, counts: seq<int>, order: seq<nat>)
    requires Permutation(order, |counts|) && Served(rows, topK, counts, order, |order|) && RowsDescend(rows, counts)
    ensures Assigned(rows, |rows|, topK, counts)
  {
    PartialDemand(counts, |rows|, order, |order|);
    forall e | 0 <= e < |counts| ensures |Users(rows, e)| == Demand(counts[e], |rows|) {
      IndexOccurs(order, |counts|, e);
    }
  }

  predicate SomeDemand(counts: seq<int>) {
    exists e :: 0 <= e < |counts| && counts[e] > 0
  }

  /** One round of the greedy loop, for an expert with a positive count. */
  method GiveTokens(matrix: array2<int>, fill: array<int>, e: int, needed: int, ghost rows: Rows)
    returns (full: bool, ghost tokens: seq<nat>)
    requires Holds(matrix, fill, rows) && WellFilled(rows, matrix.Length1)
    requires needed > 0 && fill.Length > 0
    modifies matrix, fill
    ensures IsArgsort(Fills(rows), tokens)
    ensures var n := Demand(needed, |rows|);
      && (full <==> Sum(Fills(rows)) + n > matrix.Length1 * |rows|)
      && (!full ==> |rows[tokens[n - 1]]| < matrix.Length1 && Holds(matrix, fill, Place(rows, tokens[..n], e)))
  {
    assert fill[..] == Fills(rows);
    var order := Argsort(fill[..]);
    tokens := order;
    var chosen := order[..if needed <= |order| then needed else |order|];
    FreeSlotIffRoom(rows, matrix.Length1, order, |chosen|);
    full := fill[chosen[|chosen| - 1]] >= matrix.Length1;
    if !full {
      PlaceAllFree(rows, matrix.Length1, order, |chosen|);
      PlaceExpert(matrix, fill, chosen, e, rows);
    }
  }

  /** The body of the greedy loop. */
  method AssignNext(
    matrix: array2<int>, fill: array<int>, counts: seq<int>, experts: seq<nat>, k: nat, ghost rows0: Rows)
    returns (full: bool, ghost rows: Rows)
    requires Permutation(experts, |counts|) && k < |experts| && fill.Length > 0
    requires Holds(matrix, fill, rows0) && Served(rows0, matrix.Length1, counts, experts, k)
    requires Sum(Fills(rows0)) <= matrix.Length1 * fill.Length
    requires Decreasing(counts, experts) && RowsDescend(rows0, counts)
    modifies matrix, fill
    ensures full ==> Sum(Demands(counts, fill.Length)) > matrix.Length1 * fill.Length
    ensures !full ==>
      && Holds(matrix, fill, rows) && Served(rows, matrix.Length1, counts, experts, k + 1)
      && Sum(Fills(rows)) <= matrix.Length1 * fill.Length && RowsDescend(rows, counts)
  {
    var e := experts[k];
    full, rows := false, rows0;
    PartialDemand(counts, fill.Length, experts, k + 1);
    PickNext(Demands(counts, fill.Length), experts, k);
    if counts[e] > 0 {
      ghost var tokens;
      full, tokens := GiveTokens(matrix, fill, e, counts[e], rows);
      if full { return; }
      rows := Place(rows0, tokens[..Demand(counts[e], |rows0|)], e);
      PlaceServed(rows0, matrix.Length1, counts, experts, k, tokens, rows);
    } else {
      SkipNext(rows, matrix.Length1, counts, experts, k);
    }
  }

  /** The greedy loop fails exactly when the experts ask for more than there are slots. */
  method Assign(matrix: array2<int>, fill: array<int>, counts: seq<int>)
    returns (full: bool, ghost rows: Rows)
    requires fill.Length == matrix.Length0 && fill.Length > 0
    requires Holds(matrix, fill, seq(fill.Length, _ => []))
    modifies matrix, fill
    ensures full <==> Sum(Demands(counts, fill.Length)) > matrix.Length1 * fill.Length
    ensures !full ==> Holds(matrix, fill, rows) && Assigned(rows, fill.Length, matrix.Length1, counts)
  {
    var topK := matrix.Length1;
    var experts := DescendingOrder(counts);
    rows := seq(fill.Length, _ => []);
    SumZero(Fills(rows));
    for k := 0 to |experts|
      invariant Holds(matrix, fill, rows) && Served(rows, topK, counts, experts, k)
      invariant Sum(Fills(rows)) <= topK * fill.Length && RowsDescend(rows, counts)
    {
      full, rows := AssignNext(matrix, fill, counts, experts, k, rows);
      if full { return; }
    }
    PartialDemand(counts, fill.Length, experts, |experts|);
    AllServed(rows, topK, counts, experts);
    full := false;
  }

  lemma SkipNext(rows: Rows, topK: nat, counts: seq<int>, experts: seq<nat>, k: nat)
    requires Permutation(experts, |counts|) && k < |experts| && Served(rows, topK, counts, experts, k)
    requires counts[experts[k]] <= 0
    ensures Served(rows, topK, counts, experts, k + 1)
  {
    PickNext(Demands(counts, |rows|), experts, k);
  }

  lemma {:induction false} SumZero(s: seq<int>)
    requires forall i :: 0 <= i < |s| ==> s[i] == 0
    ensures Sum(s) == 0
  {
    if s != [] { SumZero(s[..|s| - 1]); }
  }

  lemma PlaceAllFree(rows: Rows, topK: nat, tokens: seq<nat>, n: nat)
    requires IsArgsort(Fills(rows), tokens) && 1 <= n <= |rows| && |rows[tokens[n - 1]]| < topK
    ensures forall i :: 0 <= i < n ==> |rows[tokens[i]]| < topK
  {
    forall i | 0 <= i < n ensures |rows[tokens[i]]| < topK {
      assert Fills(rows)[tokens[i]] <= Fills(rows)[tokens[n - 1]];
    }
  }

  // ----- The logits

  const HIGH := 10.0
  const LOW := -10.0

  function Pad(row: seq<int>, topK: nat): (r: seq<int>)
    requires |row| <= topK
    ensures |r| == topK
  {
    row + seq(topK - |row|, _ => -1)
  }

  /** Writing through index -1 hits the last column, as in numpy. */
  method Paint(row: seq<int>, numExperts: nat) returns (logits: seq<real>)
    requires forall s :: 0 <= s < |row| ==> -1 <= row[s] < numExperts && numExperts > 0
    ensures |logits| == numExperts
    ensures forall e :: 0 <= e < numExperts ==>
      logits[e] == if e in row || (-1 in row && e == numExperts - 1) then 10.0 else -10.0
  {
    logits := seq(numExperts, _ => LOW);
    for s := 0 to |row|
      invariant |logits| == numExperts
      invariant forall e :: 0 <= e < numExperts ==>
        logits[e] == if e in row[..s] || (-1 in row[..s] && e == numExperts - 1) then HIGH else LOW
    {
      assert row[..s + 1] == row[..s] + [row[s]];
      var column := if row[s] < 0 then row[s] + numExperts else row[s];
      logits := logits[column := HIGH];
    }
    assert row[..|row|] == row;
  }

  /** The output shows the rows; a token with free slots also gets the last expert. */
  ghost predicate Shows(r: Routing, rows: Rows, topK: nat, numExperts: nat) {
    && |r.assignments| == |r.logits| == |rows|
    && (forall t :: 0 <= t < |rows| ==> |rows[t]| <= topK && r.assignments[t] == Pad(rows[t], topK))
    && (forall t :: 0 <= t < |rows| ==> |r.logits[t]| == numExperts)
    && (forall t, e :: 0 <= t < |rows| && 0 <= e < numExperts ==>
          r.logits[t][e] == if e in rows[t] || (|rows[t]| < topK && e == numExperts - 1) then 10.0 else -10.0)
  }

  method Render(matrix: array2<int>, fill: array<int>, numExperts: nat, ghost rows: Rows)
    returns (r: Routing)
    requires Holds(matrix, fill, rows)
    requires forall t, s :: 0 <= t < |rows| && 0 <= s < |rows[t]| ==> 0 <= rows[t][s] < numExperts
    requires numExperts > 0 || matrix.Length0 == 0 || matrix.Length1 == 0
    ensures Shows(r, rows, matrix.Length1, numExperts)
  {
    r := Routing([], []);
    for t := 0 to matrix.Length0
      invariant |rows[..t]| == t && Shows(r, rows[..t], matrix.Length1, numExperts)
    {
      var row := seq(matrix.Length1, s requires 0 <= s < matrix.Length1 reads matrix => matrix[t, s]);
      assert row == Pad(rows[t], matrix.Length1);
      assert -1 in row <==> |rows[t]| < matrix.Length1 by {
        if |rows[t]| < matrix.Length1 { assert row[|rows[t]|] == -1; }
      }
      assert forall e :: 0 <= e < numExperts ==> (e in row <==> e in rows[t]);
      var painted := Paint(row, numExperts);
      r := Routing(r.assignments + [row], r.logits + [painted]);
    }
    assert rows[..|rows|] == rows;
  }

  // ----- What the routine promises

  predicate InRange(c: seq<int>, numTokens: nat) {
    forall e :: 0 <= e < |c| ==> 0 <= c[e] <= numTokens
  }

  predicate NoneNegative(c: seq<int>) {
    forall e :: 0 <= e < |c| ==> 0 <= c[e]
  }

  /** No expert without a logit column is asked for. */
  predicate Known(c: seq<int>, numExperts: nat) {
    forall e :: numExperts <= e < |c| ==> c[e] <= 0
  }

  /**
    The outcome for given inputs. It fails exactly when there is nothing to repair the total on, when
    an expert wants tokens and there are none, when the experts together want more than the slots, or
    when an expert that is given tokens has no column; otherwise every expert is given as many
    distinct tokens as its count allows.
  */
  ghost predicate Outcome(numTokens: nat, numExperts: nat, topK: nat, counts: seq<int>, r: Result) {
    && (r == Err(EmptyCounts) <==> counts == [] && numTokens * topK != 0)
    && (counts != [] || numTokens * topK == 0 ==>
          var c := Repaired(counts, numTokens * topK);
          var fits := Sum(Demands(c, numTokens)) <= topK * numTokens;
          && (r == Err(NoTokens) <==> numTokens == 0 && SomeDemand(c))
          && (r == Err(TokensFull) <==> numTokens > 0 && !fits)
          && (r == Err(NoSuchExpert) <==> numTokens > 0 && fits && !Known(c, numExperts))
          && (r.Ok? ==> exists rows ::
                Assigned(rows, numTokens, topK, c) && Shows(r.routing, rows, topK, numExperts)))
  }

  /** The output realises the counts: topK distinct experts a token, `c[e]` tokens an expert. */
  ghost predicate Realises(r: Routing, numTokens: nat, numExperts: nat, topK: nat, c: seq<int>) {
    && |r.assignments| == |r.logits| == numTokens
    && (forall t :: 0 <= t < numTokens ==>
          |r.assignments[t]| == topK && Distinct(r.assignments[t]) && |r.logits[t]| == numExperts)
    && (forall t, s :: 0 <= t < numTokens && 0 <= s < topK ==> 0 <= r.assignments[t][s] < numExperts)
    && (forall e :: 0 <= e < |c| ==> |Users(r.assignments, e)| == c[e])
    && (forall t, e :: 0 <= t < numTokens && 0 <= e < numExperts ==>
          r.logits[t][e] == if e in r.assignments[t] then 10.0 else -10.0)
  }

  // ----- What a router makes of the logits

  /** The columns with a larger logit. */
  function Ahead(row: seq<real>, e: int): set<int>
    requires 0 <= e < |row|
  {
    set f | 0 <= f < |row| && row[f] > row[e]
  }

  /** The columns that are among the `k` largest whatever a tie is broken by. */
  function Top(row: seq<real>, k: nat): set<int> {
    set e | 0 <= e < |row| && |Ahead(row, e)| < k
  }

  /** A router that takes the topK largest logits sends `c[e]` tokens to every expert `e`. */
  ghost predicate RoutesAsAsked(r: Routing, numTokens: nat, numExperts: nat, topK: nat, c: seq<int>) {
    && |r.assignments| == |r.logits| == numTokens
    && (forall t :: 0 <= t < numTokens ==> |r.logits[t]| == numExperts)
    && (forall t, e, f :: 0 <= t < numTokens && 0 <= e < numExperts && 0 <= f < numExperts ==>
          e in r.assignments[t] && f !in r.assignments[t] ==> r.logits[t][e] > r.logits[t][f])
    && (forall t :: 0 <= t < numTokens ==>
          Top(r.logits[t], topK) == Elements(r.assignments[t]) && |Top(r.logits[t], topK)| == topK)
    && (forall e :: 0 <= e < |c| ==> |(set t | 0 <= t < numTokens && e in Top(r.logits[t], topK))| == c[e])
  }

  lemma TopIsAssigned(row: seq<real>, experts: seq<int>, topK: nat)
    requires |experts| == topK && Distinct(experts)
    requires forall s :: 0 <= s < topK ==> 0 <= experts[s] < |row|
    requires forall e :: 0 <= e < |row| ==> row[e] == if e in experts then 10.0 else -10.0
    ensures Top(row, topK) == Elements(experts) && |Top(row, topK)| == topK
  {
    DistinctSize(experts);
    forall e | 0 <= e < |row| ensures e in Top(row, topK) <==> e in experts {
      if e in experts {
        assert Ahead(row, e) == {};
      } else {
        assert Ahead(row, e) == Elements(experts);
      }
    }
    assert Top(row, topK) == Elements(experts);
  }

  lemma RealisedIsRouted(r: Routing, numTokens: nat, numExperts: nat, topK: nat, c: seq<int>)
    requires Realises(r, numTokens, numExperts, topK, c)
    ensures RoutesAsAsked(r, numTokens, numExperts, topK, c)
  {
    forall t | 0 <= t < numTokens
      ensures Top(r.logits[t], topK) == Elements(r.assignments[t]) && |Top(r.logits[t], topK)| == topK
    {
      TopIsAssigned(r.logits[t], r.assignments[t], topK);
    }
    forall e | 0 <= e < |c| ensures |(set t | 0 <= t < numTokens && e in Top(r.logits[t], topK))| == c[e] {
      assert (set t | 0 <= t < numTokens && e in Top(r.logits[t], topK)) == Users(r.assignments, e);
    }
  }

  /** The whole routine: its output realises the repaired counts exactly when they are in range. */
  method CreateLogits(numTokens: nat, numExperts: nat, topK: nat, counts: seq<int>) returns (r: Result)
    ensures Outcome(numTokens, numExperts, topK, counts, r)
    ensures counts != [] || numTokens * topK == 0 ==>
      var c := Repaired(counts, numTokens * topK);
      && (numTokens > 0 && NoneNegative(c) && Known(c, numExperts) ==> r.Ok?)
      && (r.Ok? && Realises(r.routing, numTokens, numExperts, topK, c)
          <==> InRange(c, numTokens) && Known(c, numExperts))
      && (InRange(c, numTokens) && Known(c, numExperts) ==>
            RoutesAsAsked(r.routing, numTokens, numExperts, topK, c))
  {
    r := Route(numTokens, numExperts, topK, counts);
    if counts != [] || numTokens * topK == 0 {
      SucceedsIfNoneNegative(numTokens, numExperts, topK, counts, r);
      RealisedIffInRange(numTokens, numExperts, topK, counts, r);
      var c := Repaired(counts, numTokens * topK);
      if InRange(c, numTokens) && Known(c, numExperts) {
        RealisedIsRouted(r.routing, numTokens, numExperts, topK, c);
      }
    }
  }

  method Route(numTokens: nat, numExperts: nat, topK: nat, counts: seq<int>) returns (r: Result)
    ensures Outcome(numTokens, numExperts, topK, counts, r)
  {
    var total := numTokens * topK;
    if counts == [] && total != 0 { return Err(EmptyCounts); }
    var c := Repaired(counts, total);
    if numTokens == 0 {
      if exists e :: 0 <= e < |c| && c[e] > 0 { return Err(NoTokens); }
      NobodyServed(c, topK);
      assert Shows(Routing([], []), [], topK, numExperts);
      return Ok(Routing([], []));
    }
    var matrix := new int[numTokens, topK]((_, _) => -1);
    var fill := new int[numTokens](_ => 0);
    var full, rows := Assign(matrix, fill, c);
    if full { return Err(TokensFull); }
    r := Draw(matrix, fill, numExperts, rows, counts);
  }

  lemma AllFailures(r: Result)
    ensures r.Ok? || r == Err(EmptyCounts) || r == Err(NoTokens) || r == Err(TokensFull) || r == Err(NoSuchExpert)
  {
    match r
    case Ok(_) =>
    case Err(f) =>
      match f
      case EmptyCounts =>
      case NoTokens =>
      case TokensFull =>
      case NoSuchExpert =>
  }

  /** Writing the logits through the matrix, all indices being checked first. */
  method Draw(matrix: array2<int>, fill: array<int>, numExperts: nat, ghost rows: Rows, ghost counts: seq<int>)
    returns (r: Result)
    requires Holds(matrix, fill, rows) && matrix.Length0 > 0
    requires counts != [] || matrix.Length0 * matrix.Length1 == 0
    requires Assigned(rows, matrix.Length0, matrix.Length1, Repaired(counts, matrix.Length0 * matrix.Length1))
    ensures r.Ok? <==> Known(Repaired(counts, matrix.Length0 * matrix.Length1), numExperts)
    ensures r.Ok? ==> Shows(r.routing, rows, matrix.Length1, numExperts)
    ensures r.Err? ==> r == Err(NoSuchExpert)
  {
    UnknownIsOutside(matrix, fill, rows, numExperts, counts);
    if exists t, s :: 0 <= t < matrix.Length0 && 0 <= s < matrix.Length1 && !IsIndex(matrix[t, s], numExperts) {
      return Err(NoSuchExpert);
    }
    forall t, s | 0 <= t < |rows| && 0 <= s < |rows[t]| ensures 0 <= rows[t][s] < numExperts {
      assert matrix[t, s] == rows[t][s];
    }
    if matrix.Length1 > 0 { assert IsIndex(matrix[0, 0], numExperts); }
    var routing := Render(matrix, fill, numExperts, rows);
    r := Ok(routing);
  }

  /** An index numpy accepts: negative ones count from the end. */
  predicate IsIndex(i: int, n: int) {
    -n <= i < n
  }

  /** Some matrix entry is outside the columns exactly when an expert without a column is asked for. */
  lemma UnknownIsOutside(matrix: array2<int>, fill: array<int>, rows: Rows, numExperts: nat, counts: seq<int>)
    requires Holds(matrix, fill, rows) && matrix.Length0 > 0
    requires counts != [] || matrix.Length0 * matrix.Length1 == 0
    requires Assigned(rows, matrix.Length0, matrix.Length1, Repaired(counts, matrix.Length0 * matrix.Length1))
    ensures Known(Repaired(counts, matrix.Length0 * matrix.Length1), numExperts)
      <==> forall t, s :: 0 <= t < matrix.Length0 && 0 <= s < matrix.Length1 ==>
             IsIndex(matrix[t, s], numExperts)
  {
    var c := Repaired(counts, matrix.Length0 * matrix.Length1);
    if Known(c, numExperts) {
      forall t, s | 0 <= t < matrix.Length0 && 0 <= s < matrix.Length1
        ensures IsIndex(matrix[t, s], numExperts)
      {
        if s < |rows[t]| {
          UserHasCount(rows, matrix.Length0, matrix.Length1, c, t, s);
        } else {
          RepairedTotal(counts, matrix.Length0 * matrix.Length1);
          ColumnExists(c, numExperts, matrix.Length0, matrix.Length1);
        }
      }
    } else {
      var e :| numExperts <= e < |c| && c[e] > 0;
      assert |Users(rows, e)| > 0;
      var t :| t in Users(rows, e);
      var s :| 0 <= s < |rows[t]| && rows[t][s] == e;
      assert matrix[t, s] == e;
    }
  }

  lemma UserHasCount(rows: Rows, numTokens: nat, topK: nat, c: seq<int>, t: nat, s: nat)
    requires Assigned(rows, numTokens, topK, c) && t < numTokens && s < |rows[t]|
    ensures 0 <= rows[t][s] < |c| && c[rows[t][s]] > 0
  {
    var e := rows[t][s];
    assert t in Users(rows, e);
    assert |Users(rows, e)| == Demand(c[e], numTokens);
  }

  /** With slots to fill some count is positive, so the known experts are not none. */
  lemma ColumnExists(c: seq<int>, numExperts: nat, numTokens: nat, topK: nat)
    requires Sum(c) == numTokens * topK && numTokens > 0 && topK > 0 && Known(c, numExperts)
    ensures numExperts > 0
  {
    if forall e :: 0 <= e < |c| ==> c[e] <= 0 { SumUpper(c, 0); }
  }

  /** Without a negative repaired count the slots always suffice. */
  lemma SucceedsIfNoneNegative(numTokens: nat, numExperts: nat, topK: nat, counts: seq<int>, r: Result)
    requires Outcome(numTokens, numExperts, topK, counts, r) && (counts != [] || numTokens * topK == 0)
    ensures var c := Repaired(counts, numTokens * topK);
      && (NoneNegative(c) ==> r != Err(TokensFull))
      && (numTokens > 0 && NoneNegative(c) && Known(c, numExperts) ==> r.Ok?)
  {
    var c := Repaired(counts, numTokens * topK);
    RepairedTotal(counts, numTokens * topK);
    assert numTokens * topK == topK * numTokens;
    if NoneNegative(c) { SumDominated(Demands(c, numTokens), c); }
    AllFailures(r);
  }

  lemma RealisedIffInRange(numTokens: nat, numExperts: nat, topK: nat, counts: seq<int>, r: Result)
    requires Outcome(numTokens, numExperts, topK, counts, r) && (counts != [] || numTokens * topK == 0)
    ensures var c := Repaired(counts, numTokens * topK);
      r.Ok? && Realises(r.routing, numTokens, numExperts, topK, c) <==> InRange(c, numTokens) && Known(c, numExperts)
  {
    var c := Repaired(counts, numTokens * topK);
    if r.Ok? && Realises(r.routing, numTokens, numExperts, topK, c) {
      RealisedOnlyInRange(r.routing, numTokens, numExperts, topK, c);
    }
    if InRange(c, numTokens) && Known(c, numExperts) {
      CountsRealised(numTokens, topK, counts);
      AllFailures(r);
      var rows :| Assigned(rows, numTokens, topK, c) && Shows(r.routing, rows, topK, numExperts);
      forall t, s | 0 <= t < numTokens && 0 <= s < |rows[t]| ensures 0 <= rows[t][s] < numExperts {
        UserHasCount(rows, numTokens, topK, c, t, s);
      }
      RealisedIfFull(r.routing, rows, topK, c, numExperts);
    }
  }

  lemma RealisedOnlyInRange(r: Routing, numTokens: nat, numExperts: nat, topK: nat, c: seq<int>)
    requires Realises(r, numTokens, numExperts, topK, c)
    ensures InRange(c, numTokens)
  {
    forall e | 0 <= e < |c| ensures 0 <= c[e] <= numTokens {
      SubsetSize(Users(r.assignments, e), Range(0, numTokens));
    }
  }

  lemma RealisedIfFull(r: Routing, rows: Rows, topK: nat, c: seq<int>, numExperts: nat)
    requires Shows(r, rows, topK, numExperts)
    requires forall t :: 0 <= t < |rows| ==> |rows[t]| == topK && Distinct(rows[t])
    requires forall e :: 0 <= e < |c| ==> |Users(rows, e)| == c[e]
    requires forall t, s :: 0 <= t < |rows| && 0 <= s < |rows[t]| ==> 0 <= rows[t][s] < numExperts
    ensures Realises(r, |rows|, numExperts, topK, c)
  {
    forall t | 0 <= t < |rows| ensures r.assignments[t] == rows[t] { }
    assert r.assignments == rows;
  }

  /**
    Counts that are not negative are never refused for lack of slots. An expert asked for more tokens
    than there are is cut short instead, and exactly then a token is returned with an empty slot.
  */
  lemma ExcessIsCutShort(numTokens: nat, numExperts: nat, topK: nat, counts: seq<int>, r: Result)
    requires Outcome(numTokens, numExperts, topK, counts, r)
    requires numTokens > 0 && (counts != [] || topK == 0)
    requires NoneNegative(Repaired(counts, numTokens * topK)) && Known(Repaired(counts, numTokens * topK), numExperts)
    ensures r.Ok? && |r.routing.assignments| == numTokens
    ensures (exists t :: 0 <= t < numTokens && -1 in r.routing.assignments[t])
      <==> (exists e :: 0 <= e < |counts| && Repaired(counts, numTokens * topK)[e] > numTokens)
  {
    var c := Repaired(counts, numTokens * topK);
    SucceedsIfNoneNegative(numTokens, numExperts, topK, counts, r);
    RepairedTotal(counts, numTokens * topK);
    assert numTokens * topK == topK * numTokens;
    var rows :| Assigned(rows, numTokens, topK, c) && Shows(r.routing, rows, topK, numExperts);
    ExcessShows(r.routing, rows, numTokens, numExperts, topK, c);
  }

  lemma ExcessShows(r: Routing, rows: Rows, numTokens: nat, numExperts: nat, topK: nat, c: seq<int>)
    requires Assigned(rows, numTokens, topK, c) && Shows(r, rows, topK, numExperts)
    requires NoneNegative(c) && Sum(c) == topK * numTokens
    ensures |r.assignments| == numTokens
    ensures (exists t :: 0 <= t < numTokens && -1 in r.assignments[t])
      <==> (exists e :: 0 <= e < |c| && c[e] > numTokens)
  {
    ExcessLeavesSlotsEmpty(rows, numTokens, topK, c);
    EmptySlotsShow(r, rows, topK, numExperts, |c|);
  }

  /** An expert is on none of the tokens, on as many as its count says, or on all of them. */
  lemma ServedAsAsked(numTokens: nat, numExperts: nat, topK: nat, counts: seq<int>, r: Result, e: nat)
    requires Outcome(numTokens, numExperts, topK, counts, r) && r.Ok? && e < |counts|
    ensures var c := Repaired(counts, numTokens * topK)[e];
      |(set t | 0 <= t < |r.routing.assignments| && e in r.routing.assignments[t])|
        == if c <= 0 then 0 else if c <= numTokens then c else numTokens
  {
    var c := Repaired(counts, numTokens * topK);
    var rows :| Assigned(rows, numTokens, topK, c) && Shows(r.routing, rows, topK, numExperts);
    UsersShow(r.routing, rows, topK, numExperts, e);
  }

  lemma UsersShow(r: Routing, rows: Rows, topK: nat, numExperts: nat, e: nat)
    requires Shows(r, rows, topK, numExperts)
    ensures (set t | 0 <= t < |r.assignments| && e in r.assignments[t]) == Users(rows, e)
  {
    forall t | 0 <= t < |rows| ensures e in r.assignments[t] <==> e in rows[t] {
      assert r.assignments[t] == Pad(rows[t], topK);
    }
  }

  lemma EmptySlotsShow(r: Routing, rows: Rows, topK: nat, numExperts: nat, bound: int)
    requires Shows(r, rows, topK, numExperts)
    requires forall t, s :: 0 <= t < |rows| && 0 <= s < |rows[t]| ==> 0 <= rows[t][s] < bound
    ensures forall t :: 0 <= t < |rows| ==> (-1 in r.assignments[t] <==> |rows[t]| < topK)
  {
    forall t | 0 <= t < |rows| ensures -1 in r.assignments[t] <==> |rows[t]| < topK {
      if |rows[t]| < topK { assert Pad(rows[t], topK)[|rows[t]|] == -1; }
    }
  }

  /** Two tokens of two slots, three of them for expert 0: accepted, with a slot left empty. */
  lemma CutShortExample(r: Result)
    requires Outcome(2, 2, 2, [3, 1], r)
    ensures r.Ok? && |r.routing.assignments| == 2
    ensures -1 in r.routing.assignments[0] || -1 in r.routing.assignments[1]
  {
    assert Repaired([3, 1], 4) == [3, 1] by { SumOfTwo(3, 1); }
    assert Repaired([3, 1], 2 * 2)[0] > 2;
    ExcessIsCutShort(2, 2, 2, [3, 1], r);
  }

  /** A total corrected on the largest count can make it negative, and only then the slots run out. */
  lemma FullExample(r: Result)
    requires Outcome(1, 3, 1, [2, 2, 2], r)
    ensures r == Err(TokensFull) && Repaired([2, 2, 2], 1) == [-3, 2, 2]
  {
    SumOfThree(2, 2, 2);
    SumOfThree(0, 1, 1);
    assert [2, 2, 2][..2] == [2, 2] && [2, 2][..1] == [2];
    assert ArgMax([2, 2, 2]) == 0;
    assert Repaired([2, 2, 2], 1 * 1) == [-3, 2, 2];
    assert Demands([-3, 2, 2], 1) == [0, 1, 1];
  }

  lemma SumOfThree(x: int, y: int, z: int)
    ensures Sum([x, y, z]) == x + y + z
  {
    assert [x, y, z][..2] == [x, y];
    SumOfTwo(x, y);
  }

  lemma SumOfTwo(x: int, y: int)
    ensures Sum([x, y]) == x + y
  {
    assert [x, y][..1] == [x] && [x][..0] == [];
    assert Sum([x]) == x;
  }

  lemma NobodyServed(counts: seq<int>, topK: nat)
    ensures Assigned([], 0, topK, counts)
  {
    SumZero(Demands(counts, 0));
    forall e | 0 <= e < |counts| ensures |Users([], e)| == Demand(counts[e], 0) {
      assert Users([], e) == {};
    }
  }

  // ----- When the prescribed counts are met

  /**
    A repaired count vector within [0, numTokens] is always realised: no failure is possible, and
    every token gets exactly topK distinct experts while every expert is used exactly as often as
    prescribed.
  */
  lemma CountsRealised(numTokens: nat, topK: nat, counts: seq<int>)
    requires counts != [] || numTokens * topK == 0
    requires InRange(Repaired(counts, numTokens * topK), numTokens)
    ensures var c := Repaired(counts, numTokens * topK);
      && Demands(c, numTokens) == c
      && Sum(Demands(c, numTokens)) == topK * numTokens
      && !(numTokens == 0 && SomeDemand(c))
      && forall rows :: Assigned(rows, numTokens, topK, c) ==>
           && (forall t :: 0 <= t < numTokens ==> |rows[t]| == topK && Distinct(rows[t]))
           && (forall e :: 0 <= e < |c| ==> |Users(rows, e)| == c[e])
  {
    var c := Repaired(counts, numTokens * topK);
    RepairedTotal(counts, numTokens * topK);
    assert Demands(c, numTokens) == c;
    forall rows | Assigned(rows, numTokens, topK, c)
      ensures forall t :: 0 <= t < numTokens ==> |rows[t]| == topK && Distinct(rows[t])
      ensures forall e :: 0 <= e < |c| ==> |Users(rows, e)| == c[e]
    {
      SumTight(Fills(rows), topK);
      assert forall t :: 0 <= t < numTokens ==> Fills(rows)[t] == |rows[t]|;
    }
  }

  /**
    An expert asked for more tokens than there are is silently cut short, and then some slot stays
    empty although no failure is reported, unless another count was negative.
  */
  lemma ExcessLeavesSlotsEmpty(rows: Rows, numTokens: nat, topK: nat, c: seq<int>)
    requires Assigned(rows, numTokens, topK, c) && Sum(c) == topK * numTokens
    requires forall e :: 0 <= e < |c| ==> 0 <= c[e]
    ensures (exists t :: 0 <= t < numTokens && |rows[t]| < topK)
      <==> (exists e :: 0 <= e < |c| && c[e] > numTokens)
  {
    if forall t :: 0 <= t < numTokens ==> |rows[t]| >= topK { NoExcessIfFull(rows, numTokens, topK, c); }
    if InRange(c, numTokens) { FullIfNoExcess(rows, numTokens, topK, c); }
  }

  lemma NoExcessIfFull(rows: Rows, numTokens: nat, topK: nat, c: seq<int>)
    requires Assigned(rows, numTokens, topK, c) && Sum(c) == topK * numTokens
    requires (forall e :: 0 <= e < |c| ==> 0 <= c[e]) && forall t :: 0 <= t < numTokens ==> |rows[t]| >= topK
    ensures InRange(c, numTokens)
  {
    EnoughFills(rows, topK);
    DemandsMet(numTokens, c);
  }

  lemma EnoughFills(rows: Rows, topK: nat)
    requires forall t :: 0 <= t < |rows| ==> |rows[t]| >= topK
    ensures Sum(Fills(rows)) >= topK * |rows|
  {
    SumLower(Fills(rows), topK);
  }

  lemma DemandsMet(numTokens: nat, c: seq<int>)
    requires (forall e :: 0 <= e < |c| ==> 0 <= c[e]) && Sum(Demands(c, numTokens)) >= Sum(c)
    ensures InRange(c, numTokens)
  {
    var d := Demands(c, numTokens);
    SumDominated(d, c);
    forall e | 0 <= e < |c| ensures 0 <= c[e] <= numTokens { assert d[e] == c[e]; }
  }

  lemma FullIfNoExcess(rows: Rows, numTokens: nat, topK: nat, c: seq<int>)
    requires Assigned(rows, numTokens, topK, c) && Sum(c) == topK * numTokens && InRange(c, numTokens)
    ensures forall t :: 0 <= t < numTokens ==> |rows[t]| == topK
  {
    assert Demands(c, numTokens) == c;
    SumTight(Fills(rows), topK);
    forall t | 0 <= t < numTokens ensures |rows[t]| == topK { assert Fills(rows)[t] == topK; }
  }

  lemma {:induction false} SumDominated(d: seq<int>, c: seq<int>)
    requires |d| == |c| && forall e :: 0 <= e < |c| ==> d[e] <= c[e]
    ensures Sum(d) <= Sum(c)
    ensures Sum(d) == Sum(c) ==> d == c
  {
    if c != [] {
      var n := |c| - 1;
      SumDominated(d[..n], c[..n]);
      assert d == d[..n] + [d[n]] && c == c[..n] + [c[n]];
    }
  }
}
