/** The per-second concurrency accounting of `calculate_metrics` (python/sgl_jax/bench_serving.py). */
module ServingConcurrency {

  datatype Request = Request(success: bool, start: real, latency: real)

  function End(r: Request): real {
    r.start + r.latency
  }

  function Ceiling(x: real): (n: int)
    ensures n as real - 1.0 < x <= n as real
  {
    -((-x).Floor)
  }

  /** The request is in flight at time `t`. */
  predicate InFlight(r: Request, t: real) {
    r.success && r.start <= t <= End(r)
  }

  function FirstSecond(r: Request, origin: real): int {
    (r.start - origin).Floor
  }

  function LastSecond(r: Request, origin: real): int {
    (End(r) - origin).Floor
  }

  predicate Occupies(r: Request, origin: real, second: int) {
    r.success && FirstSecond(r, origin) <= second <= LastSecond(r, origin)
  }

  function CountInFlight(requests: seq<Request>, t: real): nat {
    if requests == [] then 0
    else CountInFlight(requests[..|requests| - 1], t) + if InFlight(requests[|requests| - 1], t) then 1 else 0
  }

  function CountOccupying(requests: seq<Request>, origin: real, second: int): nat {
    if requests == [] then 0
    else CountOccupying(requests[..|requests| - 1], origin, second)
         + if Occupies(requests[|requests| - 1], origin, second) then 1 else 0
  }

  // ----- The extent of the run

  predicate AnySuccess(requests: seq<Request>) {
    exists i :: 0 <= i < |requests| && requests[i].success
  }

  predicate Bounds(requests: seq<Request>, lo: real, hi: real) {
    forall i :: 0 <= i < |requests| && requests[i].success ==> lo <= requests[i].start && End(requests[i]) <= hi
  }

  /** `min(start)` and `max(start + latency)` over the successful requests. */
  method Extent(requests: seq<Request>) returns (lo: real, hi: real)
    requires AnySuccess(requests)
    ensures Bounds(requests, lo, hi)
    ensures exists i :: 0 <= i < |requests| && requests[i].success && requests[i].start == lo
    ensures exists i :: 0 <= i < |requests| && requests[i].success && End(requests[i]) == hi
  {
    var k :| 0 <= k < |requests| && requests[k].success;
    lo, hi := requests[k].start, End(requests[k]);
    for n := 0 to |requests|
      invariant Bounds(requests[..n], lo, hi)
      invariant exists i :: 0 <= i < |requests| && requests[i].success && requests[i].start == lo
      invariant exists i :: 0 <= i < |requests| && requests[i].success && End(requests[i]) == hi
    {
      var r := requests[n];
      if r.success && r.start < lo { lo := r.start; }
      if r.success && hi < End(r) { hi := End(r); }
    }
    assert requests[..|requests|] == requests;
  }

  // ----- The per-second counts

  /** Every second a request touches is inside the table, so clipping removes nothing. */
  lemma SecondsInTable(r: Request, lo: real, hi: real)
    requires lo <= r.start && End(r) <= hi && r.latency >= 0.0
    ensures 0 <= FirstSecond(r, lo) <= LastSecond(r, lo) < Ceiling(hi - lo) + 1
  {
  }

  /** `for second in range(first, min(last + 1, duration)): counts[second] += 1`. */
  method Mark(counts: array<int>, first: int, last: int)
    requires 0 <= first <= last < counts.Length
    modifies counts
    ensures forall s :: 0 <= s < counts.Length ==>
      counts[s] == old(counts[s]) + if first <= s <= last then 1 else 0
  {
    for s := first to if last + 1 < counts.Length then last + 1 else counts.Length
      invariant forall k :: 0 <= k < counts.Length ==>
        counts[k] == old(counts[k]) + if first <= k < s then 1 else 0
    {
      counts[s] := counts[s] + 1;
    }
  }

  predicate Maximum(counts: seq<int>, m: int) {
    m in counts && forall s :: 0 <= s < |counts| ==> counts[s] <= m
  }

  method Max(counts: array<int>) returns (m: int)
    requires counts.Length > 0
    ensures Maximum(counts[..], m)
  {
    m := counts[0];
    for s := 1 to counts.Length
      invariant m in counts[..] && forall k :: 0 <= k < s ==> counts[k] <= m
    {
      if counts[s] > m { m := counts[s]; }
    }
  }

  /**
    `max_concurrent_requests`: the largest number of successful requests that touch a common
    second. It bounds the number in flight at every instant.
  */
  method MaxConcurrent(requests: seq<Request>) returns (m: int)
    requires forall i :: 0 <= i < |requests| ==> requests[i].latency >= 0.0
    ensures forall t: real :: CountInFlight(requests, t) <= m
    ensures m == 0 <==> !AnySuccess(requests)
    ensures AnySuccess(requests) ==> exists origin: real, second: int ::
      && Origin(requests, origin)
      && m == CountOccupying(requests, origin, second)
      && forall other: int :: CountOccupying(requests, origin, other) <= m
  {
    if !exists i :: 0 <= i < |requests| && requests[i].success {
      forall t: real ensures CountInFlight(requests, t) == 0 { NobodyCounted(requests, t); }
      return 0;
    }
    var lo, hi := Extent(requests);
    var duration := Ceiling(hi - lo) + 1;
    ghost var w :| 0 <= w < |requests| && requests[w].success && requests[w].start == lo;
    SecondsInTable(requests[w], lo, hi);
    var counts := new int[duration](_ => 0);
    for n := 0 to |requests|
      invariant forall s :: 0 <= s < duration ==> counts[s] == CountOccupying(requests[..n], lo, s)
    {
      assert requests[..n + 1][..n] == requests[..n];
      var r := requests[n];
      if r.success {
        SecondsInTable(r, lo, hi);
        Mark(counts, (r.start - lo).Floor, (r.start + r.latency - lo).Floor);
      }
    }
    assert requests[..|requests|] == requests;
    m := Max(counts);
    TableBounds(requests, lo, hi, counts[..], m);
    Positive(requests, lo, hi, w, counts[..], m);
  }

  predicate Origin(requests: seq<Request>, lo: real) {
    && (forall i :: 0 <= i < |requests| && requests[i].success ==> lo <= requests[i].start)
    && exists i :: 0 <= i < |requests| && requests[i].success && requests[i].start == lo
  }

  lemma {:induction false} NobodyCounted(requests: seq<Request>, t: real)
    requires forall i :: 0 <= i < |requests| ==> !requests[i].success
    ensures CountInFlight(requests, t) == 0
  {
    if requests != [] { NobodyCounted(requests[..|requests| - 1], t); }
  }

  /** Whoever is in flight at `t` occupies the second of `t`. */
  lemma {:induction false} InFlightOccupies(requests: seq<Request>, origin: real, t: real)
    ensures CountInFlight(requests, t) <= CountOccupying(requests, origin, (t - origin).Floor)
  {
    if requests != [] { InFlightOccupies(requests[..|requests| - 1], origin, t); }
  }

  lemma {:induction false} NoneOutside(requests: seq<Request>, lo: real, hi: real, second: int)
    requires Bounds(requests, lo, hi) && !(0 <= second < Ceiling(hi - lo) + 1)
    requires forall i :: 0 <= i < |requests| ==> requests[i].latency >= 0.0
    ensures CountOccupying(requests, lo, second) == 0
  {
    if requests != [] {
      var front, r := requests[..|requests| - 1], requests[|requests| - 1];
      NoneOutside(front, lo, hi, second);
      if r.success { SecondsInTable(r, lo, hi); }
    }
  }

  lemma TableBounds(requests: seq<Request>, lo: real, hi: real, counts: seq<int>, m: int)
    requires Bounds(requests, lo, hi) && forall i :: 0 <= i < |requests| ==> requests[i].latency >= 0.0
    requires |counts| == Ceiling(hi - lo) + 1 && Maximum(counts, m)
    requires forall s :: 0 <= s < |counts| ==> counts[s] == CountOccupying(requests, lo, s)
    ensures forall second: int :: CountOccupying(requests, lo, second) <= m
    ensures forall t: real :: CountInFlight(requests, t) <= m
  {
    var k :| 0 <= k < |counts| && counts[k] == m;
    forall second: int ensures CountOccupying(requests, lo, second) <= m {
      if 0 <= second < |counts| { assert counts[second] <= m; } else { NoneOutside(requests, lo, hi, second); }
    }
    forall t: real ensures CountInFlight(requests, t) <= m {
      InFlightOccupies(requests, lo, t);
    }
  }

  lemma {:induction false} AtLeastOne(requests: seq<Request>, i: nat, t: real)
    requires i < |requests| && InFlight(requests[i], t)
    ensures CountInFlight(requests, t) >= 1
  {
    if i < |requests| - 1 { AtLeastOne(requests[..|requests| - 1], i, t); }
  }

  lemma Positive(requests: seq<Request>, lo: real, hi: real, w: nat, counts: seq<int>, m: int)
    requires w < |requests| && requests[w].success && requests[w].latency >= 0.0 && Maximum(counts, m)
    requires forall t: real :: CountInFlight(requests, t) <= m
    requires forall s :: 0 <= s < |counts| ==> counts[s] == CountOccupying(requests, lo, s)
    ensures m >= 1
    ensures exists second: int :: m == CountOccupying(requests, lo, second)
  {
    AtLeastOne(requests, w, requests[w].start);
    assert CountInFlight(requests, requests[w].start) <= m;
    var k :| 0 <= k < |counts| && counts[k] == m;
  }
}
