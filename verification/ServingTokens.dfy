/** The per-second token accounting of `calculate_metrics` (python/sgl_jax/bench_serving.py). */
module ServingTokens {
  import opened RealSums
  import opened StreamLatency
  import Sums
  import opened ServingConcurrency

  datatype Stream = Stream(success: bool, start: real, ttft: real, itl: seq<real>)

  /** The first token's time and, one latency further each, those of the others. */
  function TokenTimes(first: real, itl: seq<real>): (r: seq<real>)
    ensures |r| == |itl| + 1
  {
    if itl == [] then [first]
    else
      var front := TokenTimes(first, itl[..|itl| - 1]);
      front + [front[|front| - 1] + itl[|itl| - 1]]
  }

  lemma {:induction false} TimeAt(first: real, itl: seq<real>, k: nat)
    requires k <= |itl|
    ensures TokenTimes(first, itl)[k] == first + Sum(itl[..k])
  {
    if itl == [] {
      assert itl[..k] == [];
    } else if k < |itl| {
      TimeAt(first, itl[..|itl| - 1], k);
      assert itl[..|itl| - 1][..k] == itl[..k];
    } else {
      var front := itl[..|itl| - 1];
      TimeAt(first, front, |front|);
      assert front[..|front|] == front && itl[..k] == itl;
    }
  }

  // ----- The table

  /** Python's `int`, which cuts towards zero. */
  function Cut(x: real): (n: int)
    ensures 0.0 <= x ==> n as real <= x < n as real + 1.0
    ensures x < 0.0 ==> n as real - 1.0 < x <= n as real
  {
    if x < 0.0 then -((-x).Floor) else x.Floor
  }

  predicate InTable(time: real, origin: real, duration: int) {
    0 <= Cut(time - origin) < duration
  }

  /** How many of the times fall into the given second. */
  function Recorded(times: seq<real>, origin: real, second: int): nat {
    if times == [] then 0
    else Recorded(times[..|times| - 1], origin, second) + if Cut(times[|times| - 1] - origin) == second then 1 else 0
  }

  lemma {:induction false} RecordedConcat(a: seq<real>, b: seq<real>, origin: real, second: int)
    ensures Recorded(a + b, origin, second) == Recorded(a, origin, second) + Recorded(b, origin, second)
  {
    if b == [] {
      assert a + b == a;
    } else {
      RecordedConcat(a, b[..|b| - 1], origin, second);
      assert (a + b)[..|a + b| - 1] == a + b[..|b| - 1];
    }
  }

  /** The loop over one output's token times. */
  method AddTokens(counts: array<int>, times: seq<real>, origin: real)
    modifies counts
    ensures forall s :: 0 <= s < counts.Length ==> counts[s] == old(counts[s]) + Recorded(times, origin, s)
  {
    for n := 0 to |times|
      invariant forall s :: 0 <= s < counts.Length ==> counts[s] == old(counts[s]) + Recorded(times[..n], origin, s)
    {
      assert times[..n + 1][..n] == times[..n];
      var second := Cut(times[n] - origin);
      if 0 <= second < counts.Length { counts[second] := counts[second] + 1; }
    }
    assert times[..|times|] == times;
  }

  /** The token times of the successful outputs, one output after the other. */
  function AllTimes(streams: seq<Stream>): seq<real> {
    if streams == [] then []
    else
      var o := streams[|streams| - 1];
      AllTimes(streams[..|streams| - 1]) + if o.success then TokenTimes(o.start + o.ttft, o.itl) else []
  }

  /** How many of the times the table has a place for. */
  function Placed(times: seq<real>, origin: real, duration: int): nat {
    if times == [] then 0
    else
      Placed(times[..|times| - 1], origin, duration) + if InTable(times[|times| - 1], origin, duration) then 1 else 0
  }

  /** The counts of the first `n` seconds. */
  function Tally(times: seq<real>, origin: real, n: nat): (r: seq<int>)
    ensures |r| == n && forall s :: 0 <= s < n ==> r[s] == Recorded(times, origin, s)
  {
    seq(n, s requires 0 <= s < n => Recorded(times, origin, s))
  }

  lemma {:induction false} TallyTotal(times: seq<real>, origin: real, n: nat)
    ensures Sums.Sum(Tally(times, origin, n)) == Placed(times, origin, n)
    decreases n
  {
    if n == 0 {
      NonePlaced(times, origin);
    } else {
      TallyTotal(times, origin, n - 1);
      assert Tally(times, origin, n)[..n - 1] == Tally(times, origin, n - 1);
      OneSecondMore(times, origin, n - 1);
    }
  }

  lemma {:induction false} NonePlaced(times: seq<real>, origin: real)
    ensures Placed(times, origin, 0) == 0
  {
    if times != [] { NonePlaced(times[..|times| - 1], origin); }
  }

  lemma {:induction false} OneSecondMore(times: seq<real>, origin: real, n: nat)
    ensures Placed(times, origin, n + 1) == Placed(times, origin, n) + Recorded(times, origin, n)
  {
    if times != [] { OneSecondMore(times[..|times| - 1], origin, n); }
  }

  predicate AllInTable(times: seq<real>, origin: real, duration: int) {
    forall i :: 0 <= i < |times| ==> InTable(times[i], origin, duration)
  }

  lemma {:induction false} PlacedIffInTable(times: seq<real>, origin: real, duration: int)
    ensures Placed(times, origin, duration) <= |times|
    ensures Placed(times, origin, duration) == |times| <==> AllInTable(times, origin, duration)
  {
    if times != [] {
      var front := times[..|times| - 1];
      PlacedIffInTable(front, origin, duration);
      if AllInTable(front, origin, duration) && InTable(times[|times| - 1], origin, duration) {
        forall i | 0 <= i < |times| ensures InTable(times[i], origin, duration) {
          if i < |front| { assert times[i] == front[i]; }
        }
      }
    }
  }

  // ----- What the table counts, read off the outputs

  /** The time of token k is that of the first token and the latencies up to it. */
  function TokenTime(o: Stream, k: nat): real
    requires k <= |o.itl|
  {
    o.start + o.ttft + Sum(o.itl[..k])
  }

  /** A time is in a second of the table; the second 0 also takes what is less than a second too early. */
  predicate InSecond(time: real, origin: real, second: nat) {
    || origin + second as real <= time < origin + second as real + 1.0
    || (second == 0 && origin - 1.0 < time < origin)
  }

  ghost function TokensIn(o: Stream, origin: real, second: nat): set<nat> {
    set k: nat | k <= |o.itl| && o.success && InSecond(TokenTime(o, k), origin, second)
  }

  ghost function TokenCounts(streams: seq<Stream>, origin: real, second: nat): (r: seq<int>)
    ensures |r| == |streams|
  {
    seq(|streams|, i requires 0 <= i < |streams| => |TokensIn(streams[i], origin, second)|)
  }

  lemma {:induction false} TimesInSecond(times: seq<real>, origin: real, second: nat)
    ensures Recorded(times, origin, second) == |set k: nat | k < |times| && InSecond(times[k], origin, second)|
  {
    var hits := set k: nat | k < |times| && InSecond(times[k], origin, second);
    if times == [] {
      assert hits == {};
    } else {
      var front, last := times[..|times| - 1], |times| - 1;
      TimesInSecond(front, origin, second);
      var before := set k: nat | k < |front| && InSecond(front[k], origin, second);
      assert hits == before + if InSecond(times[last], origin, second) then {last} else {};
    }
  }

  lemma RecordedOfStream(o: Stream, origin: real, second: nat)
    requires o.success
    ensures Recorded(TokenTimes(o.start + o.ttft, o.itl), origin, second) == |TokensIn(o, origin, second)|
  {
    var times := TokenTimes(o.start + o.ttft, o.itl);
    forall k: nat | k <= |o.itl| ensures times[k] == TokenTime(o, k) { TimeAt(o.start + o.ttft, o.itl, k); }
    TimesInSecond(times, origin, second);
    assert TokensIn(o, origin, second) == set k: nat | k < |times| && InSecond(times[k], origin, second);
  }

  lemma OneOutputMore(streams: seq<Stream>, origin: real, second: int)
    requires streams != []
    ensures var o, front := streams[|streams| - 1], AllTimes(streams[..|streams| - 1]);
      Recorded(AllTimes(streams), origin, second) == Recorded(front, origin, second)
        + if o.success then Recorded(TokenTimes(o.start + o.ttft, o.itl), origin, second) else 0
  {
    var o, front := streams[|streams| - 1], AllTimes(streams[..|streams| - 1]);
    if o.success {
      RecordedConcat(front, TokenTimes(o.start + o.ttft, o.itl), origin, second);
    } else {
      assert AllTimes(streams) == front;
    }
  }

  lemma {:induction false} RecordedOfAll(streams: seq<Stream>, origin: real, second: nat)
    ensures Recorded(AllTimes(streams), origin, second) == Sums.Sum(TokenCounts(streams, origin, second))
  {
    if streams != [] {
      var front, o := streams[..|streams| - 1], streams[|streams| - 1];
      RecordedOfAll(front, origin, second);
      assert TokenCounts(streams, origin, second)[..|front|] == TokenCounts(front, origin, second);
      OneOutputMore(streams, origin, second);
      if o.success { RecordedOfStream(o, origin, second); } else { assert TokensIn(o, origin, second) == {}; }
    }
  }

  /** What the counts of all token times say about the outputs. */
  lemma TallyMeans(streams: seq<Stream>, origin: real, duration: nat)
    ensures var times := AllTimes(streams); var counts := Tally(times, origin, duration);
      && (forall s :: 0 <= s < |counts| ==> counts[s] == Sums.Sum(TokenCounts(streams, origin, s)))
      && Sums.Sum(counts) <= |times|
      && (Sums.Sum(counts) == |times| <==> AllInTable(times, origin, duration))
  {
    forall s: nat | s < duration { RecordedOfAll(streams, origin, s); }
    TallyTotal(AllTimes(streams), origin, duration);
    PlacedIffInTable(AllTimes(streams), origin, duration);
  }

  /** One output of the loop that fills the table. */
  method AddOutput(table: array<int>, streams: seq<Stream>, n: nat, origin: real)
    requires n < |streams| && table[..] == Tally(AllTimes(streams[..n]), origin, table.Length)
    modifies table
    ensures table[..] == Tally(AllTimes(streams[..n + 1]), origin, table.Length)
  {
    var o := streams[n];
    forall s | 0 <= s < table.Length ensures table[s] == Recorded(AllTimes(streams[..n]), origin, s) {
      assert table[s] == table[..][s];
    }
    if o.success { AddTokens(table, TokenTimes(o.start + o.ttft, o.itl), origin); }
    assert streams[..n + 1][..n] == streams[..n];
    forall s | 0 <= s < table.Length ensures table[s] == Recorded(AllTimes(streams[..n + 1]), origin, s) {
      OneOutputMore(streams[..n + 1], origin, s);
    }
  }

  lemma NothingRecorded(origin: real, n: nat)
    ensures Tally(AllTimes([]), origin, n) == seq(n, _ => 0)
  {
  }

  /**
    `tokens_per_second` and its peak. The table counts the tokens of the successful outputs
    in each second, and it adds up to the number of token times exactly when all of them fall into the table.
  */
  method TokensPerSecond(streams: seq<Stream>, origin: real, duration: nat) returns (counts: seq<int>, peak: int)
    requires duration > 0
    ensures counts == Tally(AllTimes(streams), origin, duration) && Maximum(counts, peak)
    ensures forall s :: 0 <= s < |counts| ==> counts[s] == Sums.Sum(TokenCounts(streams, origin, s))
    ensures Sums.Sum(counts) <= |AllTimes(streams)|
    ensures Sums.Sum(counts) == |AllTimes(streams)| <==> AllInTable(AllTimes(streams), origin, duration)
  {
    var table := new int[duration](_ => 0);
    NothingRecorded(origin, duration);
    assert table[..] == seq(duration, _ => 0);
    assert streams[..0] == [];
    for n := 0 to |streams|
      invariant table[..] == Tally(AllTimes(streams[..n]), origin, duration)
    {
      AddOutput(table, streams, n, origin);
    }
    assert streams[..|streams|] == streams;
    peak := Max(table);
    counts := table[..];
    TallyMeans(streams, origin, duration);
  }

  // ----- When measured streams fit the table

  lemma {:induction false} PartialSum(itl: seq<real>, k: nat)
    requires NoneNegative(itl) && k <= |itl|
    ensures 0.0 <= Sum(itl[..k]) <= Sum(itl)
  {
    if k < |itl| {
      var front := itl[..|itl| - 1];
      PartialSum(front, k);
      assert front[..k] == itl[..k];
    } else {
      assert itl[..k] == itl;
      if itl != [] {
        PartialSum(itl[..|itl| - 1], |itl| - 1);
        assert itl[..|itl| - 1][..|itl| - 1] == itl[..|itl| - 1];
      }
    }
  }

  /**
    What the client itself adds: from the reading of the first counted chunk to the later reading for
    the time to first token, and from the last arrival to the last reading that counted.
  */
  function ClientDelay(t: seq<Chunk>, arrival: real): real
    requires AllTexts(t) && t != []
  {
    (t[0].ttftStamp - t[0].stamp) + (t[LastChange(t)].stamp - arrival)
  }

  lemma WithinTable(time: real, lo: real, hi: real)
    requires lo <= time < hi + 1.0
    ensures InTable(time, lo, Ceiling(hi - lo) + 1)
  {
  }

  /**
    The token times rebuilt from a measured stream fall into the table when the count never falls,
    the clock never runs backwards and the client's own delays come to less than a second.
  */
  lemma StreamInTable(
    st: real, texts: seq<Chunk>, ttft: real, itl: seq<real>, arrival: real, lo: real, hi: real, k: nat)
    requires AllTexts(texts) && Measured(st, texts, ttft, itl) && k <= |itl|
    requires lo <= st && arrival <= hi
    requires var t := Counted(st, texts);
      t != [] && NeverFalls(t) && Steady(t) && st <= t[0].ttftStamp && ClientDelay(t, arrival) < 1.0
    ensures InTable(TokenTimes(st + ttft, itl)[k], lo, Ceiling(hi - lo) + 1)
  {
    var t := Counted(st, texts);
    TimeAt(st + ttft, itl, k);
    PartialSum(itl, k);
    assert TokenTimes(st + ttft, itl)[k] <= arrival + ClientDelay(t, arrival);
    WithinTable(TokenTimes(st + ttft, itl)[k], lo, hi);
  }
}
