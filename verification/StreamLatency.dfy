/** The stream loop of `async_request_sglang_generate` (python/sgl_jax/bench_serving.py). */
module StreamLatency {
  import opened Common
  import opened RealSums

  /**
    A chunk of the response: blank, the final marker, or data. `at` is the clock when the chunk
    arrived; `stamp` and `ttftStamp` are the later readings taken for a chunk that carries text.
  */
  datatype Chunk =
    | Blank
    | DoneMark(at: real)
    | Data(at: real, hasText: bool, stamp: real, ttftStamp: real, tokens: int)

  /** `latency` is None while no chunk has been seen: the source then fails on an unset variable. */
  datatype Output = Output(ttft: real, itl: seq<real>, outputLen: int, latency: Option<real>)

  predicate IsText(c: Chunk) {
    c.Data? && c.hasText
  }

  predicate AllTexts(texts: seq<Chunk>) {
    forall i :: 0 <= i < |texts| ==> IsText(texts[i])
  }

  /** The chunks that carry text. */
  function Texts(chunks: seq<Chunk>): (r: seq<Chunk>)
    ensures AllTexts(r)
  {
    if chunks == [] then []
    else
      var front, c := Texts(chunks[..|chunks| - 1]), chunks[|chunks| - 1];
      if IsText(c) then front + [c] else front
  }

  /** `[x] * n`. */
  function Repeat(x: real, n: nat): seq<real> {
    seq(n, _ => x)
  }

  lemma {:induction false} SumOfRepeat(x: real, n: nat)
    ensures Sum(Repeat(x, n)) == n as real * x
  {
    if n > 0 {
      SumOfRepeat(x, n - 1);
      assert Repeat(x, n)[..n - 1] == Repeat(x, n - 1);
      assert n as real * x == (n - 1) as real * x + x;
    }
  }

  lemma QuotientTimes(gap: real, n: real)
    requires n != 0.0
    ensures n * (gap / n) == gap
  {
  }

  /** Spreading a gap evenly over `n` tokens keeps its length. */
  lemma SpreadGap(itl: seq<real>, gap: real, n: nat)
    requires n > 0
    ensures Sum(itl + Repeat(gap / n as real, n)) == Sum(itl) + gap
  {
    SumConcat(itl, Repeat(gap / n as real, n));
    SumOfRepeat(gap / n as real, n);
    QuotientTimes(gap, n as real);
  }

  // ----- What a stream says

  /** When the last chunk that is not blank arrived. */
  function Arrival(chunks: seq<Chunk>): Option<real> {
    if chunks == [] then None
    else
      var c := chunks[|chunks| - 1];
      if c.Blank? then Arrival(chunks[..|chunks| - 1]) else Some(c.at)
  }

  lemma {:induction false} ArrivalIsLast(chunks: seq<Chunk>, i: nat)
    requires i < |chunks| && !chunks[i].Blank? && forall j :: i < j < |chunks| ==> chunks[j].Blank?
    ensures Arrival(chunks) == Some(chunks[i].at)
  {
    if i < |chunks| - 1 { ArrivalIsLast(chunks[..|chunks| - 1], i); }
  }

  /** The count in the last text chunk. */
  function LastCount(texts: seq<Chunk>, requested: int): int
    requires AllTexts(texts)
  {
    if texts == [] then requested else texts[|texts| - 1].tokens
  }

  /**
    The first text chunk for which the clock had moved. A time to first token of zero is taken for
    an unset one, so the loop starts afresh at every chunk before that.
  */
  function Ready(st: real, texts: seq<Chunk>): (k: nat)
    requires AllTexts(texts)
    ensures k <= |texts| && (forall i :: 0 <= i < k ==> texts[i].ttftStamp == st)
    ensures k < |texts| ==> texts[k].ttftStamp != st
  {
    if texts == [] then 0
    else
      var n := |texts| - 1;
      var k := Ready(st, texts[..n]);
      if k < n then k else if texts[n].ttftStamp == st then n + 1 else n
  }

  function Counted(st: real, texts: seq<Chunk>): (t: seq<Chunk>)
    requires AllTexts(texts)
    ensures AllTexts(t)
  {
    texts[Ready(st, texts)..]
  }

  /** The last chunk whose count differs from the one before it, counting the first chunk as one. */
  function LastChange(t: seq<Chunk>): (k: nat)
    requires t != [] && AllTexts(t)
    ensures k < |t| && t[k].tokens == t[|t| - 1].tokens
  {
    var n := |t| - 1;
    if n == 0 || t[n].tokens != t[n - 1].tokens then n else LastChange(t[..n])
  }

  /** All tokens gained from chunk to chunk; a falling count gains none. */
  function Rises(t: seq<Chunk>): nat
    requires AllTexts(t)
  {
    var n := |t| - 1;
    if n <= 0 then 0 else Rises(t[..n]) + if t[n].tokens > t[n - 1].tokens then t[n].tokens - t[n - 1].tokens else 0
  }

  /** The time from the last change to each chunk that gained tokens, added up. */
  function RisingTime(t: seq<Chunk>): real
    requires AllTexts(t)
  {
    var n := |t| - 1;
    if n <= 0 then 0.0
    else RisingTime(t[..n]) + if t[n].tokens > t[n - 1].tokens then t[n].stamp - t[LastChange(t[..n])].stamp else 0.0
  }

  /** The time that ended in a falling count. */
  function FallingTime(t: seq<Chunk>): real
    requires AllTexts(t)
  {
    var n := |t| - 1;
    if n <= 0 then 0.0
    else FallingTime(t[..n]) + if t[n].tokens < t[n - 1].tokens then t[n].stamp - t[LastChange(t[..n])].stamp else 0.0
  }

  predicate NeverFalls(t: seq<Chunk>)
    requires AllTexts(t)
  {
    forall i, j :: 0 <= i < j < |t| ==> t[i].tokens <= t[j].tokens
  }

  lemma NeverFallsNext(t: seq<Chunk>)
    requires AllTexts(t) && |t| >= 2
    ensures NeverFalls(t) <==> NeverFalls(t[..|t| - 1]) && t[|t| - 2].tokens <= t[|t| - 1].tokens
  {
    var n := |t| - 1;
    if NeverFalls(t[..n]) && t[n - 1].tokens <= t[n].tokens {
      forall i, j | 0 <= i < j < |t| ensures t[i].tokens <= t[j].tokens {
        if j == n && i < n - 1 { assert t[..n][i].tokens <= t[..n][n - 1].tokens; }
        if j < n { assert t[..n][i].tokens <= t[..n][j].tokens; }
      }
    }
  }

  /**
    The gains add up to the difference of the first and the last count exactly when the count never
    falls, and the time then runs without loss from the first chunk to the last that changed it.
  */
  lemma {:induction false} TelescopesIffNeverFalls(t: seq<Chunk>)
    requires AllTexts(t) && t != []
    ensures Rises(t) >= t[|t| - 1].tokens - t[0].tokens
    ensures Rises(t) == t[|t| - 1].tokens - t[0].tokens <==> NeverFalls(t)
    ensures RisingTime(t) + FallingTime(t) == t[LastChange(t)].stamp - t[0].stamp
    ensures NeverFalls(t) ==> FallingTime(t) == 0.0
  {
    if |t| >= 2 {
      TelescopesIffNeverFalls(t[..|t| - 1]);
      NeverFallsNext(t);
    }
  }

  // ----- The loop

  /** The clock does not run backwards. */
  predicate Steady(t: seq<Chunk>)
    requires AllTexts(t)
  {
    forall i, j :: 0 <= i < j < |t| ==> t[i].stamp <= t[j].stamp
  }

  predicate NoneNegative(itl: seq<real>) {
    forall i :: 0 <= i < |itl| ==> itl[i] >= 0.0
  }

  /** The latencies a changed count brings; `[x] * n` is empty for a negative n. */
  function Spread(gap: real, added: int): seq<real>
    requires added != 0
  {
    Repeat(gap / added as real, if added > 0 then added else 0)
  }

  /** From the last change before it to the last chunk. */
  function Gap(t: seq<Chunk>): real
    requires AllTexts(t) && |t| >= 2
  {
    t[|t| - 1].stamp - t[LastChange(t[..|t| - 1])].stamp
  }

  function Gained(t: seq<Chunk>): int
    requires AllTexts(t) && |t| >= 2
  {
    t[|t| - 1].tokens - t[|t| - 2].tokens
  }

  /** Chunk by chunk, each gap shared among the tokens gained. */
  function Latencies(t: seq<Chunk>): seq<real>
    requires AllTexts(t)
  {
    if |t| < 2 then []
    else Latencies(t[..|t| - 1]) + if Gained(t) != 0 then Spread(Gap(t), Gained(t)) else []
  }

  lemma SumOfMore(itl: seq<real>, gap: real, added: int)
    requires added != 0
    ensures Sum(itl + Spread(gap, added)) == Sum(itl) + if added > 0 then gap else 0.0
    ensures |Spread(gap, added)| == if added > 0 then added else 0
  {
    if added > 0 { SpreadGap(itl, gap, added); } else { assert itl + Spread(gap, added) == itl; }
  }

  /** One latency for each token gained, together lasting as long as the gaps that gained tokens. */
  lemma {:induction false} LatenciesAddUp(t: seq<Chunk>)
    requires AllTexts(t)
    ensures |Latencies(t)| == Rises(t) && Sum(Latencies(t)) == RisingTime(t)
  {
    if |t| >= 2 {
      var front := t[..|t| - 1];
      LatenciesAddUp(front);
      if Gained(t) == 0 {
        assert Latencies(t) == Latencies(front);
      } else {
        SumOfMore(Latencies(front), Gap(t), Gained(t));
      }
    }
  }

  lemma {:induction false} LatenciesNotNegative(t: seq<Chunk>)
    requires AllTexts(t) && Steady(t)
    ensures NoneNegative(Latencies(t))
  {
    if |t| >= 2 {
      var front := t[..|t| - 1];
      LatenciesNotNegative(front);
      assert t[LastChange(front)] == front[LastChange(front)];
      if Gained(t) > 0 { SpreadNotNegative(Gap(t), Gained(t)); }
    }
  }

  lemma {:induction false} LatenciesGrow(t: seq<Chunk>, part: seq<Chunk>)
    requires AllTexts(t) && AllTexts(part) && part <= t
    ensures Latencies(part) <= Latencies(t)
  {
    if |part| == |t| {
      assert part == t;
    } else if |t| >= 2 {
      LatenciesGrow(t[..|t| - 1], part);
    } else {
      assert Latencies(part) == [];
    }
  }

  /** The latencies that the last chunk brings: the gap divided by the tokens gained. */
  lemma LastLatency(t: seq<Chunk>, k: nat)
    requires AllTexts(t) && |t| >= 2 && |Latencies(t[..|t| - 1])| <= k < |Latencies(t)|
    ensures Gained(t) > 0 && Latencies(t)[k] == Gap(t) / Gained(t) as real
  {
  }

  /** So it is for every chunk, `part` being the stream up to it: the gap is shared evenly. */
  lemma EachLatency(t: seq<Chunk>, part: seq<Chunk>, k: nat)
    requires AllTexts(t) && AllTexts(part) && part <= t && |part| >= 2
    requires Rises(part[..|part| - 1]) <= k < Rises(part)
    ensures k < |Latencies(t)| && Gained(part) > 0
    ensures Latencies(t)[k] == Gap(part) / Gained(part) as real
  {
    LatencyAt(t, part, k);
    LastLatency(part, k);
  }

  lemma LatencyAt(t: seq<Chunk>, part: seq<Chunk>, k: nat)
    requires AllTexts(t) && AllTexts(part) && part <= t && |part| >= 2
    requires Rises(part[..|part| - 1]) <= k < Rises(part)
    ensures |Latencies(part[..|part| - 1])| <= k < |Latencies(part)| <= |Latencies(t)|
    ensures Latencies(t)[k] == Latencies(part)[k]
  {
    LatenciesAddUp(part);
    LatenciesAddUp(part[..|part| - 1]);
    LatenciesGrow(t, part);
  }

  /** The loop's variables after the chunks from the first counted one. */
  ghost predicate Decoded(t: seq<Chunk>, recent: real, last: int, itl: seq<real>)
    requires AllTexts(t) && t != []
  {
    recent == t[LastChange(t)].stamp && last == t[|t| - 1].tokens && itl == Latencies(t)
  }

  /** The loop's variables after the text chunks so far. */
  ghost predicate Gathered(st: real, texts: seq<Chunk>, ttft: real, recent: real, last: int, itl: seq<real>)
    requires AllTexts(texts)
  {
    var t := Counted(st, texts);
    if t == [] then ttft == 0.0 && itl == []
    else ttft == t[0].ttftStamp - st && Decoded(t, recent, last, itl)
  }

  lemma CountedNext(st: real, texts: seq<Chunk>, c: Chunk)
    requires AllTexts(texts) && IsText(c)
    ensures AllTexts(texts + [c])
    ensures Counted(st, texts + [c]) ==
      if Counted(st, texts) == [] && c.ttftStamp == st then [] else Counted(st, texts) + [c]
  {
    assert (texts + [c])[..|texts|] == texts;
  }

  lemma DecodedFirst(c: Chunk)
    requires IsText(c)
    ensures Decoded([c], c.stamp, c.tokens, [])
  {
  }

  lemma SpreadNotNegative(gap: real, added: int)
    requires gap >= 0.0 && added > 0
    ensures NoneNegative(Spread(gap, added))
  {
    assert gap / added as real >= 0.0;
  }

  /** A chunk whose count has changed, or not. */
  lemma DecodedNext(t: seq<Chunk>, c: Chunk, recent: real, last: int, itl: seq<real>)
    requires AllTexts(t) && t != [] && IsText(c) && Decoded(t, recent, last, itl)
    ensures AllTexts(t + [c])
    ensures c.tokens == last ==> Decoded(t + [c], recent, last, itl)
    ensures c.tokens != last ==> Decoded(t + [c], c.stamp, c.tokens, itl + Spread(c.stamp - recent, c.tokens - last))
  {
    var all := t + [c];
    assert all[..|t|] == t;
    assert Gap(all) == c.stamp - recent && Gained(all) == c.tokens - last;
  }

  /** One chunk with text. */
  method ReadText(st: real, c: Chunk, ttft0: real, recent0: real, last0: int, itl0: seq<real>, ghost before: seq<Chunk>)
    returns (ttft: real, recent: real, last: int, itl: seq<real>)
    requires IsText(c) && AllTexts(before) && Gathered(st, before, ttft0, recent0, last0, itl0)
    ensures AllTexts(before + [c]) && Gathered(st, before + [c], ttft, recent, last, itl)
  {
    ttft, recent, last, itl := ttft0, recent0, last0, itl0;
    CountedNext(st, before, c);
    if ttft == 0.0 {
      DecodedFirst(c);
      ttft := c.ttftStamp - st;
    } else {
      DecodedNext(Counted(st, before), c, recent, last, itl);
      if c.tokens == last { return; }
      itl := itl + Spread(c.stamp - recent, c.tokens - last);
    }
    recent, last := c.stamp, c.tokens;
  }

  /** What the latencies promise, without the loop's variables. */
  ghost predicate Measured(st: real, texts: seq<Chunk>, ttft: real, itl: seq<real>)
    requires AllTexts(texts)
  {
    var t := Counted(st, texts);
    if t == [] then ttft == 0.0 && itl == []
    else
      && ttft == t[0].ttftStamp - st && |itl| == Rises(t) && Sum(itl) == RisingTime(t)
      && (Steady(t) ==> NoneNegative(itl)) && itl == Latencies(t)
      && (NeverFalls(t) ==>
            && |itl| == texts[|texts| - 1].tokens - t[0].tokens
            && Sum(itl) == t[LastChange(t)].stamp - t[0].stamp)
  }

  lemma GatheredIsMeasured(st: real, texts: seq<Chunk>, ttft: real, recent: real, last: int, itl: seq<real>)
    requires AllTexts(texts) && Gathered(st, texts, ttft, recent, last, itl)
    ensures Measured(st, texts, ttft, itl)
  {
    var t := Counted(st, texts);
    if t != [] {
      TelescopesIffNeverFalls(t);
      LatenciesAddUp(t);
      if Steady(t) { LatenciesNotNegative(t); }
      assert t[|t| - 1] == texts[|texts| - 1];
    }
  }

  /** The whole state of the loop after some chunks. */
  ghost predicate Progress(
    st: real, requested: int, chunks: seq<Chunk>, ttft: real, recent: real, last: int, o: Output)
  {
    && Gathered(st, Texts(chunks), ttft, recent, last, o.itl)
    && o.ttft == ttft && o.outputLen == LastCount(Texts(chunks), requested)
    && o.latency == Latency(st, chunks)
  }

  /** From the start to the last chunk that is not blank. */
  function Latency(st: real, chunks: seq<Chunk>): Option<real> {
    match Arrival(chunks)
    case None => None
    case Some(at) => Some(at - st)
  }

  lemma ChunkNext(chunks: seq<Chunk>, c: Chunk)
    ensures Texts(chunks + [c]) == if IsText(c) then Texts(chunks) + [c] else Texts(chunks)
    ensures Arrival(chunks + [c]) == if c.Blank? then Arrival(chunks) else Some(c.at)
  {
    assert (chunks + [c])[..|chunks|] == chunks;
  }

  lemma LastCountNext(texts: seq<Chunk>, c: Chunk, requested: int)
    requires AllTexts(texts) && IsText(c)
    ensures AllTexts(texts + [c]) && LastCount(texts + [c], requested) == c.tokens
  {
  }

  /** The body of the loop. */
  method ReadChunk(
    st: real, requested: int, c: Chunk, ttft0: real, recent0: real, last0: int, o0: Output, ghost before: seq<Chunk>)
    returns (ttft: real, recent: real, last: int, o: Output)
    requires Progress(st, requested, before, ttft0, recent0, last0, o0)
    ensures Progress(st, requested, before + [c], ttft, recent, last, o)
  {
    ttft, recent, last, o := ttft0, recent0, last0, o0;
    ChunkNext(before, c);
    if c.Blank? { return; }
    o := o.(latency := Some(c.at - st));
    if c.Data? && c.hasText {
      var itl;
      ttft, recent, last, itl := ReadText(st, c, ttft, recent, last, o.itl, Texts(before));
      LastCountNext(Texts(before), c, requested);
      o := Output(ttft, itl, c.tokens, o.latency);
    }
  }

  /**
    For every stream there is one latency for each token gained, and together they last as long as
    the gaps that gained tokens. If the count never falls this telescopes: one latency for each
    token after the first counted chunk's, and together the time from that chunk to the last one
    that brought new tokens, chunks without progress being folded into the next gap.
  */
  method ReadStream(st: real, requested: int, chunks: seq<Chunk>) returns (o: Output)
    ensures o.outputLen == LastCount(Texts(chunks), requested)
    ensures Measured(st, Texts(chunks), o.ttft, o.itl)
    ensures o.latency == Latency(st, chunks)
  {
    var ttft, recent, last;
    ttft, recent, last, o := ReadChunks(st, requested, chunks);
    GatheredIsMeasured(st, Texts(chunks), ttft, recent, last, o.itl);
  }

  /** The loop over the chunks. */
  method ReadChunks(st: real, requested: int, chunks: seq<Chunk>)
    returns (ttft: real, recent: real, last: int, o: Output)
    ensures Progress(st, requested, chunks, ttft, recent, last, o)
  {
    ttft, recent, last := 0.0, st, 0;
    o := Output(0.0, [], requested, None);
    NoProgress(st, requested, o);
    for n := 0 to |chunks|
      invariant Progress(st, requested, chunks[..n], ttft, recent, last, o)
    {
      ttft, recent, last, o := ReadChunk(st, requested, chunks[n], ttft, recent, last, o, chunks[..n]);
      assert chunks[..n] + [chunks[n]] == chunks[..n + 1];
    }
    assert chunks[..|chunks|] == chunks;
  }

  lemma NoProgress(st: real, requested: int, o: Output)
    requires o == Output(0.0, [], requested, None)
    ensures Progress(st, requested, [], 0.0, st, 0, o)
  {
  }

  /** When the clock has moved before the first text arrives, every text chunk is counted. */
  lemma AllCounted(st: real, texts: seq<Chunk>)
    requires AllTexts(texts) && (texts != [] ==> texts[0].ttftStamp > st)
    ensures Counted(st, texts) == texts
  {
  }
}
