/**
  The token layouts of benchmark/kernels/kda/bench_mega_kda.py: repacking equal segments so that
  each stays inside one 64-token tile, and the check whether the unpadded layout already does.
*/
module KdaLayout {
  import opened Common
  import DivMod
  import opened Sums

  const CHUNK := 64

  // ----- Repacking

  /** `maxPerTile` segments a tile, or as many as fit. */
  function PerTile(length: nat, maxPerTile: nat): (n: nat)
    requires 1 <= length <= CHUNK && maxPerTile >= 1
    ensures 1 <= n <= maxPerTile && n * length <= CHUNK
  {
    DivMod.Scale(length, Min(maxPerTile, CHUNK / length), CHUNK / length);
    assert CHUNK / length >= 1 by { DivMod.QuotientAtLeastOne(CHUNK, length); }
    Min(maxPerTile, CHUNK / length)
  }

  function PaddedTokens(segments: nat, perTile: nat): nat
    requires perTile >= 1
  {
    (segments + perTile - 1) / perTile * CHUNK
  }

  datatype Layout = Layout(length: nat, perTile: nat, padded: nat) | SegmentsTooLong | DivisionByZero

  /** The layout planned before anything is moved, or the error raised instead. */
  function PlanLayout(tokens: nat, segments: nat, maxPerTile: nat): (r: Layout)
    ensures r.Layout? <==> segments > 0 && maxPerTile > 0 && 1 <= tokens / segments <= CHUNK
    ensures r.SegmentsTooLong? <==> segments > 0 && tokens / segments > CHUNK
    ensures r.Layout? ==>
      && 1 <= r.perTile <= maxPerTile && r.perTile * r.length <= CHUNK
      && (r.perTile == maxPerTile || (r.perTile + 1) * r.length > CHUNK)
      && FewestTiles(r.padded, segments, r.perTile)
  {
    if segments == 0 then DivisionByZero
    else
      var length := tokens / segments;
      if length > CHUNK then SegmentsTooLong
      else if length == 0 || maxPerTile == 0 then DivisionByZero
      else
        var perTile := PerTile(length, maxPerTile);
        PaddingIsMinimal(segments, perTile);
        Layout(length, perTile, PaddedTokens(segments, perTile))
  }

  /** Whole tiles, enough of them for all segments, and one fewer would not do. */
  predicate FewestTiles(padded: nat, segments: nat, perTile: nat) {
    var tiles := padded / CHUNK;
    padded == tiles * CHUNK && (tiles - 1) * perTile < segments <= tiles * perTile
  }

  lemma PaddingIsMinimal(segments: nat, perTile: nat)
    requires perTile >= 1 && segments >= 1
    ensures FewestTiles(PaddedTokens(segments, perTile), segments, perTile)
  {
    var total := segments + perTile - 1;
    var tiles := total / perTile;
    assert total == tiles * perTile + total % perTile;
    assert (tiles - 1) * perTile == tiles * perTile - perTile;
    assert PaddedTokens(segments, perTile) == tiles * CHUNK;
  }

  /** `jnp.repeat(arange(segments), lengths)` for equal lengths. */
  function SourceSegments(segments: nat, length: nat): seq<nat> {
    if segments == 0 then [] else SourceSegments(segments - 1, length) + seq(length, _ => segments - 1)
  }

  lemma {:induction false} SourceSegmentAt(segments: nat, length: nat, pos: nat)
    requires pos < segments * length
    ensures |SourceSegments(segments, length)| == segments * length
    ensures length > 0 && SourceSegments(segments, length)[pos] == pos / length
  {
    if segments > 0 {
      var before := (segments - 1) * length;
      assert segments * length == before + length;
      SourceLength(segments, length);
      SourceLength(segments - 1, length);
      if pos < before {
        SourceSegmentAt(segments - 1, length, pos);
      } else {
        DivMod.Unique(pos, length, segments - 1, pos - before);
      }
    }
  }

  lemma {:induction false} SourceLength(segments: nat, length: nat)
    ensures |SourceSegments(segments, length)| == segments * length
  {
    if segments > 0 {
      SourceLength(segments - 1, length);
      assert segments * length == (segments - 1) * length + length;
    }
  }

  /** Where position `pos` of segment `segment` goes: `cu_seqlens` are the multiples of the length. */
  function Place(segment: nat, pos: nat, length: nat, perTile: nat): int
    requires perTile >= 1
  {
    var tile := segment / perTile;
    tile * CHUNK + pos - tile * perTile * length
  }

  function Destination(pos: nat, segments: nat, length: nat, perTile: nat): int
    requires pos < segments * length && perTile >= 1
  {
    SourceSegmentAt(segments, length, pos);
    Place(SourceSegments(segments, length)[pos], pos, length, perTile)
  }

  lemma OffsetInTile(pos: int, length: int, perTile: int, s: int, tile: int, i: int, o: int)
    requires s == tile * perTile + i && pos == s * length + o && 0 <= i < perTile && 0 <= o < length
    requires perTile * length <= CHUNK
    ensures 0 <= pos - tile * (perTile * length) < CHUNK
  {
    var size := perTile * length;
    assert s * length == tile * size + i * length by {
      assert (tile * perTile + i) * length == tile * perTile * length + i * length;
    }
    assert 0 <= i * length <= size - length by {
      DivMod.Scale(length, i, perTile - 1);
      DivMod.Scale(length, 0, i);
    }
  }

  lemma PlaceInTile(pos: nat, length: nat, perTile: nat, s: nat, tile: nat, start: int)
    requires length > 0 && perTile >= 1 && perTile * length <= CHUNK
    requires s == pos / length && tile == s / perTile && start == tile * (perTile * length)
    ensures Place(s, pos, length, perTile) == tile * CHUNK + (pos - start) && 0 <= pos - start < CHUNK
  {
    OffsetInTile(pos, length, perTile, s, tile, s % perTile, pos % length);
    assert tile * perTile * length == start;
  }

  /** The tile of a token is its segment's tile, and its place there is its distance from the tile's start. */
  lemma DestinationInTile(pos: nat, segments: nat, length: nat, perTile: nat)
    requires pos < segments * length && 1 <= perTile && perTile * length <= CHUNK
    ensures length > 0
    ensures var d, tile := Destination(pos, segments, length, perTile), pos / length / perTile;
      d >= 0 && d / CHUNK == tile && d % CHUNK == pos - tile * (perTile * length)
  {
    SourceSegmentAt(segments, length, pos);
    var s := pos / length;
    var tile := s / perTile;
    var start := tile * (perTile * length);
    PlaceInTile(pos, length, perTile, s, tile, start);
    DivMod.Unique(Destination(pos, segments, length, perTile), CHUNK, tile, pos - start);
  }

  /** Different tokens go to different places, all of them inside the padded buffer. */
  lemma DestinationInjective(pos: nat, other: nat, segments: nat, length: nat, perTile: nat)
    requires pos < segments * length && other < segments * length && 1 <= perTile && perTile * length <= CHUNK
    requires Destination(pos, segments, length, perTile) == Destination(other, segments, length, perTile)
    ensures pos == other
  {
    DestinationInTile(pos, segments, length, perTile);
    DestinationInTile(other, segments, length, perTile);
  }

  lemma DestinationInRange(pos: nat, segments: nat, length: nat, perTile: nat)
    requires pos < segments * length && 1 <= perTile && perTile * length <= CHUNK
    ensures 0 <= Destination(pos, segments, length, perTile) < PaddedTokens(segments, perTile)
  {
    DestinationInTile(pos, segments, length, perTile);
    var s, d := pos / length, Destination(pos, segments, length, perTile);
    assert s < segments by { DivMod.QuotientBelow(pos, length, segments); }
    var tiles := (segments + perTile - 1) / perTile;
    DivMod.QuotientMonotone(s + perTile, segments + perTile - 1, perTile);
    DivMod.AddDivisor(s, perTile);
    assert s / perTile + 1 <= tiles;
    assert d == CHUNK * (d / CHUNK) + d % CHUNK;
  }

  /** All tokens of a segment are in one tile, and that tile holds only its own group of segments. */
  lemma SegmentsStayTogether(pos: nat, other: nat, segments: nat, length: nat, perTile: nat)
    requires pos < segments * length && other < segments * length && 1 <= perTile && perTile * length <= CHUNK
    ensures length > 0
    ensures Destination(pos, segments, length, perTile) / CHUNK == Destination(other, segments, length, perTile) / CHUNK
      <==> pos / length / perTile == other / length / perTile
  {
    DestinationInTile(pos, segments, length, perTile);
    DestinationInTile(other, segments, length, perTile);
  }

  lemma QuotientWindow(s: nat, n: nat, t: int)
    requires n >= 1 && s / n == t
    ensures t * n <= s < t * n + n
  {
  }

  lemma SegmentInWindow(pos: nat, segments: nat, length: nat, perTile: nat, t: int)
    requires pos < segments * length && 1 <= perTile && perTile * length <= CHUNK && length > 0
    requires Destination(pos, segments, length, perTile) / CHUNK == t
    ensures t * perTile <= pos / length < t * perTile + perTile
  {
    DestinationInTile(pos, segments, length, perTile);
    QuotientWindow(pos / length, perTile, t);
  }

  /** The segments with a token in tile `t`. */
  ghost function SegmentsIn(t: int, segments: nat, length: nat, perTile: nat): set<int>
    requires 1 <= perTile && length > 0
  {
    set pos: nat | pos < segments * length && Destination(pos, segments, length, perTile) / CHUNK == t :: pos / length
  }

  /** No tile holds more than `perTile` segments, and so not more than asked for. */
  lemma TileCapacity(t: int, segments: nat, length: nat, perTile: nat)
    requires 1 <= perTile && length > 0 && perTile * length <= CHUNK
    ensures |SegmentsIn(t, segments, length, perTile)| <= perTile
  {
    var window := Range(t * perTile, perTile);
    forall s | s in SegmentsIn(t, segments, length, perTile) ensures s in window {
      var pos: nat :|
        pos < segments * length && Destination(pos, segments, length, perTile) / CHUNK == t && s == pos / length;
      SegmentInWindow(pos, segments, length, perTile, t);
    }
    SubsetSize(SegmentsIn(t, segments, length, perTile), window);
  }

  // ----- Scatter and gather

  /** `jnp.zeros(n).at[destinations].set(values)`. */
  function Scatter<T>(destinations: seq<int>, values: seq<T>, n: nat, zero: T): (r: seq<T>)
    requires |destinations| == |values| && forall i :: 0 <= i < |destinations| ==> 0 <= destinations[i] < n
    ensures |r| == n
  {
    if values == [] then seq(n, _ => zero)
    else
      var k := |values| - 1;
      Scatter(destinations[..k], values[..k], n, zero)[destinations[k] := values[k]]
  }

  /** `output[destinations]`. */
  function Gather<T>(buffer: seq<T>, destinations: seq<int>): (r: seq<T>)
    requires forall i :: 0 <= i < |destinations| ==> 0 <= destinations[i] < |buffer|
    ensures |r| == |destinations| && forall i :: 0 <= i < |r| ==> r[i] == buffer[destinations[i]]
  {
    seq(|destinations|, i requires 0 <= i < |destinations| => buffer[destinations[i]])
  }

  /** With distinct destinations, each value is found at its place and zeros everywhere else. */
  lemma {:induction false} ScatterAt<T>(destinations: seq<int>, values: seq<T>, n: nat, zero: T, p: nat)
    requires |destinations| == |values| && (forall i :: 0 <= i < |destinations| ==> 0 <= destinations[i] < n)
    requires Distinct(destinations) && p < n
    ensures forall i :: 0 <= i < |destinations| && destinations[i] == p ==>
      Scatter(destinations, values, n, zero)[p] == values[i]
    ensures p !in destinations ==> Scatter(destinations, values, n, zero)[p] == zero
  {
    if values != [] {
      var k := |values| - 1;
      ScatterAt(destinations[..k], values[..k], n, zero, p);
      assert forall i :: 0 <= i < k ==> destinations[..k][i] == destinations[i] && values[..k][i] == values[i];
      assert destinations == destinations[..k] + [destinations[k]];
    }
  }

  lemma GatherUndoesScatter<T>(destinations: seq<int>, values: seq<T>, n: nat, zero: T)
    requires |destinations| == |values| && (forall i :: 0 <= i < |destinations| ==> 0 <= destinations[i] < n)
    requires Distinct(destinations)
    ensures Gather(Scatter(destinations, values, n, zero), destinations) == values
  {
    var r := Scatter(destinations, values, n, zero);
    forall i | 0 <= i < |values| ensures Gather(r, destinations)[i] == values[i] {
      ScatterAt(destinations, values, n, zero, destinations[i]);
    }
  }

  function Destinations(segments: nat, length: nat, perTile: nat): (r: seq<int>)
    requires perTile >= 1
    ensures |r| == segments * length
    ensures forall pos :: 0 <= pos < |r| ==> r[pos] == Destination(pos, segments, length, perTile)
  {
    seq(segments * length, pos requires 0 <= pos < segments * length => Destination(pos, segments, length, perTile))
  }

  /**
    The whole repacking, whenever a layout is planned and the segments are of equal length: the
    destinations fit the padded buffer and are distinct, so gathering after scattering gives back
    the original tokens.
  */
  lemma RepackRoundTrip<T>(values: seq<T>, zero: T, segments: nat, maxPerTile: nat)
    requires segments > 0 && |values| % segments == 0 && PlanLayout(|values|, segments, maxPerTile).Layout?
    ensures var p := PlanLayout(|values|, segments, maxPerTile);
      var d := Destinations(segments, p.length, p.perTile);
      && |d| == |values| && Distinct(d) && (forall i :: 0 <= i < |d| ==> 0 <= d[i] < p.padded)
      && Gather(Scatter(d, values, p.padded, zero), d) == values
  {
    var p := PlanLayout(|values|, segments, maxPerTile);
    var d := Destinations(segments, p.length, p.perTile);
    forall i | 0 <= i < |d| ensures 0 <= d[i] < p.padded { DestinationInRange(i, segments, p.length, p.perTile); }
    forall i, j | 0 <= i < j < |d| ensures d[i] != d[j] {
      if d[i] == d[j] { DestinationInjective(i, j, segments, p.length, p.perTile); }
    }
    GatherUndoesScatter(d, values, p.padded, zero);
  }

  /** The segment ids mark every token with its segment, counted from 1, and padding with 0. */
  lemma SegmentIdsMarkTokens(tokens: nat, segments: nat, maxPerTile: nat, at: nat)
    requires segments > 0 && tokens % segments == 0 && PlanLayout(tokens, segments, maxPerTile).Layout?
    requires at < PlanLayout(tokens, segments, maxPerTile).padded
    ensures var p := PlanLayout(tokens, segments, maxPerTile);
      var d := Destinations(segments, p.length, p.perTile);
      var marks := seq(tokens, pos requires 0 <= pos < tokens => pos / p.length + 1);
      && |d| == tokens && (forall i :: 0 <= i < |d| ==> 0 <= d[i] < p.padded)
      && (forall pos :: 0 <= pos < |d| && d[pos] == at ==> Scatter(d, marks, p.padded, 0)[at] == pos / p.length + 1)
      && (at !in d ==> Scatter(d, marks, p.padded, 0)[at] == 0)
  {
    var p := PlanLayout(tokens, segments, maxPerTile);
    var d := Destinations(segments, p.length, p.perTile);
    var marks := seq(tokens, pos requires 0 <= pos < tokens => pos / p.length + 1);
    RepackRoundTrip(marks, 0, segments, maxPerTile);
    ScatterAt(d, marks, p.padded, 0, at);
  }
}
