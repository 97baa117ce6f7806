/** `_direct_mega_supported`: does any aligned 64-token tile meet more than two segments? */
module KdaDirect {
  import DivMod
  import KdaLayout
  import opened Sums

  const CHUNK := KdaLayout.CHUNK

  /** Segment `i`, of the given length, has a token in the tile that starts at `start`. */
  predicate Meets(i: int, length: int, start: int) {
    i * length < start + CHUNK && (i + 1) * length > start
  }

  function Meeting(segments: nat, length: int, start: int): set<int> {
    set i | 0 <= i < segments && Meets(i, length, start)
  }

  /** No tile of the padded token range meets more than two segments. */
  ghost predicate TilesOk(tiles: nat, segments: nat, length: int) {
    forall t :: 0 <= t < tiles ==> |Meeting(segments, length, t * CHUNK)| <= 2
  }

  method CountMeeting(segments: nat, length: nat, start: nat) returns (overlaps: nat)
    ensures overlaps == |Meeting(segments, length, start)|
  {
    overlaps := 0;
    for i := 0 to segments
      invariant overlaps == |Meeting(i, length, start)|
    {
      if Meets(i, length, start) {
        assert Meeting(i + 1, length, start) == Meeting(i, length, start) + {i};
        overlaps := overlaps + 1;
      } else {
        assert Meeting(i + 1, length, start) == Meeting(i, length, start);
      }
    }
  }

  method DirectMegaSupported(tokens: nat, segments: nat) returns (ok: bool)
    requires segments > 0
    ensures ok <==> TilesOk((tokens + CHUNK - 1) / CHUNK, segments, tokens / segments)
    ensures ok <==> NoSegmentStrictlyInside(segments, tokens / segments)
  {
    var length := tokens / segments;
    var tiles := (tokens + CHUNK - 1) / CHUNK;
    Characterised(tokens, segments);
    for t := 0 to tiles
      invariant TilesOk(t, segments, length)
    {
      var overlaps := CountMeeting(segments, length, t * CHUNK);
      if overlaps > 2 {
        assert !TilesOk(tiles, segments, length);
        return false;
      }
    }
    return true;
  }

  // ----- The same without tiles

  /** An inner segment that begins after, and ends before, the edges of its tile. */
  predicate StrictlyInside(i: int, length: int) {
    0 < (i * length) % CHUNK && (i * length) % CHUNK + length < CHUNK
  }

  predicate NoSegmentStrictlyInside(segments: int, length: int) {
    forall i :: 1 <= i <= segments - 2 ==> !StrictlyInside(i, length)
  }

  lemma Choose<T>(x: set<T>) returns (p: T)
    requires |x| > 0
    ensures p in x && |x - {p}| == |x| - 1
  {
    p :| p in x;
  }

  lemma ThreeInOrder(x: set<int>) returns (a: int, b: int, c: int)
    requires |x| >= 3
    ensures a in x && b in x && c in x && a < b < c
  {
    var p := Choose(x);
    var q := Choose(x - {p});
    var r := Choose(x - {p} - {q});
    if p < q < r { a, b, c := p, q, r; }
    else if p < r < q { a, b, c := p, r, q; }
    else if q < p < r { a, b, c := q, p, r; }
    else if q < r < p { a, b, c := q, r, p; }
    else if r < p < q { a, b, c := r, p, q; }
    else { a, b, c := r, q, p; }
  }

  lemma Next(i: int, length: int)
    ensures (i + 1) * length == i * length + length
  {
  }

  /** Of three segments in one tile the middle one lies strictly inside. */
  lemma MiddleIsInside(a: int, b: int, c: int, length: nat, t: int)
    requires a < b < c && Meets(a, length, t * CHUNK) && Meets(c, length, t * CHUNK)
    ensures StrictlyInside(b, length)
  {
    DivMod.Scale(length, a + 1, b);
    DivMod.Scale(length, b + 1, c);
    Next(b, length);
    DivMod.Unique(b * length, CHUNK, t, b * length - t * CHUNK);
  }

  /** A segment strictly inside a tile shares it with both its neighbours. */
  lemma InsideMeetsThree(i: int, length: nat)
    requires StrictlyInside(i, length) && length > 0
    ensures var t := i * length / CHUNK;
      Meets(i - 1, length, t * CHUNK) && Meets(i, length, t * CHUNK) && Meets(i + 1, length, t * CHUNK)
  {
    var t := i * length / CHUNK;
    assert i * length == CHUNK * t + (i * length) % CHUNK;
    Next(i, length);
    Next(i - 1, length);
    Next(i + 1, length);
  }

  lemma TilesOkIfNoneInside(tiles: nat, segments: nat, length: nat)
    requires NoSegmentStrictlyInside(segments, length)
    ensures TilesOk(tiles, segments, length)
  {
    forall t | 0 <= t < tiles ensures |Meeting(segments, length, t * CHUNK)| <= 2 {
      if |Meeting(segments, length, t * CHUNK)| > 2 {
        var a, b, c := ThreeInOrder(Meeting(segments, length, t * CHUNK));
        MiddleIsInside(a, b, c, length, t);
        assert false;
      }
    }
  }

  lemma ThreeMeet(segments: nat, length: nat, start: int, i: int)
    requires 1 <= i <= segments - 2
    requires Meets(i - 1, length, start) && Meets(i, length, start) && Meets(i + 1, length, start)
    ensures |Meeting(segments, length, start)| > 2
  {
    var three := {i - 1, i, i + 1};
    assert three <= Meeting(segments, length, start);
    SubsetSize(three, Meeting(segments, length, start));
  }

  lemma NoneInsideIfTilesOk(tokens: nat, segments: nat, i: int)
    requires segments > 0 && 1 <= i <= segments - 2 && StrictlyInside(i, tokens / segments)
    ensures !TilesOk((tokens + CHUNK - 1) / CHUNK, segments, tokens / segments)
  {
    var length := tokens / segments;
    if length == 0 { NothingInside(i); }
    var t := i * length / CHUNK;
    InsideMeetsThree(i, length);
    ThreeMeet(segments, length, t * CHUNK, i);
    InsideTileExists(tokens, segments, i);
  }

  lemma NothingInside(i: int)
    ensures !StrictlyInside(i, 0)
  {
    assert i * 0 == 0;
  }

  /** The tile is one of those the check visits. */
  lemma InsideTileExists(tokens: nat, segments: nat, i: int)
    requires segments > 0 && 1 <= i < segments && tokens / segments > 0
    ensures 0 <= i * (tokens / segments) / CHUNK < (tokens + CHUNK - 1) / CHUNK
  {
    var length := tokens / segments;
    DivMod.Scale(length, i + 1, segments);
    Next(i, length);
    assert tokens == segments * length + tokens % segments;
    DivMod.Scale(length, 1, i);
    DivMod.QuotientMonotone(i * length + CHUNK, tokens + CHUNK - 1, CHUNK);
    DivMod.AddDivisor(i * length, CHUNK);
  }

  /** The tile check is equivalent to the tile-free condition. */
  lemma Characterised(tokens: nat, segments: nat)
    requires segments > 0
    ensures TilesOk((tokens + CHUNK - 1) / CHUNK, segments, tokens / segments)
      <==> NoSegmentStrictlyInside(segments, tokens / segments)
  {
    if NoSegmentStrictlyInside(segments, tokens / segments) {
      TilesOkIfNoneInside((tokens + CHUNK - 1) / CHUNK, segments, tokens / segments);
    } else {
      var i :| 1 <= i <= segments - 2 && StrictlyInside(i, tokens / segments);
      NoneInsideIfTilesOk(tokens, segments, i);
    }
  }

  /** Always supported for segments of half a tile or of at least 63 tokens. */
  lemma LongOrHalfSegmentsSupported(segments: nat, length: nat)
    requires length == 32 || length >= 63
    ensures NoSegmentStrictlyInside(segments, length)
  {
    if length == 32 {
      forall i | 1 <= i <= segments - 2 ensures !StrictlyInside(i, length) {
        assert (i * 32) % 64 == 0 || (i * 32) % 64 == 32 by {
          var q, r := i / 2, i % 2;
          assert i * 32 == q * 64 + r * 32;
          DivMod.Unique(i * 32, 64, q, r * 32);
        }
      }
    }
  }

  /** Never supported for three or more segments shorter than half a tile. */
  lemma ShortSegmentsUnsupported(segments: nat, length: nat)
    requires segments >= 3 && 1 <= length < 32
    ensures !NoSegmentStrictlyInside(segments, length)
  {
    DivMod.Unique(1 * length, 64, 0, length);
    assert StrictlyInside(1, length);
  }
}
