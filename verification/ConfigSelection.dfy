/**
  The truncation half of `select_block_configs` (benchmark/moe/bench_fused_moe.py): rank the valid
  configs, group them by (bt, bts) bucket and by compute shape, interleave the shapes of each
  bucket, then draw from the buckets in rounds until the limit is reached.
*/
module ConfigSelection {
  import opened RoundRobin

  type Key = seq<int>

  /** A `bts` of 0 stands for an unset one. */
  datatype Config = Config(
    bt: int, bf: int, bd1: int, bd2: int, btc: int, bfc: int, bd1c: int, bd2c: int, bts: int, bse: int)

  function Bts(c: Config): int {
    if c.bts == 0 then c.bt else c.bts
  }

  function Score(c: Config): Key {
    [c.bt, Bts(c), c.bf, c.bd1, c.bd2, c.btc, c.bfc, c.bd1c, c.bd2c, c.bse]
  }

  function BucketKey(c: Config): Key {
    [c.bt, Bts(c)]
  }

  function ShapeKey(c: Config): Key {
    [c.bf, c.bd1, c.bd2, c.bfc, c.bd1c, c.bd2c, c.bse]
  }

  /** The shape group of a config within its bucket. */
  function GroupKey(c: Config): Key {
    BucketKey(c) + ShapeKey(c)
  }

  // ----- Descending order of keys

  /** Python's order on tuples. */
  predicate Less(a: Key, b: Key) {
    b != [] && (a == [] || a[0] < b[0] || (a[0] == b[0] && Less(a[1..], b[1..])))
  }

  lemma {:induction false} LessTotal(a: Key, b: Key)
    ensures Less(a, b) || a == b || Less(b, a)
    ensures !(Less(a, b) && Less(b, a)) && !Less(a, a)
  {
    if a != [] && b != [] {
      LessTotal(a[1..], b[1..]);
      if a[0] == b[0] && a[1..] == b[1..] { assert a == [a[0]] + a[1..] == b; }
    }
    if a != [] { LessTotal(a[1..], a[1..]); }
  }

  lemma {:induction false} LessTransitive(a: Key, b: Key, c: Key)
    requires !Less(a, b) && !Less(b, c)
    ensures !Less(a, c)
  {
    if a != [] && b != [] && c != [] && a[0] == b[0] == c[0] { LessTransitive(a[1..], b[1..], c[1..]); }
  }

  /** How far the share of `a` may exceed that of `b`: a smaller key never gets ahead of a larger one. */
  function Lead(a: Key, b: Key): nat {
    if Less(a, b) then 0 else 1
  }

  predicate Descending(keys: seq<Key>) {
    forall i, j :: 0 <= i < j < |keys| ==> !Less(keys[i], keys[j])
  }

  /** Where a key goes in a descending list: behind everything that is not smaller. */
  method InsertionPoint(keys: seq<Key>, k: Key) returns (p: nat)
    requires Descending(keys)
    ensures p <= |keys| && Descending(keys[..p] + [k] + keys[p..])
    ensures forall i :: 0 <= i < p ==> !Less(keys[i], k)
    ensures forall i :: p <= i < |keys| ==> Less(keys[i], k)
  {
    p := |keys|;
    while p > 0 && Less(keys[p - 1], k)
      invariant 0 <= p <= |keys|
      invariant forall i :: p <= i < |keys| ==> Less(keys[i], k)
    {
      p := p - 1;
    }
    forall i | 0 <= i < p ensures !Less(keys[i], k) {
      if i < p - 1 { LessTransitive(keys[i], keys[p - 1], k); }
    }
    var r := keys[..p] + [k] + keys[p..];
    forall i, j | 0 <= i < j < |r| ensures !Less(r[i], r[j]) {
      if i == p { LessTotal(keys[j - 1], k); }
    }
  }

  method SortKeys(keys: set<Key>) returns (r: seq<Key>)
    ensures Descending(r) && (forall k :: k in r <==> k in keys)
    ensures forall i, j :: 0 <= i < j < |r| ==> r[i] != r[j]
  {
    r := [];
    var rest := keys;
    while rest != {}
      invariant rest <= keys && Descending(r)
      invariant forall k :: k in r <==> k in keys && k !in rest
      invariant forall i, j :: 0 <= i < j < |r| ==> r[i] != r[j]
      decreases |rest|
    {
      var k :| k in rest;
      var p := InsertionPoint(r, k);
      r := r[..p] + [k] + r[p..];
      rest := rest - {k};
    }
  }

  function Scores(s: seq<Config>): (r: seq<Key>)
    ensures |r| == |s| && forall i :: 0 <= i < |s| ==> r[i] == Score(s[i])
  {
    seq(|s|, i requires 0 <= i < |s| => Score(s[i]))
  }

  lemma InsertConfig(ranked: seq<Config>, c: Config, p: nat)
    requires p <= |ranked|
    ensures Scores(ranked[..p] + [c] + ranked[p..]) == Scores(ranked)[..p] + [Score(c)] + Scores(ranked)[p..]
    ensures multiset(ranked[..p] + [c] + ranked[p..]) == multiset(ranked) + multiset{c}
  {
    assert ranked == ranked[..p] + ranked[p..];
  }

  /** `r` is `s` sorted by descending score, configs of equal score in their old order. */
  ghost predicate Ranked(r: seq<Config>, s: seq<Config>) {
    && multiset(r) == multiset(s) && Descending(Scores(r))
    && forall k :: With(r, Score, k) == With(s, Score, k)
  }

  method InsertRanked(ranked: seq<Config>, c: Config, ghost s: seq<Config>) returns (r: seq<Config>)
    requires Ranked(ranked, s)
    ensures Ranked(r, s + [c])
  {
    var p := InsertionPoint(Scores(ranked), Score(c));
    InsertConfig(ranked, c, p);
    LessTotal(Score(c), Score(c));
    forall i | p <= i < |ranked| ensures Score(ranked[i]) != Score(c) {
      assert Less(Scores(ranked)[i], Score(c));
    }
    r := ranked[..p] + [c] + ranked[p..];
    forall k ensures With(r, Score, k) == With(s + [c], Score, k) {
      InsertStable(ranked[..p], c, ranked[p..], k);
      assert ranked == ranked[..p] + ranked[p..];
      WithNext(s, c, Score, k);
    }
  }

  /** `sorted(configs, key=score, reverse=True)`. */
  method Rank(configs: seq<Config>) returns (ranked: seq<Config>)
    ensures Ranked(ranked, configs)
  {
    ranked := [];
    for n := 0 to |configs|
      invariant Ranked(ranked, configs[..n])
    {
      assert configs[..n + 1] == configs[..n] + [configs[n]];
      ranked := InsertRanked(ranked, configs[n], configs[..n]);
    }
    assert configs[..|configs|] == configs;
  }

  // ----- Selecting by label

  /** The configs with the given label, in order. */
  function With(s: seq<Config>, keyOf: Config -> Key, k: Key): (r: seq<Config>)
    ensures forall c :: c in r ==> keyOf(c) == k
  {
    if s == [] then []
    else With(s[..|s| - 1], keyOf, k) + if keyOf(s[|s| - 1]) == k then [s[|s| - 1]] else []
  }

  lemma WithNext(s: seq<Config>, c: Config, keyOf: Config -> Key, k: Key)
    ensures With(s + [c], keyOf, k) == With(s, keyOf, k) + if keyOf(c) == k then [c] else []
  {
    assert (s + [c])[..|s|] == s;
  }

  lemma {:induction false} WithConcat(a: seq<Config>, b: seq<Config>, keyOf: Config -> Key, k: Key)
    ensures With(a + b, keyOf, k) == With(a, keyOf, k) + With(b, keyOf, k)
  {
    if b == [] {
      assert a + b == a;
    } else {
      var front, c := b[..|b| - 1], b[|b| - 1];
      var last := if keyOf(c) == k then [c] else [];
      WithConcat(a, front, keyOf, k);
      assert With(a + b, keyOf, k) == With(a + front, keyOf, k) + last by {
        assert a + b == (a + front) + [c];
        WithNext(a + front, c, keyOf, k);
      }
    }
  }

  lemma {:induction false} WithNone(s: seq<Config>, keyOf: Config -> Key, k: Key)
    requires forall i :: 0 <= i < |s| ==> keyOf(s[i]) != k
    ensures With(s, keyOf, k) == []
  {
    if s != [] { WithNone(s[..|s| - 1], keyOf, k); }
  }

  /** Inserting behind all configs of equal score is, score by score, the same as appending. */
  lemma InsertStable(before: seq<Config>, c: Config, after: seq<Config>, k: Key)
    requires forall i :: 0 <= i < |after| ==> Score(after[i]) != Score(c)
    ensures With(before + [c] + after, Score, k) == With(before + after, Score, k) + if Score(c) == k then [c] else []
  {
    WithConcat(before + [c], after, Score, k);
    WithNext(before, c, Score, k);
    WithConcat(before, after, Score, k);
    if Score(c) == k { WithNone(after, Score, k); }
  }

  /** Taking the front of a list takes the front of what it holds of each label. */
  lemma WithPrefix(s: seq<Config>, n: nat, keyOf: Config -> Key, k: Key)
    requires n <= |s|
    ensures With(s[..n], keyOf, k) <= With(s, keyOf, k)
  {
    WithConcat(s[..n], s[n..], keyOf, k);
    assert s == s[..n] + s[n..];
  }

  /** Selecting by label keeps the order of the scores. */
  lemma {:induction false} WithDescending(s: seq<Config>, keyOf: Config -> Key, k: Key)
    requires Descending(Scores(s))
    ensures Descending(Scores(With(s, keyOf, k)))
  {
    if s != [] {
      var front, c := s[..|s| - 1], s[|s| - 1];
      assert Scores(front) == Scores(s)[..|s| - 1];
      WithDescending(front, keyOf, k);
      forall i | 0 <= i < |With(front, keyOf, k)| ensures !Less(Score(With(front, keyOf, k)[i]), Score(c)) {
        WithMember(front, keyOf, k, i);
        var j :| 0 <= j < |front| && front[j] == With(front, keyOf, k)[i];
        assert !Less(Scores(s)[j], Scores(s)[|s| - 1]);
      }
    }
  }

  lemma {:induction false} WithMember(s: seq<Config>, keyOf: Config -> Key, k: Key, i: nat)
    requires i < |With(s, keyOf, k)|
    ensures With(s, keyOf, k)[i] in s
  {
    if i < |With(s[..|s| - 1], keyOf, k)| { WithMember(s[..|s| - 1], keyOf, k, i); }
  }

  lemma {:induction false} WithBag(s: seq<Config>, keyOf: Config -> Key, k: Key, x: Config)
    ensures multiset(With(s, keyOf, k))[x] == if keyOf(x) == k then multiset(s)[x] else 0
  {
    if s != [] {
      WithBag(s[..|s| - 1], keyOf, k, x);
      assert s == s[..|s| - 1] + [s[|s| - 1]];
    }
  }

  predicate DistinctKeys(keys: seq<Key>) {
    forall i, j :: 0 <= i < j < |keys| ==> keys[i] != keys[j]
  }

  /** Queue `h` holds only configs labelled `keys[h]`. */
  ghost predicate Labelled(queues: seq<seq<Config>>, keyOf: Config -> Key, keys: seq<Key>) {
    && |queues| == |keys| && DistinctKeys(keys)
    && forall h, c :: 0 <= h < |queues| && c in queues[h] ==> keyOf(c) == keys[h]
  }

  /** What a drain has taken with label `keys[h]` is the front part of queue `h`. */
  lemma {:induction false} DrawnByLabel(
    queues: seq<seq<Config>>, turns: seq<nat>, out: seq<Config>, keyOf: Config -> Key, keys: seq<Key>, h: nat)
    requires Draws(queues, turns, out) && Labelled(queues, keyOf, keys) && h < |queues|
    ensures Count(turns, h) <= |queues[h]|
    ensures With(out, keyOf, keys[h]) == queues[h][..Count(turns, h)]
  {
    if turns == [] {
      assert queues[h][..0] == [];
    } else {
      var n := |turns| - 1;
      var front, g, x, m := turns[..n], turns[n], out[n], Count(turns[..n], h);
      DrawnByLabel(queues, front, out[..n], keyOf, keys, h);
      assert x in queues[g] && keyOf(x) == keys[g];
      assert out == out[..n] + [x];
      WithNext(out[..n], x, keyOf, keys[h]);
      if g == h {
        assert queues[h][..m] + [x] == queues[h][..m + 1];
      } else {
        assert keys[g] != keys[h];
      }
    }
  }

  /** A list split by label into one queue per key that occurs. */
  ghost predicate SplitBy(s: seq<Config>, queues: seq<seq<Config>>, keyOf: Config -> Key, keys: seq<Key>) {
    && |queues| == |keys| && DistinctKeys(keys)
    && (forall c :: c in s ==> keyOf(c) in keys)
    && (forall h :: 0 <= h < |queues| ==> multiset(queues[h]) == multiset(With(s, keyOf, keys[h])))
  }

  lemma SplitIsLabelled(s: seq<Config>, queues: seq<seq<Config>>, keyOf: Config -> Key, keys: seq<Key>)
    requires SplitBy(s, queues, keyOf, keys)
    ensures Labelled(queues, keyOf, keys)
  {
    forall h, c | 0 <= h < |queues| && c in queues[h] ensures keyOf(c) == keys[h] {
      assert c in multiset(queues[h]);
      assert c in multiset(With(s, keyOf, keys[h]));
    }
  }

  lemma {:induction false} SplitCount(
    s: seq<Config>, queues: seq<seq<Config>>, keyOf: Config -> Key, keys: seq<Key>, x: Config)
    requires |queues| == |keys| && DistinctKeys(keys)
    requires forall h :: 0 <= h < |queues| ==> multiset(queues[h]) == multiset(With(s, keyOf, keys[h]))
    ensures Bag(queues)[x] == if keyOf(x) in keys then multiset(s)[x] else 0
  {
    if queues != [] {
      var n := |queues| - 1;
      SplitCount(s, queues[..n], keyOf, keys[..n], x);
      WithBag(s, keyOf, keys[n], x);
      assert keys == keys[..n] + [keys[n]];
      if keyOf(x) == keys[n] { assert keyOf(x) !in keys[..n]; }
    }
  }

  /** Splitting loses and adds nothing. */
  lemma SplitBag(s: seq<Config>, queues: seq<seq<Config>>, keyOf: Config -> Key, keys: seq<Key>)
    requires SplitBy(s, queues, keyOf, keys)
    ensures Bag(queues) == multiset(s)
  {
    forall x ensures Bag(queues)[x] == multiset(s)[x] {
      SplitCount(s, queues, keyOf, keys, x);
      if x in multiset(s) { assert x in s; }
    }
  }
}
