/** `select_block_configs` from the ranking to the returned list. */
module ConfigTruncation {
  import opened Common
  import Sums
  import opened RoundRobin
  import opened ConfigSelection
  import opened ConfigMeaning

  // ----- Grouping

  type Groups = map<Key, map<Key, seq<Config>>>

  function GroupOf(s: seq<Config>, bucket: Key, shape: Key): seq<Config> {
    With(s, GroupKey, bucket + shape)
  }

  /** The nested dictionary holds every nonempty group, in ranked order. */
  ghost predicate Grouped(raw: Groups, s: seq<Config>) {
    && (forall c :: c in s ==> BucketKey(c) in raw && ShapeKey(c) in raw[BucketKey(c)])
    && (forall b {:trigger b in raw} :: b in raw ==> |b| == 2)
    && (forall b, k {:trigger k in raw[b]} {:trigger raw[b][k]} :: b in raw && k in raw[b] ==>
          |k| == 7 && raw[b][k] == GroupOf(s, b, k))
  }

  lemma GroupKeyInjective(c: Config, bucket: Key, shape: Key)
    requires |bucket| == 2 && GroupKey(c) == bucket + shape
    ensures BucketKey(c) == bucket && ShapeKey(c) == shape
  {
    assert BucketKey(c) == GroupKey(c)[..2] && bucket == (bucket + shape)[..2];
    assert ShapeKey(c) == GroupKey(c)[2..] && shape == (bucket + shape)[2..];
  }

  lemma {:induction false} GroupAbsent(s: seq<Config>, bucket: Key, shape: Key)
    requires |bucket| == 2
    requires forall c :: c in s ==> BucketKey(c) != bucket || ShapeKey(c) != shape
    ensures GroupOf(s, bucket, shape) == []
  {
    if s != [] {
      GroupAbsent(s[..|s| - 1], bucket, shape);
      if GroupKey(s[|s| - 1]) == bucket + shape { GroupKeyInjective(s[|s| - 1], bucket, shape); }
    }
  }

  function AddTo(raw: Groups, c: Config): Groups {
    var shapes := if BucketKey(c) in raw then raw[BucketKey(c)] else map[];
    var group := if ShapeKey(c) in shapes then shapes[ShapeKey(c)] else [];
    raw[BucketKey(c) := shapes[ShapeKey(c) := group + [c]]]
  }

  lemma GroupGrows(s: seq<Config>, c: Config, b: Key, k: Key)
    requires |b| == 2 && (b != BucketKey(c) || k != ShapeKey(c))
    ensures GroupOf(s + [c], b, k) == GroupOf(s, b, k)
  {
    WithNext(s, c, GroupKey, b + k);
    if GroupKey(c) == b + k { GroupKeyInjective(c, b, k); }
  }

  lemma OwnGroupGrows(raw: Groups, s: seq<Config>, c: Config)
    requires Grouped(raw, s)
    ensures AddTo(raw, c)[BucketKey(c)][ShapeKey(c)] == GroupOf(s + [c], BucketKey(c), ShapeKey(c))
  {
    var b, k := BucketKey(c), ShapeKey(c);
    WithNext(s, c, GroupKey, b + k);
    if !(b in raw && k in raw[b]) { GroupAbsent(s, b, k); }
  }

  lemma GroupedNext(raw: Groups, s: seq<Config>, c: Config)
    requires Grouped(raw, s)
    ensures Grouped(AddTo(raw, c), s + [c])
  {
    var raw' := AddTo(raw, c);
    OwnGroupGrows(raw, s, c);
    forall b, k | b in raw' && k in raw'[b]
      ensures |k| == 7 && raw'[b][k] == GroupOf(s + [c], b, k)
    {
      if b != BucketKey(c) || k != ShapeKey(c) {
        GroupGrows(s, c, b, k);
        assert b in raw && k in raw[b];
      }
    }
  }

  method GroupConfigs(ranked: seq<Config>) returns (raw: Groups)
    ensures Grouped(raw, ranked)
  {
    raw := map[];
    for n := 0 to |ranked|
      invariant Grouped(raw, ranked[..n])
    {
      GroupedNext(raw, ranked[..n], ranked[n]);
      assert ranked[..n + 1] == ranked[..n] + [ranked[n]];
      raw := AddTo(raw, ranked[n]);
    }
    assert ranked[..|ranked|] == ranked;
  }

  // ----- One bucket: its shapes interleaved

  /** Two shapes of a bucket are used equally, up to one for the larger, unless the other is used up. */
  ghost predicate ShapesEven(part: seq<Config>, s: seq<Config>, bucket: Key, shapes: set<Key>) {
    forall k, k' :: k in shapes && k' in shapes ==>
      || |GroupOf(part, bucket, k)| <= |GroupOf(part, bucket, k')| + Lead(k, k')
      || |GroupOf(part, bucket, k')| == |GroupOf(s, bucket, k')|
  }

  /** Even in every prefix. */
  ghost predicate ShapesFair(ordered: seq<Config>, s: seq<Config>, bucket: Key, shapes: set<Key>) {
    && ShapesEven(ordered, s, bucket, shapes)
    && (ordered != [] ==> ShapesFair(ordered[..|ordered| - 1], s, bucket, shapes))
  }

  lemma FairTurnsFairShapes(
    ordered: seq<Config>, s: seq<Config>, bucket: Key, shapes: seq<Key>, keys: seq<Key>,
    queues: seq<seq<Config>>, turns: seq<nat>, n: nat, i: nat, j: nat)
    requires Draws(queues, turns, ordered) && AlwaysFair(queues, turns) && Labelled(queues, GroupKey, keys)
    requires Descending(shapes) && |shapes| == |keys|
    requires forall h :: 0 <= h < |keys| ==> keys[h] == bucket + shapes[h]
    requires forall h :: 0 <= h < |keys| ==> queues[h] == GroupOf(s, bucket, shapes[h])
    requires n <= |ordered| && i < |keys| && j < |keys|
    ensures
      || |GroupOf(ordered[..n], bucket, shapes[i])|
         <= |GroupOf(ordered[..n], bucket, shapes[j])| + Lead(shapes[i], shapes[j])
      || |GroupOf(ordered[..n], bucket, shapes[j])| == |GroupOf(s, bucket, shapes[j])|
  {
    DrawsPrefix(queues, turns, ordered, n);
    DrawnByLabel(queues, turns[..n], ordered[..n], GroupKey, keys, i);
    DrawnByLabel(queues, turns[..n], ordered[..n], GroupKey, keys, j);
    FairAt(queues, turns, n);
  }

  lemma BucketSplit(
    raw: Groups, s: seq<Config>, bucket: Key, shapes: seq<Key>, keys: seq<Key>, queues: seq<seq<Config>>)
    requires Grouped(raw, s) && bucket in raw
    requires (forall k :: k in shapes <==> k in raw[bucket]) && DistinctKeys(shapes)
    requires |shapes| == |keys| == |queues|
    requires forall h :: 0 <= h < |keys| ==> keys[h] == bucket + shapes[h] && queues[h] == GroupOf(s, bucket, shapes[h])
    ensures SplitBy(With(s, BucketKey, bucket), queues, GroupKey, keys)
  {
    var own := With(s, BucketKey, bucket);
    forall i, j | 0 <= i < j < |keys| ensures keys[i] != keys[j] {
      assert keys[i][2..] == shapes[i] && keys[j][2..] == shapes[j];
    }
    forall c | c in own ensures GroupKey(c) in keys {
      WithSubset(s, BucketKey, bucket, c);
      var h :| 0 <= h < |shapes| && shapes[h] == ShapeKey(c);
      assert keys[h] == GroupKey(c);
    }
    forall h | 0 <= h < |queues| ensures queues[h] == With(own, GroupKey, keys[h]) {
      GroupWithinBucket(s, bucket, shapes[h]);
    }
  }

  lemma {:induction false} WithSubset(s: seq<Config>, keyOf: Config -> Key, k: Key, c: Config)
    requires c in With(s, keyOf, k)
    ensures c in s && keyOf(c) == k
  {
    if s != [] && c in With(s[..|s| - 1], keyOf, k) { WithSubset(s[..|s| - 1], keyOf, k, c); }
  }

  lemma {:induction false} GroupWithinBucket(s: seq<Config>, bucket: Key, shape: Key)
    requires |bucket| == 2
    ensures With(With(s, BucketKey, bucket), GroupKey, bucket + shape) == GroupOf(s, bucket, shape)
  {
    if s != [] {
      var front, c := s[..|s| - 1], s[|s| - 1];
      GroupWithinBucket(front, bucket, shape);
      if BucketKey(c) == bucket {
        WithNext(With(front, BucketKey, bucket), c, GroupKey, bucket + shape);
      } else {
        assert With(s, BucketKey, bucket) == With(front, BucketKey, bucket);
        if GroupKey(c) == bucket + shape { GroupKeyInjective(c, bucket, shape); }
      }
    }
  }

  lemma {:induction false} AllShapesFair(
    ordered: seq<Config>, s: seq<Config>, bucket: Key, shapes: seq<Key>, all: set<Key>, keys: seq<Key>,
    queues: seq<seq<Config>>, turns: seq<nat>, n: nat)
    requires Draws(queues, turns, ordered) && AlwaysFair(queues, turns) && Labelled(queues, GroupKey, keys)
    requires Descending(shapes) && |shapes| == |keys|
    requires forall h :: 0 <= h < |keys| ==> keys[h] == bucket + shapes[h]
    requires forall h :: 0 <= h < |keys| ==> queues[h] == GroupOf(s, bucket, shapes[h])
    requires (forall k :: k in all ==> k in shapes) && n <= |ordered|
    ensures ShapesFair(ordered[..n], s, bucket, all)
  {
    if n > 0 {
      AllShapesFair(ordered, s, bucket, shapes, all, keys, queues, turns, n - 1);
      assert ordered[..n][..n - 1] == ordered[..n - 1];
    }
    forall k, k' | k in all && k' in all
      ensures
        || |GroupOf(ordered[..n], bucket, k)| <= |GroupOf(ordered[..n], bucket, k')| + Lead(k, k')
        || |GroupOf(ordered[..n], bucket, k')| == |GroupOf(s, bucket, k')|
    {
      var i :| 0 <= i < |shapes| && shapes[i] == k;
      var j :| 0 <= j < |shapes| && shapes[j] == k';
      FairTurnsFairShapes(ordered, s, bucket, shapes, keys, queues, turns, n, i, j);
    }
  }

  /** A queue that holds a bucket's configs, its shapes fairly interleaved. */
  ghost predicate QueueOf(raw: Groups, s: seq<Config>, bucket: Key, queue: seq<Config>) {
    && bucket in raw
    && multiset(queue) == multiset(With(s, BucketKey, bucket))
    && ShapesFair(queue, s, bucket, raw[bucket].Keys)
    && GroupsInOrder(queue, s, bucket, raw[bucket].Keys)
  }

  /** Each shape group keeps its ranked order. */
  ghost predicate GroupsInOrder(queue: seq<Config>, s: seq<Config>, bucket: Key, shapes: set<Key>) {
    forall k :: k in shapes ==> GroupOf(queue, bucket, k) == GroupOf(s, bucket, k)
  }

  /** The bucket's configs in the order in which they are offered. */
  method OrderBucket(raw: Groups, bucket: Key, ghost s: seq<Config>) returns (ordered: seq<Config>)
    requires Grouped(raw, s) && bucket in raw
    ensures QueueOf(raw, s, bucket, ordered)
  {
    var shapes := SortKeys(raw[bucket].Keys);
    var queues := seq(|shapes|, i requires 0 <= i < |shapes| => raw[bucket][shapes[i]]);
    ghost var keys := seq(|shapes|, i requires 0 <= i < |shapes| => bucket + shapes[i]);
    ghost var turns;
    ordered, turns := Interleave(queues);
    BucketSplit(raw, s, bucket, shapes, keys, queues);
    SplitIsLabelled(With(s, BucketKey, bucket), queues, GroupKey, keys);
    SplitBag(With(s, BucketKey, bucket), queues, GroupKey, keys);
    AllShapesFair(ordered, s, bucket, shapes, raw[bucket].Keys, keys, queues, turns, |ordered|);
    assert ordered[..|ordered|] == ordered;
    DrainKeepsOrder(ordered, s, bucket, shapes, raw[bucket].Keys, keys, queues, turns);
  }

  lemma DrainKeepsOrder(
    ordered: seq<Config>, s: seq<Config>, bucket: Key, shapes: seq<Key>, all: set<Key>, keys: seq<Key>,
    queues: seq<seq<Config>>, turns: seq<nat>)
    requires Draws(queues, turns, ordered) && Labelled(queues, GroupKey, keys)
    requires |shapes| == |keys| && forall h :: 0 <= h < |keys| ==> keys[h] == bucket + shapes[h]
    requires forall h :: 0 <= h < |keys| ==> queues[h] == GroupOf(s, bucket, shapes[h])
    requires forall h :: 0 <= h < |queues| ==> Count(turns, h) == |queues[h]|
    requires forall k :: k in all ==> k in shapes
    ensures GroupsInOrder(ordered, s, bucket, all)
  {
    forall k | k in all ensures GroupOf(ordered, bucket, k) == GroupOf(s, bucket, k) {
      var i :| 0 <= i < |shapes| && shapes[i] == k;
      DrawnByLabel(queues, turns, ordered, GroupKey, keys, i);
    }
  }

  // ----- Selection without repetition

  function ScoreSet(s: seq<Config>): set<Key> {
    if s == [] then {} else ScoreSet(s[..|s| - 1]) + {Score(s[|s| - 1])}
  }

  /** The configs whose score has not occurred before. */
  function Dedup(s: seq<Config>): seq<Config> {
    if s == [] then []
    else
      var front, c := s[..|s| - 1], s[|s| - 1];
      if Score(c) in ScoreSet(front) then Dedup(front) else Dedup(front) + [c]
  }

  lemma AddNext(s: seq<Config>, c: Config)
    ensures ScoreSet(s + [c]) == ScoreSet(s) + {Score(c)}
    ensures Dedup(s + [c]) == if Score(c) in ScoreSet(s) then Dedup(s) else Dedup(s) + [c]
  {
    assert (s + [c])[..|s|] == s;
  }

  lemma {:induction false} InScoreSet(s: seq<Config>, k: Key)
    ensures k in ScoreSet(s) <==> exists c :: c in s && Score(c) == k
  {
    if s != [] {
      var front, c := s[..|s| - 1], s[|s| - 1];
      InScoreSet(front, k);
      assert s == front + [c];
      if Score(c) == k { assert c in s; }
    }
  }

  lemma {:induction false} DedupScores(s: seq<Config>)
    ensures ScoreSet(Dedup(s)) == ScoreSet(s) && |Dedup(s)| == |ScoreSet(s)|
  {
    if s != [] {
      var front, c := s[..|s| - 1], s[|s| - 1];
      DedupScores(front);
      AddNext(Dedup(front), c);
    }
  }

  lemma {:induction false} DedupMembers(s: seq<Config>, c: Config)
    requires c in Dedup(s)
    ensures c in s
  {
    var front := s[..|s| - 1];
    if c in Dedup(front) { DedupMembers(front, c); }
  }

  lemma {:induction false} DedupDistinct(s: seq<Config>)
    ensures DistinctScores(Dedup(s))
  {
    if s != [] {
      var front, c := s[..|s| - 1], s[|s| - 1];
      DedupDistinct(front);
      DedupScores(front);
      var r := Dedup(front);
      if Score(c) !in ScoreSet(front) {
        forall i | 0 <= i < |r| ensures Score(r[i]) != Score(c) { InScoreSet(r, Score(r[i])); }
      }
    }
  }

  /** Removing repetitions keeps each score once and invents nothing. */
  lemma DedupFacts(s: seq<Config>)
    ensures ScoreSet(Dedup(s)) == ScoreSet(s) && |Dedup(s)| == |ScoreSet(s)|
    ensures forall c :: c in Dedup(s) ==> c in s
    ensures DistinctScores(Dedup(s))
  {
    DedupScores(s);
    DedupDistinct(s);
    forall c | c in Dedup(s) ensures c in s { DedupMembers(s, c); }
  }

  predicate DistinctScores(s: seq<Config>) {
    forall i, j :: 0 <= i < j < |s| ==> Score(s[i]) != Score(s[j])
  }

  lemma {:induction false} DedupOfDistinct(s: seq<Config>)
    requires DistinctScores(s)
    ensures Dedup(s) == s
  {
    if s != [] {
      var front, c := s[..|s| - 1], s[|s| - 1];
      DedupOfDistinct(front);
      InScoreSet(front, Score(c));
      assert s == front + [c];
    }
  }

  /** `_add`: append unless the score is already there. */
  method Add(selected: seq<Config>, keys: set<Key>, c: Config, ghost popped: seq<Config>)
    returns (selected': seq<Config>, keys': set<Key>)
    requires selected == Dedup(popped) && keys == ScoreSet(popped)
    ensures selected' == Dedup(popped + [c]) && keys' == ScoreSet(popped + [c])
    ensures |selected| <= |selected'| <= |selected| + 1
  {
    AddNext(popped, c);
    if Score(c) in keys { return selected, keys; }
    return selected + [c], keys + {Score(c)};
  }

  /** One bucket's turn. */
  method Visit(
    ghost buckets: seq<seq<Config>>, now0: seq<seq<Config>>, selected0: seq<Config>, keys0: set<Key>, g: nat,
    ghost popped0: seq<Config>, ghost turns0: seq<nat>, ghost j: nat)
    returns (now: seq<seq<Config>>, selected: seq<Config>, keys: set<Key>, took: bool,
             ghost popped: seq<Config>, ghost turns: seq<nat>)
    requires Draining(buckets, turns0, popped0, now0, j, g) && g < |now0| == |buckets|
    requires selected0 == Dedup(popped0) && keys0 == ScoreSet(popped0)
    ensures Draining(buckets, turns, popped, now, j, g + 1) && |now| == |now0|
    ensures selected == Dedup(popped) && keys == ScoreSet(popped) && |selected| <= |selected0| + 1
    ensures turns == (if took then turns0 + [g] else turns0) && (took ==> j < |buckets[g]|)
  {
    now, selected, keys, took, popped, turns := now0, selected0, keys0, now0[g] != [], popped0, turns0;
    if took {
      TakeNext(buckets, turns, popped, now, j, g);
      selected, keys := Add(selected, keys, now[g][0], popped);
      popped, turns := popped + [now[g][0]], turns + [g];
      now := now[g := now[g][1..]];
    } else {
      SkipNext(buckets, turns, popped, now, j, g);
    }
  }

  /** One round over the buckets, cut short when the limit is reached. */
  method SelectRound(
    ghost buckets: seq<seq<Config>>, now0: seq<seq<Config>>, selected0: seq<Config>, keys0: set<Key>, limit: nat,
    ghost popped0: seq<Config>, ghost turns0: seq<nat>, ghost j: nat)
    returns (now: seq<seq<Config>>, selected: seq<Config>, keys: set<Key>, madeProgress: bool,
             ghost popped: seq<Config>, ghost turns: seq<nat>, ghost last: nat, ghost reached: nat)
    requires Draining(buckets, turns0, popped0, now0, j, 0) && |now0| == |buckets|
    requires selected0 == Dedup(popped0) && keys0 == ScoreSet(popped0) && |selected0| < limit
    ensures Draining(buckets, turns, popped, now, j, reached) && |now| == |buckets|
    ensures selected == Dedup(popped) && keys == ScoreSet(popped) && |selected| <= limit
    ensures |selected| < limit ==> reached == |buckets|
    ensures |selected| < limit && madeProgress ==> last < |buckets| && j < |buckets[last]|
    ensures |selected| < limit && !madeProgress ==> turns == turns0
  {
    now, selected, keys, madeProgress, popped, turns := now0, selected0, keys0, false, popped0, turns0;
    var g := 0;
    last := 0;
    while g < |now0| && |selected| < limit
      invariant g <= |now0| == |now| && Draining(buckets, turns, popped, now, j, g)
      invariant selected == Dedup(popped) && keys == ScoreSet(popped) && |selected| <= limit
      invariant madeProgress ==> last < g && j < |buckets[last]|
      invariant !madeProgress ==> turns == turns0
    {
      var took;
      now, selected, keys, took, popped, turns := Visit(buckets, now, selected, keys, g, popped, turns, j);
      madeProgress, last := madeProgress || took, if took then g else last;
      g := g + 1;
    }
    reached := g;
  }

  /** The loop over rounds. */
  method SelectRounds(buckets: seq<seq<Config>>, limit: nat)
    returns (selected: seq<Config>, keys: set<Key>, ghost popped: seq<Config>, ghost turns: seq<nat>)
    ensures Draws(buckets, turns, popped) && AlwaysFair(buckets, turns)
    ensures selected == Dedup(popped) && keys == ScoreSet(popped) && |selected| <= limit
    ensures |selected| < limit ==> forall h :: 0 <= h < |buckets| ==> Count(turns, h) == |buckets[h]|
  {
    selected, keys, popped, turns := [], {}, [], [];
    var now := buckets;
    Start(buckets);
    ghost var j, reached := 0, 0;
    while |selected| < limit
      invariant Draining(buckets, turns, popped, now, j, reached) && |now| == |buckets|
      invariant |selected| < limit ==> reached == 0
      invariant selected == Dedup(popped) && keys == ScoreSet(popped) && |selected| <= limit
      decreases |selected| < limit, Longest(buckets) - j
    {
      var madeProgress;
      ghost var h;
      now, selected, keys, madeProgress, popped, turns, h, reached :=
        SelectRound(buckets, now, selected, keys, limit, popped, turns, j);
      if |selected| < limit {
        if !madeProgress {
          LastRound(buckets, turns, popped, now, j);
          return;
        }
        NextRound(buckets, turns, popped, now, j, h);
        j, reached := j + 1, 0;
      }
    }
    LevelledIsFair(buckets, turns);
  }

  // ----- Parts of a list

  lemma ScoresOfPart(s: seq<Config>, t: seq<Config>)
    requires forall c :: c in s ==> c in t
    ensures ScoreSet(s) <= ScoreSet(t)
  {
    forall k | k in ScoreSet(s) ensures k in ScoreSet(t) {
      InScoreSet(s, k);
      InScoreSet(t, k);
    }
  }

  lemma {:induction false} DistinctAtMostOnce(s: seq<Config>, x: Config)
    requires DistinctScores(s)
    ensures multiset(s)[x] <= 1
  {
    if s != [] {
      var front, c := s[..|s| - 1], s[|s| - 1];
      DistinctAtMostOnce(front, x);
      assert s == front + [c];
      if c == x { assert x !in front; }
    }
  }

  lemma PartOfDistinct(s: seq<Config>, t: seq<Config>)
    requires DistinctScores(t) && multiset(s) <= multiset(t)
    ensures DistinctScores(s)
  {
    forall i, j | 0 <= i < j < |s| ensures Score(s[i]) != Score(s[j]) {
      assert s == s[..j] + s[j..];
      assert s[i] in s[..j] && s[j] in s[j..];
      assert s[i] in multiset(t) && s[j] in multiset(t);
      DistinctAtMostOnce(t, s[i]);
      assert s[i] != s[j];
      assert s[i] in t && s[j] in t;
    }
  }

  lemma {:induction false} DrawnIsPart(queues: seq<seq<Config>>, drawn: seq<seq<Config>>)
    requires |drawn| == |queues| && forall h :: 0 <= h < |queues| ==> drawn[h] <= queues[h]
    ensures Bag(drawn) <= Bag(queues)
  {
    if queues != [] {
      var n := |queues| - 1;
      DrawnIsPart(queues[..n], drawn[..n]);
      assert queues[n] == drawn[n] + queues[n][|drawn[n]|..];
    }
  }

  lemma WithSameLength(s: seq<Config>, t: seq<Config>, keyOf: Config -> Key, k: Key)
    requires multiset(s) == multiset(t)
    ensures |With(s, keyOf, k)| == |With(t, keyOf, k)|
  {
    forall x ensures multiset(With(s, keyOf, k))[x] == multiset(With(t, keyOf, k))[x] {
      WithBag(s, keyOf, k, x);
      WithBag(t, keyOf, k, x);
    }
    assert multiset(With(s, keyOf, k)) == multiset(With(t, keyOf, k));
  }

  // ----- What the selection promises

  /** Two buckets contribute equally, up to one for the larger, unless the other is used up. */
  ghost predicate BucketsFair(selected: seq<Config>, configs: seq<Config>) {
    forall c, d :: c in configs && d in configs ==>
      || |With(selected, BucketKey, BucketKey(c))|
         <= |With(selected, BucketKey, BucketKey(d))| + Lead(BucketKey(c), BucketKey(d))
      || |With(selected, BucketKey, BucketKey(d))| == |With(configs, BucketKey, BucketKey(d))|
  }

  /** Within a bucket, two shapes contribute equally, up to one for the larger, unless the other is used up. */
  ghost predicate GroupsFair(selected: seq<Config>, configs: seq<Config>) {
    forall c, d :: c in configs && d in configs && BucketKey(c) == BucketKey(d) ==>
      || |With(selected, GroupKey, GroupKey(c))|
         <= |With(selected, GroupKey, GroupKey(d))| + Lead(ShapeKey(c), ShapeKey(d))
      || |With(selected, GroupKey, GroupKey(d))| == |With(configs, GroupKey, GroupKey(d))|
  }

  lemma BucketPairIsFair(
    configs: seq<Config>, ranked: seq<Config>, queues: seq<seq<Config>>, keys: seq<Key>,
    turns: seq<nat>, popped: seq<Config>, g: nat, h: nat)
    requires multiset(ranked) == multiset(configs)
    requires Labelled(queues, BucketKey, keys) && Descending(keys) && g < |keys| && h < |keys|
    requires multiset(queues[h]) == multiset(With(ranked, BucketKey, keys[h]))
    requires Draws(queues, turns, popped) && Fair(queues, turns)
    ensures
      || |With(popped, BucketKey, keys[g])| <= |With(popped, BucketKey, keys[h])| + Lead(keys[g], keys[h])
      || |With(popped, BucketKey, keys[h])| == |With(configs, BucketKey, keys[h])|
  {
    DrawnByLabel(queues, turns, popped, BucketKey, keys, g);
    DrawnByLabel(queues, turns, popped, BucketKey, keys, h);
    WithSameLength(ranked, configs, BucketKey, keys[h]);
    assert |multiset(queues[h])| == |multiset(With(ranked, BucketKey, keys[h]))|;
  }

  lemma BucketsAreFair(
    configs: seq<Config>, ranked: seq<Config>, queues: seq<seq<Config>>, keys: seq<Key>,
    turns: seq<nat>, popped: seq<Config>)
    requires multiset(ranked) == multiset(configs) && SplitBy(ranked, queues, BucketKey, keys)
    requires Descending(keys) && Draws(queues, turns, popped) && Fair(queues, turns)
    ensures BucketsFair(popped, configs)
  {
    SplitIsLabelled(ranked, queues, BucketKey, keys);
    forall c, d | c in configs && d in configs
      ensures
        || |With(popped, BucketKey, BucketKey(c))|
           <= |With(popped, BucketKey, BucketKey(d))| + Lead(BucketKey(c), BucketKey(d))
        || |With(popped, BucketKey, BucketKey(d))| == |With(configs, BucketKey, BucketKey(d))|
    {
      assert c in multiset(ranked) && d in multiset(ranked);
      var g :| 0 <= g < |keys| && keys[g] == BucketKey(c);
      var h :| 0 <= h < |keys| && keys[h] == BucketKey(d);
      BucketPairIsFair(configs, ranked, queues, keys, turns, popped, g, h);
    }
  }

  /** What was drawn from a bucket's group is what the drawn part of its queue holds of it. */
  lemma GroupDrawn(queues: seq<seq<Config>>, keys: seq<Key>, turns: seq<nat>, popped: seq<Config>, h: nat, shape: Key)
    requires Draws(queues, turns, popped) && Labelled(queues, BucketKey, keys) && h < |keys| && |keys[h]| == 2
    ensures Count(turns, h) <= |queues[h]|
    ensures GroupOf(popped, keys[h], shape) == GroupOf(queues[h][..Count(turns, h)], keys[h], shape)
  {
    DrawnByLabel(queues, turns, popped, BucketKey, keys, h);
    GroupWithinBucket(popped, keys[h], shape);
  }

  lemma {:induction false} ShapesEvenAt(ordered: seq<Config>, s: seq<Config>, bucket: Key, shapes: set<Key>, n: nat)
    requires ShapesFair(ordered, s, bucket, shapes) && n <= |ordered|
    ensures ShapesEven(ordered[..n], s, bucket, shapes)
  {
    if n == |ordered| {
      assert ordered[..n] == ordered;
    } else {
      ShapesEvenAt(ordered[..|ordered| - 1], s, bucket, shapes, n);
      assert ordered[..|ordered| - 1][..n] == ordered[..n];
    }
  }

  lemma GroupPairIsFair(
    configs: seq<Config>, ranked: seq<Config>, queues: seq<seq<Config>>, keys: seq<Key>,
    turns: seq<nat>, popped: seq<Config>, h: nat, shapes: set<Key>, k: Key, k': Key)
    requires multiset(ranked) == multiset(configs)
    requires Draws(queues, turns, popped) && Labelled(queues, BucketKey, keys) && h < |keys| && |keys[h]| == 2
    requires ShapesFair(queues[h], ranked, keys[h], shapes) && k in shapes && k' in shapes
    ensures
      || |GroupOf(popped, keys[h], k)| <= |GroupOf(popped, keys[h], k')| + Lead(k, k')
      || |GroupOf(popped, keys[h], k')| == |GroupOf(configs, keys[h], k')|
  {
    var bucket, n := keys[h], Count(turns, h);
    assert n <= |queues[h]| && GroupOf(popped, bucket, k) == GroupOf(queues[h][..n], bucket, k) by {
      GroupDrawn(queues, keys, turns, popped, h, k);
    }
    assert GroupOf(popped, bucket, k') == GroupOf(queues[h][..n], bucket, k') by {
      GroupDrawn(queues, keys, turns, popped, h, k');
    }
    assert |GroupOf(ranked, bucket, k')| == |GroupOf(configs, bucket, k')| by {
      WithSameLength(ranked, configs, GroupKey, bucket + k');
    }
    ShapesEvenAt(queues[h], ranked, bucket, shapes, n);
  }

  // ----- Which configs of a group are taken

  /** Within a shape group no config is taken while a larger one is passed over. */
  ghost predicate LargestFirst(selected: seq<Config>, configs: seq<Config>) {
    forall c, d :: c in selected && d in configs && GroupKey(c) == GroupKey(d) && Less(Score(c), Score(d)) ==>
      Score(d) in ScoreSet(selected)
  }

  /** What has been taken of a group is the front of what the ranking holds of it. */
  lemma GroupFrontTaken(
    ranked: seq<Config>, raw: Groups, queues: seq<seq<Config>>, keys: seq<Key>, turns: seq<nat>,
    popped: seq<Config>, c: Config)
    requires SplitBy(ranked, queues, BucketKey, keys) && Draws(queues, turns, popped)
    requires Grouped(raw, ranked) && QueuesOf(raw, ranked, keys, queues) && c in ranked
    ensures With(popped, GroupKey, GroupKey(c)) <= With(ranked, GroupKey, GroupKey(c))
  {
    SplitIsLabelled(ranked, queues, BucketKey, keys);
    var h :| 0 <= h < |keys| && keys[h] == BucketKey(c);
    QueueAt(raw, ranked, keys, queues, h);
    GroupDrawn(queues, keys, turns, popped, h, ShapeKey(c));
    WithPrefix(queues[h], Count(turns, h), GroupKey, GroupKey(c));
    assert GroupOf(queues[h], keys[h], ShapeKey(c)) == GroupOf(ranked, keys[h], ShapeKey(c));
  }

  lemma FrontIsLargest(popped: seq<Config>, ranked: seq<Config>, c: Config, d: Config)
    requires Descending(Scores(ranked)) && With(popped, GroupKey, GroupKey(c)) <= With(ranked, GroupKey, GroupKey(c))
    requires c in popped && d in ranked && GroupKey(c) == GroupKey(d) && Less(Score(c), Score(d))
    ensures d in popped
  {
    var part, all := With(popped, GroupKey, GroupKey(c)), With(ranked, GroupKey, GroupKey(c));
    WithDescending(ranked, GroupKey, GroupKey(c));
    WithHolds(popped, GroupKey, c);
    WithHolds(ranked, GroupKey, d);
    var i :| 0 <= i < |part| && part[i] == c;
    var j :| 0 <= j < |all| && all[j] == d;
    LessTotal(Score(c), Score(d));
    assert Scores(all)[i] == Score(c) && Scores(all)[j] == Score(d);
    WithMember(popped, GroupKey, GroupKey(c), j);
  }

  lemma {:induction false} WithHolds(s: seq<Config>, keyOf: Config -> Key, c: Config)
    requires c in s
    ensures c in With(s, keyOf, keyOf(c))
  {
    if s[|s| - 1] != c {
      assert s == s[..|s| - 1] + [s[|s| - 1]];
      WithHolds(s[..|s| - 1], keyOf, c);
    }
  }

  lemma TakenLargestFirst(
    configs: seq<Config>, ranked: seq<Config>, raw: Groups, queues: seq<seq<Config>>, keys: seq<Key>,
    turns: seq<nat>, popped: seq<Config>)
    requires multiset(ranked) == multiset(configs) && Descending(Scores(ranked))
    requires SplitBy(ranked, queues, BucketKey, keys) && Draws(queues, turns, popped)
    requires Grouped(raw, ranked) && QueuesOf(raw, ranked, keys, queues)
    ensures LargestFirst(Dedup(popped), configs)
  {
    DedupFacts(popped);
    forall c, d | c in Dedup(popped) && d in configs && GroupKey(c) == GroupKey(d) && Less(Score(c), Score(d))
      ensures Score(d) in ScoreSet(Dedup(popped))
    {
      assert d in multiset(ranked);
      GroupFrontTaken(ranked, raw, queues, keys, turns, popped, d);
      FrontIsLargest(popped, ranked, c, d);
      InScoreSet(popped, Score(d));
    }
  }

  // ----- The whole selection

  ghost predicate QueuesOf(raw: Groups, s: seq<Config>, keys: seq<Key>, queues: seq<seq<Config>>) {
    && |queues| == |keys|
    && (keys != [] ==>
          var n := |keys| - 1;
          QueuesOf(raw, s, keys[..n], queues[..n]) && QueueOf(raw, s, keys[n], queues[n]))
  }

  lemma {:induction false} QueueAt(raw: Groups, s: seq<Config>, keys: seq<Key>, queues: seq<seq<Config>>, h: nat)
    requires QueuesOf(raw, s, keys, queues) && h < |keys|
    ensures QueueOf(raw, s, keys[h], queues[h])
  {
    var n := |keys| - 1;
    if h < n { QueueAt(raw, s, keys[..n], queues[..n], h); }
  }

  lemma QueuesNext(
    raw: Groups, s: seq<Config>, keys: seq<Key>, i: nat, queues: seq<seq<Config>>, queue: seq<Config>)
    requires i < |keys| && QueuesOf(raw, s, keys[..i], queues) && QueueOf(raw, s, keys[i], queue)
    ensures QueuesOf(raw, s, keys[..i + 1], queues + [queue])
  {
    assert keys[..i + 1][..i] == keys[..i] && (queues + [queue])[..i] == queues;
  }

  /** One more bucket. */
  method OrderNext(raw: Groups, keys: seq<Key>, i: nat, queues0: seq<seq<Config>>, ghost s: seq<Config>)
    returns (queues: seq<seq<Config>>)
    requires Grouped(raw, s) && i < |keys| && keys[i] in raw && QueuesOf(raw, s, keys[..i], queues0)
    ensures QueuesOf(raw, s, keys[..i + 1], queues)
  {
    var ordered := OrderBucket(raw, keys[i], s);
    QueuesNext(raw, s, keys, i, queues0, ordered);
    queues := queues0 + [ordered];
  }

  method OrderBuckets(raw: Groups, keys: seq<Key>, ghost s: seq<Config>) returns (queues: seq<seq<Config>>)
    requires Grouped(raw, s) && forall h :: 0 <= h < |keys| ==> keys[h] in raw
    ensures QueuesOf(raw, s, keys, queues)
  {
    queues := [];
    for i := 0 to |keys|
      invariant QueuesOf(raw, s, keys[..i], queues)
    {
      queues := OrderNext(raw, keys, i, queues, s);
    }
    assert keys[..|keys|] == keys;
  }

  method BuildBuckets(ranked: seq<Config>) returns (keys: seq<Key>, queues: seq<seq<Config>>, ghost raw: Groups)
    ensures Grouped(raw, ranked) && SplitBy(ranked, queues, BucketKey, keys) && Descending(keys)
    ensures QueuesOf(raw, ranked, keys, queues)
  {
    var groups := GroupConfigs(ranked);
    raw := groups;
    keys := SortKeys(groups.Keys);
    forall h | 0 <= h < |keys| ensures keys[h] in groups { assert keys[h] in keys; }
    queues := OrderBuckets(groups, keys, ranked);
    forall h | 0 <= h < |queues| ensures multiset(queues[h]) == multiset(With(ranked, BucketKey, keys[h])) {
      QueueAt(raw, ranked, keys, queues, h);
    }
    forall c | c in ranked ensures BucketKey(c) in keys { }
  }

  /** The fallback pass: after a full drain it finds nothing to add. */
  method Fallback(ranked: seq<Config>, selected0: seq<Config>, keys0: set<Key>, limit: nat, ghost popped: seq<Config>)
    returns (selected: seq<Config>)
    requires selected0 == Dedup(popped) && keys0 == ScoreSet(popped)
    requires ScoreSet(ranked) <= ScoreSet(popped) && |selected0| < limit
    ensures selected == selected0
  {
    selected := selected0;
    var keys := keys0;
    for i := 0 to |ranked|
      invariant selected == selected0 && keys == keys0
    {
      var c := ranked[i];
      InScoreSet(ranked, Score(c));
      AddNext(popped, c);
      selected, keys := Add(selected, keys, c, popped);
      if |selected| >= limit { break; }
    }
  }

  datatype Result = Selected(configs: seq<Config>) | InvalidLimit

  method SelectConfigs(configs: seq<Config>, maxConfigs: int) returns (r: Result)
    ensures r.InvalidLimit? <==> maxConfigs <= 0
    ensures maxConfigs > 0 && |configs| <= maxConfigs ==>
      && multiset(r.configs) == multiset(configs) && LargestToSmallest(r.configs)
      && (forall k :: With(r.configs, Score, k) == With(configs, Score, k))
    ensures maxConfigs > 0 && |configs| > maxConfigs ==>
      && |r.configs| == Min(maxConfigs, |ScoreSet(configs)|)
      && DistinctScores(r.configs) && (forall c :: c in r.configs ==> c in configs)
      && LargerFirst(r.configs, configs) && LargestBucketFirst(r.configs, configs)
      && (DistinctScores(configs) ==> |r.configs| == maxConfigs && InRounds(r.configs, configs))
  {
    if maxConfigs <= 0 { return InvalidLimit; }
    var ranked := Rank(configs);
    assert |multiset(ranked)| == |multiset(configs)|;
    if |ranked| <= maxConfigs {
      DescendingMeans(ranked);
      return Selected(ranked);
    }
    var keys, queues, raw := BuildBuckets(ranked);
    var selected, scores, popped, turns := SelectRounds(queues, maxConfigs);
    PoppedIsPart(ranked, queues, keys, turns, popped);
    SelectionSize(configs, popped, maxConfigs);
    if DistinctScores(configs) {
      AllInRounds(configs, ranked, raw, queues, keys, turns, popped);
    }
    TakenLargestFirst(configs, ranked, raw, queues, keys, turns, popped);
    LargestFirstMeans(Dedup(popped), configs);
    PoppedIsInput(configs, ranked, popped);
    FirstIsLargest(configs, ranked, queues, keys, turns, popped);
    if |selected| < maxConfigs {
      ScoresOfSubBag(ranked, popped);
      selected := Fallback(ranked, selected, scores, maxConfigs, popped);
    }
    r := Selected(selected);
  }

  /** What has been selected at some moment is fair and took the largest of each group. */
  ghost predicate FairChoice(selected: seq<Config>, configs: seq<Config>) {
    FairBuckets(selected, configs) && FairShapes(selected, configs) && LargerFirst(selected, configs)
  }

  lemma BucketsMean(selected: seq<Config>, configs: seq<Config>)
    ensures BucketsFair(selected, configs) <==> FairBuckets(selected, configs)
  {
    forall c, d | c in configs && d in configs
      ensures Lead(BucketKey(c), BucketKey(d)) == if SmallerBucket(c, d) then 0 else 1
    {
      BucketMeans(c, d);
    }
    forall c | c in configs
      ensures |With(selected, BucketKey, BucketKey(c))| == InBucket(selected, c)
      ensures |With(configs, BucketKey, BucketKey(c))| == InBucket(configs, c)
    {
      CountsMean(selected, c);
      CountsMean(configs, c);
    }
  }

  lemma GroupsMean(selected: seq<Config>, configs: seq<Config>)
    ensures GroupsFair(selected, configs) <==> FairShapes(selected, configs)
  {
    forall c, d | c in configs && d in configs
      ensures BucketKey(c) == BucketKey(d) <==> SameBucket(c, d)
      ensures Lead(ShapeKey(c), ShapeKey(d)) == if SmallerShape(c, d) then 0 else 1
    {
      BucketMeans(c, d);
      ShapeMeans(c, d);
    }
    forall c | c in configs
      ensures |With(selected, GroupKey, GroupKey(c))| == InGroup(selected, c)
      ensures |With(configs, GroupKey, GroupKey(c))| == InGroup(configs, c)
    {
      CountsMean(selected, c);
      CountsMean(configs, c);
    }
  }

  /** In a group the scores differ in btc only. */
  lemma GroupOrder(c: Config, d: Config)
    ensures GroupKey(c) == GroupKey(d) && Less(Score(c), Score(d)) <==>
      SameBucket(c, d) && SameShape(c, d) && c.btc < d.btc
  {
    GroupMeans(c, d);
    ScoreMeans(c, d);
  }

  lemma ScoreTaken(selected: seq<Config>, d: Config)
    ensures Score(d) in ScoreSet(selected) <==> exists e :: e in selected && Alike(e, d)
  {
    InScoreSet(selected, Score(d));
    forall e | e in selected ensures Score(e) == Score(d) <==> Alike(e, d) { ScoreMeans(e, d); }
  }

  lemma LargestFirstMeans(selected: seq<Config>, configs: seq<Config>)
    ensures LargestFirst(selected, configs) <==> LargerFirst(selected, configs)
  {
    forall c, d | c in selected && d in configs
      ensures GroupKey(c) == GroupKey(d) && Less(Score(c), Score(d)) <==>
        SameBucket(c, d) && SameShape(c, d) && c.btc < d.btc
      ensures Score(d) in ScoreSet(selected) <==> exists e :: e in selected && Alike(e, d)
    {
      GroupOrder(c, d);
      ScoreTaken(selected, d);
    }
  }

  /** At every moment: this is what the order of the selection means. */
  ghost predicate InRounds(selected: seq<Config>, configs: seq<Config>) {
    forall n :: 0 <= n <= |selected| ==> FairChoice(selected[..n], configs)
  }

  lemma FairAtMoment(
    configs: seq<Config>, ranked: seq<Config>, raw: Groups, queues: seq<seq<Config>>, keys: seq<Key>,
    turns: seq<nat>, popped: seq<Config>)
    requires multiset(ranked) == multiset(configs) && Descending(Scores(ranked)) && DistinctScores(popped)
    requires SplitBy(ranked, queues, BucketKey, keys) && Descending(keys)
    requires Draws(queues, turns, popped) && Fair(queues, turns)
    requires Grouped(raw, ranked) && QueuesOf(raw, ranked, keys, queues)
    ensures FairChoice(popped, configs)
  {
    BucketsAreFair(configs, ranked, queues, keys, turns, popped);
    AllGroupsAreFair(configs, ranked, raw, queues, keys, turns, popped);
    TakenLargestFirst(configs, ranked, raw, queues, keys, turns, popped);
    DedupOfDistinct(popped);
    BucketsMean(popped, configs);
    GroupsMean(popped, configs);
    LargestFirstMeans(popped, configs);
  }

  // ----- The first config

  lemma {:induction false} DedupFirst(s: seq<Config>)
    requires s != []
    ensures Dedup(s) != [] && Dedup(s)[0] == s[0]
  {
    if |s| == 1 {
      assert s[..0] == [];
    } else {
      DedupFirst(s[..|s| - 1]);
    }
  }

  /** Whatever repeats, the first config comes from the largest bucket. */
  lemma FirstIsLargest(
    configs: seq<Config>, ranked: seq<Config>, queues: seq<seq<Config>>, keys: seq<Key>,
    turns: seq<nat>, popped: seq<Config>)
    requires multiset(ranked) == multiset(configs) && SplitBy(ranked, queues, BucketKey, keys)
    requires Descending(keys) && Draws(queues, turns, popped) && AlwaysFair(queues, turns)
    requires forall c :: c in popped ==> c in configs
    ensures LargestBucketFirst(Dedup(popped), configs)
  {
    if popped != [] {
      DedupFirst(popped);
      DrawsPrefix(queues, turns, popped, 1);
      FairAt(queues, turns, 1);
      BucketsAreFair(configs, ranked, queues, keys, turns[..1], popped[..1]);
      BucketsMean(popped[..1], configs);
      assert popped[..1] == [popped[0]];
      forall d | d in configs ensures !SmallerBucket(popped[0], d) {
        OneInBucket(popped[0], d);
        SomeInBucket(configs, d);
      }
    }
  }

  lemma OneInBucket(c: Config, d: Config)
    ensures InBucket([c], d) == (if SameBucket(c, d) then 1 else 0) && InBucket([c], c) == 1
  {
    assert [c][..0] == [];
  }

  lemma {:induction false} SomeInBucket(s: seq<Config>, d: Config)
    requires d in s
    ensures InBucket(s, d) > 0
  {
    if s[|s| - 1] != d {
      assert s == s[..|s| - 1] + [s[|s| - 1]];
      SomeInBucket(s[..|s| - 1], d);
    }
  }

  // ----- The contract

  lemma FairPrefix(
    configs: seq<Config>, ranked: seq<Config>, raw: Groups, queues: seq<seq<Config>>, keys: seq<Key>,
    turns: seq<nat>, popped: seq<Config>, n: nat)
    requires multiset(ranked) == multiset(configs) && Descending(Scores(ranked)) && DistinctScores(popped)
    requires SplitBy(ranked, queues, BucketKey, keys) && Descending(keys)
    requires Draws(queues, turns, popped) && AlwaysFair(queues, turns) && n <= |popped|
    requires Grouped(raw, ranked) && QueuesOf(raw, ranked, keys, queues)
    ensures FairChoice(popped[..n], configs)
  {
    DrawsPrefix(queues, turns, popped, n);
    FairAt(queues, turns, n);
    DistinctPrefix(popped, n);
    FairAtMoment(configs, ranked, raw, queues, keys, turns[..n], popped[..n]);
  }

  lemma DistinctPrefix(s: seq<Config>, n: nat)
    requires DistinctScores(s) && n <= |s|
    ensures DistinctScores(s[..n])
  {
  }

  lemma AllInRounds(
    configs: seq<Config>, ranked: seq<Config>, raw: Groups, queues: seq<seq<Config>>, keys: seq<Key>,
    turns: seq<nat>, popped: seq<Config>)
    requires multiset(ranked) == multiset(configs) && Descending(Scores(ranked)) && DistinctScores(popped)
    requires SplitBy(ranked, queues, BucketKey, keys) && Descending(keys)
    requires Draws(queues, turns, popped) && AlwaysFair(queues, turns)
    requires Grouped(raw, ranked) && QueuesOf(raw, ranked, keys, queues)
    ensures InRounds(popped, configs)
  {
    forall n | 0 <= n <= |popped| ensures FairChoice(popped[..n], configs) {
      FairPrefix(configs, ranked, raw, queues, keys, turns, popped, n);
    }
  }

  lemma PoppedIsPart(
    ranked: seq<Config>, queues: seq<seq<Config>>, keys: seq<Key>, turns: seq<nat>, popped: seq<Config>)
    requires SplitBy(ranked, queues, BucketKey, keys) && Draws(queues, turns, popped)
    ensures multiset(popped) <= multiset(ranked)
    ensures (forall h :: 0 <= h < |queues| ==> Count(turns, h) == |queues[h]|) ==> multiset(popped) == multiset(ranked)
  {
    SplitBag(ranked, queues, BucketKey, keys);
    AllDrawnWithin(queues, turns, popped);
    DrawsBag(queues, turns, popped);
    DrawnIsPart(queues, Drawn(queues, turns));
    if forall h :: 0 <= h < |queues| ==> Count(turns, h) == |queues[h]| {
      DrainIsPermutation(queues, turns, popped);
    }
  }

  lemma PoppedIsInput(configs: seq<Config>, ranked: seq<Config>, popped: seq<Config>)
    requires multiset(ranked) == multiset(configs) && multiset(popped) <= multiset(ranked)
    ensures forall c :: c in popped ==> c in configs
  {
    forall c | c in popped ensures c in configs { assert c in multiset(popped); }
  }

  lemma ScoresOfSubBag(s: seq<Config>, t: seq<Config>)
    requires multiset(s) <= multiset(t)
    ensures ScoreSet(s) <= ScoreSet(t) && |ScoreSet(s)| <= |ScoreSet(t)| && forall c :: c in s ==> c in t
  {
    forall c | c in s ensures c in t { assert c in multiset(s); }
    ScoresOfPart(s, t);
    Sums.SubsetSize(ScoreSet(s), ScoreSet(t));
  }

  /** What the rounds have popped fixes the size and the origin of the selection. */
  lemma SelectionSize(configs: seq<Config>, popped: seq<Config>, limit: nat)
    requires multiset(popped) <= multiset(configs) && |configs| > limit && |Dedup(popped)| <= limit
    requires |Dedup(popped)| < limit ==> multiset(popped) == multiset(configs)
    ensures |Dedup(popped)| < limit ==> ScoreSet(configs) <= ScoreSet(popped)
    ensures |Dedup(popped)| == Min(limit, |ScoreSet(configs)|)
    ensures DistinctScores(Dedup(popped)) && forall c :: c in Dedup(popped) ==> c in configs
    ensures DistinctScores(configs) ==> |Dedup(popped)| == limit && Dedup(popped) == popped && DistinctScores(popped)
  {
    DedupFacts(popped);
    ScoresOfSubBag(popped, configs);
    if |Dedup(popped)| < limit { ScoresOfSubBag(configs, popped); }
    if DistinctScores(configs) {
      PartOfDistinct(popped, configs);
      DedupOfDistinct(popped);
      DedupOfDistinct(configs);
      DedupFacts(configs);
    }
  }

  lemma AllGroupsAreFair(
    configs: seq<Config>, ranked: seq<Config>, raw: Groups, queues: seq<seq<Config>>, keys: seq<Key>,
    turns: seq<nat>, popped: seq<Config>)
    requires multiset(ranked) == multiset(configs) && SplitBy(ranked, queues, BucketKey, keys)
    requires Draws(queues, turns, popped) && Grouped(raw, ranked) && QueuesOf(raw, ranked, keys, queues)
    ensures GroupsFair(popped, configs)
  {
    SplitIsLabelled(ranked, queues, BucketKey, keys);
    forall c, d | c in configs && d in configs && BucketKey(c) == BucketKey(d)
      ensures
        || |With(popped, GroupKey, GroupKey(c))|
           <= |With(popped, GroupKey, GroupKey(d))| + Lead(ShapeKey(c), ShapeKey(d))
        || |With(popped, GroupKey, GroupKey(d))| == |With(configs, GroupKey, GroupKey(d))|
    {
      assert c in multiset(ranked) && d in multiset(ranked);
      var h :| 0 <= h < |keys| && keys[h] == BucketKey(c);
      QueueAt(raw, ranked, keys, queues, h);
      var shapes := raw[keys[h]].Keys;
      GroupPairIsFair(configs, ranked, queues, keys, turns, popped, h, shapes, ShapeKey(c), ShapeKey(d));
    }
  }
}
