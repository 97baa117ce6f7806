/**
  The contract of `select_block_configs` leaves no choice: for configs with distinct scores, two
  selections of the same size that are fair and prefer larger configs at every moment are equal.
*/
module ConfigOrder {
  import opened ConfigSelection
  import opened ConfigMeaning
  import opened ConfigTruncation

  /** A selection of different configs, made in rounds. */
  ghost predicate Selection(s: seq<Config>, configs: seq<Config>) {
    DistinctScores(s) && (forall c :: c in s ==> c in configs) && InRounds(s, configs)
  }

  lemma RoundsOfFront(s: seq<Config>, front: seq<Config>, configs: seq<Config>)
    requires InRounds(s, configs) && front <= s
    ensures InRounds(front, configs)
  {
    forall n | 0 <= n <= |front| ensures FairChoice(front[..n], configs) {
      assert front[..n] == s[..n];
      assert FairChoice(s[..n], configs);
    }
  }

  lemma SelectionFront(s: seq<Config>, configs: seq<Config>)
    requires Selection(s, configs) && s != []
    ensures Selection(s[..|s| - 1], configs) && s == s[..|s| - 1] + [s[|s| - 1]]
    ensures s[|s| - 1] in configs
  {
    RoundsOfFront(s, s[..|s| - 1], configs);
    DistinctPrefix(s, |s| - 1);
  }

  lemma SelectionIsFair(s: seq<Config>, configs: seq<Config>)
    requires Selection(s, configs)
    ensures BucketsFair(s, configs) && GroupsFair(s, configs) && LargestFirst(s, configs)
  {
    assert s[..|s|] == s;
    assert FairChoice(s[..|s|], configs);
    BucketsMean(s, configs);
    GroupsMean(s, configs);
    LargestFirstMeans(s, configs);
  }

  // ----- A selection never takes more of a label than there is

  lemma BagWithin(s: seq<Config>, configs: seq<Config>)
    requires DistinctScores(s) && forall c :: c in s ==> c in configs
    ensures multiset(s) <= multiset(configs)
  {
    forall x ensures multiset(s)[x] <= multiset(configs)[x] {
      DistinctAtMostOnce(s, x);
      if x in multiset(s) { assert x in configs; }
    }
  }

  lemma LabelWithin(s: seq<Config>, configs: seq<Config>, keyOf: Config -> Key, k: Key)
    requires multiset(s) <= multiset(configs)
    ensures |With(s, keyOf, k)| <= |With(configs, keyOf, k)|
  {
    var a, b := multiset(With(s, keyOf, k)), multiset(With(configs, keyOf, k));
    forall x ensures a[x] <= b[x] {
      WithBag(s, keyOf, k, x);
      WithBag(configs, keyOf, k, x);
    }
    assert a <= b;
    assert b == a + (b - a);
  }

  /** If the last config has the label, the others leave room for it. */
  lemma RoomForLast(front: seq<Config>, c: Config, configs: seq<Config>, keyOf: Config -> Key)
    requires DistinctScores(front + [c]) && forall x :: x in front + [c] ==> x in configs
    ensures |With(front, keyOf, keyOf(c))| < |With(configs, keyOf, keyOf(c))|
  {
    BagWithin(front + [c], configs);
    LabelWithin(front + [c], configs, keyOf, keyOf(c));
    WithNext(front, c, keyOf, keyOf(c));
  }

  // ----- After the same beginning the next config is determined

  /** Selections that go on differently do not differ in the bucket: one of them would be unfair. */
  lemma BucketDetermined(front: seq<Config>, c: Config, d: Config, configs: seq<Config>)
    requires Selection(front + [c], configs) && Selection(front + [d], configs)
    requires c in configs && d in configs
    ensures !Less(BucketKey(d), BucketKey(c))
  {
    if Less(BucketKey(d), BucketKey(c)) {
      LessTotal(BucketKey(c), BucketKey(d));
      SelectionIsFair(front + [c], configs);
      SelectionIsFair(front + [d], configs);
      RoomForLast(front, c, configs, BucketKey);
      RoomForLast(front, d, configs, BucketKey);
      CountsAfter(front, c, d, BucketKey);
      CountsAfter(front, d, c, BucketKey);
    }
  }

  lemma GroupDetermined(front: seq<Config>, c: Config, d: Config, configs: seq<Config>)
    requires Selection(front + [c], configs) && Selection(front + [d], configs)
    requires c in configs && d in configs && BucketKey(c) == BucketKey(d)
    ensures !Less(ShapeKey(d), ShapeKey(c))
  {
    if Less(ShapeKey(d), ShapeKey(c)) {
      LessTotal(ShapeKey(c), ShapeKey(d));
      DifferentGroups(c, d);
      SelectionIsFair(front + [c], configs);
      SelectionIsFair(front + [d], configs);
      RoomForLast(front, c, configs, GroupKey);
      RoomForLast(front, d, configs, GroupKey);
      CountsAfter(front, c, d, GroupKey);
      CountsAfter(front, d, c, GroupKey);
    }
  }

  lemma DifferentGroups(c: Config, d: Config)
    requires ShapeKey(c) != ShapeKey(d)
    ensures GroupKey(c) != GroupKey(d)
  {
    assert GroupKey(c)[2..] == ShapeKey(c) && GroupKey(d)[2..] == ShapeKey(d);
  }

  /** Taking `c` adds one to its own label and nothing to another. */
  lemma CountsAfter(front: seq<Config>, c: Config, d: Config, keyOf: Config -> Key)
    requires keyOf(c) != keyOf(d)
    ensures |With(front + [c], keyOf, keyOf(c))| == |With(front, keyOf, keyOf(c))| + 1
    ensures |With(front + [c], keyOf, keyOf(d))| == |With(front, keyOf, keyOf(d))|
  {
    WithNext(front, c, keyOf, keyOf(c));
    WithNext(front, c, keyOf, keyOf(d));
  }

  lemma NotRepeated(front: seq<Config>, d: Config)
    requires DistinctScores(front + [d])
    ensures forall e :: e in front ==> Score(e) != Score(d)
  {
    forall e | e in front ensures Score(e) != Score(d) {
      var i :| 0 <= i < |front| && front[i] == e;
      assert (front + [d])[i] == e && (front + [d])[|front|] == d;
    }
  }

  /** Within a group the larger score comes first. */
  lemma ScoreDetermined(front: seq<Config>, c: Config, d: Config, configs: seq<Config>)
    requires Selection(front + [c], configs) && Selection(front + [d], configs)
    requires c in configs && d in configs && GroupKey(c) == GroupKey(d)
    ensures !Less(Score(c), Score(d))
  {
    if Less(Score(c), Score(d)) {
      LessTotal(Score(c), Score(d));
      SelectionIsFair(front + [c], configs);
      NotRepeated(front, d);
      InScoreSet(front + [c], Score(d));
    }
  }

  lemma NextDetermined(front: seq<Config>, c: Config, d: Config, configs: seq<Config>)
    requires Selection(front + [c], configs) && Selection(front + [d], configs) && DistinctScores(configs)
    requires c in configs && d in configs
    ensures c == d
  {
    assert BucketKey(c) == BucketKey(d) by {
      BucketDetermined(front, c, d, configs);
      BucketDetermined(front, d, c, configs);
      LessTotal(BucketKey(c), BucketKey(d));
    }
    assert ShapeKey(c) == ShapeKey(d) by {
      GroupDetermined(front, c, d, configs);
      GroupDetermined(front, d, c, configs);
      LessTotal(ShapeKey(c), ShapeKey(d));
    }
    assert Score(c) == Score(d) by {
      ScoreDetermined(front, c, d, configs);
      ScoreDetermined(front, d, c, configs);
      LessTotal(Score(c), Score(d));
    }
    SameConfig(configs, c, d);
  }

  lemma SameConfig(configs: seq<Config>, c: Config, d: Config)
    requires DistinctScores(configs) && c in configs && d in configs && Score(c) == Score(d)
    ensures c == d
  {
    var i :| 0 <= i < |configs| && configs[i] == c;
    var j :| 0 <= j < |configs| && configs[j] == d;
  }

  /** Selections of the same size are equal, so the contract of `SelectConfigs` fixes its result. */
  lemma {:induction false} SelectionIsDetermined(s: seq<Config>, t: seq<Config>, configs: seq<Config>)
    requires DistinctScores(configs) && Selection(s, configs) && Selection(t, configs) && |s| == |t|
    ensures s == t
  {
    if s != [] {
      SelectionFront(s, configs);
      SelectionFront(t, configs);
      SelectionIsDetermined(s[..|s| - 1], t[..|t| - 1], configs);
      NextDetermined(s[..|s| - 1], s[|s| - 1], t[|t| - 1], configs);
    }
  }
}
