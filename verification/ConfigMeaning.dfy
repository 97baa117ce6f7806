/** What the keys of the selection mean for the fields of a config, in plain comparisons. */
module ConfigMeaning {
  import opened ConfigSelection

  // ----- Comparing fields

  /** `c` has the larger value in the first field in which the two configs differ. */
  predicate Outranks(c: Config, d: Config) {
    var cb := if c.bts == 0 then c.bt else c.bts;
    var db := if d.bts == 0 then d.bt else d.bts;
    if c.bt != d.bt then c.bt > d.bt
    else if cb != db then cb > db
    else if c.bf != d.bf then c.bf > d.bf
    else if c.bd1 != d.bd1 then c.bd1 > d.bd1
    else if c.bd2 != d.bd2 then c.bd2 > d.bd2
    else if c.btc != d.btc then c.btc > d.btc
    else if c.bfc != d.bfc then c.bfc > d.bfc
    else if c.bd1c != d.bd1c then c.bd1c > d.bd1c
    else if c.bd2c != d.bd2c then c.bd2c > d.bd2c
    else c.bse > d.bse
  }

  predicate SameBucket(c: Config, d: Config) {
    c.bt == d.bt && (if c.bts == 0 then c.bt else c.bts) == (if d.bts == 0 then d.bt else d.bts)
  }

  predicate SameShape(c: Config, d: Config) {
    && c.bf == d.bf && c.bd1 == d.bd1 && c.bd2 == d.bd2
    && c.bfc == d.bfc && c.bd1c == d.bd1c && c.bd2c == d.bd2c && c.bse == d.bse
  }

  /** Alike in every field, an unset bts standing for bt. */
  predicate Alike(c: Config, d: Config) {
    SameBucket(c, d) && SameShape(c, d) && c.btc == d.btc
  }

  /** The bucket of `c` is smaller: by bt first, then by bts. */
  predicate SmallerBucket(c: Config, d: Config) {
    c.bt < d.bt
    || (c.bt == d.bt && (if c.bts == 0 then c.bt else c.bts) < (if d.bts == 0 then d.bt else d.bts))
  }

  /** The compute shape of `c` is smaller in the first field in which the two differ. */
  predicate SmallerShape(c: Config, d: Config) {
    if c.bf != d.bf then c.bf < d.bf
    else if c.bd1 != d.bd1 then c.bd1 < d.bd1
    else if c.bd2 != d.bd2 then c.bd2 < d.bd2
    else if c.bfc != d.bfc then c.bfc < d.bfc
    else if c.bd1c != d.bd1c then c.bd1c < d.bd1c
    else if c.bd2c != d.bd2c then c.bd2c < d.bd2c
    else c.bse < d.bse
  }

  // ----- The keys say the same

  /** Comparing keys: by the first element, then by the rest. */
  lemma LessHead(x: int, a: Key, y: int, b: Key)
    ensures Less([x] + a, [y] + b) <==> x < y || (x == y && Less(a, b))
  {
    assert ([x] + a)[1..] == a && ([y] + b)[1..] == b;
  }

  lemma LessOne(x: int, y: int)
    ensures Less([x], [y]) <==> x < y
  {
    assert [x] == [x] + [] && [y] == [y] + [];
    LessHead(x, [], y, []);
  }

  function Tail(c: Config): Key {
    [c.bfc, c.bd1c, c.bd2c, c.bse]
  }

  lemma TailMeans(c: Config, d: Config)
    ensures Less(Tail(c), Tail(d)) <==>
      if c.bfc != d.bfc then c.bfc < d.bfc
      else if c.bd1c != d.bd1c then c.bd1c < d.bd1c
      else if c.bd2c != d.bd2c then c.bd2c < d.bd2c
      else c.bse < d.bse
  {
    var c3, d3 := [c.bse], [d.bse];
    var c2, d2 := [c.bd2c] + c3, [d.bd2c] + d3;
    var c1, d1 := [c.bd1c] + c2, [d.bd1c] + d2;
    assert Tail(c) == [c.bfc] + c1 && Tail(d) == [d.bfc] + d1;
    LessOne(c.bse, d.bse);
    LessHead(c.bd2c, c3, d.bd2c, d3);
    LessHead(c.bd1c, c2, d.bd1c, d2);
    LessHead(c.bfc, c1, d.bfc, d1);
  }

  lemma ShapeMeans(c: Config, d: Config)
    ensures Less(ShapeKey(c), ShapeKey(d)) <==> SmallerShape(c, d)
    ensures ShapeKey(c) == ShapeKey(d) <==> SameShape(c, d)
  {
    var c2, d2 := [c.bd2] + Tail(c), [d.bd2] + Tail(d);
    var c1, d1 := [c.bd1] + c2, [d.bd1] + d2;
    assert ShapeKey(c) == [c.bf] + c1 && ShapeKey(d) == [d.bf] + d1;
    TailMeans(c, d);
    LessHead(c.bd2, Tail(c), d.bd2, Tail(d));
    LessHead(c.bd1, c2, d.bd1, d2);
    LessHead(c.bf, c1, d.bf, d1);
    if SameShape(c, d) { assert ShapeKey(c) == ShapeKey(d); }
    if ShapeKey(c) == ShapeKey(d) {
      assert forall i :: 0 <= i < 7 ==> ShapeKey(c)[i] == ShapeKey(d)[i];
    }
  }

  lemma BucketMeans(c: Config, d: Config)
    ensures Less(BucketKey(c), BucketKey(d)) <==> SmallerBucket(c, d)
    ensures BucketKey(c) == BucketKey(d) <==> SameBucket(c, d)
  {
    assert BucketKey(c) == [c.bt] + [Bts(c)] && BucketKey(d) == [d.bt] + [Bts(d)];
    LessOne(Bts(c), Bts(d));
    LessHead(c.bt, [Bts(c)], d.bt, [Bts(d)]);
    if BucketKey(c) == BucketKey(d) {
      assert BucketKey(c)[0] == BucketKey(d)[0] && BucketKey(c)[1] == BucketKey(d)[1];
    }
  }

  lemma GroupMeans(c: Config, d: Config)
    ensures GroupKey(c) == GroupKey(d) <==> SameBucket(c, d) && SameShape(c, d)
  {
    BucketMeans(c, d);
    ShapeMeans(c, d);
    assert GroupKey(c)[..2] == BucketKey(c) && GroupKey(d)[..2] == BucketKey(d);
    assert GroupKey(c)[2..] == ShapeKey(c) && GroupKey(d)[2..] == ShapeKey(d);
  }

  lemma ScoreMeans(c: Config, d: Config)
    ensures Less(Score(c), Score(d)) <==> Outranks(d, c)
    ensures Score(c) == Score(d) <==> Alike(c, d)
  {
    var c5, d5 := [c.btc] + Tail(c), [d.btc] + Tail(d);
    var c4, d4 := [c.bd2] + c5, [d.bd2] + d5;
    var c3, d3 := [c.bd1] + c4, [d.bd1] + d4;
    var c2, d2 := [c.bf] + c3, [d.bf] + d3;
    var c1, d1 := [Bts(c)] + c2, [Bts(d)] + d2;
    assert Score(c) == [c.bt] + c1 && Score(d) == [d.bt] + d1;
    TailMeans(c, d);
    LessHead(c.btc, Tail(c), d.btc, Tail(d));
    LessHead(c.bd2, c5, d.bd2, d5);
    LessHead(c.bd1, c4, d.bd1, d4);
    LessHead(c.bf, c3, d.bf, d3);
    LessHead(Bts(c), c2, Bts(d), d2);
    LessHead(c.bt, c1, d.bt, d1);
    if Score(c) == Score(d) {
      assert forall i :: 0 <= i < 10 ==> Score(c)[i] == Score(d)[i];
    }
  }

  // ----- Counting

  /** How many configs are in the bucket of `c`. */
  function InBucket(s: seq<Config>, c: Config): nat {
    if s == [] then 0 else InBucket(s[..|s| - 1], c) + if SameBucket(s[|s| - 1], c) then 1 else 0
  }

  /** How many configs are in the bucket of `c` and have its shape. */
  function InGroup(s: seq<Config>, c: Config): nat {
    if s == [] then 0
    else InGroup(s[..|s| - 1], c) + if SameBucket(s[|s| - 1], c) && SameShape(s[|s| - 1], c) then 1 else 0
  }

  lemma {:induction false} CountsMean(s: seq<Config>, c: Config)
    ensures |With(s, BucketKey, BucketKey(c))| == InBucket(s, c)
    ensures |With(s, GroupKey, GroupKey(c))| == InGroup(s, c)
  {
    if s != [] {
      CountsMean(s[..|s| - 1], c);
      BucketMeans(s[|s| - 1], c);
      GroupMeans(s[|s| - 1], c);
    }
  }

  // ----- Fairness in these terms

  /** A bucket is at most one ahead of another that is not used up, and never ahead of a larger one. */
  predicate FairBuckets(selected: seq<Config>, configs: seq<Config>) {
    forall c, d :: c in configs && d in configs ==>
      || InBucket(selected, c) <= InBucket(selected, d) + (if SmallerBucket(c, d) then 0 else 1)
      || InBucket(selected, d) == InBucket(configs, d)
  }

  /** The same for two shapes of a bucket. */
  predicate FairShapes(selected: seq<Config>, configs: seq<Config>) {
    forall c, d :: c in configs && d in configs && SameBucket(c, d) ==>
      || InGroup(selected, c) <= InGroup(selected, d) + (if SmallerShape(c, d) then 0 else 1)
      || InGroup(selected, d) == InGroup(configs, d)
  }

  /** Within a bucket and shape no config is taken while one of larger btc is passed over. */
  predicate LargerFirst(selected: seq<Config>, configs: seq<Config>) {
    forall c, d :: c in selected && d in configs && SameBucket(c, d) && SameShape(c, d) && c.btc < d.btc ==>
      exists e :: e in selected && Alike(e, d)
  }

  /** In descending order, field by field. */
  predicate LargestToSmallest(s: seq<Config>) {
    forall i, j :: 0 <= i < j < |s| ==> Outranks(s[i], s[j]) || Alike(s[i], s[j])
  }

  lemma DescendingMeans(s: seq<Config>)
    requires Descending(Scores(s))
    ensures LargestToSmallest(s)
  {
    forall i, j | 0 <= i < j < |s| ensures Outranks(s[i], s[j]) || Alike(s[i], s[j]) {
      assert !Less(Scores(s)[i], Scores(s)[j]);
      LessTotal(Score(s[i]), Score(s[j]));
      ScoreMeans(s[j], s[i]);
    }
  }

  /** The first config is in the largest bucket of all. */
  predicate LargestBucketFirst(s: seq<Config>, configs: seq<Config>) {
    s != [] ==> forall d :: d in configs ==> !SmallerBucket(s[0], d)
  }
}
