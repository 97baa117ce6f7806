/**
  The life of an alert: a metric that is flat at one level and steps once to another. `k` counts
  the points after the step. For every window size, threshold and z gate the detector's verdict is
  determined exactly.
*/
module TrendStep {
  import opened Common
  import opened RealSums
  import opened Statistics
  import opened TrendDrift

  /** `p` points at `a` followed by `q` points at `b`. */
  function Mix(a: real, b: real, p: nat, q: nat): (s: seq<real>)
    ensures |s| == p + q && forall i :: 0 <= i < |s| ==> s[i] == if i < p then a else b
  {
    seq(p, _ => a) + seq(q, _ => b)
  }

  // ----- Medians of two-level windows

  lemma {:induction false} CountsOfMix(a: real, b: real, p: nat, q: nat, x: real)
    ensures Below(Mix(a, b, p, q), x) == (if a < x then p else 0) + (if b < x then q else 0)
    ensures Above(Mix(a, b, p, q), x) == (if a > x then p else 0) + (if b > x then q else 0)
    decreases p + q
  {
    var s := Mix(a, b, p, q);
    if q > 0 {
      CountsOfMix(a, b, p, q - 1, x);
      assert s[..|s| - 1] == Mix(a, b, p, q - 1);
    } else if p > 0 {
      CountsOfMix(a, b, p - 1, q, x);
      assert s[..|s| - 1] == Mix(a, b, p - 1, q);
    }
  }

  /** The majority level is the median. */
  lemma MedianOfMajority(a: real, b: real, p: nat, q: nat)
    requires p != q
    ensures Median(Mix(a, b, p, q)) == if p > q then a else b
  {
    var v := if p > q then a else b;
    CountsOfMix(a, b, p, q, v);
    MedianInRange(Mix(a, b, p, q), v, v);
  }

  lemma SortOfTwoLevels(a: real, b: real, p: nat, q: nat, i: nat)
    requires i < p + q
    ensures |Sort(Mix(a, b, p, q))| == p + q
    ensures Sort(Mix(a, b, p, q))[i] == a || Sort(Mix(a, b, p, q))[i] == b
  {
    var s := Mix(a, b, p, q);
    SortBag(s);
    assert Sort(s)[i] in multiset(s);
  }

  /** On a tie the median is halfway. */
  lemma MedianOfTie(a: real, b: real, p: nat)
    requires p > 0
    ensures Median(Mix(a, b, p, p)) == (a + b) / 2.0
  {
    var s := Mix(a, b, p, p);
    var t, hi := Sort(s), if a < b then b else a;
    SortOfTwoLevels(a, b, p, p, p - 1);
    SortOfTwoLevels(a, b, p, p, p);
    CountsOfMix(a, b, p, p, hi);
    RankBelow(s, hi, p - 1);
    RankBelow(s, hi, p);
    assert Median(s) == (t[p - 1] + t[p]) / 2.0;
  }

  // ----- Scatter of two-level windows

  lemma DeviationsOfMix(a: real, b: real, p: nat, q: nat, m: real)
    ensures Deviations(Mix(a, b, p, q), m) == Mix(Abs(a - m), Abs(b - m), p, q)
  {
  }

  /** `x` added up `n` times. */
  function Times(n: nat, x: real): real {
    if n == 0 then 0.0 else Times(n - 1, x) + x
  }

  lemma {:induction false} TimesIsProduct(n: nat, x: real)
    ensures Times(n, x) == n as real * x
  {
    if n > 0 {
      TimesIsProduct(n - 1, x);
      assert n as real == (n - 1) as real + 1.0;
      assert ((n - 1) as real + 1.0) * x == (n - 1) as real * x + x;
    }
  }

  lemma {:induction false} SumOfMix(a: real, b: real, p: nat, q: nat)
    ensures Sum(Mix(a, b, p, q)) == Times(p, a) + Times(q, b)
    decreases p + q
  {
    var s := Mix(a, b, p, q);
    if q > 0 {
      SumOfMix(a, b, p, q - 1);
      assert s[..|s| - 1] == Mix(a, b, p, q - 1);
    } else if p > 0 {
      SumOfMix(a, b, p - 1, q);
      assert s[..|s| - 1] == Mix(a, b, p - 1, q);
    }
  }

  lemma {:induction false} SquaredErrorOfMix(a: real, b: real, p: nat, q: nat, m: real)
    ensures SquaredError(Mix(a, b, p, q), m) == Times(p, Square(a - m)) + Times(q, Square(b - m))
    decreases p + q
  {
    var s := Mix(a, b, p, q);
    if q > 0 {
      SquaredErrorOfMix(a, b, p, q - 1, m);
      assert s[..|s| - 1] == Mix(a, b, p, q - 1);
    } else if p > 0 {
      SquaredErrorOfMix(a, b, p - 1, q, m);
      assert s[..|s| - 1] == Mix(a, b, p - 1, q);
    }
  }

  lemma Rescale(k: real, n: real)
    requires n > 1.0
    ensures k / n / (n - 1.0) * (n * (n - 1.0)) == k
  {
    var e := k / n;
    var w := e / (n - 1.0);
    assert w * (n - 1.0) == e && e * n == k;
    assert w * (n * (n - 1.0)) == w * (n - 1.0) * n;
  }

  lemma Quotient(e: real, n: real, k: real)
    requires n > 0.0 && e * n == k
    ensures e == k / n
  {
  }

  lemma SquaresIdentity(x: real, y: real, u: real, v: real)
    ensures (x * Square(u) + y * Square(v)) * (x + y) == Square(x * u + y * v) + x * y * Square(v - u)
  {
  }

  /** The deviations from the mean cancel. */
  lemma MeanOfMix(a: real, b: real, p: nat, q: nat, n: real, m: real, x: real, y: real, u: real, v: real)
    requires n == x + y && n > 0.0 && m == Sum(Mix(a, b, p, q)) / n
    requires x == p as real && y == q as real && u == a - m && v == b - m
    ensures x * u + y * v == 0.0
  {
    SumOfMix(a, b, p, q);
    TimesIsProduct(p, a);
    TimesIsProduct(q, b);
    DeviationsCancel(x, y, a, b, n, m, Sum(Mix(a, b, p, q)), u, v);
  }

  lemma DeviationsCancel(x: real, y: real, a: real, b: real, n: real, m: real, total: real, u: real, v: real)
    requires n == x + y && n > 0.0 && m == total / n && total == x * a + y * b
    requires u == a - m && v == b - m
    ensures x * u + y * v == 0.0
  {
    assert n * m == total;
    assert x * u == x * a - x * m && y * v == y * b - y * m;
    assert n * m == x * m + y * m;
  }

  lemma ErrorSplit(a: real, b: real, p: nat, q: nat, m: real, x: real, y: real, u: real, v: real)
    requires x == p as real && y == q as real && u == a - m && v == b - m
    ensures SquaredError(Mix(a, b, p, q), m) == x * Square(u) + y * Square(v)
  {
    SquaredErrorOfMix(a, b, p, q, m);
    TimesAddUp(p, q, x, y, Square(u), Square(v));
  }

  lemma TimesAddUp(p: nat, q: nat, x: real, y: real, uu: real, vv: real)
    requires x == p as real && y == q as real
    ensures Times(p, uu) + Times(q, vv) == x * uu + y * vv
  {
    TimesIsProduct(p, uu);
    TimesIsProduct(q, vv);
  }

  lemma ErrorOfDeviations(x: real, y: real, u: real, v: real, d: real, e: real, n: real, k: real)
    requires x * u + y * v == 0.0 && e == x * Square(u) + y * Square(v)
    requires n == x + y && n > 0.0 && d == v - u && k == x * y * Square(d)
    ensures e == k / n
  {
    SquaresIdentity(x, y, u, v);
    assert Square(x * u + y * v) == 0.0;
    Quotient(e, n, k);
  }

  lemma VarianceIsQuotient(s: seq<real>, n: real)
    requires |s| >= 2 && n == |s| as real
    ensures Variance(s) == SquaredError(s, Sum(s) / n) / (n - 1.0)
  {
    assert (|s| - 1) as real == n - 1.0;
  }

  /** p q dd. */
  function Spread(p: nat, q: nat, dd: real): real {
    Times(p * q, dd)
  }

  lemma SpreadIsProduct(p: nat, q: nat, dd: real, x: real, y: real)
    requires x == p as real && y == q as real
    ensures Spread(p, q, dd) == x * y * dd
  {
    TimesIsProduct(p * q, dd);
    assert (p * q) as real == x * y;
  }

  lemma ErrorOfMix(a: real, b: real, p: nat, q: nat, n: real, m: real, x: real, y: real, u: real, v: real, d: real)
    requires n == x + y && n > 0.0 && m == Sum(Mix(a, b, p, q)) / n
    requires x == p as real && y == q as real && u == a - m && v == b - m && d == b - a
    ensures SquaredError(Mix(a, b, p, q), m) == Spread(p, q, Square(d)) / n
  {
    MeanOfMix(a, b, p, q, n, m, x, y, u, v);
    ErrorSplit(a, b, p, q, m, x, y, u, v);
    SpreadIsProduct(p, q, Square(d), x, y);
    ErrorOfDeviations(x, y, u, v, d, SquaredError(Mix(a, b, p, q), m), n, Spread(p, q, Square(d)));
  }

  /** The variance of a two-level window: p q (b - a)^2 / (n (n - 1)). */
  lemma VarianceOfMix(a: real, b: real, p: nat, q: nat, n: real)
    requires p + q >= 2 && n == (p + q) as real
    ensures Variance(Mix(a, b, p, q)) == Spread(p, q, Square(b - a)) / n / (n - 1.0)
  {
    var m := Sum(Mix(a, b, p, q)) / n;
    ErrorOfMix(a, b, p, q, n, m, p as real, q as real, a - m, b - m, b - a);
    VarianceIsQuotient(Mix(a, b, p, q), n);
  }

  // ----- The windows over a step

  /** How many of the baseline points are already at the new level. */
  function Aged(c: Settings, k: nat): nat {
    if k <= c.recent then 0 else Min(k - c.recent, c.baseline)
  }

  lemma WindowsOfStep(a: real, b: real, m: nat, k: nat, c: Settings)
    requires m + k >= c.recent + c.baseline
    ensures RecentWindow(Mix(a, b, m, k), c) == Mix(a, b, c.recent - Min(k, c.recent), Min(k, c.recent))
    ensures BaselineWindow(Mix(a, b, m, k), c) == Mix(a, b, c.baseline - Aged(c, k), Aged(c, k))
  {
  }

  lemma MixOfOne(a: real, b: real, n: nat)
    requires n > 0
    ensures Median(Mix(a, b, n, 0)) == a && Median(Mix(a, b, 0, n)) == b
    ensures Flat(Mix(a, b, n, 0)) && Flat(Mix(a, b, 0, n))
    ensures Median(Deviations(Mix(a, b, n, 0), a)) == 0.0
  {
    MedianOfMajority(a, b, n, 0);
    MedianOfMajority(a, b, 0, n);
    DeviationsOfMix(a, b, n, 0, a);
    MedianOfMajority(Abs(a - a), Abs(b - a), n, 0);
  }

  // ----- The z gate on a mixed baseline

  /**
    With `j` of `w` baseline points at the new level, is a change hidden whose square is `r` times
    that of the step? z^2 j (w - j) > r w (w - 1), and the scatter is not tiny.
  */
  predicate ScatterHides(a: real, b: real, w: nat, j: nat, z: real, r: real)
    requires 0 < w && j <= w
  {
    Hides((w * (w - 1)) as real, (j * (w - j)) as real, b - a, z, r)
  }

  predicate Hides(n: real, k: real, x: real, z: real, r: real) {
    z > 0.0 && k * Square(x) >= Square(EPS) * n && Square(z) * k > r * n
  }

  lemma GateArithmetic(v: real, n: real, k: real, d: real, zz: real, r: real)
    requires n > 0.0 && d > 0.0 && v * n == k * d
    ensures v >= Square(EPS) <==> k * d >= Square(EPS) * n
    ensures r * d < zz * v <==> zz * k > r * n
  {
    var e := Square(EPS);
    assert (v - e) * n == k * d - e * n;
    assert (zz * v - r * d) * n == (zz * k - r * n) * d by {
      assert zz * v * n == zz * (v * n) == zz * (k * d);
    }
  }

  lemma ProductOfCasts(x: int, y: int)
    ensures (x * y) as real == x as real * y as real
  {
  }

  lemma ScaledVariance(a: real, b: real, w: nat, j: nat)
    requires 2 <= w && j <= w
    ensures Variance(Mix(a, b, w - j, j)) * (w * (w - 1)) as real == (j * (w - j)) as real * Square(b - a)
  {
    VarianceOfMix(a, b, w - j, j, w as real);
    Rescale(Spread(w - j, j, Square(b - a)), w as real);
    SpreadIsProduct(w - j, j, Square(b - a), (w - j) as real, j as real);
    ProductOfCasts(w, w - 1);
    ProductOfCasts(j, w - j);
  }

  lemma GateOnValues(v: real, n: real, k: real, x: real, z: real, delta: real, r: real)
    requires n > 0.0 && v * n == k * Square(x) && Square(delta) == r * Square(x)
    ensures WithinStdevs(delta, z, v) <==> Hides(n, k, x, z, r)
  {
    SquareFacts(x);
    if x == 0.0 {
      assert k * Square(x) == 0.0 && v == 0.0;
      assert Square(EPS) * n > 0.0;
    } else {
      GateArithmetic(v, n, k, Square(x), Square(z), r);
    }
  }

  /** The z gate on the standard deviation of a mixed baseline. */
  lemma ScatterGate(a: real, b: real, w: nat, j: nat, z: real, v: real, delta: real, r: real)
    requires 2 <= w && j <= w && v == Variance(Mix(a, b, w - j, j)) && Square(delta) == r * Square(b - a)
    ensures WithinStdevs(delta, z, v) <==> ScatterHides(a, b, w, j, z, r)
  {
    ScaledVariance(a, b, w, j);
    var n, k := w * (w - 1), j * (w - j);
    assert n > 0;
    GateOnValues(v, n as real, k as real, b - a, z, delta, r);
  }

  /** When the MAD is negligible the deviation decides; a flat baseline hides nothing. */
  lemma ScatterSuppresses(a: real, b: real, w: nat, j: nat, z: real, delta: real, r: real, scaledMad: real)
    requires 0 < j <= w && scaledMad < EPS && Square(delta) == r * Square(b - a) && 0.0 <= r
    ensures Suppressed(Mix(a, b, w - j, j), delta, scaledMad, z) <==> ScatterHides(a, b, w, j, z, r)
  {
    var base := Mix(a, b, w - j, j);
    if w == 1 {
      assert j * (w - j) == 0;
    } else {
      ScatterGate(a, b, w, j, z, Variance(base), delta, r);
      if a == b || j == w { NoScatterNoHiding(a, b, w, j, z, r); } else { assert base[0] != base[w - 1]; }
    }
  }

  lemma NoScatterNoHiding(a: real, b: real, w: nat, j: nat, z: real, r: real)
    requires w >= 2 && j <= w && (a == b || j == w)
    ensures !ScatterHides(a, b, w, j, z, r)
  {
    var n, k := w * (w - 1), j * (w - j);
    assert n > 0;
    if j == w { assert k == 0; }
    if a == b { assert Square(b - a) == 0.0; }
    assert k as real * Square(b - a) == 0.0;
    assert Square(EPS) * n as real > 0.0;
  }

  lemma PositiveProduct(x: real, y: real, product: real)
    requires x > 0.0 && y > 0.0 && product == x * y
    ensures product > 0.0
  {
  }

  lemma SquareOfNegated(x: real)
    ensures Square(-x) == Square(x)
  {
  }

  lemma SquarePositive(x: real)
    requires x != 0.0
    ensures Square(x) > 0.0
  {
    SquareOfNegated(x);
    var y := Abs(x);
    PositiveProduct(y, y, Square(y));
  }

  lemma SquareFacts(x: real)
    ensures Square(Abs(x)) == Square(x)
    ensures x != 0.0 ==> Square(x) > 0.0
  {
    SquareOfNegated(x);
    if x != 0.0 { SquarePositive(x); }
  }

  // ----- The exact life of an alert

  /**
    Is a step from `a` to `b` reported `k` points after it? While the baseline is still at `a`,
    from the moment the new level has the majority of the recent window (or, on a tie, if the
    halfway level is past the threshold). Afterwards until the aged points scatter the baseline
    beyond the z gate, on a tie if the halfway baseline still lets it through, and never again. The
    cases without a change, before and after, matter only for a negative threshold.
  */
  predicate Alert(a: real, b: real, d: Direction, c: Settings, k: nat)
    requires c.recent > 0 && c.baseline > 0
  {
    if k <= c.recent then AlertWhileRecent(a, b, d, c, k) else AlertWhileAging(a, b, d, c, Aged(c, k))
  }

  predicate AlertWhileRecent(a: real, b: real, d: Direction, c: Settings, k: nat) {
    if 2 * k < c.recent then Adverse(d, a, a, c.threshold)
    else if 2 * k == c.recent then Adverse(d, a, (a + b) / 2.0, c.threshold)
    else Adverse(d, a, b, c.threshold)
  }

  predicate AlertWhileAging(a: real, b: real, d: Direction, c: Settings, j: nat)
    requires 0 < j <= c.baseline
  {
    if 2 * j < c.baseline then Adverse(d, a, b, c.threshold) && !ScatterHides(a, b, c.baseline, j, c.minZ, 1.0)
    else if 2 * j == c.baseline then
      Adverse(d, (a + b) / 2.0, b, c.threshold) && !HalfwayHides(a, b, c.baseline, c.minZ)
    else Adverse(d, b, b, c.threshold) && !ScatterHides(a, b, c.baseline, j, c.minZ, 0.0)
  }

  /** The gate when half of the baseline has aged: the MAD is half the step, if that is not tiny. */
  predicate HalfwayHides(a: real, b: real, w: nat, z: real)
    requires w >= 2 && w % 2 == 0
  {
    var half := Abs(b - a) / 2.0;
    if MAD_SCALE * half >= EPS then half < z * (MAD_SCALE * half)
    else ScatterHides(a, b, w, w / 2, z, 0.25)
  }

  lemma NoChangeIsNotAdverse(d: Direction, x: real, threshold: real)
    requires threshold >= 0.0
    ensures !Adverse(d, x, x, threshold)
  {
  }

  /** The baseline is still flat. */
  lemma FreshStep(a: real, b: real, p: nat, q: nat, d: Direction, c: Settings)
    requires p + q > 0 && c.baseline > 0
    ensures Compare(Mix(a, b, p, q), Mix(a, b, c.baseline, 0), d, c).Drift?
      <==> Adverse(d, a, if p > q then a else if p == q then (a + b) / 2.0 else b, c.threshold)
  {
    MixOfOne(a, b, c.baseline);
    if p == q { MedianOfTie(a, b, p); } else { MedianOfMajority(a, b, p, q); }
  }

  lemma CompareVerdict(recent: seq<real>, baseline: seq<real>, r: real, b: real, mad: real, d: Direction, c: Settings)
    requires recent != [] && baseline != [] && Median(recent) == r && Median(baseline) == b
    requires Median(Deviations(baseline, b)) == mad
    ensures Compare(recent, baseline, d, c).Drift?
      <==> Adverse(d, b, r, c.threshold) && !Suppressed(baseline, Abs(r - b), MAD_SCALE * mad, c.minZ)
  {
  }

  /** The new level is in the minority of the baseline: its MAD is 0 and the deviation decides. */
  lemma MinorityAged(a: real, b: real, r: nat, j: nat, d: Direction, c: Settings)
    requires r > 0 && 0 < j && 2 * j < c.baseline
    ensures Compare(Mix(a, b, 0, r), Mix(a, b, c.baseline - j, j), d, c).Drift?
      <==> Adverse(d, a, b, c.threshold) && !ScatterHides(a, b, c.baseline, j, c.minZ, 1.0)
  {
    var w := c.baseline;
    MedianOfMajority(a, b, 0, r);
    MedianOfMajority(a, b, w - j, j);
    MinorityDeviations(a, b, w, j);
    CompareVerdict(Mix(a, b, 0, r), Mix(a, b, w - j, j), b, a, 0.0, d, c);
    assert Square(Abs(b - a)) == 1.0 * Square(b - a) by { SquareFacts(b - a); }
    ScatterSuppresses(a, b, w, j, c.minZ, Abs(b - a), 1.0, 0.0);
  }

  lemma MinorityDeviations(a: real, b: real, w: nat, j: nat)
    requires 0 < j && 2 * j < w
    ensures Median(Deviations(Mix(a, b, w - j, j), a)) == 0.0
  {
    DeviationsOfMix(a, b, w - j, j, a);
    MedianOfMajority(Abs(a - a), Abs(b - a), w - j, j);
  }

  lemma HalfwayScatter(a: real, b: real, w: nat, z: real)
    requires w >= 2 && w % 2 == 0
    ensures Suppressed(Mix(a, b, w / 2, w / 2), Abs(b - a) / 2.0, MAD_SCALE * (Abs(b - a) / 2.0), z)
      <==> HalfwayHides(a, b, w, z)
  {
    var half := Abs(b - a) / 2.0;
    SquareFacts(b - a);
    assert Square(half) == 0.25 * Square(Abs(b - a));
    if MAD_SCALE * half < EPS { ScatterSuppresses(a, b, w, w / 2, z, half, 0.25, MAD_SCALE * half); }
  }

  lemma HalfAged(a: real, b: real, r: nat, d: Direction, c: Settings)
    requires r > 0 && c.baseline > 0 && c.baseline % 2 == 0
    ensures Compare(Mix(a, b, 0, r), Mix(a, b, c.baseline / 2, c.baseline / 2), d, c).Drift?
      <==> Adverse(d, (a + b) / 2.0, b, c.threshold) && !HalfwayHides(a, b, c.baseline, c.minZ)
  {
    var h, mid, half := c.baseline / 2, (a + b) / 2.0, Abs(b - a) / 2.0;
    MedianOfMajority(a, b, 0, r);
    MedianOfTie(a, b, h);
    DeviationsOfMix(a, b, h, h, mid);
    MedianOfTie(half, half, h);
    CompareVerdict(Mix(a, b, 0, r), Mix(a, b, h, h), b, mid, half, d, c);
    HalfwayScatter(a, b, c.baseline, c.minZ);
  }

  /** The new level has the majority of the baseline: the medians agree and the MAD is 0. */
  lemma MajorityAged(a: real, b: real, r: nat, j: nat, d: Direction, c: Settings)
    requires r > 0 && j <= c.baseline && 2 * j > c.baseline
    ensures Compare(Mix(a, b, 0, r), Mix(a, b, c.baseline - j, j), d, c).Drift?
      <==> Adverse(d, b, b, c.threshold) && !ScatterHides(a, b, c.baseline, j, c.minZ, 0.0)
  {
    var w := c.baseline;
    MedianOfMajority(a, b, 0, r);
    MedianOfMajority(a, b, w - j, j);
    DeviationsOfMix(a, b, w - j, j, b);
    MedianOfMajority(Abs(a - b), Abs(b - b), w - j, j);
    CompareVerdict(Mix(a, b, 0, r), Mix(a, b, w - j, j), b, b, 0.0, d, c);
    ScatterSuppresses(a, b, w, j, c.minZ, 0.0, 0.0, 0.0);
  }

  /**
    The verdict on a series that is flat at `a` for `m` points and then flat at `b` for `k`
    points, with both windows full: reported exactly when `Alert` says so, however long the run.
  */
  lemma StepVerdict(a: real, b: real, m: nat, k: nat, metric: Metric, c: Settings)
    requires c.recent > 0 && c.baseline > 0 && m + k >= c.recent + c.baseline
    ensures DetectDrift(Mix(a, b, m, k), metric, c).Drift? <==> Alert(a, b, DirectionOf(metric), c, k)
  {
    if k <= c.recent { RecentVerdict(a, b, m, k, metric, c); } else { AgingVerdict(a, b, m, k, metric, c); }
    AlertCases(a, b, DirectionOf(metric), c, k);
  }

  lemma RecentVerdict(a: real, b: real, m: nat, k: nat, metric: Metric, c: Settings)
    requires 0 <= k <= c.recent && c.recent > 0 && c.baseline > 0 && m + k >= c.recent + c.baseline
    ensures DetectDrift(Mix(a, b, m, k), metric, c).Drift? <==> AlertWhileRecent(a, b, DirectionOf(metric), c, k)
  {
    var recent, baseline := Mix(a, b, c.recent - k, k), Mix(a, b, c.baseline, 0);
    var verdict := Compare(recent, baseline, DirectionOf(metric), c);
    assert DetectDrift(Mix(a, b, m, k), metric, c) == verdict by { StepCompare(a, b, m, k, metric, c); }
    assert verdict.Drift? <==> AlertWhileRecent(a, b, DirectionOf(metric), c, k) by {
      RecentStep(a, b, k, DirectionOf(metric), c);
    }
  }

  lemma AgingVerdict(a: real, b: real, m: nat, k: nat, metric: Metric, c: Settings)
    requires k > c.recent > 0 && c.baseline > 0 && m + k >= c.recent + c.baseline
    ensures DetectDrift(Mix(a, b, m, k), metric, c).Drift?
      <==> AlertWhileAging(a, b, DirectionOf(metric), c, Aged(c, k))
  {
    StepCompare(a, b, m, k, metric, c);
    AgingStep(a, b, Aged(c, k), DirectionOf(metric), c);
  }

  lemma AlertCases(a: real, b: real, d: Direction, c: Settings, k: nat)
    requires c.recent > 0 && c.baseline > 0
    ensures k <= c.recent ==> (Alert(a, b, d, c, k) <==> AlertWhileRecent(a, b, d, c, k))
    ensures k > c.recent ==> (Alert(a, b, d, c, k) <==> AlertWhileAging(a, b, d, c, Aged(c, k)))
  {
  }

  lemma RecentStep(a: real, b: real, k: nat, d: Direction, c: Settings)
    requires 0 <= k <= c.recent && c.recent > 0 && c.baseline > 0
    ensures Compare(Mix(a, b, c.recent - k, k), Mix(a, b, c.baseline, 0), d, c).Drift?
      <==> AlertWhileRecent(a, b, d, c, k)
  {
    FreshStep(a, b, c.recent - k, k, d, c);
  }

  lemma AgingStep(a: real, b: real, j: nat, d: Direction, c: Settings)
    requires c.recent > 0 && 0 < j <= c.baseline
    ensures Compare(Mix(a, b, 0, c.recent), Mix(a, b, c.baseline - j, j), d, c).Drift?
      <==> AlertWhileAging(a, b, d, c, j)
  {
    if 2 * j < c.baseline {
      MinorityAged(a, b, c.recent, j, d, c);
    } else if 2 * j == c.baseline {
      HalfAged(a, b, c.recent, d, c);
    } else {
      MajorityAged(a, b, c.recent, j, d, c);
    }
  }

  lemma StepCompare(a: real, b: real, m: nat, k: nat, metric: Metric, c: Settings)
    requires c.recent > 0 && c.baseline > 0 && m + k >= c.recent + c.baseline
    ensures DetectDrift(Mix(a, b, m, k), metric, c) ==
      Compare(Mix(a, b, c.recent - Min(k, c.recent), Min(k, c.recent)),
              Mix(a, b, c.baseline - Aged(c, k), Aged(c, k)), DirectionOf(metric), c)
  {
    WindowsOfStep(a, b, m, k, c);
  }

  /** A step past the threshold is reported while it fills most of the recent window. */
  lemma StepIsReported(a: real, b: real, m: nat, k: nat, metric: Metric, c: Settings)
    requires c.baseline > 0 && m + k >= c.recent + c.baseline
    requires Adverse(DirectionOf(metric), a, b, c.threshold) && c.recent < 2 * k <= 2 * c.recent
    ensures DetectDrift(Mix(a, b, m, k), metric, c).Drift?
  {
    StepVerdict(a, b, m, k, metric, c);
  }

  /** It clears for ever once more than half of the baseline has aged, although nothing recovered. */
  lemma StepIsForgotten(a: real, b: real, m: nat, k: nat, metric: Metric, c: Settings)
    requires c.recent > 0 && c.baseline > 0 && m + k >= c.recent + c.baseline && c.threshold >= 0.0
    requires k > c.recent && 2 * (k - c.recent) > c.baseline
    ensures DetectDrift(Mix(a, b, m, k), metric, c) == NoDrift
  {
    StepVerdict(a, b, m, k, metric, c);
    NoChangeIsNotAdverse(DirectionOf(metric), b, c.threshold);
  }

  /**
    With the default windows (5 recent, 10 baseline) and z gate (2 sigmas), the alert for an
    adverse step lives exactly from the third to the eighth point after it.
  */
  lemma DefaultLifetime(a: real, b: real, m: nat, k: nat, metric: Metric, threshold: real)
    requires m + k >= 15 && threshold >= 0.0 && Abs(b - a) >= 2.0 * EPS
    requires Adverse(DirectionOf(metric), a, b, threshold)
    ensures DetectDrift(Mix(a, b, m, k), metric, Settings(5, 10, threshold, 2.0)).Drift? <==> 3 <= k <= 8
  {
    var c := Settings(5, 10, threshold, 2.0);
    StepVerdict(a, b, m, k, metric, c);
    var j := Aged(c, k);
    if k > 5 && j < 5 { DefaultGate(a, b, j); }
    if j == 5 { DefaultHalfway(a, b); }
    NoChangeIsNotAdverse(DirectionOf(metric), a, threshold);
    NoChangeIsNotAdverse(DirectionOf(metric), b, threshold);
  }

  lemma DefaultGate(a: real, b: real, j: nat)
    requires 1 <= j <= 4 && Abs(b - a) >= 2.0 * EPS
    ensures ScatterHides(a, b, 10, j, 2.0, 1.0) <==> j == 4
  {
    if j == 4 { SquareGrows(2.0 * EPS, Abs(b - a)); }
    SquareFacts(b - a);
  }

  lemma SquareGrows(x: real, y: real)
    requires 0.0 <= x <= y
    ensures Square(x) <= Square(y)
  {
    assert x * x <= x * y && x * y <= y * y;
  }

  lemma DefaultHalfway(a: real, b: real)
    requires Abs(b - a) >= 2.0 * EPS
    ensures HalfwayHides(a, b, 10, 2.0)
  {
  }
}
