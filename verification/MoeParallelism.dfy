/** `choose_parallelism` in `select_cases` (benchmark/moe/utils.py). */
module MoeParallelism {
  import opened Common
  import DivMod

  predicate Divides(d: int, a: int)
    requires d > 0
  {
    a % d == 0
  }

  predicate CommonDivisor(d: int, devices: int, tokens: int, experts: int) {
    d > 0 && Divides(d, devices) && Divides(d, tokens) && Divides(d, experts)
  }

  /** A size that divides everything and is not above the experts, the devices or the size asked for. */
  predicate Fits(d: int, devices: int, tokens: int, experts: int, epSize: Option<int>) {
    && CommonDivisor(d, devices, tokens, experts)
    && d <= devices && d <= experts && (epSize.Some? ==> d <= epSize.value)
  }

  function Target(devices: int, experts: int, epSize: Option<int>): int {
    Min(Min(if epSize.None? then devices else epSize.value, experts), devices)
  }

  /**
    The search loop: the largest common divisor that does not exceed the target, or (1, devices)
    when nothing fits.
  */
  method ChooseParallelism(devices: int, tokens: nat, experts: int, epSize: Option<int>)
    returns (ep: int, tp: int)
    requires devices > 0
    ensures ep > 0 && ep * tp == devices
    ensures forall d :: Fits(d, devices, tokens, experts, epSize) ==> d <= ep
    ensures Fits(ep, devices, tokens, experts, epSize) || (ep == 1 && !Fits(1, devices, tokens, experts, epSize))
    ensures epSize.None? && experts > 0 ==> ep == Gcd(Gcd(devices, tokens), experts)
  {
    var target := Target(devices, experts, epSize);
    ep := target;
    while ep > 0
      invariant ep <= target
      invariant forall d :: CommonDivisor(d, devices, tokens, experts) && d <= target ==> d <= ep
    {
      if devices % ep == 0 && tokens % ep == 0 && experts % ep == 0 {
        tp := devices / ep;
        WholeQuotient(ep, devices);
        if epSize.None? && experts > 0 { LargestIsGcd(ep, devices, tokens, experts); }
        return;
      }
      ep := ep - 1;
    }
    if target >= 1 {
      OneDividesAll(devices, tokens, experts);
      assert false;
    }
    ep, tp := 1, devices;
  }

  lemma WholeQuotient(d: int, a: int)
    requires d > 0 && Divides(d, a)
    ensures d * (a / d) == a
  {
  }

  lemma OneDividesAll(devices: int, tokens: int, experts: int)
    ensures CommonDivisor(1, devices, tokens, experts)
  {
  }

  // ----- The greatest common divisor, by Euclid's algorithm

  function Gcd(a: nat, b: nat): (g: nat)
    requires a > 0 || b > 0
    ensures g > 0
    decreases b
  {
    if b == 0 then a else Gcd(b, a % b)
  }

  /** A multiple of a multiple is a multiple. */
  lemma ScaledDivides(d: int, x: int, q: int, m: int)
    requires d > 0 && Divides(d, x) && m == q * x
    ensures Divides(d, m)
  {
    var k := x / d;
    assert m == (q * k) * d by { assert x == k * d; }
    DivMod.Unique(m, d, q * k, 0);
  }

  /** Adding a multiple changes nothing. */
  lemma ShiftedDivides(d: int, m: int, x: int)
    requires d > 0 && Divides(d, m)
    ensures Divides(d, m + x) <==> Divides(d, x)
  {
    var k, l := m / d, x / d;
    assert m + x == (k + l) * d + x % d;
    DivMod.Unique(m + x, d, k + l, x % d);
  }

  lemma DividesRemainder(d: int, a: nat, b: nat)
    requires d > 0 && b > 0 && Divides(d, b)
    ensures Divides(d, a) <==> Divides(d, a % b)
  {
    var q, m := a / b, a - a % b;
    assert m == q * b;
    ScaledDivides(d, b, q, m);
    ShiftedDivides(d, m, a % b);
  }

  /** The common divisors of two numbers are the divisors of their Gcd. */
  lemma {:induction false} GcdDivisors(d: int, a: nat, b: nat)
    requires d > 0 && (a > 0 || b > 0)
    ensures Divides(d, a) && Divides(d, b) <==> Divides(d, Gcd(a, b))
    decreases b
  {
    if b > 0 {
      GcdDivisors(d, b, a % b);
      if Divides(d, b) { DividesRemainder(d, a, b); }
    }
  }

  lemma DivisorBound(d: int, a: int)
    requires d > 0 && a > 0 && Divides(d, a)
    ensures d <= a
  {
  }

  lemma LargestIsGcd(ep: int, devices: nat, tokens: nat, experts: nat)
    requires devices > 0 && experts > 0 && CommonDivisor(ep, devices, tokens, experts)
    requires forall d :: CommonDivisor(d, devices, tokens, experts) && d <= Min(devices, experts) ==> d <= ep
    ensures ep == Gcd(Gcd(devices, tokens), experts)
  {
    var g := Gcd(Gcd(devices, tokens), experts);
    CommonDivisorsDivideGcd(ep, devices, tokens, experts);
    DivisorBound(ep, g);
    CommonDivisorsDivideGcd(g, devices, tokens, experts);
    DivisorBound(g, devices);
    DivisorBound(g, experts);
  }

  lemma CommonDivisorsDivideGcd(d: int, devices: nat, tokens: nat, experts: nat)
    requires d > 0 && devices > 0 && experts > 0
    ensures CommonDivisor(d, devices, tokens, experts)
      <==> Divides(d, Gcd(Gcd(devices, tokens), experts))
  {
    GcdDivisors(d, devices, tokens);
    GcdDivisors(d, Gcd(devices, tokens), experts);
  }
}
