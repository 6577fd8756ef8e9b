/** The backoff between attempts.  Durations are whole nanoseconds in 64 bits; the factor is
    an exact real.  Converting a product outside the 64-bit range yields a value the
    language does not define, so it is a parameter here. */
module RetryPolicy {

  const LIMIT: int := 0x8000_0000_0000_0000

  type Duration = d: int | -LIMIT <= d < LIMIT

  datatype Policy = Policy(attempts: int, initialDelay: Duration, maxDelay: Duration, factor: real, jitter: bool)

  /** Conversion to a duration: truncation toward zero, or `overflow` out of range. */
  function ToDuration(x: real, overflow: Duration): Duration {
    if -(LIMIT as real) <= x < LIMIT as real then (if x < 0.0 then -((-x).Floor) else x.Floor) else overflow
  }

  datatype Growth = Growth(d: Duration, capped: bool)

  function Product(p: Policy, d: Duration): real { d as real * p.factor }

  function Scaled(p: Policy, d: Duration, overflow: Duration): Duration { ToDuration(Product(p, d), overflow) }

  /** One turn of the backoff loop; once the cap is reached the loop has ended. */
  function Step(p: Policy, g: Growth, overflow: Duration): Growth {
    if g.capped then g
    else
      var d := Scaled(p, g.d, overflow);
      if d >= p.maxDelay then Growth(p.maxDelay, true) else Growth(d, false)
  }

  /** The delay after `steps` turns of the loop, and whether it has stopped growing. */
  function Grown(p: Policy, steps: nat, overflow: Duration): Growth {
    if steps == 0 then Growth(p.initialDelay, false) else Step(p, Grown(p, steps - 1, overflow), overflow)
  }

  /** The delay before jitter, for an attempt counted from 1. */
  function BaseDelay(p: Policy, attempt: int, overflow: Duration): Duration {
    if attempt <= 1 then p.initialDelay else Grown(p, attempt - 1, overflow).d
  }

  /** Half of a duration, rounded toward zero. */
  function Half(d: int): int { if d < 0 then -(-d / 2) else d / 2 }

  /** Two's complement addition wraps around. */
  function Wrapped(x: int): (d: Duration)
    requires -LIMIT <= x < 2 * LIMIT
  {
    if x < LIMIT then x else x - 2 * LIMIT
  }

  /** RetryPolicy.delay; `random` is reduced to the range the jitter is drawn from. */
  method Delay(p: Policy, attempt: int, overflow: Duration, random: nat) returns (d: Duration)
    ensures d == if p.jitter then Jittered(BaseDelay(p, attempt, overflow), random) else BaseDelay(p, attempt, overflow)
  {
    var b := Backoff(p, attempt, overflow);
    d := if p.jitter then Jittered(b, random) else b;
  }

  method Backoff(p: Policy, attempt: int, overflow: Duration) returns (d: Duration)
    ensures d == BaseDelay(p, attempt, overflow)
  {
    d := p.initialDelay;
    var i := 1;
    while i < attempt
      invariant 1 <= i && (if attempt > 1 then i <= attempt else i == 1)
      invariant Grown(p, i - 1, overflow) == Growth(d, false)
      decreases attempt - i
    {
      d := Scaled(p, d, overflow);
      if d >= p.maxDelay {
        CappedStays(p, i, attempt - 1, overflow);
        return p.maxDelay;
      }
      i := i + 1;
    }
  }

  function Jittered(d: Duration, random: nat): Duration {
    if Half(d) > 0 then Wrapped(d + Drawn(random, Half(d))) else d
  }

  /** Jitter lengthens a delay by less than half, and leaves one too small to jitter as it is, if and
      only if the sum stays in 64 bits; beyond, it can turn a delay negative. */
  lemma JitterExactly(d: Duration)
    ensures (forall random :: d <= Jittered(d, random) && (Jittered(d, random) < d + Half(d) || Jittered(d, random) == d))
            <==> (d >= 2 ==> d + Half(d) - 1 < LIMIT)
  {
    if d >= 2 {
      var most := Half(d) - 1;
      DrawnItself(most, Half(d));
      assert Jittered(d, most) == Wrapped(d + most);
    }
  }

  lemma DrawnItself(random: nat, n: nat)
    requires random < n
    ensures Drawn(random, n) == random
  {
  }

  /** What a delay lets the caller sleep at most, whatever was drawn. */
  function Longest(d: Duration): nat { if d > 0 then d + Half(d) else 0 }

  lemma JitteredAtMost(d: Duration, random: nat)
    ensures Jittered(d, random) <= Longest(d)
  {
  }

  /** What a delay makes the caller sleep at least when nothing cuts it short: all of it, unless jitter
      could take it out of the 64-bit range. */
  function Shortest(d: Duration, jitter: bool): nat { if d <= 0 || (jitter && d + Half(d) > LIMIT) then 0 else d }

  lemma JitteredAtLeast(d: Duration, random: nat)
    requires Shortest(d, true) > 0
    ensures Jittered(d, random) >= d
  {
  }

  /** A random number below `n`. */
  function Drawn(random: nat, n: nat): (r: nat)
    requires n > 0
    ensures r < n
  {
    random % n
  }

  lemma {:induction false} CappedStays(p: Policy, i: nat, j: nat, overflow: Duration)
    requires i <= j && Grown(p, i, overflow).capped
    ensures Grown(p, j, overflow) == Grown(p, i, overflow)
    decreases j - i
  {
    if i < j {
      CappedStays(p, i + 1, j, overflow);
    }
  }

  /** From the second delay on the cap holds for every policy. */
  lemma GrownBelowMax(p: Policy, steps: nat, overflow: Duration)
    requires steps > 0 || p.initialDelay <= p.maxDelay
    ensures Grown(p, steps, overflow).d <= p.maxDelay
    ensures Grown(p, steps, overflow).capped ==> Grown(p, steps, overflow).d == p.maxDelay
    decreases steps
  {
    if steps > 1 {
      GrownBelowMax(p, steps - 1, overflow);
    }
  }

  /** The cap holds for every attempt, whatever the factor, if and only if the initial delay
      respects it: the first delay is never capped. */
  lemma CapHoldsExactly(p: Policy, overflow: Duration)
    ensures (forall attempt :: BaseDelay(p, attempt, overflow) <= p.maxDelay) <==> p.initialDelay <= p.maxDelay
  {
    assert BaseDelay(p, 1, overflow) == p.initialDelay;
    if p.initialDelay <= p.maxDelay {
      forall attempt ensures BaseDelay(p, attempt, overflow) <= p.maxDelay {
        if attempt > 1 {
          GrownBelowMax(p, attempt - 1, overflow);
        }
      }
    }
  }

  /** The largest delay before jitter that a policy can ask for. */
  function Cap(p: Policy): Duration { if p.initialDelay > p.maxDelay then p.initialDelay else p.maxDelay }

  lemma DelayAtMost(p: Policy, attempt: int, overflow: Duration)
    ensures BaseDelay(p, attempt, overflow) <= Cap(p)
    ensures Longest(BaseDelay(p, attempt, overflow)) <= Longest(Cap(p))
  {
    if attempt > 1 {
      GrownBelowMax(p, attempt - 1, overflow);
    }
  }

  /** A jittered delay is at most one and a half delays. */
  lemma LongestIs(d: Duration)
    ensures 2 * Longest(d) <= 3 * (if d > 0 then d else 0) < 2 * Longest(d) + 2
  {
  }

  // ---- the delays in numbers ----

  /** Jitter adds the random number, reduced below half the delay; a delay below two nanoseconds has none. */
  lemma JitterAdds(d: Duration, random: nat)
    ensures d < 2 ==> Jittered(d, random) == d
    ensures d >= 2 && d + d / 2 <= LIMIT ==> Jittered(d, random) == d + random % (d / 2) < d + d / 2
  {
  }

  lemma Truncated(x: real, overflow: Duration)
    requires -(LIMIT as real) <= x < LIMIT as real
    ensures x >= 0.0 ==> ToDuration(x, overflow) as real <= x < ToDuration(x, overflow) as real + 1.0
    ensures x < 0.0 ==> ToDuration(x, overflow) as real - 1.0 < x <= ToDuration(x, overflow) as real
  {
  }

  /** From each delay to the next: the first is the initial one; then it is the product with the factor,
      rounded toward zero, where that is below the cap, and the cap otherwise, for good; out of the 64-bit
      range, whatever the conversion yields takes the place of the product. */
  lemma NextDelay(p: Policy, attempt: int, overflow: Duration)
    requires attempt >= 1 && Plausible(p)
    ensures BaseDelay(p, 1, overflow) == p.initialDelay
    ensures var d, next := BaseDelay(p, attempt, overflow), BaseDelay(p, attempt + 1, overflow);
            var x := d as real * p.factor;
            if d == p.maxDelay && attempt > 1 then next == p.maxDelay
            else if -(LIMIT as real) <= x < LIMIT as real then
              if x >= p.maxDelay as real then next == p.maxDelay
              else if x >= 0.0 then next as real <= x < next as real + 1.0
              else next as real - 1.0 < x <= next as real
            else next == if overflow >= p.maxDelay then p.maxDelay else overflow
  {
    hide Grown, Step;
    var g := Grown(p, attempt - 1, overflow);
    GrownNext(p, attempt - 1, overflow);
    if attempt > 1 {
      BelowCapUnlessCapped(p, attempt - 1, overflow);
    }
    if g.capped {
      CappedStays(p, attempt - 1, attempt, overflow);
    } else {
      assert Product(p, g.d) == g.d as real * p.factor;
      ScaledStep(p, g, Product(p, g.d), overflow);
    }
  }

  lemma GrownNext(p: Policy, steps: nat, overflow: Duration)
    ensures Grown(p, 0, overflow) == Growth(p.initialDelay, false)
    ensures Grown(p, steps + 1, overflow) == Step(p, Grown(p, steps, overflow), overflow)
  {
  }

  /** One turn of the loop that has not ended. */
  lemma ScaledStep(p: Policy, g: Growth, x: real, overflow: Duration)
    requires !g.capped && p.maxDelay >= 0 && x == Product(p, g.d)
    ensures var next := Step(p, g, overflow).d;
            if -(LIMIT as real) <= x < LIMIT as real then
              if x >= p.maxDelay as real then next == p.maxDelay
              else if x >= 0.0 then next as real <= x < next as real + 1.0
              else next as real - 1.0 < x <= next as real
            else next == if overflow >= p.maxDelay then p.maxDelay else overflow
  {
    hide ToDuration, Product;
    if -(LIMIT as real) <= x < LIMIT as real {
      Truncated(x, overflow);
      Rounded(ToDuration(x, overflow), x, p.maxDelay);
    } else {
      OutOfRange(x, overflow);
    }
  }

  /** Rounding toward zero does not cross a whole number that is not negative. */
  lemma Rounded(n: int, x: real, bound: int)
    requires bound >= 0
    requires if x >= 0.0 then n as real <= x < n as real + 1.0 else n as real - 1.0 < x <= n as real
    ensures x >= bound as real ==> n >= bound
    ensures x < bound as real && n >= bound ==> n == bound == 0 && x < 0.0
  {
    if x < 0.0 {
      assert n <= 0;
    }
  }

  lemma OutOfRange(x: real, overflow: Duration)
    requires !(-(LIMIT as real) <= x < LIMIT as real)
    ensures ToDuration(x, overflow) == overflow
  {
  }

  lemma BelowCapUnlessCapped(p: Policy, steps: nat, overflow: Duration)
    requires steps > 0
    ensures Grown(p, steps, overflow).capped <==> Grown(p, steps, overflow).d == p.maxDelay
    decreases steps
  {
    if steps > 1 {
      BelowCapUnlessCapped(p, steps - 1, overflow);
    }
  }

  function Pow(f: nat, k: nat): nat { if k == 0 then 1 else Pow(f, k - 1) * f }

  function AtMost(x: int, most: int): int { if x < most then x else most }

  lemma PowNext(d: nat, f: nat, k: nat)
    ensures d * Pow(f, k + 1) == d * Pow(f, k) * f
  {
    var q := Pow(f, k);
    assert Pow(f, k + 1) == q * f;
    MulRegrouped(d, q, f);
  }

  lemma MulRegrouped(a: nat, b: nat, c: nat)
    ensures a * (b * c) == a * b * c
  {
  }

  lemma MulWhole(d: nat, f: nat)
    requires f >= 1
    ensures d as real * f as real == (d * f) as real && d <= d * f
  {
    assert (f - 1) * d >= 0;
  }

  /** No product up to an attempt's delay leaves the 64-bit range. */
  predicate InRange(p: Policy, f: nat, attempt: int) {
    forall j: nat | j < attempt - 1 ::
      j == 0 || p.initialDelay * Pow(f, j) < p.maxDelay ==> p.initialDelay * Pow(f, j) * f < LIMIT
  }

  /** The initial delay multiplied `k` times. */
  function Multiplied(p: Policy, f: nat, k: nat): int { p.initialDelay * Pow(f, k) }

  lemma MultipliedNext(p: Policy, f: nat, k: nat)
    requires p.initialDelay >= 0
    ensures 0 <= Multiplied(p, f, k) && Multiplied(p, f, k + 1) == Multiplied(p, f, k) * f
    ensures Multiplied(p, f, 0) == p.initialDelay
  {
    PowNone(p.initialDelay, f);
    PowNext(p.initialDelay, f, k);
    MulNatural(p.initialDelay, Pow(f, k));
  }

  lemma MulNatural(a: nat, b: nat)
    ensures a * b >= 0
  {
  }

  lemma InRangeBefore(p: Policy, f: nat, attempt: int)
    requires attempt > 1 && InRange(p, f, attempt)
    ensures InRange(p, f, attempt - 1)
    ensures attempt == 2 || Multiplied(p, f, attempt - 2) < p.maxDelay ==> Multiplied(p, f, attempt - 2) * f < LIMIT
  {
    hide Pow;
  }

  lemma {:induction false} MultipliedDelay(p: Policy, f: nat, attempt: int, overflow: Duration)
    requires attempt >= 1 && Plausible(p) && f >= 1 && p.factor == f as real && InRange(p, f, attempt)
    ensures BaseDelay(p, attempt, overflow) == AtMost(Multiplied(p, f, attempt - 1), p.maxDelay)
    decreases attempt
  {
    hide InRange, BaseDelay, Multiplied;
    MultipliedNext(p, f, if attempt > 1 then attempt - 2 else 0);
    if attempt > 1 {
      InRangeBefore(p, f, attempt);
      MultipliedDelay(p, f, attempt - 1, overflow);
      NextWhole(p, f, attempt - 1, Multiplied(p, f, attempt - 2), Multiplied(p, f, attempt - 1), overflow);
    } else {
      FirstDelay(p, overflow);
    }
  }

  lemma FirstDelay(p: Policy, overflow: Duration)
    ensures BaseDelay(p, 1, overflow) == p.initialDelay
  {
  }

  /** For a whole factor the delay of an attempt is the initial one times a power of the factor, and at
      most the cap, as long as no product on the way there leaves the 64-bit range. */
  lemma WholeFactorDelay(p: Policy, f: nat, attempt: int, overflow: Duration)
    requires attempt >= 1 && Plausible(p) && f >= 1 && p.factor == f as real && InRange(p, f, attempt)
    ensures BaseDelay(p, attempt, overflow) == AtMost(p.initialDelay * Pow(f, attempt - 1), p.maxDelay)
  {
    hide BaseDelay, Pow, InRange;
    MultipliedDelay(p, f, attempt, overflow);
  }

  lemma PowNone(d: nat, f: nat)
    ensures d * Pow(f, 0) == d
  {
  }

  /** From a delay that is a whole product to the next. */
  lemma NextWhole(p: Policy, f: nat, attempt: int, product: nat, next: nat, overflow: Duration)
    requires attempt >= 1 && Plausible(p) && f >= 1 && p.factor == f as real && next == product * f
    requires BaseDelay(p, attempt, overflow) == AtMost(product, p.maxDelay)
    requires attempt == 1 ==> product == p.initialDelay
    requires attempt == 1 || product < p.maxDelay ==> next < LIMIT
    ensures BaseDelay(p, attempt + 1, overflow) == AtMost(next, p.maxDelay)
  {
    hide BaseDelay;
    MulWhole(product, f);
    if attempt == 1 || product < p.maxDelay {
      NextFrom(p, attempt, product, next as real, overflow);
      WholeStep(BaseDelay(p, attempt + 1, overflow), next as real, next, p.maxDelay);
    } else {
      NextCapped(p, attempt, overflow);
    }
  }

  lemma NextCapped(p: Policy, attempt: int, overflow: Duration)
    requires attempt > 1 && Plausible(p) && BaseDelay(p, attempt, overflow) == p.maxDelay
    ensures BaseDelay(p, attempt + 1, overflow) == p.maxDelay
  {
    hide BaseDelay;
    NextDelay(p, attempt, overflow);
  }

  lemma NextFrom(p: Policy, attempt: int, d: Duration, x: real, overflow: Duration)
    requires attempt >= 1 && Plausible(p) && BaseDelay(p, attempt, overflow) == d && x == d as real * p.factor
    requires (attempt == 1 || d < p.maxDelay) && 0.0 <= x < LIMIT as real
    ensures var next := BaseDelay(p, attempt + 1, overflow);
            if x >= p.maxDelay as real then next == p.maxDelay else next as real <= x < next as real + 1.0
  {
    hide BaseDelay;
    NextDelay(p, attempt, overflow);
  }

  lemma WholeStep(next: int, x: real, whole: int, most: int)
    requires x == whole as real && whole >= 0
    requires if x >= most as real then next == most else next as real <= x < next as real + 1.0
    ensures next == AtMost(whole, most)
  {
  }

  /** The policy the SDK comes with: three attempts, from 200 ms to 10 s, doubling, with jitter. */
  const DEFAULT := Policy(3, 200_000_000, 10_000_000_000, 2.0, true)

  lemma DefaultDelays(attempt: int, overflow: Duration)
    requires attempt >= 1
    ensures BaseDelay(DEFAULT, attempt, overflow) == AtMost(200_000_000 * Pow(2, attempt - 1), 10_000_000_000)
  {
    WholeFactorDelay(DEFAULT, 2, attempt, overflow);
  }

  // ---- when delays grow ----

  /** A turn of the loop whose product leaves the 64-bit range must be given no less than it had. */
  predicate StepFits(p: Policy, g: Growth, overflow: Duration) {
    !g.capped && Product(p, g.d) >= LIMIT as real ==> overflow >= g.d
  }

  predicate Plausible(p: Policy) { p.factor >= 1.0 && 0 <= p.initialDelay <= p.maxDelay }

  lemma StepGrowsExactly(p: Policy, g: Growth, overflow: Duration)
    requires p.factor >= 1.0 && 0 <= g.d <= p.maxDelay && (g.capped ==> g.d == p.maxDelay)
    ensures g.d <= Step(p, g, overflow).d <==> StepFits(p, g, overflow)
  {
    hide Product;
    ProductNotLess(p, g.d);
    if Product(p, g.d) < LIMIT as real {
      TruncatedNotLess(g.d, Product(p, g.d), overflow);
    } else {
      TruncatedOut(Product(p, g.d), overflow);
    }
  }

  lemma TruncatedOut(x: real, overflow: Duration)
    requires x >= LIMIT as real
    ensures ToDuration(x, overflow) == overflow
  {
  }

  lemma TruncatedNotLess(d: Duration, x: real, overflow: Duration)
    requires 0 <= d && d as real <= x < LIMIT as real
    ensures d <= ToDuration(x, overflow)
  {
    assert x >= 0.0;
  }

  lemma MulNotNegative(x: real, f: real)
    requires x >= 0.0 && f >= 0.0
    ensures x * f >= 0.0
  {
  }

  lemma MulNotLess(x: real, f: real)
    requires x >= 0.0 && f >= 1.0
    ensures x <= x * f
  {
    MulNotNegative(x, f - 1.0);
    assert x * (f - 1.0) == x * f - x;
  }

  lemma MulMonotone(x: real, y: real, f: real)
    requires x <= y && f >= 0.0
    ensures x * f <= y * f
  {
    MulNotNegative(y - x, f);
    assert (y - x) * f == y * f - x * f;
  }

  lemma ProductNotLess(p: Policy, d: Duration)
    requires p.factor >= 1.0 && d >= 0
    ensures d as real <= Product(p, d)
  {
    MulNotLess(d as real, p.factor);
  }

  lemma ProductMonotone(p: Policy, c: Duration, d: Duration)
    requires p.factor >= 0.0 && c <= d
    ensures Product(p, c) <= Product(p, d)
  {
    MulMonotone(c as real, d as real, p.factor);
  }

  /** The first `last` turns of the loop never shrink the delay. */
  predicate Growing(p: Policy, last: nat, overflow: Duration) {
    forall k: nat | k < last :: Grown(p, k, overflow).d <= Grown(p, k + 1, overflow).d
  }

  predicate Fitting(p: Policy, last: nat, overflow: Duration) {
    forall k: nat | k < last :: StepFits(p, Grown(p, k, overflow), overflow)
  }

  lemma {:induction false} GrowingExactly(p: Policy, last: nat, overflow: Duration)
    requires Plausible(p)
    ensures Growing(p, last, overflow) <==> Fitting(p, last, overflow)
    ensures Growing(p, last, overflow) ==> p.initialDelay <= Grown(p, last, overflow).d
  {
    if last > 0 {
      GrowingExactly(p, last - 1, overflow);
      if Growing(p, last - 1, overflow) {
        var g := Grown(p, last - 1, overflow);
        GrownBelowMax(p, last - 1, overflow);
        StepGrowsExactly(p, g, overflow);
        assert Grown(p, last, overflow) == Step(p, g, overflow);
      }
    }
  }

  /** An attempt's delay and the next lie in order between the initial delay and the cap. */
  predicate Orderly(p: Policy, attempt: int, overflow: Duration) {
    p.initialDelay <= BaseDelay(p, attempt, overflow) <= BaseDelay(p, attempt + 1, overflow) <= p.maxDelay
  }

  lemma OrderlyIs(p: Policy, k: nat, overflow: Duration)
    requires Plausible(p)
    ensures Orderly(p, k + 1, overflow) <==>
            p.initialDelay <= Grown(p, k, overflow).d <= Grown(p, k + 1, overflow).d
  {
    GrownBelowMax(p, k + 1, overflow);
  }

  /** Up to any attempt: the delays never shrink and stay between the initial delay and the cap, if
      and only if no turn of the loop so far left the 64-bit range to its loss. */
  lemma DelaysGrowExactly(p: Policy, last: nat, overflow: Duration)
    requires Plausible(p)
    ensures (forall attempt | 1 <= attempt <= last :: Orderly(p, attempt, overflow)) <==> Fitting(p, last, overflow)
  {
    hide Grown, StepFits, Orderly;
    GrowingExactly(p, last, overflow);
    if Growing(p, last, overflow) {
      forall attempt | 1 <= attempt <= last ensures Orderly(p, attempt, overflow) {
        GrowingExactly(p, attempt - 1, overflow);
        OrderlyIs(p, attempt - 1, overflow);
      }
    } else {
      var k: nat :| k < last && Grown(p, k, overflow).d > Grown(p, k + 1, overflow).d;
      OrderlyIs(p, k, overflow);
      assert !Orderly(p, k + 1, overflow);
    }
  }

  lemma FirstOrderly(p: Policy, attempt: int, overflow: Duration)
    requires Plausible(p) && attempt <= 0
    ensures Orderly(p, attempt, overflow)
  {
  }

  /** For every attempt. */
  lemma AllDelaysGrowExactly(p: Policy, overflow: Duration)
    requires Plausible(p)
    ensures (forall attempt :: Orderly(p, attempt, overflow)) <==> forall last :: Fitting(p, last, overflow)
  {
    hide Orderly, Fitting;
    forall attempt | forall last :: Fitting(p, last, overflow) ensures Orderly(p, attempt, overflow) {
      if attempt <= 0 {
        FirstOrderly(p, attempt, overflow);
      } else {
        DelaysGrowExactly(p, attempt, overflow);
      }
    }
    forall last | forall attempt :: Orderly(p, attempt, overflow) ensures Fitting(p, last, overflow) {
      DelaysGrowExactly(p, last, overflow);
    }
  }

  /** No turn leaves the range when the cap times the factor lies in it. */
  lemma SmallCapFits(p: Policy, last: nat, overflow: Duration)
    requires Plausible(p) && Product(p, p.maxDelay) < LIMIT as real
    ensures Fitting(p, last, overflow)
  {
    hide Product;
    forall k: nat | k < last ensures StepFits(p, Grown(p, k, overflow), overflow) {
      GrownBelowMax(p, k, overflow);
      ProductMonotone(p, Grown(p, k, overflow).d, p.maxDelay);
    }
  }

  /** A policy that fails: where the conversion yields the least integer, the second delay is
      negative, so the wait is skipped. */
  lemma OverflowedDelay()
    ensures var p := Policy(3, LIMIT / 2, LIMIT - 1, 4.0, false);
            Plausible(p) && BaseDelay(p, 2, -LIMIT) < 0
  {
    var p := Policy(3, LIMIT / 2, LIMIT - 1, 4.0, false);
    assert Grown(p, 0, -LIMIT).d == LIMIT / 2;
    assert (LIMIT / 2) as real * 4.0 >= LIMIT as real;
    assert Grown(p, 1, -LIMIT).d == -LIMIT;
  }
}
