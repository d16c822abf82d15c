/** The adaptive policy as a controller: an integer moving average of latencies drives a clamped
    threshold. */
module AdaptiveControl {
  import opened Basics
  import opened Policies

  /** One observation, in wrapping 64-bit arithmetic. */
  function NextAverage(average: u64, latency: u64): u64 {
    ((average * 7 + latency * 3) % U64_LIMIT) / 10
  }

  function NextGrowth(growth: real, rate: real): real { growth * 0.8 + rate * 0.2 }

  class AdaptivePolicy {
    var baseCount: nat
    var maxCount: nat
    var minCount: nat
    var timeThresholdMs: nat
    var latencyBudgetMs: nat
    var observedLatencyMs: u64
    var queueGrowthRate: real

    function State(): AdaptiveState reads this {
      AdaptiveState(baseCount, maxCount, minCount, timeThresholdMs, latencyBudgetMs, observedLatencyMs, queueGrowthRate)
    }

    constructor (baseCount: nat, maxCount: nat, timeThresholdMs: nat, latencyBudgetMs: nat)
      ensures State() == AdaptiveState(baseCount, maxCount, 1, timeThresholdMs, latencyBudgetMs, 0, 1.0)
    {
      this.baseCount, this.maxCount, minCount := baseCount, maxCount, 1;
      this.timeThresholdMs, this.latencyBudgetMs := timeThresholdMs, latencyBudgetMs;
      observedLatencyMs, queueGrowthRate := 0, 1.0;
    }

    method ObserveLatency(latencyMs: u64)
      modifies this
      ensures State() == old(State()).(observedLatencyMs := NextAverage(old(observedLatencyMs), latencyMs))
    {
      observedLatencyMs := ((observedLatencyMs * 7 + latencyMs * 3) % U64_LIMIT) / 10;
    }

    method ObserveQueueGrowth(rate: real)
      modifies this
      ensures State() == old(State()).(queueGrowthRate := NextGrowth(old(queueGrowthRate), rate))
    {
      queueGrowthRate := queueGrowthRate * 0.8 + rate * 0.2;
    }
  }

  // ----- The average -----

  function Average(start: u64, latencies: seq<u64>): u64 {
    if latencies == [] then start
    else NextAverage(Average(start, latencies[..|latencies| - 1]), latencies[|latencies| - 1])
  }

  lemma AverageStep(average: u64, latency: u64, low: nat, high: nat)
    requires low <= average <= high && low <= latency <= high && high <= U64_MAX / 10
    ensures low <= NextAverage(average, latency) <= high
    ensures average * 7 + latency * 3 <= U64_MAX && NextAverage(average, latency) == (average * 7 + latency * 3) / 10
  {
    assert (average * 7 + latency * 3) % U64_LIMIT == average * 7 + latency * 3;
  }

  /** Whatever bounds the start value and all observations bounds the average, and up to a tenth
      of the 64-bit range the arithmetic never wraps. */
  lemma {:induction false} AverageStaysBetween(start: u64, latencies: seq<u64>, low: nat, high: nat)
    requires low <= start <= high && high <= U64_MAX / 10
    requires forall i :: 0 <= i < |latencies| ==> low <= latencies[i] <= high
    ensures low <= Average(start, latencies) <= high
    ensures latencies != [] ==>
      var before: nat, last: nat := Average(start, latencies[..|latencies| - 1]), latencies[|latencies| - 1];
      before * 7 + last * 3 <= U64_MAX && Average(start, latencies) == (before * 7 + last * 3) / 10
  {
    if latencies != [] {
      var n := |latencies| - 1;
      AverageStaysBetween(start, latencies[..n], low, high);
      AverageStep(Average(start, latencies[..n]), latencies[n], low, high);
    }
  }

  function Constant(latency: u64, n: nat): (s: seq<u64>)
    ensures |s| == n && forall i :: 0 <= i < n ==> s[i] == latency
  {
    seq(n, i => latency)
  }

  function AfterConstant(start: u64, latency: u64, n: nat): u64 {
    if n == 0 then start else NextAverage(AfterConstant(start, latency, n - 1), latency)
  }

  lemma {:induction false} ConstantRun(start: u64, latency: u64, n: nat)
    ensures Average(start, Constant(latency, n)) == AfterConstant(start, latency, n)
  {
    if n > 0 {
      ConstantRun(start, latency, n - 1);
      assert Constant(latency, n)[..n - 1] == Constant(latency, n - 1);
    }
  }

  /** Where the average settles under a constant latency: truncation stops it 3 below. */
  function Limit(start: nat, latency: nat): nat {
    if start > latency then latency else if latency - start >= 3 then latency - 3 else start
  }

  /** One observation keeps the limit, stays on its side of it, and closes at least three tenths
      of the distance, never less than one while any is left. */
  lemma StepTowardsLimit(a: u64, latency: u64)
    requires a <= U64_MAX / 10 && latency <= U64_MAX / 10
    ensures var next, limit := NextAverage(a, latency), Limit(a, latency);
            && next <= U64_MAX / 10 && Limit(next, latency) == limit
            && (a <= limit ==> a <= next <= limit) && (limit <= a ==> limit <= next <= a)
            && (a == limit ==> next == limit)
            && (a != limit ==> Distance(next, limit) + Max(1, 3 * Distance(a, limit) / 10) <= Distance(a, limit))
  {
    var next := NextAverage(a, latency);
    assert (a * 7 + latency * 3) % U64_LIMIT == a * 7 + latency * 3;
    if a > latency {
      var d := a - latency;
      assert next == latency + 7 * d / 10;
    } else {
      var d := latency - a;
      assert next == a + 3 * d / 10;
    }
  }

  /** Under a constant latency the average moves monotonically to its limit and is there after
      at most as many observations as the initial distance. */
  lemma {:induction false} Settles(start: u64, latency: u64, n: nat)
    requires start <= U64_MAX / 10 && latency <= U64_MAX / 10
    ensures var reached, limit := AfterConstant(start, latency, n), Limit(start, latency);
            && reached <= U64_MAX / 10 && Limit(reached, latency) == limit
            && Distance(reached, limit) <= SaturatingSub(Distance(start, limit), n)
            && (n >= Distance(start, limit) ==> reached == limit)
            && (start <= limit ==> start <= reached <= NextAverage(reached, latency) <= limit)
            && (limit <= start ==> limit <= NextAverage(reached, latency) <= reached <= start)
  {
    if n > 0 {
      Settles(start, latency, n - 1);
      StepTowardsLimit(AfterConstant(start, latency, n - 1), latency);
    }
    StepTowardsLimit(AfterConstant(start, latency, n), latency);
  }

  // ----- The growth rate -----

  function Smoothed(start: real, rates: seq<real>): real {
    if rates == [] then start else NextGrowth(Smoothed(start, rates[..|rates| - 1]), rates[|rates| - 1])
  }

  lemma GrowthStep(growth: real, rate: real, low: real, high: real)
    requires low <= growth <= high && low <= rate <= high
    ensures low <= NextGrowth(growth, rate) <= high
  {}

  /** Whatever bounds the start value and all observed rates bounds the smoothed rate. */
  lemma {:induction false} GrowthStaysBetween(start: real, rates: seq<real>, low: real, high: real)
    requires low <= start <= high && forall i :: 0 <= i < |rates| ==> low <= rates[i] <= high
    ensures low <= Smoothed(start, rates) <= high
  {
    if rates != [] {
      var n := |rates| - 1;
      GrowthStaysBetween(start, rates[..n], low, high);
      GrowthStep(Smoothed(start, rates[..n]), rates[n], low, high);
    }
  }

  function Power(x: real, n: nat): real { if n == 0 then 1.0 else x * Power(x, n - 1) }

  /** Under a constant rate the distance to it shrinks by a fifth with every observation. */
  lemma {:induction false} GrowthClosesIn(start: real, rates: seq<real>, rate: real)
    requires forall i :: 0 <= i < |rates| ==> rates[i] == rate
    ensures Smoothed(start, rates) - rate == (start - rate) * Power(0.8, |rates|)
  {
    if rates != [] {
      var n := |rates| - 1;
      GrowthClosesIn(start, rates[..n], rate);
      FactorOut(start - rate, Power(0.8, n));
    }
  }

  lemma FactorOut(d: real, p: real)
    ensures d * (0.8 * p) == 0.8 * (d * p)
  {}

  /** As long as no observed rate exceeds 1.5 the threshold of a new policy is not scaled up. */
  lemma CalmGrowth(rates: seq<real>)
    requires forall i :: 0 <= i < |rates| ==> 0.0 <= rates[i] <= 1.5
    ensures Growth(Smoothed(1.0, rates)) == 1.0
  {
    GrowthStaysBetween(1.0, rates, 0.0, 1.5);
  }

  // ----- The threshold -----

  lemma ShrinkBounds(observed: nat, budget: nat)
    ensures 0.3 <= Shrink(observed, budget) <= 1.0
  {}

  lemma RatioMonotone(a: nat, b: nat, budget: nat)
    requires a <= b && budget > 0
    ensures a as real / budget as real <= b as real / budget as real
  {
    var d := budget as real;
    var x, y := a as real / d, b as real / d;
    assert x * d == a as real && y * d == b as real;
    if x > y {
      MulStrict(x, y, d);
    }
  }

  lemma ShrinkMonotone(a: nat, b: nat, budget: nat)
    requires a <= b
    ensures Shrink(a, budget) >= Shrink(b, budget)
  {
    if a > 0 && budget > 0 {
      RatioMonotone(a, b, budget);
    } else {
      ShrinkBounds(b, budget);
    }
  }

  lemma ScaleMonotone(base: nat, g1: real, f1: real, g2: real, f2: real)
    requires 0.0 <= g1 <= g2 && 0.0 <= f1 <= f2
    ensures Ceil(Scaled(base, g1, f1)) <= Ceil(Scaled(base, g2, f2))
  {
    var b := base as real;
    assert b * g1 <= b * g2;
    assert b * g1 * f1 <= b * g2 * f1;
    assert b * g2 * f1 <= b * g2 * f2;
  }

  /** With room for one transaction the threshold lies between one and the maximum. */
  lemma ThresholdInRange(s: AdaptiveState)
    requires s.minCount == 1 && s.maxCount >= 1
    ensures 1 <= Threshold(s) <= s.maxCount
  {}

  /** More latency never raises the threshold, faster growth never lowers it. */
  lemma ThresholdMonotone(s: AdaptiveState, slower: AdaptiveState)
    requires slower == s.(observedLatencyMs := slower.observedLatencyMs, queueGrowthRate := slower.queueGrowthRate)
    requires s.observedLatencyMs <= slower.observedLatencyMs && slower.queueGrowthRate <= s.queueGrowthRate
    ensures Threshold(slower) <= Threshold(s)
  {
    ShrinkMonotone(s.observedLatencyMs, slower.observedLatencyMs, s.latencyBudgetMs);
    ShrinkBounds(slower.observedLatencyMs, s.latencyBudgetMs);
    ScaleMonotone(s.baseCount, Growth(slower.queueGrowthRate), Shrink(slower.observedLatencyMs, s.latencyBudgetMs),
                  Growth(s.queueGrowthRate), Shrink(s.observedLatencyMs, s.latencyBudgetMs));
  }

  /** The state after `n` equal latency observations. */
  function Pressed(s: AdaptiveState, latency: u64, n: nat): AdaptiveState {
    s.(observedLatencyMs := AfterConstant(s.observedLatencyMs, latency, n))
  }

  lemma PressureRatio(limit: nat, budget: nat)
    requires budget > 0 && 10 * limit > 7 * budget
    ensures limit as real / budget as real > 0.7
  {
    var r := limit as real / budget as real;
    assert r * budget as real == limit as real;
    if r < 0.7 {
      MulStrict(0.7, r, budget as real);
    }
  }

  /** Sustained latency whose settled average is above 70% of the budget: from the moment it
      has settled the threshold is constant, equals the formula at that average, and is no
      larger than at zero latency. */
  lemma PressureSettles(s: AdaptiveState, latency: u64, n: nat)
    requires s.observedLatencyMs <= U64_MAX / 10 && 3 <= latency <= U64_MAX / 10
    requires s.latencyBudgetMs > 0 && 10 * (latency - 3) > 7 * s.latencyBudgetMs
    requires n >= Distance(s.observedLatencyMs, Limit(s.observedLatencyMs, latency))
    ensures var limit := Limit(s.observedLatencyMs, latency);
            var factor := 1.0 - (limit as real / s.latencyBudgetMs as real - 0.7) * 2.0;
            var settled := Scaled(s.baseCount, Growth(s.queueGrowthRate), if factor > 0.3 then factor else 0.3);
            && limit >= latency - 3
            && Threshold(Pressed(s, latency, n)) == Clamp(Ceil(settled), s.minCount, s.maxCount)
            && Threshold(Pressed(s, latency, n)) <= Threshold(s.(observedLatencyMs := 0))
  {
    Settles(s.observedLatencyMs, latency, n);
    PressureRatio(Limit(s.observedLatencyMs, latency), s.latencyBudgetMs);
    ThresholdMonotone(s.(observedLatencyMs := 0), Pressed(s, latency, n));
  }

  /** The drop is strict whenever the shrinking takes away at least one whole transaction that
      the clamps leave room for. */
  lemma PressureShrinks(s: AdaptiveState, pressed: AdaptiveState)
    requires pressed == s.(observedLatencyMs := pressed.observedLatencyMs)
    requires var calm := Scaled(s.baseCount, Growth(s.queueGrowthRate), 1.0);
             var tight := Scaled(s.baseCount, Growth(s.queueGrowthRate), Shrink(pressed.observedLatencyMs, s.latencyBudgetMs));
             calm - tight >= 1.0 && s.minCount < Ceil(calm) <= s.maxCount
    ensures Threshold(pressed) < Threshold(s.(observedLatencyMs := 0))
  {
    var calm := Scaled(s.baseCount, Growth(s.queueGrowthRate), 1.0);
    var tight := Scaled(s.baseCount, Growth(s.queueGrowthRate), Shrink(pressed.observedLatencyMs, s.latencyBudgetMs));
    assert Ceil(tight) < Ceil(calm);
  }
}
