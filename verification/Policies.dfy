/** Seal policies: when a queue of some length, with its oldest transaction waiting, is sealed. */
module Policies {
  import opened Basics

  /** The fields of `AdaptivePolicy`. */
  datatype AdaptiveState = AdaptiveState(
    baseCount: nat, maxCount: nat, minCount: nat, timeThresholdMs: nat, latencyBudgetMs: nat,
    observedLatencyMs: u64, queueGrowthRate: real)

  /** The fields of `AutoPolicy` that its decision reads. */
  datatype AutoLimits = AutoLimits(minBatch: nat, maxBatch: nat, maxLatencyMs: nat, threshold: nat, timeLimitMs: nat)

  datatype Policy =
    | FixedCount(threshold: nat)
    | FixedTime(intervalMs: nat)
    | Hybrid(count: nat, timeMs: nat)
    | PriorityAware(count: nat, timeMs: nat)
    | Adaptive(state: AdaptiveState)
    | Auto(limits: AutoLimits)

  function Ceil(x: real): int { -((-x).Floor) }

  /** Scaling up while the queue grows fast. */
  function Growth(rate: real): real { if rate > 1.5 then 1.0 + (rate - 1.0) * 0.3 else 1.0 }

  /** Scaling down once the observed latency passes 70% of the budget; a zero budget is passed
      by any latency, at the strongest setting. */
  function Shrink(observed: nat, budget: nat): real {
    if observed == 0 then 1.0
    else if budget == 0 then 0.3
    else
      var ratio := observed as real / budget as real;
      if ratio > 0.7 then
        var factor := 1.0 - (ratio - 0.7) * 2.0;
        if factor > 0.3 then factor else 0.3
      else 1.0
  }

  function Clamp(x: int, low: nat, high: nat): nat { if x <= low then Min(low, high) else Min(x, high) }

  function Scaled(base: nat, growth: real, shrink: real): real { base as real * growth * shrink }

  /** `compute_threshold` */
  function Threshold(s: AdaptiveState): nat {
    var scaled := Scaled(s.baseCount, Growth(s.queueGrowthRate), Shrink(s.observedLatencyMs, s.latencyBudgetMs));
    Clamp(Ceil(scaled), s.minCount, s.maxCount)
  }

  function ShouldSeal(p: Policy, queueLen: nat, oldestWaitMs: nat, rate: real): bool {
    match p
    case FixedCount(threshold) => queueLen >= threshold
    case FixedTime(interval) => queueLen > 0 && oldestWaitMs >= interval
    case Hybrid(count, time) => queueLen >= count || (queueLen > 0 && oldestWaitMs >= time)
    case PriorityAware(count, time) => queueLen >= count || (queueLen > 0 && oldestWaitMs >= time)
    case Adaptive(s) =>
      queueLen != 0
      && (queueLen >= Threshold(s) || oldestWaitMs >= s.timeThresholdMs || oldestWaitMs >= s.latencyBudgetMs
          || (rate > 100.0 && queueLen >= s.minCount))
    case Auto(a) =>
      queueLen != 0
      && (queueLen >= a.threshold || oldestWaitMs >= a.timeLimitMs || oldestWaitMs >= a.maxLatencyMs
          || (rate > 50.0 && queueLen >= a.minBatch))
  }

  /** `name` */
  function PolicyName(p: Policy): string {
    match p
    case FixedCount(_) => "FixedCount"
    case FixedTime(_) => "FixedTime"
    case Hybrid(_, _) => "Hybrid"
    case PriorityAware(_, _) => "PriorityAware"
    case Adaptive(_) => "Adaptive"
    case Auto(_) => "Auto"
  }

  /** The queue length at which the policy seals whatever else holds. */
  function CountLimit(p: Policy): Option<nat> {
    match p
    case FixedCount(threshold) => Some(threshold)
    case FixedTime(_) => None
    case Hybrid(count, _) => Some(count)
    case PriorityAware(count, _) => Some(count)
    case Adaptive(s) => Some(Threshold(s))
    case Auto(a) => Some(a.threshold)
  }

  /** The wait from which the policy seals a non-empty queue whatever else holds. */
  function TimeLimit(p: Policy): Option<nat> {
    match p
    case FixedCount(_) => None
    case FixedTime(interval) => Some(interval)
    case Hybrid(_, time) => Some(time)
    case PriorityAware(_, time) => Some(time)
    case Adaptive(s) => Some(Min(s.timeThresholdMs, s.latencyBudgetMs))
    case Auto(a) => Some(Min(a.timeLimitMs, a.maxLatencyMs))
  }

  /** A non-empty queue the policy declines is below both limits. */
  lemma DeclinedIsSmall(p: Policy, queueLen: nat, wait: nat, rate: real)
    requires queueLen > 0 && !ShouldSeal(p, queueLen, wait, rate)
    ensures CountLimit(p).Some? ==> queueLen < CountLimit(p).value
    ensures TimeLimit(p).Some? ==> wait < TimeLimit(p).value
  {}

  // ----- Why a queue is sealed -----

  predicate IsFull(p: Policy, queueLen: nat) { CountLimit(p).Some? && queueLen >= CountLimit(p).value }

  predicate IsOverdue(p: Policy, wait: nat) { TimeLimit(p).Some? && wait >= TimeLimit(p).value }

  /** Arrivals come so fast that the adaptive policies seal what they have. */
  predicate IsRushed(p: Policy, queueLen: nat, rate: real) {
    match p
    case Adaptive(s) => rate > 100.0 && queueLen >= s.minCount
    case Auto(a) => rate > 50.0 && queueLen >= a.minBatch
    case _ => false
  }

  /** A non-empty queue is sealed for one of three reasons, and for each of them always. */
  lemma SealsExactly(p: Policy, queueLen: nat, wait: nat, rate: real)
    requires queueLen > 0
    ensures ShouldSeal(p, queueLen, wait, rate) <==> IsFull(p, queueLen) || IsOverdue(p, wait) || IsRushed(p, queueLen, rate)
  {}

  /** An empty queue is sealed by a count of zero only, which the adaptive policies rule out. */
  lemma SealsEmptyExactly(p: Policy, wait: nat, rate: real)
    ensures ShouldSeal(p, 0, wait, rate) <==> p == FixedCount(0) || (p.Hybrid? && p.count == 0) || (p.PriorityAware? && p.count == 0)
  {}

  /** The numbers a policy is made of decide when those reasons hold: the count alone, the time alone,
      either, or the computed threshold and the tighter of the two times. */
  lemma ReasonsAre(p: Policy, queueLen: nat, wait: nat)
    ensures IsFull(p, queueLen) <==> match p
      case FixedCount(n) => n <= queueLen
      case FixedTime(_) => false
      case Hybrid(n, _) => n <= queueLen
      case PriorityAware(n, _) => n <= queueLen
      case Adaptive(s) => Threshold(s) <= queueLen
      case Auto(a) => a.threshold <= queueLen
    ensures IsOverdue(p, wait) <==> match p
      case FixedCount(_) => false
      case FixedTime(t) => t <= wait
      case Hybrid(_, t) => t <= wait
      case PriorityAware(_, t) => t <= wait
      case Adaptive(s) => s.timeThresholdMs <= wait || s.latencyBudgetMs <= wait
      case Auto(a) => a.timeLimitMs <= wait || a.maxLatencyMs <= wait
  {}
}
