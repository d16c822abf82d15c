/** The auto policy: a ring buffer of arrival times feeds a classifier that picks the limits. */
module AutoControl {
  import opened Basics

  const CAPACITY: nat := 100

  datatype Pattern = Idle | Steady | Bursty | HighLoad

  // ----- The classifier, as a function of the buffer -----

  /** The times in (low, high], in buffer order. */
  function Within(times: seq<u64>, low: nat, high: nat): seq<u64> {
    if times == [] then []
    else
      var last := times[|times| - 1];
      Within(times[..|times| - 1], low, high) + if low < last <= high then [last] else []
  }

  /** Differences of neighbours, truncated at zero. */
  function Gaps(times: seq<u64>): (gaps: seq<nat>)
    ensures |gaps| == SaturatingSub(|times|, 1)
    ensures forall i :: 0 <= i < |gaps| ==> gaps[i] == SaturatingSub(times[i + 1], times[i])
  {
    seq(SaturatingSub(|times|, 1), i requires 0 <= i < SaturatingSub(|times|, 1) => SaturatingSub(times[i + 1], times[i]))
  }

  function SquaredDeviations(gaps: seq<nat>, mean: real): real {
    if gaps == [] then 0.0
    else
      var d := gaps[|gaps| - 1] as real - mean;
      SquaredDeviations(gaps[..|gaps| - 1], mean) + d * d
  }

  /** The standard deviation of the gaps exceeds 200 ms; both sides are compared squared. */
  predicate Irregular(gaps: seq<nat>) {
    |gaps| > 1 &&
    var mean := Sum(gaps) as real / |gaps| as real;
    SquaredDeviations(gaps, mean) / |gaps| as real > 40000.0
  }

  function RecentCount(buffer: seq<u64>, now: nat): nat {
    |Within(buffer, SaturatingSub(now, 1000), now)|
  }

  function Intervals(buffer: seq<u64>, now: nat): seq<nat> {
    Gaps(Within(buffer, SaturatingSub(now, 5000), now))
  }

  function Classify(buffer: seq<u64>, now: nat): Pattern {
    if RecentCount(buffer, now) < 1 then Idle
    else if RecentCount(buffer, now) > 100 then HighLoad
    else if Irregular(Intervals(buffer, now)) then Bursty
    else Steady
  }

  // ----- The policy as a state machine over its history of arrivals -----

  datatype Limits = Limits(minBatch: nat, maxBatch: nat, maxLatencyMs: nat)

  datatype AutoState = AutoState(history: seq<u64>, pattern: Pattern, threshold: nat, timeLimitMs: nat)

  function Initial(l: Limits): AutoState { AutoState([], Idle, l.minBatch, l.maxLatencyMs) }

  /** The last 100 arrivals in time order, padded with zeros in front. */
  function Window(history: seq<u64>): (w: seq<u64>)
    ensures |w| == CAPACITY
    ensures forall i :: 0 <= i < CAPACITY ==>
      w[i] == if |history| + i < CAPACITY then 0 else history[|history| + i - CAPACITY]
  {
    seq(CAPACITY, i requires 0 <= i < CAPACITY =>
      if |history| + i < CAPACITY then 0 else history[|history| + i - CAPACITY])
  }

  /** Where the window starts in the ring. */
  function Start(history: seq<u64>): nat { |history| % CAPACITY }

  /** The ring's contents: the newest part of the window, then the oldest. */
  function Ring(history: seq<u64>): seq<u64> {
    Window(history)[CAPACITY - Start(history)..] + Window(history)[..CAPACITY - Start(history)]
  }

  function Threshold(l: Limits, p: Pattern): nat {
    match p
    case Idle => l.minBatch
    case Steady => (l.minBatch + l.maxBatch) / 2
    case Bursty => l.minBatch
    case HighLoad => l.maxBatch
  }

  function TimeLimit(l: Limits, p: Pattern): nat {
    match p
    case Idle => 500
    case Steady => l.maxLatencyMs / 2
    case Bursty => 200
    case HighLoad => l.maxLatencyMs
  }

  function Adapt(l: Limits, s: AutoState, p: Pattern): AutoState {
    s.(pattern := p, threshold := Threshold(l, p), timeLimitMs := TimeLimit(l, p))
  }

  /** `record_arrival` */
  function OnArrival(l: Limits, s: AutoState, now: u64): AutoState {
    var arrived := s.(history := s.history + [now]);
    var p := Classify(Ring(arrived.history), now);
    if p != s.pattern then Adapt(l, arrived, p) else arrived
  }

  /** `observe_queue_growth` */
  function OnGrowth(l: Limits, s: AutoState, rate: real): AutoState {
    if rate > 2.0 && s.pattern != HighLoad then Adapt(l, s, Bursty) else s
  }

  class AutoPolicy {
    const limits: Limits
    const arrivalTimes: array<u64>
    var arrivalIdx: nat
    var lastArrivalMs: u64
    var observedPattern: Pattern
    var currentThreshold: nat
    var currentTimeLimitMs: nat
    ghost var history: seq<u64>

    /** The buffer is the ring of all arrivals so far. */
    ghost predicate Valid()
      reads this, arrivalTimes
    {
      && arrivalTimes.Length == CAPACITY && arrivalIdx == Start(history)
      && arrivalTimes[..] == Ring(history)
    }

    ghost function State(): AutoState
      reads this
    {
      AutoState(history, observedPattern, currentThreshold, currentTimeLimitMs)
    }

    constructor (minBatch: nat, maxBatch: nat, maxLatencyMs: nat)
      ensures Valid() && fresh(arrivalTimes)
      ensures limits == Limits(minBatch, maxBatch, maxLatencyMs) && State() == Initial(limits)
    {
      limits := Limits(minBatch, maxBatch, maxLatencyMs);
      arrivalTimes := new u64[CAPACITY](_ => 0);
      arrivalIdx, lastArrivalMs := 0, 0;
      observedPattern, currentThreshold, currentTimeLimitMs := Idle, minBatch, maxLatencyMs;
      history := [];
    }

    method RecordArrival(nowMs: u64)
      requires Valid()
      modifies this, arrivalTimes
      ensures Valid() && State() == OnArrival(limits, old(State()), nowMs)
    {
      RingAdvances(history, nowMs);
      arrivalTimes[arrivalIdx] := nowMs;
      arrivalIdx := (arrivalIdx + 1) % arrivalTimes.Length;
      lastArrivalMs := nowMs;
      history := history + [nowMs];
      UpdatePattern(nowMs);
    }

    method UpdatePattern(nowMs: u64)
      requires Valid()
      modifies this
      ensures Valid() && history == old(history) && arrivalIdx == old(arrivalIdx)
      ensures var p := Classify(Ring(history), nowMs);
              State() == if p != old(observedPattern) then Adapt(limits, old(State()), p) else old(State())
    {
      var newPattern := Classify(arrivalTimes[..], nowMs);
      if newPattern != observedPattern {
        observedPattern := newPattern;
        AdaptToPattern();
      }
    }

    method AdaptToPattern()
      modifies this
      ensures State() == Adapt(limits, old(State()), old(observedPattern))
      ensures history == old(history) && arrivalIdx == old(arrivalIdx)
    {
      match observedPattern {
        case Idle => currentThreshold, currentTimeLimitMs := limits.minBatch, 500;
        case Steady =>
          currentThreshold, currentTimeLimitMs := (limits.minBatch + limits.maxBatch) / 2, limits.maxLatencyMs / 2;
        case Bursty => currentThreshold, currentTimeLimitMs := limits.minBatch, 200;
        case HighLoad => currentThreshold, currentTimeLimitMs := limits.maxBatch, limits.maxLatencyMs;
      }
    }

    method ObserveQueueGrowth(rate: real)
      requires Valid()
      modifies this
      ensures Valid() && State() == OnGrowth(limits, old(State()), rate)
    {
      if rate > 2.0 && observedPattern != HighLoad {
        observedPattern := Bursty;
        AdaptToPattern();
      }
    }
  }

  /** Writing one slot and moving the index on turns the ring of a history into the ring of the
      history with one arrival more. */
  lemma RingAdvances(history: seq<u64>, now: u64)
    ensures Start(history) < CAPACITY == |Ring(history)|
    ensures Ring(history)[Start(history) := now] == Ring(history + [now])
    ensures Start(history + [now]) == (Start(history) + 1) % CAPACITY
  {
    var k, h := Start(history), history + [now];
    var before, after := Ring(history)[k := now], Ring(h);
    assert Start(h) == if k == CAPACITY - 1 then 0 else k + 1;
    forall j | 0 <= j < CAPACITY ensures before[j] == after[j] {
      RingSlot(history, j);
      RingSlot(h, j);
    }
  }

  /** Slot `j` of the ring: window position `j - start`, wrapped. */
  lemma RingSlot(history: seq<u64>, j: nat)
    requires j < CAPACITY
    ensures var k := Start(history);
            Ring(history)[j] == Window(history)[if j < k then CAPACITY - k + j else j - k]
  {}

  // ----- Runs -----

  datatype Event = Arrival(now: u64) | QueueGrowth(rate: real)

  function Handle(l: Limits, s: AutoState, e: Event): AutoState {
    match e
    case Arrival(now) => OnArrival(l, s, now)
    case QueueGrowth(rate) => OnGrowth(l, s, rate)
  }

  function Run(l: Limits, events: seq<Event>): AutoState {
    if events == [] then Initial(l) else Handle(l, Run(l, events[..|events| - 1]), events[|events| - 1])
  }

  lemma {:induction false} WithinNoLonger(times: seq<u64>, low: nat, high: nat)
    ensures |Within(times, low, high)| <= |times|
  {
    if times != [] {
      WithinNoLonger(times[..|times| - 1], low, high);
    }
  }

  /** A buffer of 100 never holds more than 100 recent arrivals, so the high-load pattern and
      its limits are out of reach: on every run the threshold is the minimum or the midpoint. */
  lemma {:induction false} NeverHighLoad(l: Limits, events: seq<Event>)
    ensures Run(l, events).pattern != HighLoad
    ensures Run(l, events).threshold == l.minBatch || Run(l, events).threshold == (l.minBatch + l.maxBatch) / 2
    ensures l.minBatch <= l.maxBatch ==> l.minBatch <= Run(l, events).threshold <= (l.minBatch + l.maxBatch) / 2
  {
    if events != [] {
      var before := Run(l, events[..|events| - 1]);
      NeverHighLoad(l, events[..|events| - 1]);
      match events[|events| - 1]
      case Arrival(now) =>
        WithinNoLonger(Ring(before.history + [now]), SaturatingSub(now, 1000), now);
      case QueueGrowth(_) =>
    }
  }

  lemma {:induction false} WithinHas(times: seq<u64>, low: nat, high: nat, i: nat)
    requires i < |times| && low < times[i] <= high
    ensures |Within(times, low, high)| >= 1
  {
    if i < |times| - 1 {
      WithinHas(times[..|times| - 1], low, high, i);
    }
  }

  /** An arrival counts itself: right after one the pattern is idle only at time zero. */
  lemma IdleOnlyAtZero(l: Limits, s: AutoState, now: u64)
    ensures OnArrival(l, s, now).pattern == Idle <==> now == 0
  {
    var h := s.history + [now];
    RingAdvances(s.history, now);
    assert Ring(h)[Start(s.history)] == now;
    if now > 0 {
      WithinHas(Ring(h), SaturatingSub(now, 1000), now, Start(s.history));
    } else {
      NothingAtZero(Ring(h));
    }
  }

  lemma {:induction false} NothingAtZero(times: seq<u64>)
    ensures Within(times, 0, 0) == []
  {
    if times != [] {
      NothingAtZero(times[..|times| - 1]);
    }
  }

  // ----- What the classifier sees of the arrivals -----

  lemma {:induction false} WithinConcat(a: seq<u64>, b: seq<u64>, low: nat, high: nat)
    ensures Within(a + b, low, high) == Within(a, low, high) + Within(b, low, high)
    decreases |b|
  {
    if b == [] {
      assert a + b == a;
    } else {
      var n := |b| - 1;
      WithinConcat(a, b[..n], low, high);
      assert (a + b)[..|a + b| - 1] == a + b[..n];
    }
  }

  function Older(history: seq<u64>, low: nat, high: nat): seq<u64> {
    Within(Window(history)[..CAPACITY - Start(history)], low, high)
  }

  function Newer(history: seq<u64>, low: nat, high: nat): seq<u64> {
    Within(Window(history)[CAPACITY - Start(history)..], low, high)
  }

  /** The ring shows the window's times with the two parts exchanged. */
  lemma PartsExchanged(history: seq<u64>, low: nat, high: nat)
    ensures Within(Window(history), low, high) == Older(history, low, high) + Newer(history, low, high)
    ensures Within(Ring(history), low, high) == Newer(history, low, high) + Older(history, low, high)
  {
    var w, k := Window(history), Start(history);
    assert w == w[..CAPACITY - k] + w[CAPACITY - k..];
    WithinConcat(w[..CAPACITY - k], w[CAPACITY - k..], low, high);
    WithinConcat(w[CAPACITY - k..], w[..CAPACITY - k], low, high);
  }

  /** The last 100 arrivals, fewer while there are not that many. */
  function LastArrivals(history: seq<u64>): seq<u64> { history[SaturatingSub(|history|, CAPACITY)..] }

  lemma {:induction false} ZerosAreOutside(zeros: seq<u64>, low: nat, high: nat)
    requires forall i :: 0 <= i < |zeros| ==> zeros[i] == 0
    ensures Within(zeros, low, high) == []
  {
    if zeros != [] {
      ZerosAreOutside(zeros[..|zeros| - 1], low, high);
    }
  }

  /** The padding never counts: what lies within an interval lies there in the real arrivals. */
  lemma WindowShowsArrivals(history: seq<u64>, low: nat, high: nat)
    ensures Within(Window(history), low, high) == Within(LastArrivals(history), low, high)
  {
    var w, pad := Window(history), SaturatingSub(CAPACITY, |history|);
    assert w[pad..] == LastArrivals(history);
    assert w == w[..pad] + w[pad..];
    ZerosAreOutside(w[..pad], low, high);
    WithinConcat(w[..pad], w[pad..], low, high);
  }

  /** The recent count is the number of the last 100 arrivals that fall in the last second. */
  lemma RecentCountExact(history: seq<u64>, now: nat)
    ensures RecentCount(Ring(history), now) == |Within(LastArrivals(history), SaturatingSub(now, 1000), now)|
  {
    PartsExchanged(history, SaturatingSub(now, 1000), now);
    WindowShowsArrivals(history, SaturatingSub(now, 1000), now);
  }

  lemma GapsConcat(a: seq<u64>, b: seq<u64>)
    requires a != [] && b != []
    ensures Gaps(a + b) == Gaps(a) + [SaturatingSub(b[0], a[|a| - 1])] + Gaps(b)
  {}

  ghost predicate NonDecreasing(times: seq<u64>) {
    forall i, j :: 0 <= i < j < |times| ==> times[i] <= times[j]
  }

  lemma {:induction false} WithinMembers(times: seq<u64>, low: nat, high: nat)
    ensures forall t :: t in Within(times, low, high) ==> t in times
  {
    if times != [] {
      WithinMembers(times[..|times| - 1], low, high);
    }
  }

  lemma OlderBeforeNewer(history: seq<u64>, low: nat, high: nat, a: u64, b: u64)
    requires NonDecreasing(history)
    requires a in Older(history, low, high) && b in Newer(history, low, high)
    ensures a <= b
  {
    var w, m := Window(history), CAPACITY - Start(history);
    WithinMembers(w[..m], low, high);
    WithinMembers(w[m..], low, high);
    var i :| 0 <= i < m && w[..m][i] == a;
    var j :| 0 <= j < |w[m..]| && w[m..][j] == b;
    assert w[i] == a && w[m + j] == b;
  }

  /** Gaps of two exchanged parts: the gap between them is taken out, and a zero put in its
      place where the parts now meet. */
  ghost predicate Displaced(older: seq<u64>, newer: seq<u64>, seen: seq<nat>, chronological: seq<nat>) {
    if older == [] || newer == [] then seen == chronological
    else
      var gap := SaturatingSub(newer[0], older[|older| - 1]);
      && seen == Gaps(newer) + [0] + Gaps(older)
      && chronological == Gaps(older) + [gap] + Gaps(newer)
      && Sum(chronological) == Sum(seen) + gap
  }

  lemma ExchangedGaps(older: seq<u64>, newer: seq<u64>)
    requires older != [] && newer != [] ==> older[0] <= newer[|newer| - 1]
    ensures Displaced(older, newer, Gaps(newer + older), Gaps(older + newer))
  {
    if older == [] || newer == [] {
      assert newer + older == older + newer;
    } else {
      GapsConcat(older, newer);
      GapsConcat(newer, older);
      SumOfThree(Gaps(newer), 0, Gaps(older));
      SumOfThree(Gaps(older), SaturatingSub(newer[0], older[|older| - 1]), Gaps(newer));
    }
  }

  /** For arrivals in time order the interval list is the chronological one with the gap where
      the ring wraps displaced. */
  lemma IntervalsDisplaced(history: seq<u64>, now: nat)
    requires NonDecreasing(history)
    ensures var low := SaturatingSub(now, 5000);
            Displaced(Older(history, low, now), Newer(history, low, now),
                      Intervals(Ring(history), now), Gaps(Within(LastArrivals(history), low, now)))
  {
    var low := SaturatingSub(now, 5000);
    var older, newer := Older(history, low, now), Newer(history, low, now);
    PartsExchanged(history, low, now);
    WindowShowsArrivals(history, low, now);
    if older != [] && newer != [] {
      OlderBeforeNewer(history, low, now, older[0], newer[|newer| - 1]);
    }
    ExchangedGaps(older, newer);
  }

  /** The ring shows the chronological total exactly when nothing was displaced: all recent arrivals
      lie on one side of the wrap, or two of equal time meet there. */
  lemma WrapGapLost(history: seq<u64>, now: nat)
    requires NonDecreasing(history)
    ensures var low := SaturatingSub(now, 5000);
            var older, newer := Older(history, low, now), Newer(history, low, now);
            Sum(Intervals(Ring(history), now)) == Sum(Gaps(Within(LastArrivals(history), low, now)))
            <==> older == [] || newer == [] || newer[0] <= older[|older| - 1]
  {
    IntervalsDisplaced(history, now);
  }

  lemma SumOfThree(a: seq<nat>, x: nat, b: seq<nat>)
    ensures Sum(a + [x] + b) == Sum(a) + x + Sum(b)
  {
    SumConcat(a + [x], b);
    SumSnoc(a, x);
  }

  // ----- When the verdict changes -----

  function SumSquares(s: seq<nat>): nat {
    if s == [] then 0 else SumSquares(s[..|s| - 1]) + s[|s| - 1] * s[|s| - 1]
  }

  lemma SquaresSnoc(a: seq<nat>, x: nat)
    ensures SumSquares(a + [x]) == SumSquares(a) + x * x
  {
    assert (a + [x])[..|a|] == a;
  }

  lemma {:induction false} SquaresConcat(a: seq<nat>, b: seq<nat>)
    ensures SumSquares(a + b) == SumSquares(a) + SumSquares(b)
    decreases |b|
  {
    if b == [] {
      assert a + b == a;
    } else {
      var n := |b| - 1;
      SquaresConcat(a, b[..n]);
      assert (a + b)[..|a + b| - 1] == a + b[..n];
    }
  }

  lemma SquaresOfThree(a: seq<nat>, x: nat, b: seq<nat>)
    ensures SumSquares(a + [x] + b) == SumSquares(a) + x * x + SumSquares(b)
  {
    SquaresConcat(a + [x], b);
    SquaresSnoc(a, x);
  }

  lemma AddDeviation(q: real, s: real, n: real, mean: real, x: real)
    ensures q - 2.0 * mean * s + n * mean * mean + (x - mean) * (x - mean)
         == (q + x * x) - 2.0 * mean * (s + x) + (n + 1.0) * mean * mean
  {}

  lemma SquareAsReal(x: nat)
    ensures (x * x) as real == x as real * x as real
  {}

  lemma {:induction false} DeviationsExpand(gaps: seq<nat>, mean: real)
    ensures SquaredDeviations(gaps, mean)
         == SumSquares(gaps) as real - 2.0 * mean * Sum(gaps) as real + |gaps| as real * mean * mean
  {
    if gaps != [] {
      var n := |gaps| - 1;
      var x := gaps[n];
      DeviationsExpand(gaps[..n], mean);
      SquareAsReal(x);
      AddDeviation(SumSquares(gaps[..n]) as real, Sum(gaps[..n]) as real, n as real, mean, x as real);
    }
  }

  /** With the mean put in, and multiplied by the number of gaps. */
  lemma AtTheMean(q: real, s: real, n: real, mean: real)
    requires n > 0.0 && mean * n == s
    ensures n * (q - 2.0 * mean * s + n * mean * mean) == n * q - s * s
  {
    var m := mean * n;
    assert n * (2.0 * mean * s) == 2.0 * m * s;
    assert n * (n * mean * mean) == m * m;
  }

  lemma QuotientAbove(d: real, n: real, bound: real)
    requires n > 0.0
    ensures d / n > bound <==> n * d > bound * n * n
  {
    var q := d / n;
    assert q * n == d;
    if q > bound {
      MulStrict(q, bound, n);
      MulStrict(d, bound * n, n);
    } else if bound > q {
      MulStrict(bound, q, n);
      MulStrict(bound * n, d, n);
    }
  }

  lemma InReals(n: nat, q: nat, s: nat)
    ensures n * q > s * s + 40000 * n * n
       <==> n as real * q as real - s as real * s as real > 40000.0 * n as real * n as real
  {
    assert (n * q) as real == n as real * q as real;
    assert (s * s) as real == s as real * s as real;
    assert (n * n) as real == n as real * n as real;
    assert (40000 * n * n) as real == 40000.0 * n as real * n as real by {
      assert 40000 * n * n == 40000 * (n * n);
      assert 40000.0 * n as real * n as real == 40000.0 * (n as real * n as real);
    }
  }

  predicate Spread(n: int, q: int, s: int) { n > 1 && n * q > s * s + 40000 * n * n }

  function Expanded(q: real, s: real, n: real, mean: real): real { q - 2.0 * mean * s + n * mean * mean }

  lemma MeanSpread(q: real, s: real, n: real, mean: real)
    requires n > 0.0 && mean * n == s
    ensures Expanded(q, s, n, mean) / n > 40000.0 <==> n * q - s * s > 40000.0 * n * n
  {
    AtTheMean(q, s, n, mean);
    QuotientAbove(Expanded(q, s, n, mean), n, 40000.0);
  }

  lemma SpreadAtMean(q: nat, s: nat, n: nat)
    requires n > 1
    ensures Expanded(q as real, s as real, n as real, s as real / n as real) / n as real > 40000.0 <==> Spread(n, q, s)
  {
    DivideBack(s as real, n as real);
    MeanSpread(q as real, s as real, n as real, s as real / n as real);
    InReals(n, q, s);
  }

  lemma DeviationsAre(gaps: seq<nat>, mean: real)
    ensures SquaredDeviations(gaps, mean) == Expanded(SumSquares(gaps) as real, Sum(gaps) as real, |gaps| as real, mean)
  {
    DeviationsExpand(gaps, mean);
  }

  /** Irregular gaps, without roots and quotients: by their number, squares and sum alone. */
  lemma IrregularExactly(gaps: seq<nat>)
    ensures Irregular(gaps) <==> Spread(|gaps|, SumSquares(gaps), Sum(gaps))
  {
    if |gaps| > 1 {
      DeviationsAre(gaps, Sum(gaps) as real / |gaps| as real);
      SpreadAtMean(SumSquares(gaps), Sum(gaps), |gaps|);
    }
  }

  /** The gap the ring does not show. */
  function LostGap(older: seq<u64>, newer: seq<u64>): nat {
    if older == [] || newer == [] then 0 else SaturatingSub(newer[0], older[|older| - 1])
  }

  lemma DisplacedSums(older: seq<u64>, newer: seq<u64>, seen: seq<nat>, chronological: seq<nat>)
    requires Displaced(older, newer, seen, chronological)
    ensures var g := LostGap(older, newer);
            && |seen| == |chronological| && Sum(seen) == Sum(chronological) - g
            && SumSquares(seen) == SumSquares(chronological) - g * g
  {
    if older != [] && newer != [] {
      SquaresOfThree(Gaps(newer), 0, Gaps(older));
      SquaresOfThree(Gaps(older), LostGap(older, newer), Gaps(newer));
    }
  }

  /** The gaps of the recent arrivals in time order. */
  function TrueGaps(history: seq<u64>, now: nat): seq<nat> {
    Intervals(LastArrivals(history), now)
  }

  function Lost(history: seq<u64>, now: nat): nat {
    LostGap(Older(history, SaturatingSub(now, 5000), now), Newer(history, SaturatingSub(now, 5000), now))
  }

  /** What the policy finds irregular, in terms of the true gaps: their number, their squares and
      their sum, less the lost gap. */
  lemma SeenExactly(history: seq<u64>, now: nat)
    requires NonDecreasing(history)
    ensures var gaps, g := TrueGaps(history, now), Lost(history, now);
            && (Irregular(gaps) <==> Spread(|gaps|, SumSquares(gaps), Sum(gaps)))
            && (Irregular(Intervals(Ring(history), now)) <==> Spread(|gaps|, SumSquares(gaps) - g * g, Sum(gaps) - g))
  {
    var low := SaturatingSub(now, 5000);
    IntervalsDisplaced(history, now);
    DisplacedSums(Older(history, low, now), Newer(history, low, now), Intervals(Ring(history), now), TrueGaps(history, now));
    SeenSpread(Intervals(Ring(history), now), TrueGaps(history, now), Lost(history, now));
  }

  lemma SeenSpread(seen: seq<nat>, gaps: seq<nat>, g: nat)
    requires |seen| == |gaps| && Sum(seen) == Sum(gaps) - g && SumSquares(seen) == SumSquares(gaps) - g * g
    ensures Irregular(gaps) <==> Spread(|gaps|, SumSquares(gaps), Sum(gaps))
    ensures Irregular(seen) <==> Spread(|gaps|, SumSquares(gaps) - g * g, Sum(gaps) - g)
  {
    IrregularExactly(seen);
    IrregularExactly(gaps);
    SameSpread(|seen|, SumSquares(seen), Sum(seen), |gaps|, SumSquares(gaps) - g * g, Sum(gaps) - g);
  }

  lemma SameSpread(n: int, q: int, s: int, n': int, q': int, s': int)
    requires n == n' && q == q' && s == s'
    ensures Spread(n, q, s) == Spread(n', q', s')
  {}

  /** The classifier's verdict on the ring differs from its verdict on the same arrivals in time order
      if and only if some arrival is recent and the lost gap decides between irregular and not. */
  lemma VerdictChanges(history: seq<u64>, now: nat)
    requires NonDecreasing(history)
    ensures var gaps, g := TrueGaps(history, now), Lost(history, now);
            Classify(Ring(history), now) != Classify(LastArrivals(history), now) <==>
              && RecentCount(LastArrivals(history), now) >= 1
              && Spread(|gaps|, SumSquares(gaps), Sum(gaps)) != Spread(|gaps|, SumSquares(gaps) - g * g, Sum(gaps) - g)
  {
    SeenExactly(history, now);
    RecentCountExact(history, now);
    WithinNoLonger(LastArrivals(history), SaturatingSub(now, 1000), now);
  }

  /** Nothing lost, nothing changed. */
  lemma VerdictKept(history: seq<u64>, now: nat)
    requires NonDecreasing(history) && Lost(history, now) == 0
    ensures Classify(Ring(history), now) == Classify(LastArrivals(history), now)
  {
    VerdictChanges(history, now);
  }

  // ----- Both ways it can go wrong -----

  lemma {:induction false} OnesAreOutside(n: nat, low: nat, high: nat)
    requires low >= 1
    ensures Within(seq(n, _ => 1), low, high) == []
  {
    if n > 0 {
      OnesAreOutside(n - 1, low, high);
      assert seq(n, _ => 1)[..n - 1] == seq(n - 1, _ => 1);
    }
  }

  lemma WithinTwo(a: u64, b: u64, low: nat, high: nat)
    requires low < a <= high && low < b <= high
    ensures Within([a, b], low, high) == [a, b]
  {
    assert [a, b] == [a] + [b];
    WithinOne(a, low, high);
    WithinOne(b, low, high);
    WithinConcat([a], [b], low, high);
  }

  lemma WithinOne(a: u64, low: nat, high: nat)
    requires low < a <= high
    ensures Within([a], low, high) == [a]
  {
    assert [a][..0] == [];
  }

  /** Three arrivals a second apart and five milliseconds apart, with the ring wrapping between
      the first and the second. */
  function WrappedBurst(): seq<u64> { seq(99, _ => 1) + [10000, 11000, 11005] }

  lemma BurstInOrder()
    ensures NonDecreasing(WrappedBurst())
  {}

  lemma BurstParts()
    ensures Older(WrappedBurst(), 6005, 11005) == [10000]
    ensures Newer(WrappedBurst(), 6005, 11005) == [11000, 11005]
  {
    assert Start(WrappedBurst()) == 2;
    BurstWindow();
    WithinTwo(11000, 11005, 6005, 11005);
    OnesAreOutside(97, 6005, 11005);
    WithinConcat(seq(97, _ => 1), [10000], 6005, 11005);
  }

  lemma BurstWindow()
    ensures Window(WrappedBurst())[98..] == [11000, 11005]
    ensures Window(WrappedBurst())[..98] == seq(97, _ => 1) + [10000]
  {}

  lemma SumsOfTwo(a: nat, b: nat)
    ensures Sum([a, b]) == a + b && SumSquares([a, b]) == a * a + b * b
  {
    assert [a, b] == [] + [a] + [b];
    SumSnoc([] + [a], b);
    SumSnoc([], a);
    SquaresSnoc([] + [a], b);
    SquaresSnoc([], a);
  }

  lemma SumsOfThree(a: nat, b: nat, c: nat)
    ensures Sum([a, b, c]) == a + b + c && SumSquares([a, b, c]) == a * a + b * b + c * c
  {
    assert [a, b, c] == [a, b] + [c];
    SumsOfTwo(a, b);
    SumSnoc([a, b], c);
    SquaresSnoc([a, b], c);
  }

  lemma BurstShown()
    ensures Intervals(Ring(WrappedBurst()), 11005) == [5, 0] && TrueGaps(WrappedBurst(), 11005) == [1000, 5]
  {
    BurstInOrder();
    BurstParts();
    IntervalsDisplaced(WrappedBurst(), 11005);
    BurstGaps(Older(WrappedBurst(), 6005, 11005), Newer(WrappedBurst(), 6005, 11005),
              Intervals(Ring(WrappedBurst()), 11005), TrueGaps(WrappedBurst(), 11005));
  }

  lemma BurstVerdicts()
    ensures Irregular([1000, 5]) && !Irregular([5, 0])
  {
    SumsOfTwo(1000, 5);
    SumsOfTwo(5, 0);
    IrregularExactly([1000, 5]);
    IrregularExactly([5, 0]);
  }

  /** A burst can be hidden: in time order these gaps are irregular, as the ring shows them they are
      not. */
  lemma BurstHidden()
    ensures Irregular(TrueGaps(WrappedBurst(), 11005)) && !Irregular(Intervals(Ring(WrappedBurst()), 11005))
  {
    BurstShown();
    BurstVerdicts();
  }

  lemma BurstGaps(older: seq<u64>, newer: seq<u64>, seen: seq<nat>, chronological: seq<nat>)
    requires older == [10000] && newer == [11000, 11005] && Displaced(older, newer, seen, chronological)
    ensures seen == [5, 0] && chronological == [1000, 5]
  {
    assert Gaps(newer) == [5] && Gaps(older) == [];
  }

  /** Four arrivals one second apart, with the ring wrapping in their middle. */
  function WrappedSteady(): seq<u64> { seq(98, _ => 1) + [10000, 11000, 12000, 13000] }

  lemma SteadyInOrder()
    ensures NonDecreasing(WrappedSteady())
  {}

  lemma SteadyParts()
    ensures Older(WrappedSteady(), 8000, 13000) == [10000, 11000]
    ensures Newer(WrappedSteady(), 8000, 13000) == [12000, 13000]
  {
    assert Start(WrappedSteady()) == 2;
    SteadyWindow();
    WithinTwo(12000, 13000, 8000, 13000);
    OnesAreOutside(96, 8000, 13000);
    WithinTwo(10000, 11000, 8000, 13000);
    WithinConcat(seq(96, _ => 1), [10000, 11000], 8000, 13000);
  }

  lemma SteadyWindow()
    ensures Window(WrappedSteady())[98..] == [12000, 13000]
    ensures Window(WrappedSteady())[..98] == seq(96, _ => 1) + [10000, 11000]
  {}

  lemma SteadyGaps(older: seq<u64>, newer: seq<u64>, seen: seq<nat>, chronological: seq<nat>)
    requires older == [10000, 11000] && newer == [12000, 13000] && Displaced(older, newer, seen, chronological)
    ensures seen == [1000, 0, 1000] && chronological == [1000, 1000, 1000]
  {
    assert Gaps(newer) == [1000] && Gaps(older) == [1000];
  }

  lemma SteadyIsRecent()
    ensures RecentCount(LastArrivals(WrappedSteady()), 13000) >= 1
  {
    var a := LastArrivals(WrappedSteady());
    assert a[99] == 13000;
    WithinHas(a, 12000, 13000, 99);
  }

  lemma SteadyShown()
    ensures Intervals(Ring(WrappedSteady()), 13000) == [1000, 0, 1000]
    ensures TrueGaps(WrappedSteady(), 13000) == [1000, 1000, 1000]
  {
    SteadyInOrder();
    SteadyParts();
    IntervalsDisplaced(WrappedSteady(), 13000);
    SteadyGaps(Older(WrappedSteady(), 8000, 13000), Newer(WrappedSteady(), 8000, 13000),
               Intervals(Ring(WrappedSteady()), 13000), TrueGaps(WrappedSteady(), 13000));
  }

  lemma SteadyVerdicts()
    ensures !Irregular([1000, 1000, 1000]) && Irregular([1000, 0, 1000])
  {
    SumsOfThree(1000, 1000, 1000);
    SumsOfThree(1000, 0, 1000);
    IrregularExactly([1000, 1000, 1000]);
    IrregularExactly([1000, 0, 1000]);
  }

  lemma Recent(history: seq<u64>, now: nat)
    requires RecentCount(LastArrivals(history), now) >= 1
    ensures Classify(Ring(history), now) == if Irregular(Intervals(Ring(history), now)) then Bursty else Steady
    ensures Classify(LastArrivals(history), now) == if Irregular(TrueGaps(history, now)) then Bursty else Steady
  {
    RecentCountExact(history, now);
    WithinNoLonger(LastArrivals(history), SaturatingSub(now, 1000), now);
  }

  /** And a steady stream can be called a burst: one arrival per second, and the ring takes the policy
      to its bursty limits. */
  lemma SteadyMadeBursty()
    ensures Classify(Ring(WrappedSteady()), 13000) == Bursty
    ensures Classify(LastArrivals(WrappedSteady()), 13000) == Steady
  {
    SteadyShown();
    SteadyVerdicts();
    SteadyIsRecent();
    Recent(WrappedSteady(), 13000);
  }

  // ----- The limits that go with a verdict -----

  /** On every run the limits are those of the pattern last seen; only the initial time limit is one
      of its own. */
  predicate LimitsFit(l: Limits, s: AutoState) {
    && (s.pattern == Steady ==> s.threshold == (l.minBatch + l.maxBatch) / 2 && s.timeLimitMs == l.maxLatencyMs / 2)
    && (s.pattern == Bursty ==> s.threshold == l.minBatch && s.timeLimitMs == 200)
    && (s.pattern == Idle ==> s.threshold == l.minBatch && (s.timeLimitMs == 500 || s.timeLimitMs == l.maxLatencyMs))
  }

  lemma {:induction false} LimitsFollowPattern(l: Limits, events: seq<Event>)
    ensures LimitsFit(l, Run(l, events)) && Run(l, events).pattern != HighLoad
  {
    NeverHighLoad(l, events);
    if events != [] {
      LimitsFollowPattern(l, events[..|events| - 1]);
    }
  }

  /** Fast growth, above two, makes the policy bursty at once; slower growth leaves it as it is. */
  lemma GrowthMakesBursty(l: Limits, events: seq<Event>, rate: real)
    ensures var before, after := Run(l, events), Run(l, events + [QueueGrowth(rate)]);
            && (rate > 2.0 ==> after.pattern == Bursty && after.threshold == l.minBatch && after.timeLimitMs == 200)
            && (rate <= 2.0 ==> after == before)
            && after.history == before.history
  {
    assert (events + [QueueGrowth(rate)])[..|events|] == events;
    NeverHighLoad(l, events);
  }

  /** A deviation of 200 exactly is not yet irregular. */
  lemma IrregularBoundary()
    ensures !Irregular([0, 400]) && Irregular([0, 401])
  {
    SumsOfTwo(0, 400);
    SumsOfTwo(0, 401);
    IrregularExactly([0, 400]);
    IrregularExactly([0, 401]);
  }

  /** The verdict after an arrival: no other arrival in the last second leaves it steady or bursty. */
  lemma ArrivalIsSeen(l: Limits, s: AutoState, now: u64)
    requires now > 0
    ensures OnArrival(l, s, now).pattern ==
      if Irregular(Intervals(Ring(s.history + [now]), now)) then Bursty else Steady
  {
    IdleOnlyAtZero(l, s, now);
    WithinNoLonger(Ring(s.history + [now]), SaturatingSub(now, 1000), now);
  }
}
