/** The summary of a list of batches: latency percentiles against the number of batches over
    the service level, totals and ratios. */
module LatencyMetrics {
  import opened Basics
  import opened SingleQueue

  function Insert(x: nat, s: seq<nat>): seq<nat> {
    if s == [] then [x] else if x <= s[0] then [x] + s else [s[0]] + Insert(x, s[1..])
  }

  /** The latencies in ascending order. */
  function Sort(s: seq<nat>): seq<nat> {
    if s == [] then [] else Insert(s[|s| - 1], Sort(s[..|s| - 1]))
  }

  ghost predicate Ascending(s: seq<nat>) { forall i, j :: 0 <= i < j < |s| ==> s[i] <= s[j] }

  function Violations(s: seq<nat>, sla: nat): nat {
    if s == [] then 0 else Violations(s[..|s| - 1], sla) + if s[|s| - 1] > sla then 1 else 0
  }

  /** `round(p / 100 * (n - 1))`, capped at the last index. */
  function Rank(n: nat, p: nat): nat
    requires n > 0
  {
    Min((p * (n - 1) + 50) / 100, n - 1)
  }

  function Percentile(sorted: seq<nat>, p: nat): nat {
    if sorted == [] then 0 else sorted[Rank(|sorted|, p)]
  }

  lemma {:induction false} ViolationsConcat(a: seq<nat>, b: seq<nat>, sla: nat)
    ensures Violations(a + b, sla) == Violations(a, sla) + Violations(b, sla)
    decreases |b|
  {
    if b == [] {
      assert a + b == a;
    } else {
      ViolationsConcat(a, b[..|b| - 1], sla);
      assert (a + b)[..|a + b| - 1] == a + b[..|b| - 1];
    }
  }

  lemma {:induction false} InsertAdds(x: nat, s: seq<nat>)
    ensures multiset(Insert(x, s)) == multiset(s) + multiset{x} && |Insert(x, s)| == |s| + 1
  {
    if s != [] && x > s[0] {
      InsertAdds(x, s[1..]);
      assert s == [s[0]] + s[1..];
    }
  }

  lemma {:induction false} InsertAscends(x: nat, s: seq<nat>)
    requires Ascending(s)
    ensures Ascending(Insert(x, s))
  {
    if s != [] && x > s[0] {
      var rest := Insert(x, s[1..]);
      InsertAscends(x, s[1..]);
      InsertAdds(x, s[1..]);
      forall i | 0 <= i < |rest| ensures s[0] <= rest[i] {
        assert rest[i] in multiset(rest);
        assert rest[i] == x || rest[i] in s[1..];
      }
    }
  }

  lemma ViolationsOfOne(x: nat, sla: nat)
    ensures Violations([x], sla) == if x > sla then 1 else 0
  {
    assert [x][..0] == [];
  }

  lemma {:induction false} InsertCounts(x: nat, s: seq<nat>, sla: nat)
    ensures Violations(Insert(x, s), sla) == Violations(s, sla) + if x > sla then 1 else 0
  {
    ViolationsOfOne(x, sla);
    if s == [] {
    } else if x <= s[0] {
      ViolationsConcat([x], s, sla);
    } else {
      InsertCounts(x, s[1..], sla);
      assert s == [s[0]] + s[1..];
      ViolationsConcat([s[0]], s[1..], sla);
      ViolationsConcat([s[0]], Insert(x, s[1..]), sla);
    }
  }

  lemma {:induction false} SortPermutes(s: seq<nat>)
    ensures Ascending(Sort(s)) && multiset(Sort(s)) == multiset(s) && |Sort(s)| == |s|
  {
    if s != [] {
      var n := |s| - 1;
      SortPermutes(s[..n]);
      InsertAscends(s[n], Sort(s[..n]));
      InsertAdds(s[n], Sort(s[..n]));
      TakeNext(s, n);
      TakeAll(s);
    }
  }

  /** Sorting keeps the number above any level. */
  lemma {:induction false} SortCounts(s: seq<nat>, sla: nat)
    ensures Violations(Sort(s), sla) == Violations(s, sla)
  {
    if s != [] {
      SortCounts(s[..|s| - 1], sla);
      InsertCounts(s[|s| - 1], Sort(s[..|s| - 1]), sla);
    }
  }

  lemma {:induction false} AllBelow(s: seq<nat>, sla: nat)
    requires forall i :: 0 <= i < |s| ==> s[i] <= sla
    ensures Violations(s, sla) == 0
  {
    if s != [] {
      AllBelow(s[..|s| - 1], sla);
    }
  }

  lemma {:induction false} AllAbove(s: seq<nat>, sla: nat)
    requires forall i :: 0 <= i < |s| ==> s[i] > sla
    ensures Violations(s, sla) == |s|
  {
    if s != [] {
      AllAbove(s[..|s| - 1], sla);
    }
  }

  lemma {:induction false} NoMoreThanAll(s: seq<nat>, sla: nat)
    ensures Violations(s, sla) <= |s|
  {
    if s != [] {
      NoMoreThanAll(s[..|s| - 1], sla);
    }
  }

  lemma PercentileObserved(latencies: seq<nat>, p: nat)
    requires latencies != []
    ensures |Sort(latencies)| == |latencies| && Percentile(Sort(latencies), p) in latencies
  {
    SortPermutes(latencies);
    assert Percentile(Sort(latencies), p) in multiset(Sort(latencies));
  }

  lemma PercentileMonotone(latencies: seq<nat>, p: nat, q: nat)
    requires latencies != [] && p <= q
    ensures Percentile(Sort(latencies), p) <= Percentile(Sort(latencies), q)
  {
    SortPermutes(latencies);
    RankMonotone(|latencies|, p, q);
  }

  lemma RankMonotone(n: nat, p: nat, q: nat)
    requires n > 0 && p <= q
    ensures Rank(n, p) <= Rank(n, q)
  {
    MulMonotone(p, q, n - 1);
  }

  /** p50, p95 and p99 are observed latencies, in order. */
  lemma PercentilesOrdered(latencies: seq<nat>)
    requires latencies != []
    ensures var s := Sort(latencies);
            && Percentile(s, 50) in latencies && Percentile(s, 95) in latencies && Percentile(s, 99) in latencies
            && Percentile(s, 50) <= Percentile(s, 95) <= Percentile(s, 99)
  {
    PercentileObserved(latencies, 50);
    PercentileObserved(latencies, 95);
    PercentileObserved(latencies, 99);
    PercentileMonotone(latencies, 50, 95);
    PercentileMonotone(latencies, 95, 99);
  }

  lemma SplitViolations(s: seq<nat>, k: nat, sla: nat)
    requires k <= |s|
    ensures Violations(s, sla) == Violations(s[..k], sla) + Violations(s[k..], sla)
  {
    assert s == s[..k] + s[k..];
    ViolationsConcat(s[..k], s[k..], sla);
  }

  lemma RankWithin(s: seq<nat>, r: nat, sla: nat)
    requires Ascending(s) && r < |s| && s[r] <= sla
    ensures Violations(s, sla) <= |s| - 1 - r
  {
    SplitViolations(s, r + 1, sla);
    AllBelow(s[..r + 1], sla);
    NoMoreThanAll(s[r + 1..], sla);
  }

  lemma RankBeyond(s: seq<nat>, r: nat, sla: nat)
    requires Ascending(s) && r < |s| && s[r] > sla
    ensures Violations(s, sla) >= |s| - r
  {
    SplitViolations(s, r, sla);
    AllAbove(s[r..], sla);
  }

  /** A percentile within the level leaves at most the batches ranked above it in violation; one
      beyond the level puts itself and all of those in violation. */
  lemma PercentileBoundsViolations(latencies: seq<nat>, p: nat, sla: nat)
    requires latencies != []
    ensures var n, r := |latencies|, Rank(|latencies|, p);
            if Percentile(Sort(latencies), p) <= sla then Violations(latencies, sla) <= n - 1 - r
            else Violations(latencies, sla) >= n - r
  {
    SortPermutes(latencies);
    SortCounts(latencies, sla);
    if Percentile(Sort(latencies), p) <= sla {
      RankWithin(Sort(latencies), Rank(|latencies|, p), sla);
    } else {
      RankBeyond(Sort(latencies), Rank(|latencies|, p), sla);
    }
  }

  /** The average lies between any bounds of the latencies, the extremes among them. */
  lemma AverageBetween(latencies: seq<nat>, low: nat, high: nat)
    requires latencies != [] && forall i :: 0 <= i < |latencies| ==> low <= latencies[i] <= high
    ensures low * |latencies| <= Sum(latencies) <= high * |latencies|
    ensures low as real <= Sum(latencies) as real / |latencies| as real <= high as real
  {
    SumBetween(latencies, low, high);
    QuotientBetween(Sum(latencies), |latencies|, low, high);
  }

  lemma {:induction false} SumBetween(s: seq<nat>, low: nat, high: nat)
    requires forall i :: 0 <= i < |s| ==> low <= s[i] <= high
    ensures low * |s| <= Sum(s) <= high * |s|
  {
    if s != [] {
      var n := |s| - 1;
      SumBetween(s[..n], low, high);
      TimesNext(low, n);
      TimesNext(high, n);
    }
  }

  lemma QuotientBetween(sum: nat, n: nat, low: nat, high: nat)
    requires n > 0 && low * n <= sum <= high * n
    ensures low as real <= sum as real / n as real <= high as real
  {
    var q, d := sum as real / n as real, n as real;
    DivideBack(sum as real, d);
    ProductAsReal(low, n);
    ProductAsReal(high, n);
    MeanBetween(q, sum as real, d, low as real, high as real);
  }

  lemma ProductAsReal(a: nat, b: nat)
    ensures (a * b) as real == a as real * b as real
  {}

  lemma NoMore(x: real, y: real, d: real)
    requires d > 0.0 && x * d <= y * d
    ensures x <= y
  {
    if x > y {
      MulStrict(x, y, d);
    }
  }

  // ----- The summary -----

  datatype SystemMetrics = SystemMetrics(
    policyName: string, scenarioName: string, avgThroughputTps: real,
    totalTransactions: nat, totalBatches: nat, avgBatchSize: real,
    avgLatencyMs: real, p50LatencyMs: nat, p95LatencyMs: nat, p99LatencyMs: nat,
    totalProofSizeBytes: nat, avgProofSizeBytes: real, verificationSuccessRate: real,
    totalComputeUsed: nat, amortizedCostPerTx: real, batchEfficiency: real, slaViolations: nat)

  function Nothing(policyName: string, scenarioName: string): SystemMetrics {
    SystemMetrics(policyName, scenarioName, 0.0, 0, 0, 0.0, 0.0, 0, 0, 0, 0, 0.0, 0.0, 0, 0.0, 0.0, 0)
  }

  function Passed(ms: seq<BatchMetrics>): (n: nat)
    ensures n <= |ms| && (n == |ms| <==> forall m :: m in ms ==> m.verificationPassed)
  {
    if ms == [] then 0
    else
      assert ms == ms[..|ms| - 1] + [ms[|ms| - 1]];
      Passed(ms[..|ms| - 1]) + if ms[|ms| - 1].verificationPassed then 1 else 0
  }

  /** A quotient of counts, described without division. */
  ghost predicate IsRatio(q: real, x: nat, d: nat) {
    && q * d as real == x as real && (q == 1.0 <==> x == d)
    && (x <= d ==> 0.0 <= q <= 1.0)
  }

  lemma RatioIs(x: nat, d: nat)
    requires d > 0
    ensures IsRatio(x as real / d as real, x, d)
  {
    var q := x as real / d as real;
    assert q * d as real == x as real;
    if q < 0.0 {
      MulStrict(0.0, q, d as real);
    } else if q > 1.0 {
      MulStrict(q, 1.0, d as real);
    } else if x == d {
      assert q == 1.0;
    }
  }

  method Ratio(x: nat, d: nat) returns (q: real)
    requires d > 0
    ensures IsRatio(q, x, d)
  {
    RatioIs(x, d);
    q := x as real / d as real;
  }

  method Total(ms: seq<BatchMetrics>, c: Measure) returns (total: nat)
    ensures total == Sum(Column(ms, c))
  {
    total := 0;
    for i := 0 to |ms|
      invariant total == Sum(Column(ms[..i], c))
    {
      TakeNext(ms, i);
      ColumnNext(ms[..i], ms[i], c);
      total := total + Value(ms[i], c);
    }
    TakeAll(ms);
  }

  /** The latencies, sorted. */
  method SortedLatencies(ms: seq<BatchMetrics>) returns (latencies: seq<nat>)
    ensures latencies == Sort(Column(ms, Latency))
  {
    latencies := [];
    for i := 0 to |ms|
      invariant latencies == Sort(Column(ms, Latency)[..i])
    {
      TakeNext(Column(ms, Latency), i);
      latencies := Insert(Value(ms[i], Latency), latencies);
    }
    TakeAll(Column(ms, Latency));
  }

  method CountBatches(ms: seq<BatchMetrics>, sla: nat) returns (passed: nat, late: nat)
    ensures passed == Passed(ms) && late == Violations(Column(ms, Latency), sla)
  {
    passed, late := 0, 0;
    for i := 0 to |ms|
      invariant passed == Passed(ms[..i]) && late == Violations(Column(ms, Latency)[..i], sla)
    {
      TakeNext(ms, i);
      TakeNext(Column(ms, Latency), i);
      if ms[i].verificationPassed {
        passed := passed + 1;
      }
      if ms[i].endToEndLatencyMs > sla {
        late := late + 1;
      }
    }
    TakeAll(ms);
    TakeAll(Column(ms, Latency));
  }

  function TotalThroughput(ms: seq<BatchMetrics>): real {
    if ms == [] then 0.0 else TotalThroughput(ms[..|ms| - 1]) + ms[|ms| - 1].throughputTps
  }

  lemma OneMore(x: real, n: nat)
    ensures x * (n + 1) as real == x * n as real + x
  {}

  lemma {:induction false} ThroughputWithin(ms: seq<BatchMetrics>, low: real, high: real)
    requires forall i :: 0 <= i < |ms| ==> low <= ms[i].throughputTps <= high
    ensures low * |ms| as real <= TotalThroughput(ms) <= high * |ms| as real
  {
    if ms != [] {
      var n := |ms| - 1;
      ThroughputWithin(ms[..n], low, high);
      OneMore(low, n);
      OneMore(high, n);
    }
  }

  /** The throughputs' total spread over the batches. */
  predicate IsMeanThroughput(mean: real, ms: seq<BatchMetrics>) { mean * |ms| as real == TotalThroughput(ms) }

  lemma MeanBetween(mean: real, total: real, d: real, low: real, high: real)
    requires d > 0.0 && mean * d == total && low * d <= total <= high * d
    ensures low <= mean <= high
  {
    NoMore(low, mean, d);
    NoMore(mean, high, d);
  }

  /** Such a mean lies between any bounds of the throughputs. */
  lemma MeanThroughputBetween(mean: real, ms: seq<BatchMetrics>, low: real, high: real)
    requires ms != [] && IsMeanThroughput(mean, ms)
    requires forall i :: 0 <= i < |ms| ==> low <= ms[i].throughputTps <= high
    ensures low <= mean <= high
  {
    ThroughputWithin(ms, low, high);
    MeanBetween(mean, TotalThroughput(ms), |ms| as real, low, high);
  }

  method MeanThroughput(ms: seq<BatchMetrics>) returns (mean: real)
    requires ms != []
    ensures IsMeanThroughput(mean, ms)
  {
    var total := 0.0;
    for i := 0 to |ms|
      invariant total == TotalThroughput(ms[..i])
    {
      assert ms[..i + 1][..i] == ms[..i];
      total := total + ms[i].throughputTps;
    }
    TakeAll(ms);
    mean := total / |ms| as real;
    DivideBack(total, |ms| as real);
  }

  /** The useful share of the time spent; without overhead it is one, even of no time at all. */
  ghost predicate IsEfficiency(e: real, execution: nat, overhead: nat) {
    && e * (execution + overhead) as real == execution as real
    && 0.0 <= e <= 1.0 && (e == 1.0 <==> overhead == 0)
  }

  /** `compute_batch_efficiency` */
  method BatchEfficiency(ms: seq<BatchMetrics>) returns (e: real)
    ensures ms == [] ==> e == 0.0
    ensures ms != [] ==> IsEfficiency(e, Sum(Column(ms, Execution)), Sum(Column(ms, Overhead)))
  {
    if |ms| == 0 {
      return 0.0;
    }
    var execution := Total(ms, Execution);
    var overhead := Total(ms, Overhead);
    if overhead == 0 {
      return 1.0;
    }
    e := Ratio(execution, execution + overhead);
  }

  /** `v` is the percentile at `p`; within the level it leaves at most the batches ranked above it
      in violation, beyond it at least itself and those. */
  ghost predicate IsLevel(latencies: seq<nat>, p: nat, v: nat, sla: nat)
    requires latencies != []
  {
    var n, r := |latencies|, Rank(|latencies|, p);
    && v in latencies && v == Percentile(Sort(latencies), p)
    && if v <= sla then Violations(latencies, sla) <= n - 1 - r else Violations(latencies, sla) >= n - r
  }

  lemma PercentileIsLevel(latencies: seq<nat>, p: nat, sla: nat)
    requires latencies != []
    ensures IsLevel(latencies, p, Percentile(Sort(latencies), p), sla)
  {
    PercentileObserved(latencies, p);
    PercentileBoundsViolations(latencies, p, sla);
  }

  method Percentiles(ms: seq<BatchMetrics>, ghost sla: nat) returns (p50: nat, p95: nat, p99: nat)
    requires ms != []
    ensures var latencies := Column(ms, Latency);
            && IsLevel(latencies, 50, p50, sla) && IsLevel(latencies, 95, p95, sla) && IsLevel(latencies, 99, p99, sla)
            && p50 <= p95 <= p99
  {
    var sorted := SortedLatencies(ms);
    p50, p95, p99 := Percentile(sorted, 50), Percentile(sorted, 95), Percentile(sorted, 99);
    ghost var latencies := Column(ms, Latency);
    PercentilesOrdered(latencies);
    PercentileIsLevel(latencies, 50, sla);
    PercentileIsLevel(latencies, 95, sla);
    PercentileIsLevel(latencies, 99, sla);
  }

  /** `aggregate_metrics`: totals are sums over all batches, averages those totals spread over the
      batches, percentiles observed latencies in order, and the violations the batches over the
      level, few or many according to each percentile. */
  method AggregateMetrics(ms: seq<BatchMetrics>, policyName: string, scenarioName: string, sla: nat) returns (s: SystemMetrics)
    ensures ms == [] ==> s == Nothing(policyName, scenarioName)
    ensures s.policyName == policyName && s.scenarioName == scenarioName
    ensures s.totalBatches == |ms| && s.totalTransactions == Sum(Column(ms, Size))
    ensures s.totalProofSizeBytes == Sum(Column(ms, ProofBytes)) && s.totalComputeUsed == Sum(Column(ms, Compute))
    ensures s.slaViolations == Violations(Column(ms, Latency), sla)
    ensures ms != [] ==>
      && IsRatio(s.avgBatchSize, s.totalTransactions, |ms|)
      && IsRatio(s.avgLatencyMs, Sum(Column(ms, Latency)), |ms|)
      && IsRatio(s.avgProofSizeBytes, s.totalProofSizeBytes, |ms|)
      && IsRatio(s.verificationSuccessRate, Passed(ms), |ms|)
      && IsMeanThroughput(s.avgThroughputTps, ms)
    ensures if s.totalTransactions > 0 then IsRatio(s.amortizedCostPerTx, s.totalProofSizeBytes, s.totalTransactions)
            else s.amortizedCostPerTx == 0.0
    ensures ms != [] ==>
      && IsLevel(Column(ms, Latency), 50, s.p50LatencyMs, sla) && IsLevel(Column(ms, Latency), 95, s.p95LatencyMs, sla)
      && IsLevel(Column(ms, Latency), 99, s.p99LatencyMs, sla) && s.p50LatencyMs <= s.p95LatencyMs <= s.p99LatencyMs
    ensures ms != [] ==> IsEfficiency(s.batchEfficiency, Sum(Column(ms, Execution)), Sum(Column(ms, Overhead)))
  {
    if |ms| == 0 {
      return Nothing(policyName, scenarioName);
    }
    var transactions := Total(ms, Size);
    var latency := Total(ms, Latency);
    var proofs := Total(ms, ProofBytes);
    var compute := Total(ms, Compute);
    var passed, late := CountBatches(ms, sla);
    var avgSize := Ratio(transactions, |ms|);
    var avgLatency := Ratio(latency, |ms|);
    var avgProof := Ratio(proofs, |ms|);
    var rate := Ratio(passed, |ms|);
    var perTx := 0.0;
    if transactions > 0 {
      perTx := Ratio(proofs, transactions);
    }
    var p50, p95, p99 := Percentiles(ms, sla);
    var efficiency := BatchEfficiency(ms);
    var throughput := MeanThroughput(ms);
    s := SystemMetrics(policyName, scenarioName, throughput, transactions, |ms|, avgSize, avgLatency, p50, p95, p99, proofs, avgProof, rate,
                       compute, perTx, efficiency, late);
  }

  // ----- Ranks and measures, spelled out -----

  /** The rank is p percent of the way from the first position to the last, rounded to the nearest
      position, halves upwards. */
  lemma RankIsNearest(n: nat, p: nat)
    requires n > 0 && p <= 100
    ensures Rank(n, p) < n && 100 * Rank(n, p) <= p * (n - 1) + 50 < 100 * Rank(n, p) + 100
    ensures Rank(n, 0) == 0 && Rank(n, 100) == n - 1
  {
    MulMonotone(p, 100, n - 1);
  }

  lemma MiddleOfTwo()
    ensures Rank(2, 50) == 1 && Rank(10, 50) == 5 && Rank(10, 95) == 9 && Rank(11, 95) == 10
  {}

  /** What each measure of a batch is. */
  lemma MeasuresAre(m: BatchMetrics)
    ensures Value(m, Overhead) == m.provingTimeMs + m.verificationTimeMs && Value(m, Execution) == m.executionTimeMs
    ensures Value(m, Size) == m.batchSize && Value(m, Latency) == m.endToEndLatencyMs
    ensures Value(m, Compute) == m.totalComputeUsed && Value(m, ProofBytes) == m.proofSizeBytes
  {}
}
