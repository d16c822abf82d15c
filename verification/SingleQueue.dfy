/** What the batching engine promises, with one queue and no caches: transactions wait in the
    order they came and are sealed all together; the engine's two lanes only show in the order
    inside a batch. */
module SingleQueue {
  import opened Basics
  import opened Machine
  import opened Policies
  import Text

  datatype BatchMetrics = BatchMetrics(
    batchId: string, policyName: string, batchSize: nat, totalComputeUsed: nat, executionTimeMs: nat,
    provingTimeMs: nat, verificationTimeMs: nat, endToEndLatencyMs: nat, proofSizeBytes: nat,
    throughputTps: real, avgTxLatencyMs: real, verificationPassed: bool)

  datatype Measure = Size | Compute | Execution | Overhead | Latency | ProofBytes

  function Value(m: BatchMetrics, c: Measure): nat {
    match c
    case Size => m.batchSize
    case Compute => m.totalComputeUsed
    case Execution => m.executionTimeMs
    case Overhead => m.provingTimeMs + m.verificationTimeMs
    case Latency => m.endToEndLatencyMs
    case ProofBytes => m.proofSizeBytes
  }

  /** One measure of every batch. */
  function Column(ms: seq<BatchMetrics>, c: Measure): (vs: seq<nat>)
    ensures |vs| == |ms| && forall i :: 0 <= i < |ms| ==> vs[i] == Value(ms[i], c)
  {
    seq(|ms|, i requires 0 <= i < |ms| => Value(ms[i], c))
  }

  lemma ColumnNext(ms: seq<BatchMetrics>, m: BatchMetrics, c: Measure)
    ensures Column(ms + [m], c) == Column(ms, c) + [Value(m, c)]
    ensures Sum(Column(ms + [m], c)) == Sum(Column(ms, c)) + Value(m, c)
  {
    assert Column(ms + [m], c) == Column(ms, c) + [Value(m, c)];
    SumSnoc(Column(ms, c), Value(m, c));
  }

  /** How proving and verifying the batch sealed by a call turn out. */
  datatype Env = Env(proves: bool, provingMs: nat, proofSize: nat, verifies: bool, verifyMs: nat, valid: bool)

  /** `compute` is what executing a batch, under its id, costs in total; `startMs` is when the clock
      stands at the beginning. */
  datatype Config = Config(policy: Policy, compute: (string, seq<Transaction>) -> nat, startMs: nat)

  /** `segments` are the sealed stretches of the arrival order, `outcomes` what was recorded
      for each: nothing when proving or verifying failed. */
  datatype Queue = Queue(
    pending: seq<Transaction>, now: nat, lastSeal: nat,
    segments: seq<seq<Transaction>>, outcomes: seq<Option<BatchMetrics>>)

  predicate IsUrgent(tx: Transaction) { tx.priority.High? || tx.priority.Critical? }

  function Select(txs: seq<Transaction>, urgent: bool): seq<Transaction> {
    if txs == [] then []
    else
      var last := txs[|txs| - 1];
      Select(txs[..|txs| - 1], urgent) + if IsUrgent(last) == urgent then [last] else []
  }

  /** The batch made of a segment: urgent transactions first, both kinds in arrival order. */
  function Partition(segment: seq<Transaction>): seq<Transaction> {
    Select(segment, true) + Select(segment, false)
  }

  function BatchId(k: nat): string { "batch_" + Text.Padded(k, Text.Decimal, 6) }

  /** Transactions per second; within no time at all each counts a thousandfold. */
  function Throughput(size: nat, elapsedMs: nat): real {
    if elapsedMs > 0 then size as real / (elapsedMs as real / 1000.0) else size as real * 1000.0
  }

  /** The latency spread over the batch, which is never empty. */
  function PerTransaction(elapsedMs: nat, size: nat): real {
    if size == 0 then 0.0 else elapsedMs as real / size as real
  }

  function MetricsOf(c: Config, batchId: string, size: nat, compute: nat, env: Env): BatchMetrics {
    var elapsed := env.provingMs + env.verifyMs;
    BatchMetrics(batchId, PolicyName(c.policy), size, compute, compute / 1000, env.provingMs, env.verifyMs,
                 elapsed, env.proofSize, Throughput(size, elapsed), PerTransaction(elapsed, size), env.valid)
  }

  function Metrics(c: Config, k: nat, segment: seq<Transaction>, env: Env): BatchMetrics {
    MetricsOf(c, BatchId(k), |segment|, c.compute(BatchId(k), Partition(segment)), env)
  }

  /** Nothing has come and nothing was sealed; the last seal counts as time zero. */
  function Opening(c: Config): Queue { Queue([], c.startMs, 0, [], []) }

  function Arrive(q: Queue, tx: Transaction): Queue {
    q.(pending := q.pending + [tx], now := Max(q.now, tx.arrivalTs))
  }

  /** How long the first pending transaction has waited. */
  function Wait(q: Queue): nat
    requires q.pending != []
  {
    SaturatingSub(q.now, q.pending[0].arrivalTs)
  }

  function ArrivalRate(count: nat, now: nat, lastSeal: nat): real {
    count as real / (Max(SaturatingSub(now, lastSeal), 1) as real / 1000.0)
  }

  predicate Decides(p: Policy, q: Queue) {
    q.pending != [] && ShouldSeal(p, |q.pending|, Wait(q), ArrivalRate(|q.pending|, q.now, q.lastSeal))
  }

  predicate Completes(env: Env) { env.proves && env.verifies }

  function Seal(c: Config, q: Queue, env: Env): Queue {
    var end := q.now + (if env.proves then env.provingMs else 0) + (if Completes(env) then env.verifyMs else 0);
    var k := |q.segments| + 1;
    Queue([], end, if Completes(env) then end else q.lastSeal, q.segments + [q.pending],
          q.outcomes + [if Completes(env) then Some(Metrics(c, k, q.pending, env)) else None])
  }

  function Ingest(c: Config, q: Queue, tx: Transaction, env: Env): Queue {
    var arrived := Arrive(q, tx);
    if Decides(c.policy, arrived) then Seal(c, arrived, env) else arrived
  }

  function Flush(c: Config, q: Queue, env: Env): Queue {
    if q.pending == [] then q else Seal(c, q, env)
  }

  function Recorded(outcomes: seq<Option<BatchMetrics>>): seq<BatchMetrics> {
    if outcomes == [] then []
    else
      Recorded(outcomes[..|outcomes| - 1]) +
        match outcomes[|outcomes| - 1] case Some(m) => [m] case None => []
  }

  function Failures(outcomes: seq<Option<BatchMetrics>>): nat {
    if outcomes == [] then 0
    else Failures(outcomes[..|outcomes| - 1]) + if outcomes[|outcomes| - 1] == None then 1 else 0
  }

  lemma SelectNext(txs: seq<Transaction>, tx: Transaction, urgent: bool)
    ensures Select(txs + [tx], urgent) == Select(txs, urgent) + if IsUrgent(tx) == urgent then [tx] else []
  {
    assert (txs + [tx])[..|txs|] == txs;
  }

  lemma RecordedNext(outcomes: seq<Option<BatchMetrics>>, o: Option<BatchMetrics>)
    ensures Recorded(outcomes + [o]) == Recorded(outcomes) + match o case Some(m) => [m] case None => []
    ensures Failures(outcomes + [o]) == Failures(outcomes) + if o == None then 1 else 0
  {
    assert (outcomes + [o])[..|outcomes|] == outcomes;
  }

  /** What sealing leaves for a representation to restore. */
  lemma SealLeaves(c: Config, q: Queue, env: Env)
    ensures var sealed := Seal(c, q, env);
            && Select(sealed.pending, true) == [] && Select(sealed.pending, false) == []
            && |sealed.segments| == |q.segments| + 1 && |sealed.outcomes| == |q.outcomes| + 1
            && Recorded(sealed.outcomes) == Recorded(q.outcomes)
                 + (if Completes(env) then [Metrics(c, |q.segments| + 1, q.pending, env)] else [])
  {
    RecordedNext(q.outcomes, None);
    RecordedNext(q.outcomes, Some(Metrics(c, |q.segments| + 1, q.pending, env)));
  }

  /** A batch is a rearrangement of its segment. */
  lemma {:induction false} PartitionKeepsAll(segment: seq<Transaction>)
    ensures multiset(Partition(segment)) == multiset(segment)
    ensures |Partition(segment)| == |segment|
  {
    if segment != [] {
      var before, last := segment[..|segment| - 1], segment[|segment| - 1];
      PartitionKeepsAll(before);
      assert segment == before + [last];
    }
  }

  lemma {:induction false} SelectSound(txs: seq<Transaction>, urgent: bool)
    ensures forall tx :: tx in Select(txs, urgent) ==> tx in txs && IsUrgent(tx) == urgent
  {
    if txs != [] {
      SelectSound(txs[..|txs| - 1], urgent);
    }
  }

  // ----- The order inside a batch -----

  /** The positions of one kind in a segment, in order. */
  function Places(segment: seq<Transaction>, urgent: bool): seq<nat> {
    if segment == [] then []
    else
      var n := |segment| - 1;
      Places(segment[..n], urgent) + if IsUrgent(segment[n]) == urgent then [n] else []
  }

  lemma {:induction false} PlacesOf(segment: seq<Transaction>, urgent: bool)
    ensures |Places(segment, urgent)| == |Select(segment, urgent)|
    ensures forall i :: 0 <= i < |Places(segment, urgent)| ==>
              && Places(segment, urgent)[i] < |segment|
              && segment[Places(segment, urgent)[i]] == Select(segment, urgent)[i]
              && IsUrgent(Select(segment, urgent)[i]) == urgent
    ensures forall i, j :: 0 <= i < j < |Places(segment, urgent)| ==> Places(segment, urgent)[i] < Places(segment, urgent)[j]
  {
    if segment != [] {
      PlacesOf(segment[..|segment| - 1], urgent);
    }
  }

  /** What a batch is to its segment: `places` tells where each of its transactions stood. Every one
      stood somewhere else, no High or Critical one stands behind another, and of two of one kind the
      earlier comes first. */
  ghost predicate InOrder(batch: seq<Transaction>, segment: seq<Transaction>, places: seq<nat>) {
    && |places| == |batch| == |segment|
    && (forall i :: 0 <= i < |places| ==> places[i] < |segment| && batch[i] == segment[places[i]])
    && (forall i, j :: 0 <= i < j < |places| ==>
          var first, second := batch[i].priority, batch[j].priority;
          if (first == High || first == Critical) == (second == High || second == Critical) then places[i] < places[j]
          else first == High || first == Critical)
  }

  lemma UrgentMeans(tx: Transaction)
    ensures IsUrgent(tx) <==> tx.priority == High || tx.priority == Critical
  {}

  /** Two lists of places, the one of urgent and the other of ordinary transactions, one behind the other. */
  lemma Merged(segment: seq<Transaction>, p: seq<nat>, q: seq<nat>, a: seq<Transaction>, b: seq<Transaction>)
    requires |p| == |a| && |q| == |b| && |a| + |b| == |segment|
    requires forall i :: 0 <= i < |p| ==> p[i] < |segment| && segment[p[i]] == a[i] && IsUrgent(a[i])
    requires forall i :: 0 <= i < |q| ==> q[i] < |segment| && segment[q[i]] == b[i] && !IsUrgent(b[i])
    requires forall i, j :: 0 <= i < j < |p| ==> p[i] < p[j]
    requires forall i, j :: 0 <= i < j < |q| ==> q[i] < q[j]
    ensures InOrder(a + b, segment, p + q) && Distinct(p + q)
  {
    var places, batch := p + q, a + b;
    forall i, j | 0 <= i < j < |places|
      ensures places[i] != places[j]
      ensures IsUrgent(batch[i]) == IsUrgent(batch[j]) ==> places[i] < places[j]
      ensures IsUrgent(batch[i]) != IsUrgent(batch[j]) ==> IsUrgent(batch[i])
      ensures IsUrgent(batch[i]) <==> batch[i].priority == High || batch[i].priority == Critical
      ensures IsUrgent(batch[j]) <==> batch[j].priority == High || batch[j].priority == Critical
    {
      UrgentMeans(batch[i]);
      UrgentMeans(batch[j]);
    }
  }

  /** Urgent transactions first, both kinds in arrival order. */
  lemma BatchOrder(segment: seq<Transaction>) returns (places: seq<nat>)
    ensures InOrder(Partition(segment), segment, places)
    ensures Distinct(places)
  {
    PartitionKeepsAll(segment);
    PlacesOf(segment, true);
    PlacesOf(segment, false);
    Merged(segment, Places(segment, true), Places(segment, false), Select(segment, true), Select(segment, false));
    places := Places(segment, true) + Places(segment, false);
  }

  // ----- Numbers in the metrics -----

  lemma OverThousand(x: real, e: real)
    requires e > 0.0
    ensures x / (e / 1000.0) * e == 1000.0 * x
  {
    var d := e / 1000.0;
    DivideBack(x, d);
    assert e == 1000.0 * d;
  }

  /** Throughput is per second while time is in milliseconds; latency is spread evenly. */
  lemma RatesAre(size: nat, elapsedMs: nat)
    ensures elapsedMs > 0 ==> Throughput(size, elapsedMs) * elapsedMs as real == 1000.0 * size as real
    ensures elapsedMs == 0 ==> Throughput(size, elapsedMs) == 1000.0 * size as real
    ensures size > 0 ==> PerTransaction(elapsedMs, size) * size as real == elapsedMs as real
  {
    if elapsedMs > 0 {
      OverThousand(size as real, elapsedMs as real);
    }
    if size > 0 {
      DivideBack(elapsedMs as real, size as real);
    }
  }

  /** The arrival rate is per second since the last seal, of at least a millisecond. */
  lemma ArrivalRateIs(count: nat, now: nat, lastSeal: nat)
    ensures now > lastSeal ==> ArrivalRate(count, now, lastSeal) * (now - lastSeal) as real == 1000.0 * count as real
    ensures now <= lastSeal ==> ArrivalRate(count, now, lastSeal) == 1000.0 * count as real
  {
    if now > lastSeal {
      OverThousand(count as real, (now - lastSeal) as real);
    }
  }

  /** What a seal records, and when the clock and the last seal stand afterwards. */
  lemma SealRecords(c: Config, q: Queue, env: Env)
    ensures var s := Seal(c, q, env);
            && s.pending == [] && s.segments == q.segments + [q.pending] && |s.outcomes| == |q.outcomes| + 1
            && s.outcomes[..|q.outcomes|] == q.outcomes
            && (!env.proves ==> s.now == q.now)
            && (env.proves && !env.verifies ==> s.now == q.now + env.provingMs)
            && (!env.proves || !env.verifies ==> s.lastSeal == q.lastSeal && s.outcomes[|q.outcomes|] == None)
            && (env.proves && env.verifies ==>
                  && s.now == s.lastSeal == q.now + env.provingMs + env.verifyMs
                  && s.outcomes[|q.outcomes|].Some? && RecordsSeal(s.outcomes[|q.outcomes|].value, c, q, env))
  {}

  /** `m` is the record of a seal of `q` with these outcomes. */
  predicate RecordsSeal(m: BatchMetrics, c: Config, q: Queue, env: Env) {
    && m.batchId == "batch_" + Text.Padded(|q.segments| + 1, Text.Decimal, 6) && m.policyName == PolicyName(c.policy)
    && m.batchSize == |q.pending| && m.totalComputeUsed == c.compute(m.batchId, Partition(q.pending))
    && m.executionTimeMs == m.totalComputeUsed / 1000
    && m.provingTimeMs == env.provingMs && m.verificationTimeMs == env.verifyMs
    && m.endToEndLatencyMs == env.provingMs + env.verifyMs
    && m.proofSizeBytes == env.proofSize && m.verificationPassed == env.valid
    && m.throughputTps == Throughput(m.batchSize, m.endToEndLatencyMs)
    && m.avgTxLatencyMs == PerTransaction(m.endToEndLatencyMs, m.batchSize)
  }
}
