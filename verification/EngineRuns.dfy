/** Laws of whole runs of the batching engine, proved of the single queue it refines. */
module EngineRuns {
  import opened Basics
  import opened Machine
  import opened Policies
  import opened SingleQueue
  import AdaptiveControl
  import AutoControl

  /** One call of `ingest`, with what proving and verifying do if it seals. */
  datatype Input = Input(tx: Transaction, env: Env)

  function Run(c: Config, inputs: seq<Input>): Queue {
    if inputs == [] then Opening(c)
    else
      var last := inputs[|inputs| - 1];
      Ingest(c, Run(c, inputs[..|inputs| - 1]), last.tx, last.env)
  }

  function Txs(inputs: seq<Input>): (txs: seq<Transaction>)
    ensures |txs| == |inputs| && forall i :: 0 <= i < |txs| ==> txs[i] == inputs[i].tx
  {
    seq(|inputs|, i requires 0 <= i < |inputs| => inputs[i].tx)
  }

  lemma TxsNext(inputs: seq<Input>)
    requires inputs != []
    ensures Txs(inputs) == Txs(inputs[..|inputs| - 1]) + [inputs[|inputs| - 1].tx]
  {}

  // ----- Nothing is lost, duplicated or reordered -----

  /** The sealed segments, in order, followed by what is pending. */
  function Stream(q: Queue): seq<Transaction> { Flatten(q.segments) + q.pending }

  lemma SealKeepsStream(c: Config, q: Queue, env: Env)
    ensures Stream(Seal(c, q, env)) == Stream(q)
  {
    FlattenSnoc(q.segments, q.pending);
  }

  lemma IngestExtendsStream(c: Config, q: Queue, tx: Transaction, env: Env)
    ensures Stream(Ingest(c, q, tx, env)) == Stream(q) + [tx]
  {
    SealKeepsStream(c, Arrive(q, tx), env);
    assert Stream(Arrive(q, tx)) == Stream(q) + [tx];
  }

  /** After any run, failed seals included, the segments are consecutive stretches of the
      arrival order, and one outcome stands for each. */
  lemma {:induction false} SegmentsCoverArrivals(c: Config, inputs: seq<Input>)
    ensures Stream(Run(c, inputs)) == Txs(inputs)
    ensures |Run(c, inputs).outcomes| == |Run(c, inputs).segments|
  {
    if inputs != [] {
      var n := |inputs| - 1;
      SegmentsCoverArrivals(c, inputs[..n]);
      IngestExtendsStream(c, Run(c, inputs[..n]), inputs[n].tx, inputs[n].env);
      TxsNext(inputs);
    }
  }

  function Batches(segments: seq<seq<Transaction>>): (bs: seq<seq<Transaction>>)
    ensures |bs| == |segments| && forall i :: 0 <= i < |bs| ==> bs[i] == Partition(segments[i])
  {
    seq(|segments|, i requires 0 <= i < |segments| => Partition(segments[i]))
  }

  lemma {:induction false} BatchesKeepAll(segments: seq<seq<Transaction>>)
    ensures multiset(Flatten(Batches(segments))) == multiset(Flatten(segments))
  {
    if segments != [] {
      var n := |segments| - 1;
      BatchesKeepAll(segments[..n]);
      assert Batches(segments)[..n] == Batches(segments[..n]);
      PartitionKeepsAll(segments[n]);
    }
  }

  /** After `flush` every transaction is in exactly one segment, and the batches handed to the
      executor hold each transaction as often as it was ingested. */
  lemma FlushedCompletely(c: Config, inputs: seq<Input>, env: Env)
    ensures var q := Flush(c, Run(c, inputs), env);
            && q.pending == [] && Flatten(q.segments) == Txs(inputs)
            && multiset(Flatten(Batches(q.segments))) == multiset(Txs(inputs))
  {
    var q := Run(c, inputs);
    SegmentsCoverArrivals(c, inputs);
    SealKeepsStream(c, q, env);
    BatchesKeepAll(Flush(c, q, env).segments);
  }

  // ----- What the metrics say -----

  /** Outcome `i` is nothing, or the metrics of batch `i + 1` as sealed. */
  ghost predicate OutcomeFits(c: Config, q: Queue, i: nat)
    requires i < |q.outcomes| == |q.segments|
  {
    match q.outcomes[i]
    case None => true
    case Some(m) =>
      && m.batchId == BatchId(i + 1) && m.batchSize == |q.segments[i]|
      && m.totalComputeUsed == c.compute(m.batchId, Partition(q.segments[i]))
  }

  lemma {:induction false} OutcomesFit(c: Config, inputs: seq<Input>)
    ensures var q := Run(c, inputs);
            |q.outcomes| == |q.segments| && forall i :: 0 <= i < |q.outcomes| ==> OutcomeFits(c, q, i)
  {
    if inputs != [] {
      var n := |inputs| - 1;
      OutcomesFit(c, inputs[..n]);
      var before, q := Run(c, inputs[..n]), Run(c, inputs);
      forall i | 0 <= i < |q.outcomes| ensures OutcomeFits(c, q, i) {
        if i < |before.outcomes| {
          assert OutcomeFits(c, before, i);
        }
      }
    }
  }

  /** `transaction_count` */
  function TotalSize(ms: seq<BatchMetrics>): nat { Sum(Column(ms, Size)) }

  /** The batch counter exceeds the recorded batches by the number of failed seals; without a
      failure the recorded sizes add up to everything sealed. */
  lemma {:induction false} CountersAgree(segments: seq<seq<Transaction>>, outcomes: seq<Option<BatchMetrics>>)
    requires |segments| == |outcomes|
    requires forall i :: 0 <= i < |outcomes| && outcomes[i].Some? ==> outcomes[i].value.batchSize == |segments[i]|
    ensures |segments| == |Recorded(outcomes)| + Failures(outcomes)
    ensures Failures(outcomes) == 0 ==> TotalSize(Recorded(outcomes)) == |Flatten(segments)|
  {
    if outcomes != [] {
      var n := |outcomes| - 1;
      CountersAgree(segments[..n], outcomes[..n]);
      FlattenSnoc(segments[..n], segments[n]);
      assert segments == segments[..n] + [segments[n]];
      match outcomes[n]
      case None =>
        assert Recorded(outcomes) == Recorded(outcomes[..n]);
      case Some(m) =>
        assert Recorded(outcomes) == Recorded(outcomes[..n]) + [m];
        ColumnNext(Recorded(outcomes[..n]), m, Size);
    }
  }

  lemma FlushFits(c: Config, q: Queue, env: Env)
    requires |q.outcomes| == |q.segments| && forall i :: 0 <= i < |q.outcomes| ==> OutcomeFits(c, q, i)
    ensures var f := Flush(c, q, env);
            |f.outcomes| == |f.segments| && forall i :: 0 <= i < |f.outcomes| ==> OutcomeFits(c, f, i)
  {
    var f := Flush(c, q, env);
    forall i | 0 <= i < |f.outcomes| ensures OutcomeFits(c, f, i) {
      if i < |q.outcomes| {
        assert OutcomeFits(c, q, i);
      }
    }
  }

  /** After `flush`: one counter step per seal, failed or not, and without failures the metrics
      count every ingested transaction. */
  lemma MetricsCountAll(c: Config, inputs: seq<Input>, env: Env)
    ensures var q := Flush(c, Run(c, inputs), env);
            && |q.segments| == |Recorded(q.outcomes)| + Failures(q.outcomes)
            && (Failures(q.outcomes) == 0 ==> TotalSize(Recorded(q.outcomes)) == |inputs|)
  {
    var q := Flush(c, Run(c, inputs), env);
    OutcomesFit(c, inputs);
    FlushFits(c, Run(c, inputs), env);
    forall i | 0 <= i < |q.outcomes| && q.outcomes[i].Some?
      ensures q.outcomes[i].value.batchSize == |q.segments[i]|
    {
      assert OutcomeFits(c, q, i);
    }
    CountersAgree(q.segments, q.outcomes);
    FlushedCompletely(c, inputs, env);
  }

  // ----- How long a queue and a wait can get -----

  /** After every ingest, successful or not, the queue is empty or the policy has just declined it. */
  lemma EmptyOrDeclined(c: Config, inputs: seq<Input>)
    ensures Run(c, inputs).pending == [] || !Decides(c.policy, Run(c, inputs))
  {}

  /** A policy with a count limit `t` seals no more than `t` transactions at a time (one at a
      time for `t == 0`), and leaves fewer than that pending. */
  lemma {:induction false} BatchesBounded(c: Config, inputs: seq<Input>, t: nat)
    requires CountLimit(c.policy) == Some(t)
    ensures forall s :: s in Run(c, inputs).segments ==> 1 <= |s| <= Max(t, 1)
    ensures |Run(c, inputs).pending| < Max(t, 1)
  {
    if inputs != [] {
      var n := |inputs| - 1;
      BatchesBounded(c, inputs[..n], t);
      var q := Run(c, inputs);
      if q.pending != [] {
        EmptyOrDeclined(c, inputs);
        DeclinedIsSmall(c.policy, |q.pending|, Wait(q), ArrivalRate(|q.pending|, q.now, q.lastSeal));
      }
    }
  }

  ghost predicate Full(q: Queue, d: nat, n: nat) {
    (forall s :: s in q.segments ==> |s| == d) && |q.segments| * d + |q.pending| == n && |q.pending| < d
  }

  lemma FullNext(c: Config, q: Queue, d: nat, n: nat, tx: Transaction, env: Env)
    requires Full(q, d, n) && (c.policy == FixedCount(d) || (d == 1 && c.policy == FixedCount(0)))
    ensures Full(Ingest(c, q, tx, env), d, n + 1)
  {
    var next := Ingest(c, q, tx, env);
    if |next.segments| > |q.segments| {
      assert (|q.segments| + 1) * d == |q.segments| * d + d;
    }
  }

  /** Batches sealed under the adaptive policy never exceed its maximum. */
  lemma AdaptiveBatches(c: Config, inputs: seq<Input>, s: AdaptiveState)
    requires c.policy == Adaptive(s) && s.minCount == 1 && s.maxCount >= 1
    ensures forall b :: b in Run(c, inputs).segments ==> 1 <= |b| <= s.maxCount
  {
    BatchesBounded(c, inputs, Threshold(s));
    AdaptiveControl.ThresholdInRange(s);
  }

  /** What the policy of an auto state decides by. */
  function AutoPolicyOf(l: AutoControl.Limits, s: AutoControl.AutoState): Policy {
    Auto(AutoLimits(l.minBatch, l.maxBatch, l.maxLatencyMs, s.threshold, s.timeLimitMs))
  }

  /** Whatever arrivals and growth the auto policy has seen, batches sealed in the state it reached are
      no larger than midway between its limits. */
  lemma AutoBatches(c: Config, inputs: seq<Input>, l: AutoControl.Limits, events: seq<AutoControl.Event>)
    requires c.policy == AutoPolicyOf(l, AutoControl.Run(l, events)) && l.minBatch <= l.maxBatch
    ensures forall b :: b in Run(c, inputs).segments ==> 1 <= |b| <= Max((l.minBatch + l.maxBatch) / 2, 1)
  {
    AutoControl.NeverHighLoad(l, events);
    BatchesBounded(c, inputs, AutoControl.Run(l, events).threshold);
  }

  /** Under the fixed-count policy batches are full: every seal takes exactly `t`. */
  lemma {:induction false} FixedCountFills(c: Config, inputs: seq<Input>, t: nat)
    requires c.policy == FixedCount(t)
    ensures Full(Run(c, inputs), Max(t, 1), |inputs|)
  {
    if inputs != [] {
      var n := |inputs| - 1;
      FixedCountFills(c, inputs[..n], t);
      FullNext(c, Run(c, inputs[..n]), Max(t, 1), n, inputs[n].tx, inputs[n].env);
    }
  }

  function CeilDiv(n: nat, d: nat): nat
    requires d > 0
  {
    (n + d - 1) / d
  }

  lemma CeilDivIs(n: nat, d: nat, full: nat, rest: nat)
    requires d > 0 && n == full * d + rest && rest < d
    ensures CeilDiv(n, d) == full + (if rest == 0 then 0 else 1)
  {
    var k := full + (if rest == 0 then 0 else 1);
    assert k * d <= n + d - 1 < (k + 1) * d;
    QuotientIs(n + d - 1, d, k);
  }

  lemma QuotientIs(x: nat, d: nat, k: nat)
    requires d > 0 && k * d <= x < (k + 1) * d
    ensures x / d == k
  {
    var q := x / d;
    assert q * d <= x < (q + 1) * d;
    if q < k {
      MulMonotone(q + 1, k, d);
    } else if k < q {
      MulMonotone(k + 1, q, d);
    }
  }

  /** Fixed count over `n` transactions: exactly ceil(n / t) batches after `flush`. */
  lemma FixedCountBatches(c: Config, inputs: seq<Input>, env: Env, t: nat)
    requires c.policy == FixedCount(t) && t >= 1
    ensures |Flush(c, Run(c, inputs), env).segments| == CeilDiv(|inputs|, t)
  {
    FixedCountFills(c, inputs, t);
    var q := Run(c, inputs);
    CeilDivIs(|inputs|, t, |q.segments|, |q.pending|);
  }

  /** The clock never falls behind a pending transaction. */
  lemma {:induction false} ClockCoversPending(c: Config, inputs: seq<Input>)
    ensures forall tx :: tx in Run(c, inputs).pending ==> tx.arrivalTs <= Run(c, inputs).now
  {
    if inputs != [] {
      ClockCoversPending(c, inputs[..|inputs| - 1]);
    }
  }

  ghost predicate Monotone(inputs: seq<Input>) {
    forall i, j :: 0 <= i < j < |inputs| ==> inputs[i].tx.arrivalTs <= inputs[j].tx.arrivalTs
  }

  /** With arrivals in time order, the first pending arrival, which the engine caches, is the oldest. */
  lemma FirstIsOldest(c: Config, inputs: seq<Input>, k: nat)
    requires Monotone(inputs) && k < |Run(c, inputs).pending|
    ensures Run(c, inputs).pending[0].arrivalTs <= Run(c, inputs).pending[k].arrivalTs
  {
    var q := Run(c, inputs);
    SegmentsCoverArrivals(c, inputs);
    var base := |Flatten(q.segments)|;
    assert q.pending[0] == Txs(inputs)[base] && q.pending[k] == Txs(inputs)[base + k];
  }

  /** How late a seal by time can be. Beyond the limit plus this ingest's clock advance, the
      oldest wait is possible in exactly one way: the queue was empty and the transaction itself
      arrived with a timestamp that far behind the clock. */
  lemma WaitAtSeal(c: Config, inputs: seq<Input>, tx: Transaction, limit: nat)
    requires TimeLimit(c.policy) == Some(limit)
    ensures var q, a := Run(c, inputs), Arrive(Run(c, inputs), tx);
            Wait(a) >= limit + (a.now - q.now) <==> q.pending == [] && tx.arrivalTs + limit <= q.now
  {
    var q := Run(c, inputs);
    if q.pending != [] {
      EmptyOrDeclined(c, inputs);
      DeclinedIsSmall(c.policy, |q.pending|, Wait(q), ArrivalRate(|q.pending|, q.now, q.lastSeal));
      ClockCoversPending(c, inputs);
      assert q.pending[0] in q.pending;
    }
  }

  /** Such late transactions exist: proving one batch moves the clock past the next arrival, and
      a fixed-time policy of 10 ms then seals at a wait of 999 ms without any clock advance. */
  lemma LateArrival(a: Transaction, b: Transaction, late: Transaction, compute: (string, seq<Transaction>) -> nat)
    requires a.arrivalTs == 0 && b.arrivalTs == 10 && late.arrivalTs == 11
    ensures var c, env := Config(FixedTime(10), compute, 0), Env(true, 1000, 0, true, 0, true);
            var q := Run(c, [Input(a, env), Input(b, env)]);
            && q.pending == [] && Wait(Arrive(q, late)) == 999 && Arrive(q, late).now == q.now
            && Decides(c.policy, Arrive(q, late))
  {
    var c, env := Config(FixedTime(10), compute, 0), Env(true, 1000, 0, true, 0, true);
    var inputs := [Input(a, env), Input(b, env)];
    assert inputs[..1] == [Input(a, env)] && inputs[..1][..0] == [];
    assert Run(c, inputs[..1]) == Arrive(Opening(c), a);
  }

  // ----- Why batches were sealed -----

  /** The queue after an arrival is full, overdue or rushed. */
  predicate HasReason(p: Policy, q: Queue) {
    q.pending != []
    && (IsFull(p, |q.pending|) || IsOverdue(p, Wait(q)) || IsRushed(p, |q.pending|, ArrivalRate(|q.pending|, q.now, q.lastSeal)))
  }

  lemma DecidesForReason(p: Policy, q: Queue)
    ensures Decides(p, q) <==> HasReason(p, q)
  {
    if q.pending != [] {
      SealsExactly(p, |q.pending|, Wait(q), ArrivalRate(|q.pending|, q.now, q.lastSeal));
    }
  }

  function RunBefore(c: Config, inputs: seq<Input>, n: nat): Queue
    requires n <= |inputs|
  {
    Run(c, inputs[..n])
  }

  /** An ingest seals if and only if there is a reason, and then it seals everything. */
  lemma SealsForReason(c: Config, inputs: seq<Input>, n: nat)
    requires n < |inputs|
    ensures var arrived, after := Arrive(RunBefore(c, inputs, n), inputs[n].tx), RunBefore(c, inputs, n + 1);
            after.segments == arrived.segments + (if HasReason(c.policy, arrived) then [arrived.pending] else [])
  {
    assert inputs[..n + 1][..n] == inputs[..n];
    DecidesForReason(c.policy, Arrive(RunBefore(c, inputs, n), inputs[n].tx));
  }

  /** `segment` was all there was, with reason, when input `n` had arrived. */
  predicate SealedAt(c: Config, inputs: seq<Input>, n: nat, segment: seq<Transaction>)
    requires n < |inputs|
  {
    var arrived := Arrive(RunBefore(c, inputs, n), inputs[n].tx);
    HasReason(c.policy, arrived) && segment == arrived.pending
  }

  ghost predicate HadReason(c: Config, inputs: seq<Input>, segment: seq<Transaction>) {
    exists n :: 0 <= n < |inputs| && SealedAt(c, inputs, n, segment)
  }

  lemma StillHadReason(c: Config, inputs: seq<Input>, segment: seq<Transaction>)
    requires inputs != [] && HadReason(c, inputs[..|inputs| - 1], segment)
    ensures HadReason(c, inputs, segment)
  {
    var before := inputs[..|inputs| - 1];
    var n :| 0 <= n < |before| && SealedAt(c, before, n, segment);
    assert before[..n] == inputs[..n] && before[n] == inputs[n];
    assert SealedAt(c, inputs, n, segment);
  }

  /** Every segment of every run was sealed for a reason: full, overdue or rushed at that moment. */
  lemma {:induction false} SegmentsHadReason(c: Config, inputs: seq<Input>, j: nat)
    requires j < |Run(c, inputs).segments|
    ensures HadReason(c, inputs, Run(c, inputs).segments[j])
  {
    if inputs != [] {
      var n := |inputs| - 1;
      var before := Run(c, inputs[..n]);
      TakeAll(inputs);
      SealsForReason(c, inputs, n);
      if j < |before.segments| {
        SegmentsHadReason(c, inputs[..n], j);
        StillHadReason(c, inputs, before.segments[j]);
      } else {
        assert SealedAt(c, inputs, n, Run(c, inputs).segments[j]);
      }
    }
  }
}
