/** `PipelineEngine`: two lanes, a cached oldest arrival, a clock and a list of metrics, all kept
    in step with the single queue it stands for. */
module Engine {
  import opened Basics
  import opened Merkle
  import opened Machine
  import opened HostExecutor
  import opened Policies
  import opened SingleQueue

  datatype Status = Done | BatchFailed

  class VirtualClock {
    var currentMs: nat

    constructor (startMs: nat)
      ensures currentMs == startMs
    {
      currentMs := startMs;
    }

    method Advance(ms: nat)
      modifies this
      ensures currentMs == old(currentMs) + ms
    {
      currentMs := currentMs + ms;
    }
  }

  class MetricsAggregator {
    var batchMetrics: seq<BatchMetrics>

    constructor ()
      ensures batchMetrics == []
    {
      batchMetrics := [];
    }

    method Record(m: BatchMetrics)
      modifies this
      ensures batchMetrics == old(batchMetrics) + [m]
    {
      batchMetrics := batchMetrics + [m];
    }
  }

  /** The arrival of the first transaction left in the queue, else in the lane, else `current`. */
  function NextArrival(queue: seq<Transaction>, lane: seq<Transaction>, current: u64): u64 {
    if queue != [] then queue[0].arrivalTs else if lane != [] then lane[0].arrivalTs else current
  }

  /** The values of the engine's fields, its clock and its metrics. */
  datatype Fields = Fields(
    priorityLane: seq<Transaction>, queue: seq<Transaction>, batchCounter: nat, oldestArrival: u64,
    lastSealTime: nat, now: nat, batchMetrics: seq<BatchMetrics>)

  /** They stand for the single queue `q`. */
  ghost predicate Represents(q: Queue, f: Fields) {
    && f.priorityLane == Select(q.pending, true) && f.queue == Select(q.pending, false)
    && f.batchCounter == |q.segments| == |q.outcomes|
    && f.lastSealTime == q.lastSeal && f.now == q.now
    && f.batchMetrics == Recorded(q.outcomes)
    && (q.pending != [] ==> f.oldestArrival == q.pending[0].arrivalTs)
  }

  /** What an arrival does to the fields. */
  function Arrived(f: Fields, tx: Transaction): Fields {
    var oldest := if f.queue == [] && f.priorityLane == [] then tx.arrivalTs else f.oldestArrival;
    var g := f.(oldestArrival := oldest, now := Max(f.now, tx.arrivalTs));
    if IsUrgent(tx) then g.(priorityLane := f.priorityLane + [tx]) else g.(queue := f.queue + [tx])
  }

  lemma ArrivalRepresented(q: Queue, f: Fields, tx: Transaction)
    requires Represents(q, f)
    ensures Represents(Arrive(q, tx), Arrived(f, tx))
  {
    PendingIsSplit(q.pending);
    SelectNext(q.pending, tx, true);
    SelectNext(q.pending, tx, false);
  }

  /** What a seal does to them; the cached arrival of an empty engine means nothing. */
  function Sealed(c: Config, f: Fields, q: Queue, env: Env, oldest: u64): Fields {
    var end := Seal(c, q, env).now;
    Fields([], [], f.batchCounter + 1, oldest, if Completes(env) then end else f.lastSealTime, end,
           f.batchMetrics + if Completes(env) then [Metrics(c, f.batchCounter + 1, q.pending, env)] else [])
  }

  lemma SealRepresented(c: Config, q: Queue, f: Fields, env: Env, oldest: u64)
    requires Represents(q, f)
    ensures Represents(Seal(c, q, env), Sealed(c, f, q, env, oldest))
  {
    SealLeaves(c, q, env);
  }

  class PipelineEngine {
    const policy: Policy
    const H: HashFn
    const executor: FullExecutor
    const clock: VirtualClock
    const metrics: MetricsAggregator

    var queue: seq<Transaction>
    var priorityLane: seq<Transaction>
    var batchCounter: nat
    var oldestArrival: u64
    var lastSealTime: nat

    /** The single queue this engine stands for. */
    ghost var model: Queue

    ghost const settings: Config

    /** The engine's policy decides, and its executor's total compute is what batches cost. */
    ghost predicate Configured() {
      && executor.inner.failOnInvalid && settings.policy == policy
      && forall id, txs {:trigger HostTrace(H, executor.inner.maxCuPerTx, id, txs)} ::
           settings.compute(id, txs) == HostTrace(H, executor.inner.maxCuPerTx, id, txs).totalCompute
    }

    ghost function State(): Fields
      reads this, clock, metrics
    {
      Fields(priorityLane, queue, batchCounter, oldestArrival, lastSealTime, clock.currentMs, metrics.batchMetrics)
    }

    ghost predicate Valid()
      reads this, clock, metrics
    {
      Configured() && Represents(model, State())
    }

    constructor (policy: Policy, H: HashFn, maxCuPerTx: u64, clock: VirtualClock)
      ensures Valid() && model == Opening(settings) && settings.startMs == clock.currentMs
      ensures batchCounter == 0 && lastSealTime == 0 && queue == [] && priorityLane == [] && metrics.batchMetrics == []
      ensures this.clock == clock && fresh(metrics)
      ensures settings.policy == this.policy == policy && this.H == H && executor.inner.maxCuPerTx == maxCuPerTx
    {
      this.policy, this.H, this.clock := policy, H, clock;
      var ex := new FullExecutor(maxCuPerTx);
      executor := ex;
      settings := Config(policy, (id: string, txs: seq<Transaction>) => HostTrace(H, ex.inner.maxCuPerTx, id, txs).totalCompute,
                         clock.currentMs);
      metrics := new MetricsAggregator();
      queue, priorityLane := [], [];
      batchCounter, oldestArrival, lastSealTime := 0, 0, 0;
      model := Queue([], clock.currentMs, 0, [], []);
    }

    method Ingest(tx: Transaction, env: Env) returns (status: Status)
      requires Valid()
      modifies this, clock, metrics
      ensures Valid() && model == SingleQueue.Ingest(settings, old(model), tx, env)
      ensures status == BatchFailed <==> Decides(policy, Arrive(old(model), tx)) && !Completes(env)
    {
      Enqueue(tx);
      status := TrySeal(env);
    }

    /** The first half of `ingest`: note the arrival, advance the clock, pick a lane. */
    method Enqueue(tx: Transaction)
      requires Valid()
      modifies this, clock, metrics
      ensures Valid() && model == Arrive(old(model), tx)
    {
      ghost var before := State();
      ArrivalRepresented(model, before, tx);
      if |queue| == 0 && |priorityLane| == 0 {
        oldestArrival := tx.arrivalTs;
      }
      if tx.arrivalTs > clock.currentMs {
        clock.Advance(tx.arrivalTs - clock.currentMs);
      }
      if IsUrgent(tx) {
        priorityLane := priorityLane + [tx];
      } else {
        queue := queue + [tx];
      }
      model := Arrive(model, tx);
      assert State() == Arrived(before, tx);
    }

    method TrySeal(env: Env) returns (status: Status)
      requires Valid()
      modifies this, clock, metrics
      ensures Valid()
      ensures model == if Decides(policy, old(model)) then Seal(settings, old(model), env) else old(model)
      ensures status == BatchFailed <==> Decides(policy, old(model)) && !Completes(env)
    {
      PendingIsSplit(model.pending);
      var total := |queue| + |priorityLane|;
      if total == 0 {
        return Done;
      }
      var wait := SaturatingSub(clock.currentMs, oldestArrival);
      var rate := ArrivalRate(total, clock.currentMs, lastSealTime);
      if ShouldSeal(policy, total, wait, rate) {
        status := SealAndProcess(env);
      } else {
        status := Done;
      }
    }

    method SealAndProcess(env: Env) returns (status: Status)
      requires Valid()
      modifies this, clock, metrics
      ensures Valid() && queue == priorityLane == []
      ensures model == SingleQueue.Flush(settings, old(model), env)
      ensures status == BatchFailed <==> old(model).pending != [] && !Completes(env)
    {
      PendingIsSplit(model.pending);
      var transactions := priorityLane + queue;
      if |transactions| == 0 {
        return Done;
      }
      ghost var before, sealed := State(), model;
      priorityLane, queue := [], [];
      batchCounter := batchCounter + 1;
      status := Process(BatchId(batchCounter), transactions, env, Metrics(settings, batchCounter, sealed.pending, env));
      if status == Done {
        lastSealTime := clock.currentMs;
        oldestArrival := NextArrival(queue, priorityLane, oldestArrival);
      }
      model := Seal(settings, sealed, env);
      SealRepresented(settings, sealed, before, env, oldestArrival);
      assert State() == Sealed(settings, before, sealed, env, oldestArrival);
    }

    method Execute(batchId: string, transactions: seq<Transaction>) returns (compute: nat)
      requires Configured()
      ensures compute == settings.compute(batchId, transactions)
    {
      var trace := executor.ExecuteWithTransactions(H, batchId, transactions);
      compute := trace.totalCompute;
    }

    /** Execute, prove, verify and, when nothing failed, record the batch. */
    method Process(batchId: string, transactions: seq<Transaction>, env: Env, ghost recorded: BatchMetrics)
      returns (status: Status)
      requires Configured()
      requires recorded == MetricsOf(settings, batchId, |transactions|, settings.compute(batchId, transactions), env)
      modifies clock, metrics
      ensures status == Done <==> Completes(env)
      ensures clock.currentMs == old(clock.currentMs) + (if env.proves then env.provingMs else 0)
                               + (if Completes(env) then env.verifyMs else 0)
      ensures metrics.batchMetrics == old(metrics.batchMetrics) + if Completes(env) then [recorded] else []
    {
      var start := clock.currentMs;
      var compute := Execute(batchId, transactions);
      if !env.proves {
        return BatchFailed;
      }
      clock.Advance(env.provingMs);
      if !env.verifies {
        return BatchFailed;
      }
      clock.Advance(env.verifyMs);
      var elapsed := SaturatingSub(clock.currentMs, start);
      metrics.Record(BatchMetrics(batchId, PolicyName(policy), |transactions|, compute, compute / 1000,
                                  env.provingMs, env.verifyMs, elapsed, env.proofSize,
                                  Throughput(|transactions|, elapsed), PerTransaction(elapsed, |transactions|), env.valid));
      status := Done;
    }

    method Flush(env: Env) returns (status: Status)
      requires Valid()
      modifies this, clock, metrics
      ensures Valid() && model == SingleQueue.Flush(settings, old(model), env)
      ensures status == BatchFailed <==> old(model).pending != [] && !Completes(env)
    {
      PendingIsSplit(model.pending);
      while |queue| > 0 || |priorityLane| > 0
        invariant Valid()
        invariant model == old(model) || (model == SingleQueue.Flush(settings, old(model), env) && model.pending == [])
        invariant model == old(model) || Completes(env)
        decreases |queue| + |priorityLane|
      {
        PendingIsSplit(model.pending);
        var s := SealAndProcess(env);
        if s == BatchFailed {
          return BatchFailed;
        }
      }
      PendingIsSplit(model.pending);
      status := Done;
    }
  }

  lemma PendingIsSplit(pending: seq<Transaction>)
    ensures |Select(pending, true)| + |Select(pending, false)| == |pending|
  {
    PartitionKeepsAll(pending);
  }
}
