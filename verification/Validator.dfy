/** The validator's shared state and its three atomic sections, refining the protocol; and what
    the protocol's laws say of real execution and proving. */
module Validator {
  import opened Basics
  import opened Merkle
  import opened StateCommitment
  import opened Machine
  import opened OrderedMap
  import opened HostExecutor
  import opened Guest
  import opened Replay
  import opened Pipeline
  import opened TraceBinding
  import opened Verification
  import Text
  import opened Policies
  import opened SingleQueue
  import opened ValidatorProtocol

  const MAX_CU_PER_TX: u64 := 200_000

  ghost function RecordOf(H: HashFn, k: nat, batch: seq<Transaction>): BatchProof {
    var t := HostTrace(H, MAX_CU_PER_TX, BatchId(k), batch);
    BatchProof(BatchId(k), t.stateRootPre, t.stateRootPost, |batch|)
  }

  /** Executing and proving batch number `k`: a record when the guest accepts the trace. */
  ghost function Proving(H: HashFn, k: nat, batch: seq<Transaction>): Option<BatchProof> {
    if ProofOf(H, HostTrace(H, MAX_CU_PER_TX, BatchId(k), batch), batch).Success? then Some(RecordOf(H, k, batch))
    else None
  }

  class Validator {
    const policy: Policy
    const batchSize: nat
    const H: HashFn
    const executor: FullExecutor

    var pendingTxs: seq<Transaction>
    var proofs: seq<ProofRecord>
    var txCounter: nat
    var batchCounter: nat

    ghost const settings: Settings
    ghost var model: System

    /** The protocol's proving step is this validator's executor and prover. */
    ghost predicate Configured() {
      && executor.inner.failOnInvalid && executor.inner.maxCuPerTx == MAX_CU_PER_TX
      && settings.policy == policy && settings.batchSize == batchSize
      && forall k, batch {:trigger Proving(H, k, batch)} :: settings.prove(k, batch) == Proving(H, k, batch)
    }

    ghost predicate Valid()
      reads this
    {
      && Configured()
      && pendingTxs == model.pending && proofs == model.proofs
      && txCounter == |model.submitted| && batchCounter == |model.sealed|
    }

    constructor (policy: Policy, batchSize: nat, H: HashFn)
      ensures Valid() && model == START
      ensures pendingTxs == [] && proofs == [] && txCounter == 0 && batchCounter == 0
      ensures this.policy == policy && this.batchSize == batchSize && this.H == H
    {
      this.policy, this.batchSize, this.H := policy, batchSize, H;
      executor := new FullExecutor(MAX_CU_PER_TX);
      settings := Settings(policy, batchSize, (k: nat, batch: seq<Transaction>) => Proving(H, k, batch));
      pendingTxs, proofs, txCounter, batchCounter := [], [], 0, 0;
      model := START;
    }

    method SubmitTransaction(request: Request, nowMs: u64) returns (txId: string)
      requires Valid()
      modifies this
      ensures Valid() && model == Next(settings, old(model), Submit(request, nowMs))
      ensures txId == TxId(|model.submitted|)
    {
      txCounter := txCounter + 1;
      txId := TxId(txCounter);
      var tx := Submitted(txCounter, request, nowMs);
      pendingTxs := pendingTxs + [tx];
      model := Next(settings, model, Submit(request, nowMs));
    }

    /** The part of `check_and_seal_batch` under the lock: what it hands on to processing. */
    method CheckAndSealBatch(nowMs: u64) returns (batch: Option<(string, seq<Transaction>)>)
      requires Valid()
      modifies this
      ensures Valid() && model == Next(settings, old(model), CheckAndSeal(nowMs))
      ensures batch.Some? <==> |model.sealed| == |old(model).sealed| + 1
      ensures batch.Some? ==> batch.value == (BatchId(|model.sealed|), model.sealed[|model.sealed| - 1])
      ensures batch.Some? ==> batch.value.1 + pendingTxs == old(pendingTxs) && |batch.value.1| <= batchSize
      ensures batch.Some? ==> |batch.value.1| == batchSize || pendingTxs == []
      ensures batch == None ==> pendingTxs == old(pendingTxs)
    {
      if |pendingTxs| == 0 {
        return None;
      }
      var queueLen := |pendingTxs|;
      var oldestWait := SaturatingSub(nowMs, pendingTxs[0].arrivalTs);
      if !ShouldSeal(policy, queueLen, oldestWait, 0.0) {
        return None;
      }
      batchCounter := batchCounter + 1;
      var n := Min(queueLen, batchSize);
      var txs := pendingTxs[..n];
      pendingTxs := pendingTxs[n..];
      model := Next(settings, model, CheckAndSeal(nowMs));
      batch := Some((BatchId(batchCounter), txs));
    }

    /** Execution and proving, outside the lock: nothing shared is read or written. */
    method ExecuteAndProve(ghost k: nat, batchId: string, txs: seq<Transaction>) returns (proved: Option<BatchProof>)
      requires Configured() && batchId == BatchId(k)
      ensures proved == settings.prove(k, txs)
    {
      var trace := executor.ExecuteWithTransactions(H, batchId, txs);
      var proof := Prove(H, trace, txs);
      match proof {
        case Failure(_) => proved := None;
        case Success(p) =>
          proved := Some(BatchProof(batchId, p.commitment.stateRootPre, p.commitment.stateRootPost, p.commitment.txCount));
      }
      assert proved == Proving(H, k, txs);
    }

    /** The last lock of `process_batch`: what was proved and saved is recorded. */
    method ProcessBatch(ghost j: nat, batchId: string, txs: seq<Transaction>, saved: Option<Artifact>)
      requires Valid() && j < |model.sealed| && j !in model.finished
      requires batchId == BatchId(j + 1) && txs == model.sealed[j]
      modifies this
      ensures Valid() && model == Next(settings, old(model), Finish(j, saved))
      ensures var proved := settings.prove(j + 1, txs);
              proofs == old(proofs) + if proved.Some? && saved.Some? then [ProofRecord(proved.value, saved.value)] else []
    {
      var proved := ExecuteAndProve(j + 1, batchId, txs);
      if proved.Some? && saved.Some? {
        proofs := proofs + [ProofRecord(proved.value, saved.value)];
      }
      model := Next(settings, model, Finish(j, saved));
    }
  }

  // ----- The protocol with real proving -----

  /** What a recorded proof means: its batch is not empty, host and guest report every one of its
      transactions alike, and the record commits to the roots of that execution. */
  lemma ProvingMeans(H: HashFn, k: nat, batch: seq<Transaction>)
    ensures Proving(H, k, batch).Some? <==> batch != [] && NoChargedFailure(InitialState(batch), batch)
    ensures Proving(H, k, batch).Some? ==>
      Proving(H, k, batch).value == BatchProof(BatchId(k), StateRoot(H, InitialState(batch)),
                                               StateRoot(H, StateAfter(InitialState(batch), batch)), |batch|)
  {
    FullProved(H, MAX_CU_PER_TX, BatchId(k), batch);
    CapNeverMatters(MAX_CU_PER_TX, InitialState(batch), batch);
  }

  ghost predicate UsesProving(c: Settings, H: HashFn) {
    forall k, batch :: c.prove(k, batch) == Proving(H, k, batch)
  }

  /** `r` is the record of sealed batch `j`, which is not empty and holds no transaction that
      host and guest report differently. */
  ghost predicate RecordsBatch(H: HashFn, v: System, r: BatchProof, j: nat) {
    && j < |v.sealed| && v.sealed[j] != [] && NoChargedFailure(InitialState(v.sealed[j]), v.sealed[j])
    && r == RecordOf(H, j + 1, v.sealed[j])
  }

  ghost predicate IsSound(H: HashFn, v: System, r: BatchProof) {
    exists j: nat :: RecordsBatch(H, v, r, j)
  }

  lemma RecordedBatch(c: Settings, H: HashFn, v: System, p: nat)
    requires UsesProving(c, H) && Invariant(c, v) && p < |v.proofs|
    ensures IsSound(H, v, v.proofs[p].proof)
  {
    ProofHasBatch(c, v, p);
    var j :| 0 <= j < |v.sealed| && c.prove(j + 1, v.sealed[j]) == Some(v.proofs[p].proof);
    ProvingMeans(H, j + 1, v.sealed[j]);
    assert RecordsBatch(H, v, v.proofs[p].proof, j);
  }

  lemma RecordedBatches(c: Settings, H: HashFn, v: System)
    requires UsesProving(c, H) && Invariant(c, v)
    ensures forall p :: 0 <= p < |v.proofs| ==> IsSound(H, v, v.proofs[p].proof)
  {
    forall p | 0 <= p < |v.proofs| ensures IsSound(H, v, v.proofs[p].proof) {
      RecordedBatch(c, H, v, p);
    }
  }

  lemma UsesProvingNames(c: Settings, H: HashFn)
    requires UsesProving(c, H)
    ensures NamesBatches(c)
  {}

  /** On every run, in whatever order batches finish, every proof record stands for a sealed
      batch that the guest accepts, and no two records for the same batch. */
  lemma ProofsAreSound(c: Settings, H: HashFn, steps: seq<Step>)
    requires UsesProving(c, H)
    ensures forall p :: 0 <= p < |Run(c, steps).proofs| ==> IsSound(H, Run(c, steps), Run(c, steps).proofs[p].proof)
    ensures forall p, q :: 0 <= p < q < |Run(c, steps).proofs| ==>
              Run(c, steps).proofs[p].proof.batchId != Run(c, steps).proofs[q].proof.batchId
  {
    AlwaysInvariant(c, steps);
    RecordedBatches(c, H, Run(c, steps));
    UsesProvingNames(c, H);
    ProofsAreDistinct(c, steps);
  }

  // ----- What a verified proof says of a validator's batch -----

  lemma TxIdHasNoColon(k: nat)
    ensures ':' !in TxId(k)
  {
    Text.PaddedHasNoColon(k, Text.Hex, 8);
  }

  lemma SealedPositions(c: Settings, v: System, j: nat) returns (at: nat)
    requires Invariant(c, v) && j < |v.sealed|
    ensures at + |v.sealed[j]| <= |v.submitted|
    ensures forall i :: 0 <= i < |v.sealed[j]| ==> v.sealed[j][i] == v.submitted[at + i]
  {
    at := FlattenAt(v.sealed, j);
    forall i | 0 <= i < |v.sealed[j]| ensures v.sealed[j][i] == v.submitted[at + i] {
      assert v.sealed[j][i] == Flatten(v.sealed)[at..at + |v.sealed[j]|][i] == Flatten(v.sealed)[at + i];
    }
  }

  lemma SealedIdIs(c: Settings, v: System, j: nat, at: nat, i: nat)
    requires Invariant(c, v) && j < |v.sealed| && i < |v.sealed[j]| && at + |v.sealed[j]| <= |v.submitted|
    requires v.sealed[j][i] == v.submitted[at + i]
    ensures v.sealed[j][i].txId == TxId(at + i + 1)
  {
    assert v.submitted[at + i].txId == TxId(at + i + 1);
  }

  lemma IdsAreDistinct(txs: seq<Transaction>, at: nat)
    requires forall i :: 0 <= i < |txs| ==> txs[i].txId == TxId(at + i + 1)
    ensures DistinctIds(txs)
  {
    forall i, k | 0 <= i < k < |txs| ensures txs[i].txId != txs[k].txId {
      if TxId(at + i + 1) == TxId(at + k + 1) {
        TxIdInjective(at + i + 1, at + k + 1);
      }
    }
  }

  lemma IdsHaveNoColon(txs: seq<Transaction>, at: nat)
    requires forall i :: 0 <= i < |txs| ==> txs[i].txId == TxId(at + i + 1)
    ensures IdsWithoutColon(SerializeAll(txs))
  {
    forall i | 0 <= i < |txs| ensures ':' !in SerializeAll(txs)[i].txId {
      TxIdHasNoColon(at + i + 1);
    }
  }

  /** Sealed batches have distinct ids without colons. */
  lemma SealedIds(c: Settings, v: System, j: nat)
    requires Invariant(c, v) && j < |v.sealed|
    ensures DistinctIds(v.sealed[j]) && IdsWithoutColon(SerializeAll(v.sealed[j]))
  {
    var at := SealedPositions(c, v, j);
    forall i | 0 <= i < |v.sealed[j]| ensures v.sealed[j][i].txId == TxId(at + i + 1) {
      SealedIdIs(c, v, j, at, i);
    }
    IdsAreDistinct(v.sealed[j], at);
    IdsHaveNoColon(v.sealed[j], at);
  }

  /** On every run of the validator: a proof that verifies against the trace of a sealed batch whose
      senders contain no colon was made by a run that reported the batch's entries in order, followed
      by nothing but repeats of idle ones; or strings hashed on the way collide. With other senders
      it suffices that the unseen run's ids contain no colon. */
  lemma VerifiedBatch(c: Settings, H: HashFn, steps: seq<Step>, j: nat, proof: Proof,
                      input: ExecutionTraceInput, otherTxs: seq<SerializableTransaction>, start: State)
    requires HexDigests(H) && j < |Run(c, steps).sealed|
    requires SendersWithoutColon(SerializeAll(Run(c, steps).sealed[j])) || IdsWithoutColon(otherTxs)
    requires Committed(H, proof.publicValues, input, otherTxs, start)
    requires Verify(proof, true, HostTrace(H, MAX_CU_PER_TX, BatchId(j + 1), Run(c, steps).sealed[j])).isValid
    ensures var batch := Run(c, steps).sealed[j];
            || AddsIdleRepeats(GuestLines(start, otherTxs), HostLines(H, MAX_CU_PER_TX, batch))
            || RunsCollide(H, MAX_CU_PER_TX, batch, otherTxs, start)
  {
    AlwaysInvariant(c, steps);
    SealedIds(c, Run(c, steps), j);
    DistinctEntries(H, MAX_CU_PER_TX, BatchId(j + 1), Run(c, steps).sealed[j], proof, input, otherTxs, start);
  }
}
