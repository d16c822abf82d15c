/** Host and guest on one batch: they agree on every state, and the guest accepts the host's
    trace exactly when no transaction is reported differently by the two. */
module Replay {
  import opened Basics
  import opened OrderedMap
  import opened Merkle
  import opened StateCommitment
  import opened Machine
  import opened Trace
  import opened HostExecutor
  import opened Guest

  function Serialize(tx: Transaction): SerializableTransaction {
    SerializableTransaction(tx.txId, tx.sender, tx.instructionData)
  }

  function SerializeAll(txs: seq<Transaction>): (stxs: seq<SerializableTransaction>)
    ensures |stxs| == |txs| && forall i :: 0 <= i < |txs| ==> stxs[i] == Serialize(txs[i])
  {
    seq(|txs|, i requires 0 <= i < |txs| => Serialize(txs[i]))
  }

  /** `ExecutionTraceInput::from` */
  function ToInput(t: ExecutionTrace): ExecutionTraceInput {
    ExecutionTraceInput(t.batchId, t.stateRootPre, t.stateRootPost, t.traceHash, t.totalCompute, |t.entries|)
  }

  /** Both executors report the same: the balance suffices, the opcode is known, and the host's
      cap does not cut into the cost. Empty and short instructions are reported alike. */
  predicate Faithful(cap: u64, st: State, tx: Transaction) {
    var op := Decode(tx.instructionData);
    !Insufficient(st, tx.sender, op) && !op.Unknown? && Cost(op) <= cap
  }

  ghost predicate AllFaithful(cap: u64, start: State, txs: seq<Transaction>) {
    forall i :: 0 <= i < |txs| ==> Faithful(cap, StateAfter(start, txs[..i]), txs[i])
  }

  /** After every transaction the two ledgers are the same. */
  lemma {:induction false} LedgersAgree(start: State, txs: seq<Transaction>, n: nat)
    requires n <= |txs|
    ensures GuestStateAfter(start, SerializeAll(txs)[..n]) == StateAfter(start, txs[..n])
  {
    if n > 0 {
      LedgersAgree(start, txs, n - 1);
      GuestNext(start, SerializeAll(txs), n - 1);
      StateAfterNext(start, txs, n - 1);
    }
  }

  /** Entry by entry the host charges no more than the guest, and the same amount exactly when
      the transaction is reported alike; then the reports agree altogether. */
  lemma EntriesCompare(H: HashFn, cap: u64, start: State, txs: seq<Transaction>, i: nat)
    requires i < |txs|
    ensures var e, r := HostEntries(H, cap, start, txs)[i], ReportAt(start, SerializeAll(txs), i);
            && e.computeUsed <= r.compute
            && (e.computeUsed == r.compute <==> Faithful(cap, StateAfter(start, txs[..i]), txs[i]))
            && (e.computeUsed == r.compute ==>
                  e.success == r.success && e.accountsRead == r.read && e.accountsWritten == r.written)
  {
    LedgersAgree(start, txs, i);
  }

  lemma TotalsCompare(H: HashFn, cap: u64, start: State, txs: seq<Transaction>)
    ensures TotalCompute(HostEntries(H, cap, start, txs)) <= Sum(GuestUnits(start, SerializeAll(txs)))
    ensures TotalCompute(HostEntries(H, cap, start, txs)) == Sum(GuestUnits(start, SerializeAll(txs)))
       <==> AllFaithful(cap, start, txs)
  {
    var host, guest := Units(HostEntries(H, cap, start, txs)), GuestUnits(start, SerializeAll(txs));
    forall i | 0 <= i < |txs|
      ensures host[i] <= guest[i]
      ensures host[i] == guest[i] <==> Faithful(cap, StateAfter(start, txs[..i]), txs[i])
    {
      EntriesCompare(H, cap, start, txs, i);
    }
    SumsCompare(host, guest);
  }

  lemma HashesAgree(H: HashFn, cap: u64, start: State, txs: seq<Transaction>)
    requires AllFaithful(cap, start, txs)
    ensures EntryHashes(H, HostEntries(H, cap, start, txs)) == GuestHashes(H, start, SerializeAll(txs))
  {
    forall i | 0 <= i < |txs|
      ensures EntryHashes(H, HostEntries(H, cap, start, txs))[i] == GuestHashes(H, start, SerializeAll(txs))[i]
    {
      EntriesCompare(H, cap, start, txs, i);
    }
  }

  /** Replay equivalence, exactly: all the guest's assertions pass if and only if every
      transaction is reported alike by host and guest. No property of the hash is used: when
      some transaction is not, total compute alone already differs. */
  lemma GuestAcceptsExactly(H: HashFn, cap: u64, batchId: string, txs: seq<Transaction>)
    ensures GuestMain(H, ToInput(HostTrace(H, cap, batchId, txs)), SerializeAll(txs), InitialState(txs)).Some?
       <==> AllFaithful(cap, InitialState(txs), txs)
  {
    var start, es := InitialState(txs), HostEntries(H, cap, InitialState(txs), txs);
    TotalsCompare(H, cap, start, txs);
    LedgersAgree(start, txs, |txs|);
    TakeAll(txs);
    TakeAll(es);
    TakeAll(SerializeAll(txs));
    if AllFaithful(cap, start, txs) {
      HashesAgree(H, cap, start, txs);
    }
  }

  /** The guest charges for this failure and the host does not. */
  predicate ChargedFailure(st: State, tx: Transaction) {
    var op := Decode(tx.instructionData);
    op.Unknown? || Insufficient(st, tx.sender, op)
  }

  ghost predicate NoChargedFailure(start: State, txs: seq<Transaction>) {
    forall i :: 0 <= i < |txs| ==> !ChargedFailure(StateAfter(start, txs[..i]), txs[i])
  }

  lemma CapNeverMatters(cap: u64, start: State, txs: seq<Transaction>)
    requires cap >= 5000
    ensures AllFaithful(cap, start, txs) <==> NoChargedFailure(start, txs)
  {
    forall i | 0 <= i < |txs|
      ensures Faithful(cap, StateAfter(start, txs[..i]), txs[i])
         <==> !ChargedFailure(StateAfter(start, txs[..i]), txs[i])
    {
      assert Cost(Decode(txs[i].instructionData)) <= 5000;
    }
  }

  /** With a cap of at least 5000 the guest accepts exactly the batches without an unknown
      opcode and without an insufficient balance. */
  lemma GenerousCap(H: HashFn, cap: u64, batchId: string, txs: seq<Transaction>)
    requires cap >= 5000
    ensures GuestMain(H, ToInput(HostTrace(H, cap, batchId, txs)), SerializeAll(txs), InitialState(txs)).Some?
       <==> NoChargedFailure(InitialState(txs), txs)
  {
    GuestAcceptsExactly(H, cap, batchId, txs);
    CapNeverMatters(cap, InitialState(txs), txs);
  }

  // ----- What every trace satisfies -----

  lemma EntryChain(H: HashFn, cap: u64, start: State, txs: seq<Transaction>, i: nat)
    requires i < |txs|
    ensures var e := HostEntries(H, cap, start, txs)[i];
            && e.preStateHash == StateRoot(H, StateAfter(start, txs[..i]))
            && e.postStateHash == StateRoot(H, StateAfter(start, txs[..i + 1]))
  {
    StateAfterNext(start, txs, i);
  }

  /** The entries chain from the trace's pre root to its post root. */
  lemma TraceChains(H: HashFn, cap: u64, batchId: string, txs: seq<Transaction>)
    ensures var t := HostTrace(H, cap, batchId, txs);
            && |t.entries| == |txs|
            && (txs == [] ==> t.stateRootPre == t.stateRootPost)
            && (txs != [] ==> t.entries[0].preStateHash == t.stateRootPre)
            && (txs != [] ==> t.entries[|txs| - 1].postStateHash == t.stateRootPost)
            && (forall i :: 0 < i < |txs| ==> t.entries[i - 1].postStateHash == t.entries[i].preStateHash)
  {
    var start := InitialState(txs);
    TakeAll(txs);
    assert txs[..0] == [];
    forall i | 0 <= i < |txs|
      ensures var e := HostEntries(H, cap, start, txs)[i];
              && e.preStateHash == StateRoot(H, StateAfter(start, txs[..i]))
              && e.postStateHash == StateRoot(H, StateAfter(start, txs[..i + 1]))
    {
      EntryChain(H, cap, start, txs, i);
    }
  }

  /** A failed entry changed nothing, charged nothing and names no account. */
  lemma FailuresAreInert(H: HashFn, cap: u64, start: State, txs: seq<Transaction>, i: nat)
    requires i < |txs| && !HostEntries(H, cap, start, txs)[i].success
    ensures StateAfter(start, txs[..i + 1]) == StateAfter(start, txs[..i])
    ensures var e := HostEntries(H, cap, start, txs)[i];
            && e.preStateHash == e.postStateHash && e.computeUsed == 0
            && e.accountsRead == e.accountsWritten == [] && e.error.Some?
  {
    StateAfterNext(start, txs, i);
  }

  /** Positions and ids are those of the batch, and every entry is a success or has an error. */
  lemma TraceCounts(H: HashFn, cap: u64, batchId: string, txs: seq<Transaction>)
    ensures var t := HostTrace(H, cap, batchId, txs);
            && |t.entries| == |txs| == t.successCount + t.failureCount
            && (forall i :: 0 <= i < |txs| ==> t.entries[i].txIdx == i && t.entries[i].txId == txs[i].txId)
            && (forall i :: 0 <= i < |txs| ==> (t.entries[i].success <==> t.entries[i].error == None))
  {}

  /** The total is the sum of the entries' compute and stays within the cap. */
  lemma TraceTotal(H: HashFn, cap: u64, batchId: string, txs: seq<Transaction>)
    ensures var t := HostTrace(H, cap, batchId, txs);
            && t.totalCompute == Sum(Units(t.entries))
            && t.totalCompute <= cap * |txs| && t.totalCompute <= 5000 * |txs|
  {
    var us := Units(HostEntries(H, cap, InitialState(txs), txs));
    assert forall i :: 0 <= i < |us| ==> us[i] <= cap && us[i] <= 5000;
    SumBounded(us, cap);
    SumBounded(us, 5000);
  }
}
