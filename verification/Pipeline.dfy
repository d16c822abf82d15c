/** From a trace to an accepted proof: the prover's reconstruction of the guest's inputs and the
    verifier's comparisons. The proof system is ideal: proving succeeds exactly when the guest
    accepts, and the cryptographic check passes exactly for values some guest run committed. */
module Pipeline {
  import opened Basics
  import opened OrderedMap
  import opened Merkle
  import opened StateCommitment
  import opened Machine
  import opened Trace
  import opened HostExecutor
  import opened Guest
  import opened Replay

  datatype ProveError = InvalidTrace | Internal

  datatype ProofCommitment = ProofCommitment(
    batchHash: string, traceHash: string, stateRootPre: string, stateRootPost: string,
    totalCompute: nat, txCount: nat)

  datatype Proof = Proof(batchId: string, publicValues: PublicInputs, commitment: ProofCommitment)

  // ----- Prover -----

  function EntryIds(t: ExecutionTrace): (ids: seq<string>)
    ensures |ids| == |t.entries| && forall i :: 0 <= i < |ids| ==> ids[i] == t.entries[i].txId
  {
    seq(|t.entries|, i requires 0 <= i < |t.entries| => t.entries[i].txId)
  }

  /** The transactions the guest is given: the real ones, or no-ops rebuilt from the trace. */
  function GuestTransactions(t: ExecutionTrace, txs: seq<Transaction>): seq<Transaction> {
    if txs == [] then NoopTransactions(EntryIds(t)) else txs
  }

  function Commitment(H: HashFn, t: ExecutionTrace): ProofCommitment {
    ProofCommitment(H(t.batchId), t.traceHash, t.stateRootPre, t.stateRootPost, t.totalCompute, |t.entries|)
  }

  /** Proving a trace over these transactions from this ledger. */
  ghost function ProofFrom(H: HashFn, t: ExecutionTrace, txs: seq<Transaction>, start: State): Result<Proof, ProveError> {
    if t.entries == [] then Failure(InvalidTrace)
    else
      match GuestMain(H, ToInput(t), SerializeAll(txs), start)
      case Some(p) => Success(Proof(t.batchId, p, Commitment(H, t)))
      case None => Failure(Internal)
  }

  ghost function ProofOf(H: HashFn, t: ExecutionTrace, txs: seq<Transaction>): Result<Proof, ProveError> {
    var given := GuestTransactions(t, txs);
    ProofFrom(H, t, given, InitialState(given))
  }

  method ProveWithTransactions(H: HashFn, t: ExecutionTrace, txs: seq<Transaction>, initialState: BTreeMap)
    returns (r: Result<Proof, ProveError>)
    ensures r == ProofFrom(H, t, txs, initialState.Contents())
  {
    if |t.entries| == 0 {
      return Failure(InvalidTrace);
    }
    var p := RunMain(H, ToInput(t), SerializeAll(txs), initialState);
    match p {
      case Some(values) => r := Success(Proof(t.batchId, values, Commitment(H, t)));
      case None => r := Failure(Internal);
    }
  }

  /** `prove`: rebuild the pre-state, and without transactions the transactions too. */
  method Prove(H: HashFn, t: ExecutionTrace, txs: seq<Transaction>) returns (r: Result<Proof, ProveError>)
    ensures r == ProofOf(H, t, txs)
  {
    var given := GuestTransactions(t, txs);
    var initialState := FundSenders(SendersOf(given));
    r := ProveWithTransactions(H, t, given, initialState);
  }

  // ----- Verifier -----

  datatype Mismatch = ProofRejected | TraceHash | PreRoot | PostRoot | Compute

  datatype VerificationResult = VerificationResult(batchId: string, isValid: bool, error: Option<Mismatch>)

  /** `verify`: `checks` is the outcome of the cryptographic check. */
  function Verify(proof: Proof, checks: bool, t: ExecutionTrace): (r: VerificationResult)
    ensures var p := proof.publicValues;
            r.isValid <==> (checks && p.traceHash == t.traceHash && p.stateRootPre == t.stateRootPre
                            && p.stateRootPost == t.stateRootPost && p.totalCompute == t.totalCompute)
    ensures r.isValid <==> r.error == None
    ensures r.error == Some(ProofRejected) <==> !checks
    ensures r.error == Some(TraceHash) <==> checks && proof.publicValues.traceHash != t.traceHash
    ensures r.error == Some(PreRoot) ==> proof.publicValues.stateRootPre != t.stateRootPre
    ensures r.error == Some(PostRoot) ==> proof.publicValues.stateRootPre == t.stateRootPre
    ensures r.error == Some(PostRoot) ==> proof.publicValues.stateRootPost != t.stateRootPost
    ensures r.error == Some(Compute) ==> proof.publicValues.stateRootPost == t.stateRootPost
    ensures r.batchId == proof.batchId
  {
    var p := proof.publicValues;
    if !checks then VerificationResult(proof.batchId, false, Some(ProofRejected))
    else if p.traceHash != t.traceHash then VerificationResult(proof.batchId, false, Some(TraceHash))
    else if p.stateRootPre != t.stateRootPre then VerificationResult(proof.batchId, false, Some(PreRoot))
    else if p.stateRootPost != t.stateRootPost then VerificationResult(proof.batchId, false, Some(PostRoot))
    else if p.totalCompute != t.totalCompute then VerificationResult(proof.batchId, false, Some(Compute))
    else VerificationResult(proof.batchId, true, None)
  }

  // ----- The stages agree -----

  lemma RebuiltIds(H: HashFn, cap: u64, batchId: string, txIds: seq<string>)
    ensures EntryIds(DeterministicTrace(H, cap, batchId, txIds)) == txIds
  {}

  /** The prover's rebuilt ledger has the executor's pre root, on both paths. */
  lemma RebuiltPreState(H: HashFn, cap: u64, batchId: string, txIds: seq<string>, txs: seq<Transaction>)
    ensures var t := DeterministicTrace(H, cap, batchId, txIds);
            StateRoot(H, InitialState(GuestTransactions(t, []))) == t.stateRootPre
    ensures var t := HostTrace(H, cap, batchId, txs);
            txs != [] ==> StateRoot(H, InitialState(GuestTransactions(t, txs))) == t.stateRootPre
  {
    RebuiltIds(H, cap, batchId, txIds);
  }

  /** Relabelling the entries changes nothing the guest is given to compare. */
  lemma SameInput(H: HashFn, cap: u64, batchId: string, txIds: seq<string>)
    ensures ToInput(DeterministicTrace(H, cap, batchId, txIds))
         == ToInput(HostTrace(H, cap, batchId, NoopTransactions(txIds)))
  {
    var txs := NoopTransactions(txIds);
    var es := HostEntries(H, cap, InitialState(txs), txs);
    assert EntryHashes(H, Relabelled(es)) == EntryHashes(H, es);
    assert Units(Relabelled(es)) == Units(es);
  }

  lemma NoopsAreFaithful(cap: u64, txIds: seq<string>)
    ensures var txs := NoopTransactions(txIds);
            AllFaithful(cap, InitialState(txs), txs) <==> txIds == [] || cap >= 1000
  {
    var txs := NoopTransactions(txIds);
    forall i | 0 <= i < |txs|
      ensures Faithful(cap, StateAfter(InitialState(txs), txs[..i]), txs[i]) <==> cap >= 1000
    {
      assert Decode(txs[i].instructionData) == Noop;
    }
    if txs != [] && AllFaithful(cap, InitialState(txs), txs) {
      assert Faithful(cap, StateAfter(InitialState(txs), txs[..0]), txs[0]);
    }
  }

  /** A non-empty batch of the executor without transactions is proved exactly when the cap
      leaves room for a no-op. */
  lemma DeterministicProved(H: HashFn, cap: u64, batchId: string, txIds: seq<string>)
    ensures ProofOf(H, DeterministicTrace(H, cap, batchId, txIds), []).Success? <==> txIds != [] && cap >= 1000
  {
    RebuiltIds(H, cap, batchId, txIds);
    SameInput(H, cap, batchId, txIds);
    GuestAcceptsExactly(H, cap, batchId, NoopTransactions(txIds));
    NoopsAreFaithful(cap, txIds);
  }

  /** A batch with transactions is proved exactly when host and guest report every one alike. */
  lemma FullProved(H: HashFn, cap: u64, batchId: string, txs: seq<Transaction>)
    ensures ProofOf(H, HostTrace(H, cap, batchId, txs), txs).Success?
       <==> txs != [] && AllFaithful(cap, InitialState(txs), txs)
  {
    if txs != [] {
      GuestAcceptsExactly(H, cap, batchId, txs);
    }
  }

  /** Why proving fails: there is nothing to prove, or the guest does not accept. */
  lemma ProvingFails(H: HashFn, t: ExecutionTrace, txs: seq<Transaction>, start: State)
    ensures ProofFrom(H, t, txs, start) == Failure(InvalidTrace) <==> t.entries == []
    ensures ProofFrom(H, t, txs, start) == Failure(Internal) <==>
      t.entries != [] && GuestMain(H, ToInput(t), SerializeAll(txs), start) == None
    ensures ToInput(t).batchId == t.batchId && ToInput(t).txCount == |t.entries|
  {}

  /** Whatever is proved passes all four comparisons and commits to the trace it came from. */
  lemma ProvedVerifies(H: HashFn, t: ExecutionTrace, txs: seq<Transaction>)
    requires ProofOf(H, t, txs).Success?
    ensures var proof := ProofOf(H, t, txs).value;
            && Verify(proof, true, t).isValid
            && proof.commitment == ProofCommitment(H(t.batchId), t.traceHash, t.stateRootPre, t.stateRootPost,
                                                   t.totalCompute, |t.entries|)
            && proof.batchId == t.batchId
            && proof.publicValues.batchId == t.batchId && proof.publicValues.txCount == |t.entries|
  {}

  /** Values that some accepting guest run, on whatever inputs, committed. */
  ghost predicate Committed(H: HashFn, p: PublicInputs, input: ExecutionTraceInput, txs: seq<SerializableTransaction>, start: State) {
    GuestMain(H, input, txs, start) == Some(p)
  }

  /** What verification establishes about a run that nobody saw: a verified proof of a host
      trace was made by a run that started in the host's state and ended in the host's state,
      or two strings hashed for those states' roots collide. */
  lemma VerifiedRun(H: HashFn, cap: u64, batchId: string, txs: seq<Transaction>, proof: Proof,
                    input: ExecutionTraceInput, otherTxs: seq<SerializableTransaction>, start: State)
    requires HexDigests(H)
    requires Committed(H, proof.publicValues, input, otherTxs, start)
    requires Verify(proof, true, HostTrace(H, cap, batchId, txs)).isValid
    ensures start == InitialState(txs)
         || HashCollision(H, HashedFor(H, start) + HashedFor(H, InitialState(txs)))
    ensures var reached, claimed := GuestStateAfter(start, otherTxs), StateAfter(InitialState(txs), txs);
            reached == claimed || HashCollision(H, HashedFor(H, reached) + HashedFor(H, claimed))
  {
    StateRootBinding(H, start, InitialState(txs));
    StateRootBinding(H, GuestStateAfter(start, otherTxs), StateAfter(InitialState(txs), txs));
  }
}
