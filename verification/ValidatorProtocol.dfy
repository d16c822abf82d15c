/** The validator as a system of atomic steps: submissions, sealing attempts by timer or by
    request, and completions of batches proved outside the lock, interleaved in any way. */
module ValidatorProtocol {
  import opened Basics
  import opened Machine
  import opened Policies
  import opened SingleQueue
  import Text

  /** What a proof commits to. */
  datatype BatchProof = BatchProof(batchId: string, stateRootPre: string, stateRootPost: string, txCount: nat)

  /** What the proof system and the clock add when a proof has been made and saved. */
  datatype Artifact = Artifact(proofHash: string, provingTimeMs: nat, proofSizeBytes: nat, timestamp: nat)

  datatype ProofRecord = ProofRecord(proof: BatchProof, artifact: Artifact)

  /** `prove` is what executing and proving batch number `k` yields: a proof, or an error. */
  datatype Settings = Settings(policy: Policy, batchSize: nat, prove: (nat, seq<Transaction>) -> Option<BatchProof>)

  /** `finished` are the positions of the batches whose processing has ended, `proved` those of
      the recorded proofs in the order they were recorded. */
  datatype System = System(
    submitted: seq<Transaction>, pending: seq<Transaction>, sealed: seq<seq<Transaction>>,
    finished: set<nat>, proved: seq<nat>, proofs: seq<ProofRecord>)

  const START: System := System([], [], [], {}, [], [])

  datatype Request = Request(sender: string, programId: string, instructionData: seq<byte>, priority: Option<string>)

  datatype Step =
    | Submit(request: Request, nowMs: u64)
    | CheckAndSeal(nowMs: u64)
    | Finish(batch: nat, saved: Option<Artifact>)

  function TxId(k: nat): string { "tx_" + Text.Padded(k, Text.Hex, 8) }

  function ParsePriority(p: Option<string>): Priority {
    match p
    case None => Normal
    case Some(name) => if name == "low" then Low else if name == "high" then High else if name == "critical" then Critical else Normal
  }

  function Submitted(k: nat, r: Request, nowMs: u64): Transaction {
    Transaction(TxId(k), nowMs, r.sender, r.programId, r.instructionData, ParsePriority(r.priority), 200_000)
  }

  predicate Seals(c: Settings, pending: seq<Transaction>, nowMs: nat) {
    pending != [] && ShouldSeal(c.policy, |pending|, SaturatingSub(nowMs, pending[0].arrivalTs), 0.0)
  }

  /** A record of a proof that was made and saved, else nothing. */
  function Records(proof: Option<BatchProof>, saved: Option<Artifact>): seq<ProofRecord> {
    if proof.Some? && saved.Some? then [ProofRecord(proof.value, saved.value)] else []
  }

  function Next(c: Settings, v: System, s: Step): System {
    match s
    case Submit(request, nowMs) =>
      var tx := Submitted(|v.submitted| + 1, request, nowMs);
      v.(submitted := v.submitted + [tx], pending := v.pending + [tx])
    case CheckAndSeal(nowMs) =>
      if Seals(c, v.pending, nowMs) then
        var n := Min(|v.pending|, c.batchSize);
        v.(sealed := v.sealed + [v.pending[..n]], pending := v.pending[n..])
      else v
    case Finish(j, saved) =>
      if j >= |v.sealed| || j in v.finished then v
      else
        var records := Records(c.prove(j + 1, v.sealed[j]), saved);
        v.(finished := v.finished + {j}, proved := v.proved + (if records == [] then [] else [j]), proofs := v.proofs + records)
  }

  function Run(c: Settings, steps: seq<Step>): System {
    if steps == [] then START else Next(c, Run(c, steps[..|steps| - 1]), steps[|steps| - 1])
  }

  // ----- Single steps -----

  /** A sealing attempt takes the front of the queue: a whole batch, or all there is. It does so if
      and only if somebody waits and the policy has a reason, at a rate it takes for zero. */
  lemma SealTakes(c: Settings, v: System, nowMs: u64)
    ensures var w := Next(c, v, CheckAndSeal(nowMs));
            && (w != v ==>
                  && |w.sealed| == |v.sealed| + 1 && w.sealed[..|v.sealed|] == v.sealed
                  && w.sealed[|v.sealed|] + w.pending == v.pending
                  && |w.sealed[|v.sealed|]| <= c.batchSize
                  && (|w.sealed[|v.sealed|]| == c.batchSize || w.pending == []))
            && (w != v <==>
                  && v.pending != []
                  && (IsFull(c.policy, |v.pending|) || IsOverdue(c.policy, SaturatingSub(nowMs, v.pending[0].arrivalTs))
                      || IsRushed(c.policy, |v.pending|, 0.0)))
            && w.submitted == v.submitted && w.proofs == v.proofs && w.finished == v.finished
  {
    if v.pending != [] {
      SealsExactly(c.policy, |v.pending|, SaturatingSub(nowMs, v.pending[0].arrivalTs), 0.0);
      var n := Min(|v.pending|, c.batchSize);
      assert v.pending[..n] + v.pending[n..] == v.pending;
    }
  }

  /** A submission joins the end of the queue, with the next id and the priority it names. */
  lemma SubmitAppends(c: Settings, v: System, r: Request, nowMs: u64)
    ensures var w := Next(c, v, Submit(r, nowMs));
            && |w.submitted| == |v.submitted| + 1 && w.submitted[..|v.submitted|] == v.submitted
            && w.pending == v.pending + [w.submitted[|v.submitted|]]
            && var tx := w.submitted[|v.submitted|];
               && tx.txId == "tx_" + Text.Padded(|v.submitted| + 1, Text.Hex, 8)
               && tx.arrivalTs == nowMs && tx.sender == r.sender && tx.programId == r.programId
               && tx.instructionData == r.instructionData && tx.estimatedCu == 200_000
               && (tx.priority == Low <==> r.priority == Some("low"))
               && (tx.priority == High <==> r.priority == Some("high"))
               && (tx.priority == Critical <==> r.priority == Some("critical"))
  {}

  /** The completion of an open batch adds its record if there is a proof and it was saved, and
      closes the batch either way; any other completion changes nothing. */
  lemma FinishRecords(c: Settings, v: System, j: nat, saved: Option<Artifact>)
    ensures var w := Next(c, v, Finish(j, saved));
            && w.submitted == v.submitted && w.pending == v.pending && w.sealed == v.sealed
            && (j < |v.sealed| && j !in v.finished ==>
                  && w.finished == v.finished + {j}
                  && var proof := c.prove(j + 1, v.sealed[j]);
                     if proof.Some? && saved.Some? then
                       w.proofs == v.proofs + [ProofRecord(proof.value, saved.value)] && w.proved == v.proved + [j]
                     else w.proofs == v.proofs && w.proved == v.proved)
            && (j >= |v.sealed| || j in v.finished ==> w == v)
  {}

  // ----- Every interleaving -----

  /** What holds after every step of every run. */
  ghost predicate Invariant(c: Settings, v: System) {
    && Flatten(v.sealed) + v.pending == v.submitted
    && (forall i :: 0 <= i < |v.submitted| ==> v.submitted[i].txId == TxId(i + 1))
    && (c.batchSize > 0 ==> forall j :: 0 <= j < |v.sealed| ==> 1 <= |v.sealed[j]| <= c.batchSize)
    && (forall j :: j in v.finished ==> j < |v.sealed|)
    && |v.proofs| == |v.proved| && Distinct(v.proved)
    && (forall i :: 0 <= i < |v.proved| ==> ProofFits(c, v, i))
  }

  ghost predicate ProofFits(c: Settings, v: System, i: nat)
    requires i < |v.proofs| == |v.proved|
  {
    var j := v.proved[i];
    && j in v.finished && j < |v.sealed|
    && c.prove(j + 1, v.sealed[j]) == Some(v.proofs[i].proof)
  }

  lemma SubmitKeeps(c: Settings, v: System, request: Request, nowMs: u64)
    requires Invariant(c, v)
    ensures Invariant(c, Next(c, v, Submit(request, nowMs)))
  {
    var w := Next(c, v, Submit(request, nowMs));
    assert Flatten(v.sealed) + w.pending == Flatten(v.sealed) + v.pending + [w.submitted[|v.submitted|]];
    forall i | 0 <= i < |w.proved| ensures ProofFits(c, w, i) {
      assert ProofFits(c, v, i);
    }
  }

  lemma SealKeeps(c: Settings, v: System, nowMs: u64)
    requires Invariant(c, v)
    ensures Invariant(c, Next(c, v, CheckAndSeal(nowMs)))
  {
    var w := Next(c, v, CheckAndSeal(nowMs));
    if Seals(c, v.pending, nowMs) {
      var n := Min(|v.pending|, c.batchSize);
      FlattenSnoc(v.sealed, v.pending[..n]);
      assert v.pending == v.pending[..n] + v.pending[n..];
    }
    forall i | 0 <= i < |w.proved| ensures ProofFits(c, w, i) {
      assert ProofFits(c, v, i);
    }
  }

  lemma FinishKeeps(c: Settings, v: System, j: nat, saved: Option<Artifact>)
    requires Invariant(c, v)
    ensures Invariant(c, Next(c, v, Finish(j, saved)))
  {
    var w := Next(c, v, Finish(j, saved));
    forall i | 0 <= i < |w.proved| ensures ProofFits(c, w, i) {
      if i < |v.proved| {
        assert ProofFits(c, v, i);
      }
    }
    forall a, b | 0 <= a < b < |w.proved| ensures w.proved[a] != w.proved[b] {
      if b == |v.proved| {
        assert ProofFits(c, v, a);
      }
    }
  }

  lemma {:induction false} AlwaysInvariant(c: Settings, steps: seq<Step>)
    ensures Invariant(c, Run(c, steps))
  {
    if steps != [] {
      var before := Run(c, steps[..|steps| - 1]);
      AlwaysInvariant(c, steps[..|steps| - 1]);
      match steps[|steps| - 1]
      case Submit(request, nowMs) => SubmitKeeps(c, before, request, nowMs);
      case CheckAndSeal(nowMs) => SealKeeps(c, before, nowMs);
      case Finish(j, saved) => FinishKeeps(c, before, j, saved);
    }
  }

  lemma TxIdInjective(a: nat, b: nat)
    requires TxId(a) == TxId(b)
    ensures a == b
  {
    assert Text.Padded(a, Text.Hex, 8) == TxId(a)[3..] && Text.Padded(b, Text.Hex, 8) == TxId(b)[3..];
    Text.PaddedInjective(a, b, Text.Hex, 8);
  }

  lemma SubmissionIdsDiffer(c: Settings, v: System, i: nat, j: nat)
    requires Invariant(c, v) && i < j < |v.submitted|
    ensures v.submitted[i].txId != v.submitted[j].txId
  {
    assert v.submitted[i].txId == TxId(i + 1) && v.submitted[j].txId == TxId(j + 1);
    if TxId(i + 1) == TxId(j + 1) {
      TxIdInjective(i + 1, j + 1);
    }
  }

  /** The batches in counter order, then what is pending, are the submissions in order; ids are
      pairwise distinct; with a positive batch size no batch is empty or too large. */
  lemma SubmissionsPreserved(c: Settings, steps: seq<Step>)
    ensures var v := Run(c, steps);
            && Flatten(v.sealed) + v.pending == v.submitted
            && (forall i, j :: 0 <= i < j < |v.submitted| ==> v.submitted[i].txId != v.submitted[j].txId)
            && (c.batchSize > 0 ==> forall j :: 0 <= j < |v.sealed| ==> 1 <= |v.sealed[j]| <= c.batchSize)
  {
    AlwaysInvariant(c, steps);
    var v := Run(c, steps);
    forall i, j | 0 <= i < j < |v.submitted| ensures v.submitted[i].txId != v.submitted[j].txId {
      SubmissionIdsDiffer(c, v, i, j);
    }
  }

  lemma BatchIdInjective(a: nat, b: nat)
    requires BatchId(a) == BatchId(b)
    ensures a == b
  {
    assert Text.Padded(a, Text.Decimal, 6) == BatchId(a)[6..] && Text.Padded(b, Text.Decimal, 6) == BatchId(b)[6..];
    Text.PaddedInjective(a, b, Text.Decimal, 6);
  }

  lemma BatchIdsDiffer(a: nat, b: nat)
    requires a != b
    ensures BatchId(a) != BatchId(b)
  {
    if BatchId(a) == BatchId(b) {
      BatchIdInjective(a, b);
    }
  }

  /** Records carry the id of the batch they prove. */
  ghost predicate NamesBatches(c: Settings) {
    forall k, batch :: c.prove(k, batch).Some? ==> c.prove(k, batch).value.batchId == BatchId(k)
  }

  /** Every proof record is that of a sealed batch. */
  lemma ProofHasBatch(c: Settings, v: System, p: nat)
    requires Invariant(c, v) && p < |v.proofs|
    ensures exists j :: 0 <= j < |v.sealed| && c.prove(j + 1, v.sealed[j]) == Some(v.proofs[p].proof)
  {
    assert ProofFits(c, v, p);
  }

  lemma ProofNamesBatch(c: Settings, v: System, p: nat)
    requires Invariant(c, v) && NamesBatches(c) && p < |v.proofs|
    ensures v.proofs[p].proof.batchId == BatchId(v.proved[p] + 1)
  {
    assert ProofFits(c, v, p);
    assert c.prove(v.proved[p] + 1, v.sealed[v.proved[p]]).Some?;
  }

  lemma ProofsDiffer(c: Settings, v: System, p: nat, q: nat)
    requires Invariant(c, v) && NamesBatches(c) && p < q < |v.proofs|
    ensures v.proofs[p].proof.batchId != v.proofs[q].proof.batchId
  {
    ProofNamesBatch(c, v, p);
    ProofNamesBatch(c, v, q);
    BatchIdsDiffer(v.proved[p] + 1, v.proved[q] + 1);
  }

  /** The proof records are records of sealed batches, none of them twice, in whatever order the
      batches finished. */
  lemma ProofsAreDistinct(c: Settings, steps: seq<Step>)
    requires NamesBatches(c)
    ensures var v := Run(c, steps);
            && (forall p :: 0 <= p < |v.proofs| ==>
                  exists j :: 0 <= j < |v.sealed| && c.prove(j + 1, v.sealed[j]) == Some(v.proofs[p].proof))
            && (forall p, q :: 0 <= p < q < |v.proofs| ==> v.proofs[p].proof.batchId != v.proofs[q].proof.batchId)
  {
    var v := Run(c, steps);
    AlwaysInvariant(c, steps);
    forall p | 0 <= p < |v.proofs|
      ensures exists j :: 0 <= j < |v.sealed| && c.prove(j + 1, v.sealed[j]) == Some(v.proofs[p].proof)
    {
      ProofHasBatch(c, v, p);
    }
    forall p, q | 0 <= p < q < |v.proofs| ensures v.proofs[p].proof.batchId != v.proofs[q].proof.batchId {
      ProofsDiffer(c, v, p, q);
    }
  }

  // ----- Proving outside the lock -----

  /** A completion commutes with every step that is not a completion: proving concurrently
      changes neither what is accepted nor what is sealed. */
  lemma FinishCommutes(c: Settings, v: System, j: nat, saved: Option<Artifact>, s: Step)
    requires j < |v.sealed| && !s.Finish?
    ensures Next(c, Next(c, v, s), Finish(j, saved)) == Next(c, Next(c, v, Finish(j, saved)), s)
  {}

  function RecordsOf(c: Settings, v: System, j: nat, saved: Option<Artifact>): seq<ProofRecord>
    requires j < |v.sealed|
  {
    Records(c.prove(j + 1, v.sealed[j]), saved)
  }

  /** Two completions commute up to the order of their records. */
  lemma FinishesCommute(c: Settings, v: System, i: nat, j: nat, a: Option<Artifact>, b: Option<Artifact>)
    requires i != j && i < |v.sealed| && j < |v.sealed| && i !in v.finished && j !in v.finished
    ensures var first, second := Next(c, Next(c, v, Finish(i, a)), Finish(j, b)), Next(c, Next(c, v, Finish(j, b)), Finish(i, a));
            && first.proofs == v.proofs + RecordsOf(c, v, i, a) + RecordsOf(c, v, j, b)
            && second.proofs == v.proofs + RecordsOf(c, v, j, b) + RecordsOf(c, v, i, a)
            && first.finished == second.finished && first.sealed == second.sealed
            && first.pending == second.pending && first.submitted == second.submitted
  {}
}
