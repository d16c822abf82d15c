/** What a verified proof says about a run that nobody saw, transaction by transaction, and what it
    leaves open. */
module Verification {
  import opened Basics
  import opened OrderedMap
  import opened MerkleTree
  import opened MerkleRepeats
  import opened Merkle
  import opened ListCommitment
  import opened StateCommitment
  import opened Machine
  import opened Trace
  import opened HostExecutor
  import opened Guest
  import opened Replay
  import opened TraceBinding
  import opened Pipeline

  function LineOfReport(txId: string, r: Report): Line { Line(txId, r.success, r.compute, r.read, r.written) }

  /** What the guest reports, as the lines of a trace. */
  function GuestLines(start: State, txs: seq<SerializableTransaction>): (ls: seq<Line>)
    ensures |ls| == |txs|
    ensures forall i :: 0 <= i < |txs| ==> ls[i] == LineOfReport(txs[i].txId, ReportAt(start, txs, i))
  {
    seq(|txs|, i requires 0 <= i < |txs| => LineOfReport(txs[i].txId, ReportAt(start, txs, i)))
  }

  ghost function HostLines(H: HashFn, cap: u64, txs: seq<Transaction>): (ls: seq<Line>)
    ensures |ls| == |txs|
    ensures forall i :: 0 <= i < |txs| ==> ls[i] == LineOf(HostEntries(H, cap, InitialState(txs), txs)[i])
  {
    Lines(HostEntries(H, cap, InitialState(txs), txs))
  }

  function LineUnits(ls: seq<Line>): (us: seq<nat>)
    ensures |us| == |ls| && forall i :: 0 <= i < |ls| ==> us[i] == ls[i].compute
  {
    seq(|ls|, i requires 0 <= i < |ls| => ls[i].compute)
  }

  lemma GuestRootOfLines(H: HashFn, start: State, txs: seq<SerializableTransaction>)
    ensures Root(H, GuestHashes(H, start, txs)) == LinesRoot(H, GuestLines(start, txs))
    ensures GuestUnits(start, txs) == LineUnits(GuestLines(start, txs))
  {
    RootOfLines(H, GuestHashes(H, start, txs), GuestLines(start, txs));
  }

  lemma HostRootOfLines(H: HashFn, cap: u64, batchId: string, txs: seq<Transaction>)
    ensures HostTrace(H, cap, batchId, txs).traceHash == LinesRoot(H, HostLines(H, cap, txs))
    ensures HostTrace(H, cap, batchId, txs).totalCompute == Sum(LineUnits(HostLines(H, cap, txs)))
  {
    var es := HostEntries(H, cap, InitialState(txs), txs);
    TraceHashIsLinesRoot(H, batchId, StateRoot(H, InitialState(txs)), es, StateRoot(H, StateAfter(InitialState(txs), txs)));
    assert Units(es) == LineUnits(Lines(es));
  }

  /** The account lists of a reported operation. */
  function AccountsOf(sender: string, op: Op, succeeds: bool): Accounts {
    match op
    case Transfer(_, target) => if succeeds then Paid(sender, target) else Refused(sender)
    case SetData(i, _) => Wrote(i)
    case Increment(i, _) => Added(i)
    case _ => Quiet
  }

  lemma GuestLineIsReport(st: State, txId: string, sender: string, op: Op)
    ensures var l := LineOfReport(txId, GuestReport(st, sender, op));
            IsReport(l) && (':' !in sender ==> ColonFreeNames(l))
  {
    var l, k := LineOfReport(txId, GuestReport(st, sender, op)), AccountsOf(sender, op, !Insufficient(st, sender, op));
    assert HasAccounts(l, k);
    if ':' !in sender {
      ColonFreeReport(l, k);
    }
  }

  lemma HostLineIsReport(H: HashFn, cap: u64, i: nat, tx: Transaction, st: State)
    ensures var l := LineOf(EntryFor(H, cap, i, tx, st));
            IsReport(l) && (':' !in tx.sender ==> ColonFreeNames(l))
  {
    var op, l := Decode(tx.instructionData), LineOf(EntryFor(H, cap, i, tx, st));
    var k := if Insufficient(st, tx.sender, op) then Quiet else AccountsOf(tx.sender, op, true);
    assert HasAccounts(l, k);
    if ':' !in tx.sender {
      ColonFreeReport(l, k);
    }
  }

  predicate IdsWithoutColon(txs: seq<SerializableTransaction>) { forall i :: 0 <= i < |txs| ==> ':' !in txs[i].txId }

  predicate SendersWithoutColon(txs: seq<SerializableTransaction>) { forall i :: 0 <= i < |txs| ==> ':' !in txs[i].sender }

  lemma GuestReports(start: State, txs: seq<SerializableTransaction>)
    ensures AreReports(GuestLines(start, txs))
    ensures IdsWithoutColon(txs) ==> ColonFreeIds(GuestLines(start, txs))
    ensures SendersWithoutColon(txs) ==> ColonFreeSenders(GuestLines(start, txs))
  {
    forall i | 0 <= i < |txs|
      ensures IsReport(GuestLines(start, txs)[i]) && (':' !in txs[i].sender ==> ColonFreeNames(GuestLines(start, txs)[i]))
    {
      GuestLineIsReport(GuestStateAfter(start, txs[..i]), txs[i].txId, txs[i].sender, Decode(txs[i].instructionData));
    }
  }

  lemma HostReports(H: HashFn, cap: u64, txs: seq<Transaction>)
    ensures AreReports(HostLines(H, cap, txs))
    ensures IdsWithoutColon(SerializeAll(txs)) ==> ColonFreeIds(HostLines(H, cap, txs))
    ensures SendersWithoutColon(SerializeAll(txs)) ==> ColonFreeSenders(HostLines(H, cap, txs))
  {
    forall i | 0 <= i < |txs|
      ensures IsReport(HostLines(H, cap, txs)[i]) && (':' !in txs[i].sender ==> ColonFreeNames(HostLines(H, cap, txs)[i]))
      ensures HostLines(H, cap, txs)[i].txId == SerializeAll(txs)[i].txId
      ensures txs[i].sender == SerializeAll(txs)[i].sender
    {
      HostLineIsReport(H, cap, i, txs[i], StateAfter(InitialState(txs), txs[..i]));
    }
  }

  /** What the verifier can look at: neither ids nor senders of the host's batch contain a colon. */
  predicate ColonFreeBatch(txs: seq<Transaction>) {
    IdsWithoutColon(SerializeAll(txs)) && SendersWithoutColon(SerializeAll(txs))
  }

  /** Either that, or an agreement about both batches. */
  predicate Readable(txs: seq<Transaction>, otherTxs: seq<SerializableTransaction>) {
    || ColonFreeBatch(txs)
    || (IdsWithoutColon(SerializeAll(txs)) && IdsWithoutColon(otherTxs))
    || (SendersWithoutColon(SerializeAll(txs)) && SendersWithoutColon(otherTxs))
  }

  // ----- What verifies, exactly -----

  /** The two runs have the same states at both ends and the same total, and their lines are
      hashed as lists of texts that no root tells apart. */
  ghost predicate Indistinguishable(H: HashFn, cap: u64, txs: seq<Transaction>, otherTxs: seq<SerializableTransaction>, start: State) {
    var seen, claimed := GuestLines(start, otherTxs), HostLines(H, cap, txs);
    && start == InitialState(txs) && GuestStateAfter(start, otherTxs) == StateAfter(InitialState(txs), txs)
    && Alike(TextsOf(claimed), TextsOf(seen)) && Sum(LineUnits(claimed)) == Sum(LineUnits(seen))
  }

  /** Two of the strings hashed for the roots or for the trace hashes of both runs collide. */
  ghost predicate RunsCollide(H: HashFn, cap: u64, txs: seq<Transaction>, otherTxs: seq<SerializableTransaction>, start: State) {
    || HashCollision(H, HashedFor(H, start) + HashedFor(H, InitialState(txs)))
    || HashCollision(H, HashedFor(H, GuestStateAfter(start, otherTxs)) + HashedFor(H, StateAfter(InitialState(txs), txs)))
    || HashCollision(H, HashedForTrace(H, HostLines(H, cap, txs)) + HashedForTrace(H, GuestLines(start, otherTxs)))
  }

  /** Runs that cannot be told apart verify, collision or not. */
  lemma IndistinguishableVerifies(H: HashFn, cap: u64, batchId: string, txs: seq<Transaction>, proof: Proof,
                                  input: ExecutionTraceInput, otherTxs: seq<SerializableTransaction>, start: State)
    requires Committed(H, proof.publicValues, input, otherTxs, start)
    requires Indistinguishable(H, cap, txs, otherTxs, start)
    ensures Verify(proof, true, HostTrace(H, cap, batchId, txs)).isValid
  {
    GuestRootOfLines(H, start, otherTxs);
    HostRootOfLines(H, cap, batchId, txs);
    AlikeRoots(H, "empty", TextsOf(HostLines(H, cap, txs)), TextsOf(GuestLines(start, otherTxs)));
  }

  lemma VerifiedIsIndistinguishable(H: HashFn, cap: u64, batchId: string, txs: seq<Transaction>, proof: Proof,
                                    input: ExecutionTraceInput, otherTxs: seq<SerializableTransaction>, start: State)
    requires HexDigests(H) && Committed(H, proof.publicValues, input, otherTxs, start)
    requires Verify(proof, true, HostTrace(H, cap, batchId, txs)).isValid
    ensures Indistinguishable(H, cap, txs, otherTxs, start) || RunsCollide(H, cap, txs, otherTxs, start)
  {
    GuestRootOfLines(H, start, otherTxs);
    HostRootOfLines(H, cap, batchId, txs);
    VerifiedRun(H, cap, batchId, txs, proof, input, otherTxs, start);
    TraceHashBinding(H, HostLines(H, cap, txs), GuestLines(start, otherTxs));
  }

  /** Short of a collision, verification is exactly that, for every batch and every run, with any
      ids and senders. */
  lemma VerifiesExactly(H: HashFn, cap: u64, batchId: string, txs: seq<Transaction>, proof: Proof,
                        input: ExecutionTraceInput, otherTxs: seq<SerializableTransaction>, start: State)
    requires HexDigests(H) && Committed(H, proof.publicValues, input, otherTxs, start)
    requires !RunsCollide(H, cap, txs, otherTxs, start)
    ensures Verify(proof, true, HostTrace(H, cap, batchId, txs)).isValid <==> Indistinguishable(H, cap, txs, otherTxs, start)
  {
    if Verify(proof, true, HostTrace(H, cap, batchId, txs)).isValid {
      VerifiedIsIndistinguishable(H, cap, batchId, txs, proof, input, otherTxs, start);
    }
    if Indistinguishable(H, cap, txs, otherTxs, start) {
      IndistinguishableVerifies(H, cap, batchId, txs, proof, input, otherTxs, start);
    }
  }

  /** For batches that can be read, of the lines instead of their texts. */
  lemma LinesDecide(H: HashFn, cap: u64, txs: seq<Transaction>, otherTxs: seq<SerializableTransaction>, start: State)
    requires Readable(txs, otherTxs)
    ensures Alike(TextsOf(HostLines(H, cap, txs)), TextsOf(GuestLines(start, otherTxs)))
       <==> Alike(HostLines(H, cap, txs), GuestLines(start, otherTxs))
  {
    GuestReports(start, otherTxs);
    HostReports(H, cap, txs);
    LinesAlike(HostLines(H, cap, txs), GuestLines(start, otherTxs));
  }

  // ----- What follows for the entries -----

  /** A failure that costs nothing and touches no account: an empty or short instruction. */
  predicate IsIdle(l: Line) { l == Line(l.txId, false, 0, [], []) }

  /** `longer` is `shorter`, followed by nothing but repeats of idle lines of `shorter`. */
  ghost predicate AddsIdleRepeats(longer: seq<Line>, shorter: seq<Line>) {
    Extends(longer, shorter) && forall i :: |shorter| <= i < |longer| ==> IsIdle(longer[i])
  }

  lemma {:induction false} ZeroSum(us: seq<nat>, i: nat)
    requires Sum(us) == 0 && i < |us|
    ensures us[i] == 0
  {
    if i < |us| - 1 {
      ZeroSum(us[..|us| - 1], i);
    }
  }

  /** Lines added without adding compute cost nothing each. */
  lemma AddedUnits(longer: seq<Line>, shorter: seq<Line>, i: nat)
    requires |shorter| <= i < |longer| && shorter == longer[..|shorter|]
    requires Sum(LineUnits(longer)) == Sum(LineUnits(shorter))
    ensures longer[i].compute == 0
  {
    var n, us := |shorter|, LineUnits(longer);
    assert us == us[..n] + us[n..] && us[..n] == LineUnits(shorter);
    SumConcat(us[..n], us[n..]);
    ZeroSum(us[n..], i - n);
  }

  lemma FreeGuestLineIsIdle(start: State, txs: seq<SerializableTransaction>, i: nat)
    requires i < |txs| && GuestLines(start, txs)[i].compute == 0
    ensures IsIdle(GuestLines(start, txs)[i])
  {}

  lemma ExtensionIsIdle(longer: seq<Line>, shorter: seq<Line>, start: State, txs: seq<SerializableTransaction>)
    requires Extends(longer, shorter) && Sum(LineUnits(longer)) == Sum(LineUnits(shorter))
    requires GuestLines(start, txs) == longer || GuestLines(start, txs) == shorter
    ensures AddsIdleRepeats(longer, shorter)
  {
    forall i | |shorter| <= i < |longer| ensures IsIdle(longer[i]) {
      AddedUnits(longer, shorter, i);
      assert longer[i] in shorter && longer[i] in GuestLines(start, txs);
      var j :| 0 <= j < |txs| && GuestLines(start, txs)[j] == longer[i];
      FreeGuestLineIsIdle(start, txs, j);
    }
  }

  /** What the verifier learns of every single transaction from the host's batch alone. If its ids and
      senders contain no colon, a run whose values verify reported the trace's ids, outcomes,
      compute and accounts, in the same order, up to repeats of idle lines behind the shorter of the
      two; or two of the strings hashed collide. Nothing is asked of the unseen run. */
  lemma VerifiedEntries(H: HashFn, cap: u64, batchId: string, txs: seq<Transaction>, proof: Proof,
                        input: ExecutionTraceInput, otherTxs: seq<SerializableTransaction>, start: State)
    requires HexDigests(H) && Committed(H, proof.publicValues, input, otherTxs, start)
    requires Verify(proof, true, HostTrace(H, cap, batchId, txs)).isValid && ColonFreeBatch(txs)
    ensures var seen, claimed := GuestLines(start, otherTxs), HostLines(H, cap, txs);
            || (Alike(claimed, seen) && if |claimed| <= |seen| then AddsIdleRepeats(seen, claimed) else AddsIdleRepeats(claimed, seen))
            || RunsCollide(H, cap, txs, otherTxs, start)
  {
    ReadableEntries(H, cap, batchId, txs, proof, input, otherTxs, start);
  }

  /** The same when ids of both batches, or senders of both, are known to contain no colon. */
  lemma ReadableEntries(H: HashFn, cap: u64, batchId: string, txs: seq<Transaction>, proof: Proof,
                        input: ExecutionTraceInput, otherTxs: seq<SerializableTransaction>, start: State)
    requires HexDigests(H) && Committed(H, proof.publicValues, input, otherTxs, start)
    requires Verify(proof, true, HostTrace(H, cap, batchId, txs)).isValid && Readable(txs, otherTxs)
    ensures var seen, claimed := GuestLines(start, otherTxs), HostLines(H, cap, txs);
            || (Alike(claimed, seen) && if |claimed| <= |seen| then AddsIdleRepeats(seen, claimed) else AddsIdleRepeats(claimed, seen))
            || RunsCollide(H, cap, txs, otherTxs, start)
  {
    VerifiedIsIndistinguishable(H, cap, batchId, txs, proof, input, otherTxs, start);
    if Indistinguishable(H, cap, txs, otherTxs, start) {
      LinesDecide(H, cap, txs, otherTxs, start);
      AlikeAddsIdle(GuestLines(start, otherTxs), HostLines(H, cap, txs), start, otherTxs);
    }
  }

  lemma AlikeAddsIdle(seen: seq<Line>, claimed: seq<Line>, start: State, otherTxs: seq<SerializableTransaction>)
    requires seen == GuestLines(start, otherTxs) && Alike(claimed, seen)
    requires Sum(LineUnits(claimed)) == Sum(LineUnits(seen))
    ensures if |claimed| <= |seen| then AddsIdleRepeats(seen, claimed) else AddsIdleRepeats(claimed, seen)
  {
    AlikeExtends(claimed, seen);
    if |claimed| <= |seen| {
      ExtensionIsIdle(seen, claimed, start, otherTxs);
    } else {
      ExtensionIsIdle(claimed, seen, start, otherTxs);
    }
  }

  lemma SameLength(longer: seq<Line>, shorter: seq<Line>)
    requires AddsIdleRepeats(longer, shorter)
    ensures |longer| == |shorter| ==> longer == shorter
    ensures (forall l :: l in shorter ==> !IsIdle(l)) ==> longer == shorter
  {
    assert longer[..|longer|] == longer;
    if |longer| > |shorter| {
      assert longer[|shorter|] in shorter && IsIdle(longer[|shorter|]);
    }
  }

  /** A verifier that also compares the counts, or whose trace records no failure, knows all lines. */
  lemma EqualEntries(H: HashFn, cap: u64, batchId: string, txs: seq<Transaction>, proof: Proof,
                     input: ExecutionTraceInput, otherTxs: seq<SerializableTransaction>, start: State)
    requires HexDigests(H) && Committed(H, proof.publicValues, input, otherTxs, start)
    requires Verify(proof, true, HostTrace(H, cap, batchId, txs)).isValid && Readable(txs, otherTxs)
    requires proof.publicValues.txCount == |txs| || HostTrace(H, cap, batchId, txs).failureCount == 0
    ensures GuestLines(start, otherTxs) == HostLines(H, cap, txs) || RunsCollide(H, cap, txs, otherTxs, start)
  {
    var seen, claimed := GuestLines(start, otherTxs), HostLines(H, cap, txs);
    ReadableEntries(H, cap, batchId, txs, proof, input, otherTxs, start);
    if !RunsCollide(H, cap, txs, otherTxs, start) {
      if |seen| != |claimed| {
        NoneIdle(H, cap, batchId, txs);
      }
      if |claimed| <= |seen| {
        SameLength(seen, claimed);
      } else {
        IdleInLonger(claimed, seen);
      }
    }
  }

  lemma IdleInLonger(longer: seq<Line>, shorter: seq<Line>)
    requires AddsIdleRepeats(longer, shorter) && |longer| > |shorter|
    ensures exists l :: l in longer && IsIdle(l)
  {
    assert longer[|shorter|] in longer && IsIdle(longer[|shorter|]);
  }

  lemma {:induction false} AllSucceeded(es: seq<TraceEntry>, i: nat)
    requires i < |es| == Successes(es)
    ensures es[i].success
  {
    if i < |es| - 1 {
      AllSucceeded(es[..|es| - 1], i);
    }
  }

  lemma NoneIdle(H: HashFn, cap: u64, batchId: string, txs: seq<Transaction>)
    requires HostTrace(H, cap, batchId, txs).failureCount == 0
    ensures forall l :: l in HostLines(H, cap, txs) ==> !IsIdle(l)
  {
    var es := HostEntries(H, cap, InitialState(txs), txs);
    forall i | 0 <= i < |es| ensures !IsIdle(HostLines(H, cap, txs)[i]) {
      AllSucceeded(es, i);
    }
  }

  // ----- Longer runs that verify -----

  predicate DoesNothing(data: seq<byte>) { Decode(data).Empty? || Decode(data).Short? }

  /** The input under which the guest accepts a run, and its proof of the host's batch. */
  ghost function OwnInput(H: HashFn, batchId: string, txs: seq<SerializableTransaction>, start: State): ExecutionTraceInput {
    var p := Recomputed(H, batchId, txs, start);
    ExecutionTraceInput(batchId, p.stateRootPre, p.stateRootPost, p.traceHash, p.totalCompute, p.txCount)
  }

  ghost function OwnProof(H: HashFn, batchId: string, txs: seq<SerializableTransaction>, start: State, t: ExecutionTrace): Proof {
    Proof(batchId, Recomputed(H, batchId, txs, start), Commitment(H, t))
  }

  /** The guest accepts this run, and its proof passes the check and all four comparisons against
      the trace of the host's batch. */
  ghost predicate Passes(H: HashFn, cap: u64, batchId: string, txs: seq<Transaction>, otherTxs: seq<SerializableTransaction>, start: State) {
    var t := HostTrace(H, cap, batchId, txs);
    var proof := OwnProof(H, batchId, otherTxs, start, t);
    && Committed(H, proof.publicValues, OwnInput(H, batchId, otherTxs, start), otherTxs, start)
    && Verify(proof, true, t).isValid && proof.publicValues.txCount == |otherTxs|
  }

  lemma OwnIsCommitted(H: HashFn, batchId: string, txs: seq<SerializableTransaction>, start: State, t: ExecutionTrace)
    ensures Committed(H, OwnProof(H, batchId, txs, start, t).publicValues, OwnInput(H, batchId, txs, start), txs, start)
    ensures OwnProof(H, batchId, txs, start, t).publicValues.txCount == |txs|
  {}

  lemma IndistinguishablePasses(H: HashFn, cap: u64, batchId: string, txs: seq<Transaction>,
                                otherTxs: seq<SerializableTransaction>, start: State)
    requires Indistinguishable(H, cap, txs, otherTxs, start)
    ensures Passes(H, cap, batchId, txs, otherTxs, start)
  {
    var t := HostTrace(H, cap, batchId, txs);
    OwnIsCommitted(H, batchId, otherTxs, start, t);
    IndistinguishableVerifies(H, cap, batchId, txs, OwnProof(H, batchId, otherTxs, start, t),
                              OwnInput(H, batchId, otherTxs, start), otherTxs, start);
  }

  function IdleLines(txs: seq<SerializableTransaction>): (ls: seq<Line>)
    ensures |ls| == |txs| && forall i :: 0 <= i < |txs| ==> ls[i] == Line(txs[i].txId, false, 0, [], [])
  {
    seq(|txs|, i requires 0 <= i < |txs| => Line(txs[i].txId, false, 0, [], []))
  }

  /** One transaction more, of a kind that does nothing, leaves state and reports before it alone
      and reports itself as anywhere. */
  lemma {:induction false} IdleRunExtends(start: State, txs: seq<SerializableTransaction>, tx: SerializableTransaction)
    requires DoesNothing(tx.instructionData)
    ensures GuestStateAfter(start, txs + [tx]) == GuestStateAfter(start, txs)
    ensures GuestLines(start, txs + [tx]) == GuestLines(start, txs) + [Line(tx.txId, false, 0, [], [])]
  {
    var all := txs + [tx];
    assert all[..|txs|] == txs;
    forall i | 0 <= i < |txs| ensures ReportAt(start, all, i) == ReportAt(start, txs, i) {
      assert all[..i] == txs[..i];
    }
  }

  lemma IdleLinesNext(txs: seq<SerializableTransaction>, tx: SerializableTransaction)
    ensures IdleLines(txs + [tx]) == IdleLines(txs) + [Line(tx.txId, false, 0, [], [])]
  {}

  lemma AddLast<T>(a: seq<T>, b: seq<T>, x: T)
    ensures a + (b + [x]) == a + b + [x]
  {}

  lemma {:induction false} IdleTailNext(start: State, txs: seq<SerializableTransaction>, tail: seq<SerializableTransaction>, tx: SerializableTransaction)
    requires DoesNothing(tx.instructionData)
    requires GuestStateAfter(start, txs + tail) == GuestStateAfter(start, txs)
    requires GuestLines(start, txs + tail) == GuestLines(start, txs) + IdleLines(tail)
    ensures GuestStateAfter(start, txs + (tail + [tx])) == GuestStateAfter(start, txs)
    ensures GuestLines(start, txs + (tail + [tx])) == GuestLines(start, txs) + IdleLines(tail + [tx])
  {
    IdleRunExtends(start, txs + tail, tx);
    AddLast(txs, tail, tx);
    IdleLinesNext(tail, tx);
    AddLast(GuestLines(start, txs), IdleLines(tail), Line(tx.txId, false, 0, [], []));
  }

  lemma NoTail(start: State, txs: seq<SerializableTransaction>)
    ensures txs + [] == txs && GuestLines(start, txs) == GuestLines(start, txs) + IdleLines([])
  {}

  lemma {:induction false} IdleTailExtends(start: State, txs: seq<SerializableTransaction>, tail: seq<SerializableTransaction>)
    requires forall i :: 0 <= i < |tail| ==> DoesNothing(tail[i].instructionData)
    ensures GuestStateAfter(start, txs + tail) == GuestStateAfter(start, txs)
    ensures GuestLines(start, txs + tail) == GuestLines(start, txs) + IdleLines(tail)
    decreases |tail|
  {
    if tail == [] {
      NoTail(start, txs);
    } else {
      var init, last := tail[..|tail| - 1], tail[|tail| - 1];
      assert tail == init + [last];
      IdleTailExtends(start, txs, init);
      IdleTailNext(start, txs, init, last);
    }
  }

  lemma {:induction false} IdleLinesAreFree(ls: seq<Line>, tail: seq<Line>)
    requires forall i :: 0 <= i < |tail| ==> tail[i].compute == 0
    ensures Sum(LineUnits(ls + tail)) == Sum(LineUnits(ls))
    decreases |tail|
  {
    if tail == [] {
      assert ls + tail == ls;
    } else {
      var n := |tail| - 1;
      IdleLinesAreFree(ls, tail[..n]);
      assert LineUnits(ls + tail) == LineUnits(ls + tail[..n]) + [0];
      SumSnoc(LineUnits(ls + tail[..n]), 0);
    }
  }

  lemma {:induction false} FaithfulLines(H: HashFn, cap: u64, txs: seq<Transaction>)
    requires AllFaithful(cap, InitialState(txs), txs)
    ensures GuestLines(InitialState(txs), SerializeAll(txs)) == HostLines(H, cap, txs)
  {
    var start := InitialState(txs);
    forall i | 0 <= i < |txs| ensures GuestLines(start, SerializeAll(txs))[i] == HostLines(H, cap, txs)[i] {
      EntriesCompare(H, cap, start, txs, i);
    }
  }

  lemma {:induction false} IdleHostLine(H: HashFn, cap: u64, txs: seq<Transaction>, i: nat)
    requires i < |txs|
    ensures DoesNothing(txs[i].instructionData) ==> HostLines(H, cap, txs)[i] == Line(txs[i].txId, false, 0, [], [])
    ensures Faithful(cap, StateAfter(InitialState(txs), txs[..i]), txs[i]) && IsIdle(HostLines(H, cap, txs)[i]) ==>
              DoesNothing(txs[i].instructionData)
  {}

  /** There are transactions to repeat, not all of them, and all of these do nothing. */
  predicate EndsIdle(txs: seq<Transaction>) {
    txs != [] && Block(|txs|) < |txs|
    && forall i :: |txs| - Block(|txs|) <= i < |txs| ==> DoesNothing(txs[i].instructionData)
  }

  /** `lines` report `run`, whose last block does nothing. */
  predicate IdleBlock(run: seq<SerializableTransaction>, lines: seq<Line>) {
    && |run| == |lines| > 0
    && forall i :: |run| - Block(|run|) <= i < |run| ==>
         DoesNothing(run[i].instructionData) && lines[i] == Line(run[i].txId, false, 0, [], [])
  }

  lemma {:induction false} IdleBlockLines(run: seq<SerializableTransaction>, lines: seq<Line>, at: nat)
    requires IdleBlock(run, lines) && at == |run| - Block(|run|)
    ensures lines[at..] == IdleLines(run[at..])
    ensures forall i :: 0 <= i < |run[at..]| ==> DoesNothing(run[at..][i].instructionData)
  {}

  lemma {:induction false} RepeatedLines(start: State, run: seq<SerializableTransaction>, lines: seq<Line>)
    requires IdleBlock(run, lines) && GuestLines(start, run) == lines
    ensures GuestLines(start, Repeated(run)) == Repeated(lines)
    ensures GuestStateAfter(start, Repeated(run)) == GuestStateAfter(start, run)
  {
    var at := |run| - Block(|run|);
    IdleBlockLines(run, lines, at);
    IdleTailExtends(start, run, run[at..]);
  }

  lemma {:induction false} RepeatedTotal(run: seq<SerializableTransaction>, lines: seq<Line>)
    requires IdleBlock(run, lines)
    ensures Sum(LineUnits(Repeated(lines))) == Sum(LineUnits(lines))
  {
    var at := |run| - Block(|run|);
    IdleBlockLines(run, lines, at);
    FreeLines(run[at..]);
    IdleLinesAreFree(lines, lines[at..]);
  }

  lemma FreeLines(txs: seq<SerializableTransaction>)
    ensures forall i :: 0 <= i < |IdleLines(txs)| ==> IdleLines(txs)[i].compute == 0
  {}

  lemma {:induction false} HostIdleBlock(H: HashFn, cap: u64, txs: seq<Transaction>)
    requires EndsIdle(txs)
    ensures IdleBlock(SerializeAll(txs), HostLines(H, cap, txs))
  {
    var run, lines := SerializeAll(txs), HostLines(H, cap, txs);
    forall i | |txs| - Block(|txs|) <= i < |txs|
      ensures DoesNothing(run[i].instructionData) && lines[i] == Line(run[i].txId, false, 0, [], [])
    {
      IdleHostLine(H, cap, txs, i);
    }
  }

  lemma SameEnd(txs: seq<Transaction>)
    ensures GuestStateAfter(InitialState(txs), SerializeAll(txs)) == StateAfter(InitialState(txs), txs)
  {
    LedgersAgree(InitialState(txs), txs, |txs|);
    TakeAll(txs);
    TakeAll(SerializeAll(txs));
  }

  lemma AlikeRepeated(ls: seq<Line>)
    requires ls != [] && Block(|ls|) < |ls|
    ensures Alike(TextsOf(ls), TextsOf(Repeated(ls)))
  {
    RepeatedBlock(ls);
    AlikeTexts(LineText, ls, Repeated(ls));
  }

  lemma {:induction false} RepeatedRunIndistinguishable(H: HashFn, cap: u64, txs: seq<Transaction>)
    requires EndsIdle(txs) && AllFaithful(cap, InitialState(txs), txs)
    ensures Indistinguishable(H, cap, txs, Repeated(SerializeAll(txs)), InitialState(txs))
  {
    FaithfulLines(H, cap, txs);
    HostIdleBlock(H, cap, txs);
    RepeatedLines(InitialState(txs), SerializeAll(txs), HostLines(H, cap, txs));
    RepeatedTotal(SerializeAll(txs), HostLines(H, cap, txs));
    SameEnd(txs);
    AlikeRepeated(HostLines(H, cap, txs));
  }

  /** For every batch that host and guest report alike and whose last block does nothing: the guest
      run that repeats this block verifies against the trace of the batch, all four comparisons
      included, although it is longer. */
  lemma {:induction false} RepeatedRunVerifies(H: HashFn, cap: u64, batchId: string, txs: seq<Transaction>)
    returns (longer: seq<SerializableTransaction>)
    requires EndsIdle(txs) && AllFaithful(cap, InitialState(txs), txs)
    ensures longer == Repeated(SerializeAll(txs)) && |longer| == |txs| + Block(|txs|)
    ensures Passes(H, cap, batchId, txs, longer, InitialState(txs))
  {
    longer := Repeated(SerializeAll(txs));
    RepeatedRunIndistinguishable(H, cap, txs);
    IndistinguishablePasses(H, cap, batchId, txs, longer, InitialState(txs));
  }

  lemma {:induction false} NothingIsFaithful(cap: u64, start: State, txs: seq<Transaction>)
    requires forall i :: 0 <= i < |txs| ==> DoesNothing(txs[i].instructionData)
    ensures AllFaithful(cap, start, txs)
  {}

  lemma {:induction false} ThreeEndIdle(three: seq<Transaction>)
    requires |three| == 3 && forall i :: 0 <= i < 3 ==> DoesNothing(three[i].instructionData)
    ensures EndsIdle(three)
  {}

  lemma ThreeRepeated(tx: Transaction)
    ensures Repeated(SerializeAll([tx, tx, tx])) == SerializeAll([tx, tx, tx, tx])
  {
    assert Block(3) == 1;
  }

  /** Four truncated transfers verify against the trace of three. */
  lemma FourForThree(H: HashFn, cap: u64, batchId: string, tx: Transaction)
    requires tx.instructionData == [0]
    ensures var three := [tx, tx, tx];
            Passes(H, cap, batchId, three, SerializeAll([tx, tx, tx, tx]), InitialState(three))
  {
    var three := [tx, tx, tx];
    ThreeEndIdle(three);
    NothingIsFaithful(cap, InitialState(three), three);
    var longer := RepeatedRunVerifies(H, cap, batchId, three);
    ThreeRepeated(tx);
  }

  // ----- No others, when ids differ -----

  ghost predicate DistinctIds(txs: seq<Transaction>) {
    forall i, j :: 0 <= i < j < |txs| ==> txs[i].txId != txs[j].txId
  }

  lemma DistinctLines(H: HashFn, cap: u64, txs: seq<Transaction>)
    requires DistinctIds(txs)
    ensures Distinct(HostLines(H, cap, txs))
  {
    var ls := HostLines(H, cap, txs);
    assert forall i :: 0 <= i < |txs| ==> ls[i].txId == txs[i].txId;
  }

  /** Of a trace without repeated lines no shorter run is left, and a longer one begins by
      repeating its last block, which is idle. */
  lemma OnlyIdleBlocks(seen: seq<Line>, claimed: seq<Line>)
    requires Alike(claimed, seen) && Distinct(claimed)
    requires if |claimed| <= |seen| then AddsIdleRepeats(seen, claimed) else AddsIdleRepeats(claimed, seen)
    ensures |claimed| <= |seen|
    ensures |claimed| < |seen| ==>
      && Block(|claimed|) < |claimed| && |claimed| + Block(|claimed|) <= |seen|
      && Repeated(claimed) == seen[..|claimed| + Block(|claimed|)]
      && forall i :: |claimed| - Block(|claimed|) <= i < |claimed| ==> IsIdle(claimed[i])
  {
    if |claimed| > |seen| {
      NotBefore(claimed, |seen|);
    } else if |claimed| < |seen| {
      OnlyBlocks(claimed, seen);
      var n, b := |claimed|, Block(|claimed|);
      forall i | n - b <= i < n ensures IsIdle(claimed[i]) {
        assert claimed[i] == Repeated(claimed)[i + b] == seen[i + b];
      }
    }
  }

  /** So for batches with distinct ids the unseen run is at least as long as the trace. */
  lemma DistinctEntries(H: HashFn, cap: u64, batchId: string, txs: seq<Transaction>, proof: Proof,
                        input: ExecutionTraceInput, otherTxs: seq<SerializableTransaction>, start: State)
    requires HexDigests(H) && Committed(H, proof.publicValues, input, otherTxs, start)
    requires Verify(proof, true, HostTrace(H, cap, batchId, txs)).isValid && Readable(txs, otherTxs) && DistinctIds(txs)
    ensures AddsIdleRepeats(GuestLines(start, otherTxs), HostLines(H, cap, txs)) || RunsCollide(H, cap, txs, otherTxs, start)
  {
    ReadableEntries(H, cap, batchId, txs, proof, input, otherTxs, start);
    if !RunsCollide(H, cap, txs, otherTxs, start) {
      DistinctLines(H, cap, txs);
      OnlyIdleBlocks(GuestLines(start, otherTxs), HostLines(H, cap, txs));
    }
  }

  lemma {:induction false} LongerRunEndsIdle(H: HashFn, cap: u64, txs: seq<Transaction>, otherTxs: seq<SerializableTransaction>)
    requires AllFaithful(cap, InitialState(txs), txs) && ColonFreeBatch(txs) && DistinctIds(txs)
    requires |otherTxs| > |txs| && Indistinguishable(H, cap, txs, otherTxs, InitialState(txs))
    ensures EndsIdle(txs)
  {
    var seen, claimed := GuestLines(InitialState(txs), otherTxs), HostLines(H, cap, txs);
    LinesDecide(H, cap, txs, otherTxs, InitialState(txs));
    AlikeAddsIdle(seen, claimed, InitialState(txs), otherTxs);
    DistinctLines(H, cap, txs);
    OnlyIdleBlocks(seen, claimed);
    forall i | |txs| - Block(|txs|) <= i < |txs| ensures DoesNothing(txs[i].instructionData) {
      IdleHostLine(H, cap, txs, i);
    }
  }

  /** Which batches leave the count open: with distinct ids and no colons, some longer run cannot be
      told from a faithfully reported batch if and only if the last block of the batch, the largest
      power of two that divides its length, is not all of it and does nothing. */
  lemma {:induction false} LongerRunExactly(H: HashFn, cap: u64, txs: seq<Transaction>)
    requires AllFaithful(cap, InitialState(txs), txs) && ColonFreeBatch(txs) && DistinctIds(txs)
    ensures (exists otherTxs :: |otherTxs| > |txs| && Indistinguishable(H, cap, txs, otherTxs, InitialState(txs)))
       <==> EndsIdle(txs)
  {
    if EndsIdle(txs) {
      RepeatedRunIndistinguishable(H, cap, txs);
      assert |Repeated(SerializeAll(txs))| > |txs|;
    }
    if otherTxs :| |otherTxs| > |txs| && Indistinguishable(H, cap, txs, otherTxs, InitialState(txs)) {
      LongerRunEndsIdle(H, cap, txs, otherTxs);
    }
  }

  // ----- A different run of the same length -----

  lemma PaidHostLine(H: HashFn, cap: u64, tx: Transaction, n: u64)
    requires cap >= 5000 && Decode(tx.instructionData) == Transfer(0, n)
    ensures HostLines(H, cap, [tx]) == [PaidLine(tx.txId, tx.sender, n, 5000)]
  {
    assert HostLines(H, cap, [tx])[0] == LineOf(EntryFor(H, cap, 0, tx, StateAfter(InitialState([tx]), [tx][..0])));
  }

  lemma PaidGuestLine(start: State, tx: SerializableTransaction, n: u64)
    requires Decode(tx.instructionData) == Transfer(0, n)
    ensures GuestLines(start, [tx]) == [PaidLine(tx.txId, tx.sender, n, 5000)]
  {
    assert GuestLines(start, [tx])[0] == LineOfReport(tx.txId, ReportAt(start, [tx], 0));
  }

  lemma OneStep(start: State, tx: Transaction, other: SerializableTransaction)
    ensures StateAfter(start, [tx]) == Apply(start, tx.sender, Decode(tx.instructionData))
    ensures GuestStateAfter(start, [other]) == Apply(start, other.sender, Decode(other.instructionData))
  {
    assert [tx][..0] == [] && [other][..0] == [];
  }

  /** Moving nothing to an account is the same for its sender, who is there, and for the account. */
  lemma NothingMoved(start: State, s: string, n: u64)
    requires s in start && s != AccountKey(n) && AccountKey(n) !in start
    ensures Apply(start, s, Transfer(0, n)) == Apply(start, AccountKey(n), Transfer(0, n))
  {
    var x := AccountKey(n);
    assert start[s := start[s]] == start;
    assert Apply(start, s, Transfer(0, n)) == start[x := 0];
  }

  /** Colons make the verifier accept the wrong transaction, whatever the hash: for every first id
      and every account there is a batch of one transfer by a sender with colons, and a guest run of
      one transfer by that account under another id, of which all four comparisons pass. */
  lemma TradedPlaces(H: HashFn, cap: u64, batchId: string, id: string, n: u64)
    returns (tx: Transaction, other: SerializableTransaction)
    requires cap >= 5000
    ensures tx.txId == id != other.txId && tx.sender != other.sender == AccountKey(n)
    ensures Decode(tx.instructionData) == Decode(other.instructionData) == Transfer(0, n)
    ensures Passes(H, cap, batchId, [tx], [other], InitialState([tx]))
    ensures GuestLines(InitialState([tx]), [other]) != HostLines(H, cap, [tx])
  {
    var x := AccountKey(n);
    var s, data := LongSender(x, n, 5000), Encode(Transfer(0, n));
    DecodeEncode(Transfer(0, n));
    tx := Transaction(id, 0, s, "program", data, Normal, 0);
    other := SerializableTransaction(LongId(id, x, n, 5000), x, data);
    ColonHidesSender(id, x, n, 5000);
    assert s[0] == ':' && x[0] == 'a';
    OneSwapped(H, cap, tx, other, n);
    IndistinguishablePasses(H, cap, batchId, [tx], [other], InitialState([tx]));
  }

  lemma SwappedLines(H: HashFn, cap: u64, tx: Transaction, other: SerializableTransaction, n: u64)
    requires cap >= 5000 && other.sender == AccountKey(n)
    requires Decode(tx.instructionData) == Decode(other.instructionData) == Transfer(0, n)
    requires LineText(PaidLine(tx.txId, tx.sender, n, 5000)) == LineText(PaidLine(other.txId, other.sender, n, 5000))
    ensures TextsOf(HostLines(H, cap, [tx])) == TextsOf(GuestLines(InitialState([tx]), [other]))
    ensures LineUnits(HostLines(H, cap, [tx])) == LineUnits(GuestLines(InitialState([tx]), [other]))
    ensures HostLines(H, cap, [tx])[0].txId == tx.txId && GuestLines(InitialState([tx]), [other])[0].txId == other.txId
  {
    PaidHostLine(H, cap, tx, n);
    PaidGuestLine(InitialState([tx]), other, n);
  }

  lemma SwappedStates(tx: Transaction, other: SerializableTransaction, n: u64)
    requires tx.sender != other.sender == AccountKey(n)
    requires Decode(tx.instructionData) == Decode(other.instructionData) == Transfer(0, n)
    ensures GuestStateAfter(InitialState([tx]), [other]) == StateAfter(InitialState([tx]), [tx])
  {
    assert tx in [tx];
    NothingMoved(InitialState([tx]), tx.sender, n);
    OneStep(InitialState([tx]), tx, other);
  }

  lemma OneSwapped(H: HashFn, cap: u64, tx: Transaction, other: SerializableTransaction, n: u64)
    requires cap >= 5000 && tx.sender != other.sender == AccountKey(n)
    requires Decode(tx.instructionData) == Decode(other.instructionData) == Transfer(0, n)
    requires var l, m := PaidLine(tx.txId, tx.sender, n, 5000), PaidLine(other.txId, other.sender, n, 5000);
             l.txId != m.txId && LineText(l) == LineText(m)
    ensures Indistinguishable(H, cap, [tx], [other], InitialState([tx]))
    ensures GuestLines(InitialState([tx]), [other]) != HostLines(H, cap, [tx])
  {
    SwappedLines(H, cap, tx, other, n);
    SwappedStates(tx, other, n);
    AlikeItself(TextsOf(HostLines(H, cap, [tx])));
  }

  lemma AlikeItself<E>(es: seq<E>)
    ensures Alike(es, es)
  {}
}
