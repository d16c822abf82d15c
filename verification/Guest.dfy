/** The zkVM guest: its own implementation of the instruction set, its batch loop, and the
    assertions of `main`. */
module Guest {
  import opened Basics
  import opened OrderedMap
  import opened Merkle
  import opened StateCommitment
  import opened Machine
  import opened Trace

  datatype SerializableTransaction = SerializableTransaction(txId: string, sender: string, instructionData: seq<byte>)

  datatype ExecutionTraceInput = ExecutionTraceInput(
    batchId: string, stateRootPre: string, stateRootPost: string, traceHash: string,
    totalCompute: nat, txCount: nat)

  datatype PublicInputs = PublicInputs(
    batchId: string, stateRootPre: string, stateRootPost: string, traceHash: string,
    totalCompute: nat, txCount: nat)

  datatype Report = Report(read: seq<string>, written: seq<string>, compute: u64, success: bool)

  /** What the guest reports for an instruction: unlike the host, it charges for some failures
      and names the sender it read. */
  function GuestReport(st: State, sender: string, op: Op): Report {
    match op
    case Empty => Report([], [], 0, false)
    case Short(_) => Report([], [], 0, false)
    case Unknown(_) => Report([], [], 500, false)
    case _ =>
      if Insufficient(st, sender, op) then Report([sender], [], 5000, false)
      else Report(Reads(sender, op), Writes(sender, op), Cost(op), true)
  }

  method ExecuteInstruction(state: BTreeMap, sender: string, data: seq<byte>) returns (r: Report)
    modifies state
    ensures state.Contents() == Apply(old(state.Contents()), sender, Decode(data))
    ensures r == GuestReport(old(state.Contents()), sender, Decode(data))
  {
    if |data| == 0 {
      return Report([], [], 0, false);
    }
    var opcode, args := data[0], data[1..];
    if opcode == 0 {
      r := Transfer(state, sender, args);
    } else if opcode == 1 {
      if |args| < 16 {
        return Report([], [], 0, false);
      }
      var key, value := DataKey(Word(args, 0)), Word(args, 8);
      state.Insert(key, value);
      r := Report([], [key], 3000, true);
    } else if opcode == 2 {
      if |args| < 16 {
        return Report([], [], 0, false);
      }
      var key, delta := DataKey(Word(args, 0)), Word(args, 8);
      var value := state.GetOrZero(key);
      state.Insert(key, SaturatingAdd(value, delta));
      r := Report([key], [key], 2000, true);
    } else if opcode == 3 {
      r := Report([], [], 1000, true);
    } else {
      r := Report([], [], 500, false);
    }
  }

  /** The opcode 0 arm. */
  method Transfer(state: BTreeMap, sender: string, args: seq<byte>) returns (r: Report)
    modifies state
    ensures state.Contents() == Apply(old(state.Contents()), sender, TransferOp(args))
    ensures r == GuestReport(old(state.Contents()), sender, TransferOp(args))
  {
    if |args| < 16 {
      return Report([], [], 0, false);
    }
    var amount, target := Word(args, 0), AccountKey(Word(args, 8));
    var balance := state.GetOrZero(sender);
    if balance < amount {
      return Report([sender], [], 5000, false);
    }
    Move(state, sender, target, amount);
    r := Report([sender, target], [sender, target], 5000, true);
  }

  // ----- The batch loop -----

  function GuestStateAfter(st: State, txs: seq<SerializableTransaction>): State {
    if txs == [] then st
    else
      var last := txs[|txs| - 1];
      Apply(GuestStateAfter(st, txs[..|txs| - 1]), last.sender, Decode(last.instructionData))
  }

  function ReportAt(st: State, txs: seq<SerializableTransaction>, i: nat): Report
    requires i < |txs|
  {
    GuestReport(GuestStateAfter(st, txs[..i]), txs[i].sender, Decode(txs[i].instructionData))
  }

  function GuestUnits(st: State, txs: seq<SerializableTransaction>): (us: seq<nat>)
    ensures |us| == |txs| && forall i :: 0 <= i < |txs| ==> us[i] == ReportAt(st, txs, i).compute
  {
    seq(|txs|, i requires 0 <= i < |txs| => ReportAt(st, txs, i).compute)
  }

  function ReportHash(H: HashFn, txId: string, r: Report): string {
    HashTraceEntry(H, txId, r.success, r.compute, r.read, r.written)
  }

  function GuestHashes(H: HashFn, st: State, txs: seq<SerializableTransaction>): (hs: seq<string>)
    ensures |hs| == |txs|
    ensures forall i :: 0 <= i < |txs| ==> hs[i] == ReportHash(H, txs[i].txId, ReportAt(st, txs, i))
  {
    seq(|txs|, i requires 0 <= i < |txs| => ReportHash(H, txs[i].txId, ReportAt(st, txs, i)))
  }

  lemma GuestNext(st: State, txs: seq<SerializableTransaction>, i: nat)
    requires i < |txs|
    ensures GuestStateAfter(st, txs[..i + 1])
         == Apply(GuestStateAfter(st, txs[..i]), txs[i].sender, Decode(txs[i].instructionData))
  {
    assert txs[..i + 1][..i] == txs[..i];
  }

  method ExecuteBatch(H: HashFn, initialState: BTreeMap, txs: seq<SerializableTransaction>)
    returns (pre: string, post: string, totalCompute: nat, entryHashes: seq<string>)
    ensures pre == StateRoot(H, initialState.Contents())
    ensures post == StateRoot(H, GuestStateAfter(initialState.Contents(), txs))
    ensures totalCompute == Sum(GuestUnits(initialState.Contents(), txs))
    ensures entryHashes == GuestHashes(H, initialState.Contents(), txs)
  {
    ghost var start := initialState.Contents();
    ghost var hashes, units := GuestHashes(H, start, txs), GuestUnits(start, txs);
    var state := new BTreeMap.Clone(initialState);
    pre := ComputeStateRoot(H, state);
    totalCompute, entryHashes := 0, [];
    for i := 0 to |txs|
      invariant fresh(state) && state.Contents() == GuestStateAfter(start, txs[..i])
      invariant totalCompute == Sum(units[..i]) && entryHashes == hashes[..i]
    {
      GuestNext(start, txs, i);
      var r := ExecuteInstruction(state, txs[i].sender, txs[i].instructionData);
      totalCompute := totalCompute + r.compute;
      TakeNext(units, i);
      SumSnoc(units[..i], units[i]);
      TakeNext(hashes, i);
      entryHashes := entryHashes + [ReportHash(H, txs[i].txId, r)];
    }
    TakeAll(txs);
    TakeAll(hashes);
    TakeAll(units);
    post := ComputeStateRoot(H, state);
  }

  // ----- main -----

  /** The public values a run commits, whatever it is compared with. */
  ghost function Recomputed(H: HashFn, batchId: string, txs: seq<SerializableTransaction>, start: State): PublicInputs {
    PublicInputs(batchId, StateRoot(H, start), StateRoot(H, GuestStateAfter(start, txs)),
                 Root(H, GuestHashes(H, start, txs)), Sum(GuestUnits(start, txs)), |txs|)
  }

  /** The five assertions hold. */
  ghost predicate Agrees(p: PublicInputs, trace: ExecutionTraceInput) {
    && p.stateRootPre == trace.stateRootPre
    && p.stateRootPost == trace.stateRootPost
    && p.traceHash == trace.traceHash
    && p.totalCompute == trace.totalCompute
    && p.txCount == trace.txCount
  }

  /** `main`: the committed public inputs, or `None` when an assertion panics. */
  ghost function GuestMain(H: HashFn, trace: ExecutionTraceInput, txs: seq<SerializableTransaction>, start: State): Option<PublicInputs> {
    var p := Recomputed(H, trace.batchId, txs, start);
    if Agrees(p, trace) then Some(p) else None
  }

  method RunMain(H: HashFn, trace: ExecutionTraceInput, txs: seq<SerializableTransaction>, initialState: BTreeMap)
    returns (r: Option<PublicInputs>)
    ensures r == GuestMain(H, trace, txs, initialState.Contents())
  {
    var pre, post, compute, entryHashes := ExecuteBatch(H, initialState, txs);
    var traceHash, _, _ := MerkleRoot(H, entryHashes);
    if pre != trace.stateRootPre || post != trace.stateRootPost || traceHash != trace.traceHash
      || compute != trace.totalCompute || |txs| != trace.txCount {
      return None;
    }
    r := Some(PublicInputs(trace.batchId, pre, post, traceHash, compute, |txs|));
  }

  // ----- Spelled out -----

  /** `main` accepts exactly when all five numbers and digests are the trace's, and then commits
      them under the trace's batch id. */
  lemma MainExactly(H: HashFn, trace: ExecutionTraceInput, txs: seq<SerializableTransaction>, start: State)
    ensures var r := GuestMain(H, trace, txs, start);
            && (r.Some? <==>
                  && StateRoot(H, start) == trace.stateRootPre
                  && StateRoot(H, GuestStateAfter(start, txs)) == trace.stateRootPost
                  && Root(H, GuestHashes(H, start, txs)) == trace.traceHash
                  && Sum(GuestUnits(start, txs)) == trace.totalCompute
                  && |txs| == trace.txCount)
            && (r.Some? ==> r.value == PublicInputs(trace.batchId, trace.stateRootPre, trace.stateRootPost,
                                                    trace.traceHash, trace.totalCompute, trace.txCount))
  {}

  /** What the guest charges for a failure, and which accounts it names. */
  lemma GuestFailures(st: State, sender: string, data: seq<byte>)
    ensures var r := GuestReport(st, sender, Decode(data));
            && (data == [] || (data[0] <= 2 && |data| < 17) ==> r == Report([], [], 0, false))
            && (data != [] && data[0] > 3 ==> r == Report([], [], 500, false))
            && (|data| >= 17 && data[0] == 0 && Lookup(st, sender) < Lowest(data, 1) ==> r == Report([sender], [], 5000, false))
            && (!r.success ==> data == [] || data[0] > 3 || (data[0] <= 2 && |data| < 17)
                               || (data[0] == 0 && Lookup(st, sender) < Lowest(data, 1)))
  {
    DecodesBytes(data);
  }
}
