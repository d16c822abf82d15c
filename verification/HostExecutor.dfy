/** The host executor: opcode handlers that update the ledger in place, and the batch loops
    that record one trace entry per transaction. */
module HostExecutor {
  import opened Basics
  import opened OrderedMap
  import opened Merkle
  import opened StateCommitment
  import opened Machine
  import opened Trace
  import Text

  datatype Outcome = Executed(read: seq<string>, written: seq<string>, compute: u64) | Rejected(error: ExecError)

  /** What the host reports for an instruction. */
  function HostOutcome(failOnInvalid: bool, st: State, sender: string, op: Op): Outcome {
    match op
    case Empty => Rejected(InvalidOpcode(255))
    case Short(opcode) => Rejected(InvalidOpcode(opcode))
    case Unknown(opcode) => if failOnInvalid then Rejected(InvalidOpcode(opcode)) else Executed([], [], 500)
    case _ =>
      if Insufficient(st, sender, op) then Rejected(InsufficientBalance(op.amount, Lookup(st, sender)))
      else Executed(Reads(sender, op), Writes(sender, op), Cost(op))
  }

  class DeterministicExecutor {
    const maxCuPerTx: u64
    const failOnInvalid: bool

    constructor (maxCuPerTx: u64)
      ensures this.maxCuPerTx == maxCuPerTx && failOnInvalid
    {
      this.maxCuPerTx := maxCuPerTx;
      failOnInvalid := true;
    }

    constructor WithFailOnInvalid(maxCuPerTx: u64, fail: bool)
      ensures this.maxCuPerTx == maxCuPerTx && failOnInvalid == fail
    {
      this.maxCuPerTx := maxCuPerTx;
      failOnInvalid := fail;
    }

    method ExecuteInstruction(state: BTreeMap, sender: string, data: seq<byte>) returns (r: Outcome)
      modifies state
      ensures state.Contents() == Apply(old(state.Contents()), sender, Decode(data))
      ensures r == HostOutcome(failOnInvalid, old(state.Contents()), sender, Decode(data))
    {
      if |data| == 0 {
        return Rejected(InvalidOpcode(255));
      }
      var opcode, args := data[0], data[1..];
      if opcode == 0 {
        r := ExecuteTransfer(state, sender, args);
      } else if opcode == 1 {
        r := ExecuteSetData(state, sender, args);
      } else if opcode == 2 {
        r := ExecuteIncrement(state, sender, args);
      } else if opcode == 3 {
        r := Executed([], [], 1000);
      } else if failOnInvalid {
        r := Rejected(InvalidOpcode(opcode));
      } else {
        r := Executed([], [], 500);
      }
    }

    method ExecuteTransfer(state: BTreeMap, sender: string, args: seq<byte>) returns (r: Outcome)
      modifies state
      ensures state.Contents() == Apply(old(state.Contents()), sender, TransferOp(args))
      ensures r == HostOutcome(failOnInvalid, old(state.Contents()), sender, TransferOp(args))
    {
      if |args| < 16 {
        return Rejected(InvalidOpcode(0));
      }
      var amount, target := Word(args, 0), AccountKey(Word(args, 8));
      var balance := state.GetOrZero(sender);
      if balance < amount {
        return Rejected(InsufficientBalance(amount, balance));
      }
      Move(state, sender, target, amount);
      r := Executed([sender, target], [sender, target], 5000);
    }

    method ExecuteSetData(state: BTreeMap, ghost sender: string, args: seq<byte>) returns (r: Outcome)
      modifies state
      ensures state.Contents() == Apply(old(state.Contents()), sender, SetDataOp(args))
      ensures r == HostOutcome(failOnInvalid, old(state.Contents()), sender, SetDataOp(args))
    {
      if |args| < 16 {
        return Rejected(InvalidOpcode(1));
      }
      var key, value := DataKey(Word(args, 0)), Word(args, 8);
      state.Insert(key, value);
      r := Executed([], [key], 3000);
    }

    method ExecuteIncrement(state: BTreeMap, ghost sender: string, args: seq<byte>) returns (r: Outcome)
      modifies state
      ensures state.Contents() == Apply(old(state.Contents()), sender, IncrementOp(args))
      ensures r == HostOutcome(failOnInvalid, old(state.Contents()), sender, IncrementOp(args))
    {
      if |args| < 16 {
        return Rejected(InvalidOpcode(2));
      }
      var key, delta := DataKey(Word(args, 0)), Word(args, 8);
      var value := state.GetOrZero(key);
      state.Insert(key, SaturatingAdd(value, delta));
      r := Executed([key], [key], 2000);
    }

    /** `Executor::execute`: without the transactions at hand, every id runs a no-op. */
    method Execute(H: HashFn, batchId: string, txIds: seq<string>) returns (trace: ExecutionTrace)
      ensures trace == DeterministicTrace(H, maxCuPerTx, batchId, txIds)
    {
      ghost var txs := NoopTransactions(txIds);
      var state := FundSenders(SendersOf(NoopTransactions(txIds)));
      ghost var start := state.Contents();
      ghost var es := Relabelled(HostEntries(H, maxCuPerTx, start, txs));
      var builder := new TraceBuilder(H, batchId, state);
      for i := 0 to |txIds|
        invariant fresh(state) && state.Contents() == start
        invariant fresh(builder) && builder.Valid() && builder.batchId == batchId
        invariant builder.preStateRoot == StateRoot(H, start) && builder.entries == es[..i]
      {
        NoopsKeepState(start, txIds, i);
        ExecuteNoop(H, state, builder, i, txIds[i]);
        TakeNext(es, i);
      }
      NoopsKeepState(start, txIds, |txIds|);
      TakeAll(txs);
      TakeAll(es);
      trace := builder.Build(H, state);
    }

    /** One turn of that loop. */
    method ExecuteNoop(H: HashFn, state: BTreeMap, builder: TraceBuilder, i: nat, txId: string)
      requires builder.Valid()
      modifies state, builder
      ensures state.Contents() == old(state.Contents())
      ensures builder.Valid() && builder.batchId == old(builder.batchId)
      ensures builder.preStateRoot == old(builder.preStateRoot)
      ensures builder.entries == old(builder.entries)
            + [EntryFor(H, maxCuPerTx, i, NoopTransaction(txId), old(state.Contents())).(instruction := "execute")]
    {
      var pre := ComputeStateRoot(H, state);
      var result := ExecuteInstruction(state, "sender_" + txId, [3]);
      var post := ComputeStateRoot(H, state);
      match result {
        case Executed(read, written, compute) =>
          builder.AddEntry(TraceEntry(i, txId, pre, "execute", read, written, post, Min(compute, maxCuPerTx), true, None));
        case Rejected(e) =>
          assert false;
      }
    }
  }

  lemma {:induction false} NoopsKeepState(st: State, txIds: seq<string>, i: nat)
    requires i <= |txIds|
    ensures StateAfter(st, NoopTransactions(txIds)[..i]) == st
  {
    if i > 0 {
      NoopsKeepState(st, txIds, i - 1);
      StateAfterNext(st, NoopTransactions(txIds), i - 1);
    }
  }

  function SendersOf(txs: seq<Transaction>): (names: seq<string>)
    ensures |names| == |txs| && forall i :: 0 <= i < |txs| ==> names[i] == txs[i].sender
  {
    seq(|txs|, i requires 0 <= i < |txs| => txs[i].sender)
  }

  /** The ledger a batch starts from: one million for every sender, however often it is named. */
  method FundSenders(senders: seq<string>) returns (state: BTreeMap)
    ensures fresh(state)
    ensures state.Contents() == map s | s in senders :: INITIAL_BALANCE
    ensures forall txs :: senders == SendersOf(txs) ==> state.Contents() == InitialState(txs)
  {
    state := new BTreeMap();
    for i := 0 to |senders|
      invariant fresh(state)
      invariant state.Contents() == map s | s in senders[..i] :: INITIAL_BALANCE
    {
      assert senders[..i + 1] == senders[..i] + [senders[i]];
      state.OrInsert(senders[i], INITIAL_BALANCE);
    }
    assert senders[..|senders|] == senders;
    forall txs | senders == SendersOf(txs) ensures state.Contents() == InitialState(txs) {
      SendersAreSenders(txs);
    }
  }

  lemma SendersAreSenders(txs: seq<Transaction>)
    ensures Elements(SendersOf(txs)) == Senders(txs)
  {
    forall tx | tx in txs ensures tx.sender in SendersOf(txs) {
      var i :| 0 <= i < |txs| && txs[i] == tx;
      assert SendersOf(txs)[i] == tx.sender;
    }
  }

  /** The entry recorded for `tx`, the transaction at position `i`, when it meets state `st`. */
  ghost function EntryFor(H: HashFn, cap: u64, i: nat, tx: Transaction, st: State): TraceEntry {
    var op := Decode(tx.instructionData);
    var pre, post := StateRoot(H, st), StateRoot(H, Apply(st, tx.sender, op));
    match HostOutcome(true, st, tx.sender, op)
    case Executed(read, written, compute) =>
      TraceEntry(i, tx.txId, pre, OpcodeLabel(tx.instructionData), read, written, post, Min(compute, cap), true, None)
    case Rejected(e) =>
      TraceEntry(i, tx.txId, pre, "failed", [], [], post, 0, false, Some(e))
  }

  function OpcodeLabel(data: seq<byte>): string {
    "opcode_" + Text.Dec(if data == [] then 255 else data[0])
  }

  ghost function HostEntries(H: HashFn, cap: u64, start: State, txs: seq<Transaction>): (es: seq<TraceEntry>)
    ensures |es| == |txs|
    ensures forall i :: 0 <= i < |txs| ==> es[i] == EntryFor(H, cap, i, txs[i], StateAfter(start, txs[..i]))
  {
    seq(|txs|, i requires 0 <= i < |txs| => EntryFor(H, cap, i, txs[i], StateAfter(start, txs[..i])))
  }

  /** The trace of a batch: roots of the states it starts from and ends in, one entry each. */
  ghost function HostTrace(H: HashFn, cap: u64, batchId: string, txs: seq<Transaction>): ExecutionTrace {
    var start := InitialState(txs);
    TraceOf(H, batchId, StateRoot(H, start), HostEntries(H, cap, start, txs), StateRoot(H, StateAfter(start, txs)))
  }

  class FullExecutor {
    const inner: DeterministicExecutor

    constructor (maxCuPerTx: u64)
      ensures inner.maxCuPerTx == maxCuPerTx && inner.failOnInvalid
    {
      inner := new DeterministicExecutor(maxCuPerTx);
    }

    method ExecuteWithTransactions(H: HashFn, batchId: string, txs: seq<Transaction>) returns (trace: ExecutionTrace)
      requires inner.failOnInvalid
      ensures trace == HostTrace(H, inner.maxCuPerTx, batchId, txs)
    {
      var state := FundSenders(SendersOf(txs));
      ghost var start := state.Contents();
      ghost var es := HostEntries(H, inner.maxCuPerTx, start, txs);
      var builder := new TraceBuilder(H, batchId, state);
      for i := 0 to |txs|
        invariant fresh(state) && state.Contents() == StateAfter(start, txs[..i])
        invariant fresh(builder) && builder.Valid() && builder.batchId == batchId
        invariant builder.preStateRoot == StateRoot(H, start) && builder.entries == es[..i]
      {
        StateAfterNext(start, txs, i);
        ExecuteOne(H, state, builder, i, txs[i]);
        TakeNext(es, i);
      }
      TakeAll(txs);
      TakeAll(es);
      trace := builder.Build(H, state);
    }

    /** One turn of that loop. */
    method ExecuteOne(H: HashFn, state: BTreeMap, builder: TraceBuilder, i: nat, tx: Transaction)
      requires inner.failOnInvalid && builder.Valid()
      modifies state, builder
      ensures state.Contents() == Apply(old(state.Contents()), tx.sender, Decode(tx.instructionData))
      ensures builder.Valid() && builder.batchId == old(builder.batchId)
      ensures builder.preStateRoot == old(builder.preStateRoot)
      ensures builder.entries == old(builder.entries)
            + [EntryFor(H, inner.maxCuPerTx, i, tx, old(state.Contents()))]
    {
      var pre := ComputeStateRoot(H, state);
      var result := inner.ExecuteInstruction(state, tx.sender, tx.instructionData);
      var post := ComputeStateRoot(H, state);
      match result {
        case Executed(read, written, compute) =>
          builder.AddEntry(TraceEntry(i, tx.txId, pre, OpcodeLabel(tx.instructionData), read, written, post,
                                      Min(compute, inner.maxCuPerTx), true, None));
        case Rejected(e) =>
          builder.AddEntry(TraceEntry(i, tx.txId, pre, "failed", [], [], post, 0, false, Some(e)));
      }
    }
  }

  // ----- The path without transactions -----

  function NoopTransaction(txId: string): Transaction {
    Transaction(txId, 0, "sender_" + txId, "execute", [3], Normal, 200_000)
  }

  function NoopTransactions(txIds: seq<string>): (txs: seq<Transaction>)
    ensures |txs| == |txIds| && forall i :: 0 <= i < |txIds| ==> txs[i] == NoopTransaction(txIds[i])
  {
    seq(|txIds|, i requires 0 <= i < |txIds| => NoopTransaction(txIds[i]))
  }

  function Relabelled(es: seq<TraceEntry>): (r: seq<TraceEntry>)
    ensures |r| == |es| && forall i :: 0 <= i < |es| ==> r[i] == es[i].(instruction := "execute")
  {
    seq(|es|, i requires 0 <= i < |es| => es[i].(instruction := "execute"))
  }

  ghost function DeterministicTrace(H: HashFn, cap: u64, batchId: string, txIds: seq<string>): ExecutionTrace {
    var txs := NoopTransactions(txIds);
    var start := InitialState(txs);
    TraceOf(H, batchId, StateRoot(H, start), Relabelled(HostEntries(H, cap, start, txs)),
            StateRoot(H, StateAfter(start, txs)))
  }

  // ----- Reports, spelled out -----

  /** Which error a byte string fails with: the missing opcode reads as 255, a short or unknown
      instruction names its opcode, and a refused transfer what it asked for and what there was. */
  lemma ErrorsExplain(st: State, sender: string, data: seq<byte>)
    ensures var outcome := HostOutcome(true, st, sender, Decode(data));
            && (data == [] ==> outcome == Rejected(InvalidOpcode(255)))
            && (1 <= |data| < 17 && data[0] <= 2 ==> outcome == Rejected(InvalidOpcode(data[0])))
            && (data != [] && data[0] > 3 ==> outcome == Rejected(InvalidOpcode(data[0])))
            && (|data| >= 17 && data[0] == 0 && Lookup(st, sender) < Lowest(data, 1) ==>
                  outcome == Rejected(InsufficientBalance(Lowest(data, 1), Lookup(st, sender))))
            && (outcome.Rejected? ==> data == [] || data[0] > 3 || (data[0] <= 2 && |data| < 17)
                                      || (data[0] == 0 && Lookup(st, sender) < Lowest(data, 1)))
  {
    DecodesBytes(data);
  }

  /** The digest of an entry, from its five parts. */
  function SpelledHash(H: HashFn, txId: string, flag: string, cu: string, read: string, written: string): string {
    H("tx:" + txId + ":success:" + flag + ":cu:" + cu + ":reads:" + read + ":writes:" + written)
  }

  lemma Costs()
    ensures Text.Dec(5000) == "5000" && Text.Dec(3000) == "3000" && Text.Dec(2000) == "2000"
    ensures Text.Dec(1000) == "1000" && Text.Dec(500) == "500" && Text.Dec(0) == "0"
  {}

  lemma Joins(a: string, b: string)
    ensures Join([]) == "" && Join([a]) == a && Join([a, b]) == a + "," + b
  {
    assert [a, b][1..] == [b];
  }

  lemma FailureDigest(H: HashFn, cap: u64, i: nat, tx: Transaction, st: State)
    requires !Succeeds(st, tx.sender, Decode(tx.instructionData))
    ensures EntryHash(H, EntryFor(H, cap, i, tx, st)) == SpelledHash(H, tx.txId, "false", "0", "", "")
  {
    Costs();
  }

  lemma TransferDigest(H: HashFn, cap: u64, i: nat, tx: Transaction, st: State)
    requires cap >= 5000 && Succeeds(st, tx.sender, Decode(tx.instructionData)) && Decode(tx.instructionData).Transfer?
    ensures var to := tx.sender + "," + AccountKey(Decode(tx.instructionData).target);
            EntryHash(H, EntryFor(H, cap, i, tx, st)) == SpelledHash(H, tx.txId, "true", "5000", to, to)
  {
    Costs();
    Joins(tx.sender, AccountKey(Decode(tx.instructionData).target));
  }

  lemma SetDigest(H: HashFn, cap: u64, i: nat, tx: Transaction, st: State)
    requires cap >= 5000 && Decode(tx.instructionData).SetData?
    ensures EntryHash(H, EntryFor(H, cap, i, tx, st))
         == SpelledHash(H, tx.txId, "true", "3000", "", DataKey(Decode(tx.instructionData).index))
  {
    Costs();
    Joins(DataKey(Decode(tx.instructionData).index), "");
  }

  lemma IncrementDigest(H: HashFn, cap: u64, i: nat, tx: Transaction, st: State)
    requires cap >= 5000 && Decode(tx.instructionData).Increment?
    ensures var key := DataKey(Decode(tx.instructionData).index);
            EntryHash(H, EntryFor(H, cap, i, tx, st)) == SpelledHash(H, tx.txId, "true", "2000", key, key)
  {
    Costs();
    Joins(DataKey(Decode(tx.instructionData).index), "");
  }

  /** The digest of every kind of host entry. */
  lemma EntryDigests(H: HashFn, cap: u64, i: nat, tx: Transaction, st: State)
    requires cap >= 5000
    ensures var op, d := Decode(tx.instructionData), EntryHash(H, EntryFor(H, cap, i, tx, st));
            if !Succeeds(st, tx.sender, op) then d == SpelledHash(H, tx.txId, "false", "0", "", "")
            else match op
              case Transfer(_, n) =>
                d == SpelledHash(H, tx.txId, "true", "5000", tx.sender + "," + AccountKey(n), tx.sender + "," + AccountKey(n))
              case SetData(k, _) => d == SpelledHash(H, tx.txId, "true", "3000", "", DataKey(k))
              case Increment(k, _) => d == SpelledHash(H, tx.txId, "true", "2000", DataKey(k), DataKey(k))
              case _ => d == SpelledHash(H, tx.txId, "true", "1000", "", "")
  {
    if !Succeeds(st, tx.sender, Decode(tx.instructionData)) {
      FailureDigest(H, cap, i, tx, st);
    } else {
      match Decode(tx.instructionData)
      case Transfer(_, n) => TransferDigest(H, cap, i, tx, st);
      case SetData(k, _) => SetDigest(H, cap, i, tx, st);
      case Increment(k, _) => IncrementDigest(H, cap, i, tx, st);
      case _ => Costs();
    }
  }

  /** A success is labelled with its opcode and costs what the cap leaves of the full price; a failure
      is labelled so and costs nothing. */
  lemma EntryLabels(H: HashFn, cap: u64, i: nat, tx: Transaction, st: State)
    ensures var e := EntryFor(H, cap, i, tx, st);
            && (e.success <==> e.error == None)
            && if e.success then
              && tx.instructionData != [] && e.instruction == "opcode_" + Text.Dec(tx.instructionData[0])
              && e.computeUsed == Min(cap, match Decode(tx.instructionData)
                                           case Transfer(_, _) => 5000
                                           case SetData(_, _) => 3000
                                           case Increment(_, _) => 2000
                                           case _ => 1000)
            else
              && e.instruction == "failed" && e.computeUsed == 0
              && HostOutcome(true, st, tx.sender, Decode(tx.instructionData)) == Rejected(e.error.value)
  {}
}
