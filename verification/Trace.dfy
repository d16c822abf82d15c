/** Execution traces and the builder that accumulates them. */
module Trace {
  import opened Basics
  import opened OrderedMap
  import opened Merkle
  import opened StateCommitment
  import Text

  datatype ExecError =
    | InvalidOpcode(opcode: byte)
    | InsufficientBalance(needed: u64, available: u64)

  datatype TraceEntry = TraceEntry(
    txIdx: nat, txId: string, preStateHash: string, instruction: string,
    accountsRead: seq<string>, accountsWritten: seq<string>, postStateHash: string,
    computeUsed: u64, success: bool, error: Option<ExecError>)

  datatype ExecutionTrace = ExecutionTrace(
    batchId: string, entries: seq<TraceEntry>, stateRootPre: string, stateRootPost: string,
    traceHash: string, totalCompute: nat, successCount: nat, failureCount: nat)

  function Join(names: seq<string>): string {
    if names == [] then ""
    else if |names| == 1 then names[0]
    else names[0] + "," + Join(names[1..])
  }

  /** `hash_trace_entry`, the same encoding on the host and in the guest. */
  function HashTraceEntry(H: HashFn, txId: string, success: bool, compute: u64, read: seq<string>, written: seq<string>): string {
    H("tx:" + txId + ":success:" + (if success then "true" else "false") + ":cu:" + Text.Dec(compute)
      + ":reads:" + Join(read) + ":writes:" + Join(written))
  }

  function EntryHash(H: HashFn, e: TraceEntry): string {
    HashTraceEntry(H, e.txId, e.success, e.computeUsed, e.accountsRead, e.accountsWritten)
  }

  function EntryHashes(H: HashFn, es: seq<TraceEntry>): (hs: seq<string>)
    ensures |hs| == |es| && forall i :: 0 <= i < |es| ==> hs[i] == EntryHash(H, es[i])
  {
    seq(|es|, i requires 0 <= i < |es| => EntryHash(H, es[i]))
  }

  function Units(es: seq<TraceEntry>): (us: seq<nat>)
    ensures |us| == |es| && forall i :: 0 <= i < |es| ==> us[i] == es[i].computeUsed
  {
    seq(|es|, i requires 0 <= i < |es| => es[i].computeUsed)
  }

  function TotalCompute(es: seq<TraceEntry>): nat { Sum(Units(es)) }

  function Successes(es: seq<TraceEntry>): (n: nat)
    ensures n <= |es|
  {
    if es == [] then 0 else Successes(es[..|es| - 1]) + if es[|es| - 1].success then 1 else 0
  }

  lemma AppendEntry(es: seq<TraceEntry>, e: TraceEntry)
    ensures TotalCompute(es + [e]) == TotalCompute(es) + e.computeUsed
    ensures Successes(es + [e]) == Successes(es) + if e.success then 1 else 0
  {
    assert Units(es + [e]) == Units(es) + [e.computeUsed];
    SumSnoc(Units(es), e.computeUsed);
    assert (es + [e])[..|es|] == es;
  }

  /** The success counter counts the successful positions. */
  lemma {:induction false} SuccessesCount(es: seq<TraceEntry>)
    ensures Successes(es) == |set i | 0 <= i < |es| && es[i].success|
  {
    var all := set i | 0 <= i < |es| && es[i].success;
    if es != [] {
      var n := |es| - 1;
      SuccessesCount(es[..n]);
      assert all - {n} == set i | 0 <= i < |es[..n]| && es[..n][i].success;
      assert n in all <==> es[n].success;
    }
  }

  /** The trace that commits to `es`. */
  function TraceOf(H: HashFn, batchId: string, pre: string, es: seq<TraceEntry>, post: string): ExecutionTrace {
    ExecutionTrace(batchId, es, pre, post, Root(H, EntryHashes(H, es)),
                   TotalCompute(es), Successes(es), |es| - Successes(es))
  }

  class TraceBuilder {
    var batchId: string
    var entries: seq<TraceEntry>
    var preStateRoot: string
    var totalCompute: nat
    var successCount: nat
    var failureCount: nat

    ghost predicate Valid() reads this {
      && totalCompute == TotalCompute(entries)
      && successCount == Successes(entries)
      && successCount + failureCount == |entries|
    }

    constructor (H: HashFn, batchId: string, initialState: BTreeMap)
      ensures Valid() && entries == [] && this.batchId == batchId
      ensures preStateRoot == StateRoot(H, initialState.Contents())
    {
      var root := ComputeStateRoot(H, initialState);
      this.batchId := batchId;
      entries := [];
      preStateRoot := root;
      totalCompute, successCount, failureCount := 0, 0, 0;
    }

    method AddEntry(e: TraceEntry)
      requires Valid()
      modifies this
      ensures Valid() && entries == old(entries) + [e]
      ensures batchId == old(batchId) && preStateRoot == old(preStateRoot)
    {
      AppendEntry(entries, e);
      totalCompute := totalCompute + e.computeUsed;
      if e.success {
        successCount := successCount + 1;
      } else {
        failureCount := failureCount + 1;
      }
      entries := entries + [e];
    }

    method Build(H: HashFn, finalState: BTreeMap) returns (trace: ExecutionTrace)
      requires Valid()
      ensures trace == TraceOf(H, batchId, preStateRoot, entries, StateRoot(H, finalState.Contents()))
    {
      var post := ComputeStateRoot(H, finalState);
      var traceHash, _, _ := MerkleRoot(H, EntryHashes(H, entries));
      trace := ExecutionTrace(batchId, entries, preStateRoot, post, traceHash,
                              totalCompute, successCount, failureCount);
    }
  }
}
