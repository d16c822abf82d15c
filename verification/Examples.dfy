/** Formats and roots written out: what the strings, numbers and digests of the model look like for
    given inputs. */
module Examples {
  import opened Basics
  import opened OrderedMap
  import opened MerkleTree
  import opened Merkle
  import opened ListCommitment
  import opened StateCommitment
  import opened Machine
  import opened Trace
  import opened HostExecutor
  import opened Policies
  import opened SingleQueue
  import ValidatorProtocol
  import Generator
  import Text

  lemma PrintedDecimals()
    ensures Text.Dec(0) == "0" && Text.Dec(1) == "1" && Text.Dec(2) == "2" && Text.Dec(10) == "10" && Text.Dec(1_000_000) == "1000000" && Text.Dec(999_995) == "999995"
  {}

  lemma PrintedIds()
    ensures BatchId(42) == "batch_000042" && ValidatorProtocol.TxId(255) == "tx_000000ff" && Generator.TxId(7) == "tx_000007"
  {}

  lemma Keys()
    ensures AccountKey(7) == "account_7" && DataKey(12) == "data_12"
  {}

  /** Two arguments of which only the first two bytes are set. */
  predicate SmallArguments(data: seq<byte>, x: byte, x': byte, y: byte, y': byte) {
    && |data| == 17 && data[1] == x && data[2] == x' && data[9] == y && data[10] == y'
    && (forall i :: 3 <= i < 9 ==> data[i] == 0) && (forall i :: 11 <= i < 17 ==> data[i] == 0)
  }

  lemma SmallDecodes(data: seq<byte>, x: byte, x': byte, y: byte, y': byte)
    requires SmallArguments(data, x, x', y, y')
    ensures Lowest(data, 1) == x + 256 * x' && Lowest(data, 9) == y + 256 * y'
    ensures data[0] == 0 ==> Decode(data) == Transfer(x + 256 * x', y + 256 * y')
    ensures data[0] == 1 ==> Decode(data) == SetData(x + 256 * x', y + 256 * y')
    ensures data[0] == 2 ==> Decode(data) == Increment(x + 256 * x', y + 256 * y')
  {
    DecodesBytes(data);
  }

  lemma AccountsFirst()
    ensures Precedes("account_7", "sender_0") && Precedes("a", "b") && Precedes("a", "aa") && !Precedes("b", "a")
  {
    assert "account_7"[0] < "sender_0"[0] && "account_7"[..0] == "sender_0"[..0];
    assert "a"[0] < "b"[0] && "a"[..0] == "b"[..0];
    assert "aa"[..1] == "a";
  }

  lemma PrintedRoot(H: HashFn, k: string, v: u64, l: string, w: u64, sv: string, sw: string)
    requires Precedes(k, l) && Text.Dec(v) == sv && Text.Dec(w) == sw
    ensures StateRoot(H, map[k := v, l := w]) == H(H(k + ":" + sv) + H(l + ":" + sw))
  {
    TwoEntriesRoot(H, k, v, l, w);
  }

  lemma LetterRoot(H: HashFn)
    ensures StateRoot(H, map["a" := 1, "b" := 2]) == H(H("a" + ":" + "1") + H("b" + ":" + "2"))
  {
    AccountsFirst();
    PrintedDecimals();
    PrintedRoot(H, "a", 1, "b", 2, "1", "2");
  }

  lemma FundedRoot(H: HashFn, tx: Transaction)
    ensures StateRoot(H, InitialState([tx])) == H(tx.sender + ":" + Text.Dec(1_000_000))
  {
    FundedState(tx);
    OneEntryRoot(H, tx.sender, 1_000_000);
  }

  lemma PaidRoot(H: HashFn, s: string, amount: u64, n: u64, k: string)
    requires amount <= 1_000_000 && k == AccountKey(n) && Precedes(k, s) && s != k
    ensures StateRoot(H, Apply(map[s := 1_000_000], s, Transfer(amount, n)))
         == H(H(k + ":" + Text.Dec(amount)) + H(s + ":" + Text.Dec(1_000_000 - amount)))
  {
    assert Apply(map[s := 1_000_000], s, Transfer(amount, n)) == map[k := amount, s := 1_000_000 - amount];
    TwoEntriesRoot(H, k, amount, s, 1_000_000 - amount);
  }

  lemma AfterOne(tx: Transaction, op: Op)
    requires Decode(tx.instructionData) == op
    ensures StateAfter(InitialState([tx]), [tx]) == Apply(map[tx.sender := 1_000_000], tx.sender, op)
  {
    FundedState(tx);
    assert [tx][..0] == [];
  }

  /** A sender's first transfer, by an account that comes after the one it pays. */
  lemma FirstTransfer(H: HashFn, tx: Transaction, amount: u64, n: u64)
    requires Decode(tx.instructionData) == Transfer(amount, n) && amount <= 1_000_000
    requires Precedes(AccountKey(n), tx.sender) && tx.sender != AccountKey(n)
    ensures StateRoot(H, StateAfter(InitialState([tx]), [tx]))
         == H(H(AccountKey(n) + ":" + Text.Dec(amount)) + H(tx.sender + ":" + Text.Dec(1_000_000 - amount)))
  {
    AfterOne(tx, Transfer(amount, n));
    PaidRoot(H, tx.sender, amount, n, AccountKey(n));
  }

  /** `sender_0` pays 5 to account 7, from the bytes 5 and 7 to the root. */
  lemma FiveToSevenRoot(H: HashFn, tx: Transaction)
    requires SmallArguments(tx.instructionData, 5, 0, 7, 0) && tx.instructionData[0] == 0 && tx.sender == "sender_0"
    ensures StateRoot(H, StateAfter(InitialState([tx]), [tx]))
         == H(H("account_7" + ":" + Text.Dec(5)) + H("sender_0" + ":" + Text.Dec(999_995)))
  {
    SmallDecodes(tx.instructionData, 5, 0, 7, 0);
    AccountSeven();
    AccountsFirst();
    FirstTransfer(H, tx, 5, 7);
  }

  lemma AccountSeven()
    ensures AccountKey(7) == "account_7" && AccountKey(7) != "sender_0"
  {}

  lemma FundedState(tx: Transaction)
    ensures InitialState([tx]) == map[tx.sender := 1_000_000]
  {
    assert tx in [tx];
  }

  lemma ThreeLeaves(H: HashFn, x: string, y: string, z: string)
    ensures Root(H, [x, y, z]) == H(H(x + y) + H(z + z))
  {
    assert Height(3) == 2 && Pow2(1) == 2 && Pow2(0) == 1;
    assert Tree(Node(H), [x, y, z], 0, 1) == H(x + y) && Tree(Node(H), [x, y, z], 2, 1) == H(z + z);
  }

  /** A lone no-op: one entry, hashed as it is, and an unchanged root. */
  lemma LoneNoop(H: HashFn, batchId: string, tx: Transaction)
    requires tx.instructionData == [3]
    ensures var t := HostTrace(H, 200_000, batchId, [tx]);
            && t.batchId == batchId && t.stateRootPre == t.stateRootPost == H(tx.sender + ":" + "1000000")
            && t.traceHash == H("tx:" + tx.txId + ":success:" + "true" + ":cu:" + "1000" + ":reads:" + "" + ":writes:" + "")
            && t.totalCompute == 1000 && t.successCount == 1 && t.failureCount == 0
            && |t.entries| == 1 && t.entries[0].instruction == "opcode_" + "3"
  {
    NoopState(tx);
    PrintedDecimals();
    FundedRoot(H, tx);
    NoopEntries(H, tx);
    var es := HostEntries(H, 200_000, InitialState([tx]), [tx]);
    assert es == [es[0]];
    OneEntry(H, es[0]);
  }

  lemma NoopState(tx: Transaction)
    requires tx.instructionData == [3]
    ensures InitialState([tx]) == StateAfter(InitialState([tx]), [tx]) == map[tx.sender := 1_000_000]
  {
    FundedState(tx);
    assert [tx][..0] == [];
  }

  lemma NoopEntries(H: HashFn, tx: Transaction)
    requires tx.instructionData == [3]
    ensures var es := HostEntries(H, 200_000, InitialState([tx]), [tx]);
            && |es| == 1 && es[0].success && es[0].computeUsed == 1000 && es[0].instruction == "opcode_" + "3"
            && EntryHash(H, es[0]) == SpelledHash(H, tx.txId, "true", "1000", "", "")
  {
    EntryDigests(H, 200_000, 0, tx, StateAfter(InitialState([tx]), [tx][..0]));
    assert Text.Dec(3) == "3";
  }

  lemma OneLeaf(H: HashFn, x: string)
    ensures Root(H, [x]) == x
  {}

  lemma OneUnit(u: nat)
    ensures Sum([u]) == u
  {
    assert [u] == [] + [u];
    SumSnoc([], u);
  }

  lemma OneEntry(H: HashFn, e: TraceEntry)
    requires e.success
    ensures Root(H, EntryHashes(H, [e])) == EntryHash(H, e)
    ensures TotalCompute([e]) == e.computeUsed && Successes([e]) == 1
  {
    OneLeaf(H, EntryHash(H, e));
    assert EntryHashes(H, [e]) == [EntryHash(H, e)];
    OneUnit(e.computeUsed);
    assert Units([e]) == [e.computeUsed];
    AppendEntry([], e);
    assert [] + [e] == [e];
  }

  /** The executor without transactions funds one sender per id, labelled by it. */
  lemma LoneId(H: HashFn, batchId: string, id: string)
    ensures var t := DeterministicTrace(H, 200_000, batchId, [id]);
            && t.stateRootPre == t.stateRootPost == H("sender_" + id + ":" + "1000000")
            && |t.entries| == 1 && t.entries[0].txId == id && t.entries[0].instruction == "execute"
  {
    var tx := NoopTransaction(id);
    assert NoopTransactions([id]) == [tx];
    NoopState(tx);
    PrintedDecimals();
    OneEntryRoot(H, tx.sender, 1_000_000);
  }

  // ----- Policies -----

  /** The default policy declines a transaction that waited half its time. */
  lemma HalfTheTime()
    ensures !ShouldSeal(Hybrid(10, 5000), 1, 2500, 0.0) && ShouldSeal(Hybrid(10, 5000), 1, 5000, 0.0)
    ensures ShouldSeal(Hybrid(10, 5000), 10, 0, 0.0) && !ShouldSeal(Hybrid(10, 5000), 9, 4999, 1000.0)
    ensures !ShouldSeal(FixedCount(10), 9, 100_000, 1000.0) && ShouldSeal(FixedCount(10), 10, 0, 0.0)
    ensures !ShouldSeal(FixedTime(100), 5, 99, 1000.0) && ShouldSeal(FixedTime(100), 5, 100, 0.0) && !ShouldSeal(FixedTime(100), 0, 200, 0.0)
  {}

  function Tuned(base: nat, observed: nat, growth: real): AdaptiveState
    requires observed < 0x1_0000_0000
  {
    AdaptiveState(base, 1000, 1, 100, 500, observed, growth)
  }

  /** Thresholds at calm, under growth, and at 70, 75, 90, 110 and 400 percent of the latency budget. */
  lemma Thresholds()
    ensures Threshold(Tuned(10, 0, 1.0)) == 10 && Threshold(Tuned(10, 0, 1.5)) == 10 && Threshold(Tuned(10, 0, 2.0)) == 13
    ensures Threshold(Tuned(10, 0, 1.6)) == 12 && Threshold(Tuned(0, 0, 1.0)) == 1 && Threshold(Tuned(1, 2000, 1.0)) == 1
    ensures Threshold(Tuned(100, 0, 1.6)) == 118 && Threshold(Tuned(100, 375, 1.0)) == 90
    ensures Threshold(Tuned(100, 350, 1.0)) == 100 && Threshold(Tuned(100, 450, 1.0)) == 60
    ensures Threshold(Tuned(100, 550, 1.0)) == 30 && Threshold(Tuned(100, 2000, 1.0)) == 30 && Threshold(Tuned(2000, 0, 1.0)) == 1000
  {
    assert 350.0 / 500.0 == 0.7 && 375.0 / 500.0 == 0.75 && 450.0 / 500.0 == 0.9 && 550.0 / 500.0 == 1.1 && 2000.0 / 500.0 == 4.0;
  }

  lemma PolicyNames(a: AdaptiveState, l: AutoLimits)
    ensures PolicyName(FixedCount(1)) == "FixedCount" && PolicyName(FixedTime(1)) == "FixedTime"
    ensures PolicyName(Hybrid(1, 1)) == "Hybrid" && PolicyName(PriorityAware(1, 1)) == "PriorityAware"
    ensures PolicyName(Adaptive(a)) == "Adaptive" && PolicyName(Auto(l)) == "Auto"
  {}
}
