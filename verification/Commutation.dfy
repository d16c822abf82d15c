/** The read and write sets a trace records are sound: they bound what an instruction changes
    and what its outcome depends on, so transactions without conflicts can be reordered. */
module Commutation {
  import opened Basics
  import opened OrderedMap
  import opened Merkle
  import opened Machine
  import opened HostExecutor
  import opened Reordering

  /** The two states give every key of `keys` the same value (absent keys read as zero). */
  ghost predicate SameOn(s1: State, s2: State, keys: seq<string>) {
    forall k :: k in keys ==> Lookup(s1, k) == Lookup(s2, k)
  }

  /** Outside the write set nothing changes: neither a value nor which keys exist. */
  lemma WritesAreSound(st: State, sender: string, op: Op, k: string)
    requires k !in Writes(sender, op)
    ensures k in Apply(st, sender, op) <==> k in st
    ensures Lookup(Apply(st, sender, op), k) == Lookup(st, k)
  {}

  /** The outcome, the error included, depends on the read set only, and what is written on it. */
  lemma ReadsAreSound(s1: State, s2: State, sender: string, op: Op)
    requires SameOn(s1, s2, Reads(sender, op))
    ensures HostOutcome(true, s1, sender, op) == HostOutcome(true, s2, sender, op)
    ensures Succeeds(s1, sender, op) <==> Succeeds(s2, sender, op)
    ensures Succeeds(s1, sender, op) ==>
              forall k :: k in Writes(sender, op) ==>
                k in Apply(s1, sender, op) && k in Apply(s2, sender, op)
                && Apply(s1, sender, op)[k] == Apply(s2, sender, op)[k]
  {
    if op.Transfer? {
      assert sender in Reads(sender, op) && AccountKey(op.target) in Reads(sender, op);
    } else if op.Increment? {
      assert DataKey(op.index) in Reads(sender, op);
    }
  }

  function TxOp(tx: Transaction): Op { Decode(tx.instructionData) }

  function Step(st: State, tx: Transaction): State { Apply(st, tx.sender, TxOp(tx)) }

  predicate Ok(st: State, tx: Transaction) { Succeeds(st, tx.sender, TxOp(tx)) }

  /** No write/write and no read/write conflict between the recorded sets. */
  predicate ConflictFree(a: Transaction, b: Transaction) {
    var wa, wb := Writes(a.sender, TxOp(a)), Writes(b.sender, TxOp(b));
    && (forall k :: k in wa ==> k !in wb && k !in Reads(b.sender, TxOp(b)))
    && (forall k :: k in wb ==> k !in Reads(a.sender, TxOp(a)))
  }

  lemma UntouchedReads(st: State, a: Transaction, b: Transaction)
    requires forall k :: k in Writes(a.sender, TxOp(a)) ==> k !in Reads(b.sender, TxOp(b))
    ensures SameOn(st, Step(st, a), Reads(b.sender, TxOp(b)))
  {
    forall k | k in Reads(b.sender, TxOp(b)) ensures Lookup(st, k) == Lookup(Step(st, a), k) {
      WritesAreSound(st, a.sender, TxOp(a), k);
    }
  }

  /** After both orders a key holds the same: what `a` wrote, what `b` wrote, or what was there. */
  lemma SameKey(st: State, a: Transaction, b: Transaction, k: string)
    requires ConflictFree(a, b) && Ok(st, a) && Ok(st, b)
    ensures k in Step(Step(st, a), b) <==> k in Step(Step(st, b), a)
    ensures Lookup(Step(Step(st, a), b), k) == Lookup(Step(Step(st, b), a), k)
  {
    UntouchedReads(st, a, b);
    UntouchedReads(st, b, a);
    ReadsAreSound(st, Step(st, a), b.sender, TxOp(b));
    ReadsAreSound(st, Step(st, b), a.sender, TxOp(a));
    if k !in Writes(a.sender, TxOp(a)) {
      WritesAreSound(st, a.sender, TxOp(a), k);
      WritesAreSound(Step(st, b), a.sender, TxOp(a), k);
    }
    if k !in Writes(b.sender, TxOp(b)) {
      WritesAreSound(st, b.sender, TxOp(b), k);
      WritesAreSound(Step(st, a), b.sender, TxOp(b), k);
    }
  }

  /** Two adjacent successful transactions without a conflict may be swapped. */
  lemma Commute(st: State, a: Transaction, b: Transaction)
    requires ConflictFree(a, b) && Ok(st, a) && Ok(Step(st, a), b)
    ensures Ok(st, b) && Ok(Step(st, b), a)
    ensures Step(Step(st, a), b) == Step(Step(st, b), a)
  {
    UntouchedReads(st, a, b);
    ReadsAreSound(st, Step(st, a), b.sender, TxOp(b));
    UntouchedReads(st, b, a);
    ReadsAreSound(st, Step(st, b), a.sender, TxOp(a));
    forall k
      ensures k in Step(Step(st, a), b) <==> k in Step(Step(st, b), a)
      ensures Lookup(Step(Step(st, a), b), k) == Lookup(Step(Step(st, b), a), k)
    {
      SameKey(st, a, b, k);
    }
    SameState(Step(Step(st, a), b), Step(Step(st, b), a));
  }

  lemma SameState(m1: State, m2: State)
    requires forall k :: (k in m1 <==> k in m2) && Lookup(m1, k) == Lookup(m2, k)
    ensures m1 == m2
  {
    assert forall k :: k in m1.Keys <==> k in m2.Keys;
    forall k | k in m1 ensures m1[k] == m2[k] {
      assert Lookup(m1, k) == Lookup(m2, k);
    }
  }

  lemma Swaps()
    ensures Swappable(Step, Ok, ConflictFree)
  {
    forall st, a, b | ConflictFree(a, b) && Ok(st, a) && Ok(Step(st, a), b)
      ensures Ok(st, b) && Ok(Step(st, b), a) && Step(Step(st, a), b) == Step(Step(st, b), a)
    {
      Commute(st, a, b);
    }
  }

  lemma {:induction false} RunIsStateAfter(st: State, txs: seq<Transaction>)
    ensures Run(Step, st, txs) == StateAfter(st, txs)
    decreases |txs|
  {
    if txs != [] {
      RunIsStateAfter(Step(st, txs[0]), txs[1..]);
      StateAfterFirst(st, txs);
    }
  }

  lemma {:induction false} StateAfterFirst(st: State, txs: seq<Transaction>)
    requires txs != []
    ensures StateAfter(st, txs) == StateAfter(Step(st, txs[0]), txs[1..])
    decreases |txs|
  {
    var n := |txs| - 1;
    if n > 0 {
      StateAfterFirst(st, txs[..n]);
      assert txs[..n][1..] == txs[1..][..n - 1];
    }
  }

  /** Every entry of the host's trace is a success. */
  ghost predicate AllSucceed(st: State, txs: seq<Transaction>) {
    forall i :: 0 <= i < |txs| ==> Ok(StateAfter(st, txs[..i]), txs[i])
  }

  lemma {:induction false} AllOkIsAllSucceed(st: State, txs: seq<Transaction>)
    ensures AllOk(Step, Ok, st, txs) <==> AllSucceed(st, txs)
    decreases |txs|
  {
    if txs != [] {
      var rest := txs[1..];
      AllOkIsAllSucceed(Step(st, txs[0]), rest);
      forall i | 0 <= i < |rest|
        ensures StateAfter(st, txs[..i + 1]) == StateAfter(Step(st, txs[0]), rest[..i]) && txs[i + 1] == rest[i]
      {
        StateAfterFirst(st, txs[..i + 1]);
        assert txs[..i + 1][1..] == rest[..i];
      }
      assert txs[..0] == [];
      if AllSucceed(st, txs) {
        forall i | 0 <= i < |rest| ensures Ok(StateAfter(Step(st, txs[0]), rest[..i]), rest[i]) {
          assert Ok(StateAfter(st, txs[..i + 1]), txs[i + 1]);
        }
        assert Ok(StateAfter(st, txs[..0]), txs[0]);
      }
      if AllOk(Step, Ok, st, txs) {
        forall i | 0 <= i < |txs| ensures Ok(StateAfter(st, txs[..i]), txs[i]) {
          if i > 0 {
            assert Ok(StateAfter(Step(st, txs[0]), rest[..i - 1]), rest[i - 1]);
          }
        }
      }
    }
  }

  /** Any reordering of a pairwise conflict-free batch in which everything succeeds succeeds
      again, from the same pre root to the same post root. */
  lemma ReorderedBatch(H: HashFn, cap: u64, batchId: string, xs: seq<Transaction>, ys: seq<Transaction>)
    requires multiset(xs) == multiset(ys)
    requires PairwiseFree(ConflictFree, xs) && AllSucceed(InitialState(xs), xs)
    ensures AllSucceed(InitialState(ys), ys)
    ensures HostTrace(H, cap, batchId, ys).stateRootPre == HostTrace(H, cap, batchId, xs).stateRootPre
    ensures HostTrace(H, cap, batchId, ys).stateRootPost == HostTrace(H, cap, batchId, xs).stateRootPost
  {
    forall tx ensures tx in xs <==> tx in ys {
      assert tx in xs <==> tx in multiset(xs);
      assert tx in ys <==> tx in multiset(ys);
    }
    assert Senders(xs) == Senders(ys);
    var st := InitialState(xs);
    Swaps();
    AllOkIsAllSucceed(st, xs);
    Reorder(Step, Ok, ConflictFree, st, xs, ys);
    AllOkIsAllSucceed(st, ys);
    RunIsStateAfter(st, xs);
    RunIsStateAfter(st, ys);
  }
}
