/** Where the money goes: transfers move balances between keys that are not data cells, and
    nothing else reaches those keys. */
module Conservation {
  import opened Basics
  import opened OrderedMap
  import opened Machine

  // ----- Totals of maps -----

  ghost function Total<K>(m: map<K, nat>): nat {
    if m == map[] then 0 else var k :| k in m; m[k] + Total(m - {k})
  }

  lemma {:induction false} TotalRemove<K>(m: map<K, nat>, k: K)
    requires k in m
    ensures Total(m) == m[k] + Total(m - {k})
    decreases |m|
  {
    var c :| c in m && Total(m) == m[c] + Total(m - {c});
    if c != k {
      TotalRemove(m - {c}, k);
      TotalRemove(m - {k}, c);
      assert m - {c} - {k} == m - {k} - {c};
    }
  }

  lemma TotalUpdate<K>(m: map<K, nat>, k: K, v: nat)
    ensures Total(m[k := v]) + (if k in m then m[k] else 0) == Total(m) + v
  {
    TotalRemove(m[k := v], k);
    assert m[k := v] - {k} == m - {k};
    if k in m {
      TotalRemove(m, k);
    } else {
      assert m - {k} == m;
    }
  }

  lemma {:induction false} TotalOfMillions<K>(m: map<K, nat>)
    requires forall k :: k in m ==> m[k] == 1_000_000
    ensures Total(m) == 1_000_000 * |m|
    decreases |m|
  {
    if m != map[] {
      var k :| k in m;
      TotalRemove(m, k);
      TotalOfMillions(m - {k});
      assert m == (m - {k})[k := 1_000_000];
    }
  }

  function ValueOrZero<K>(m: map<K, nat>, k: K): nat { if k in m then m[k] else 0 }

  /** The part of a map outside a set of keys. */
  ghost function Outside<K>(m: map<K, nat>, keys: iset<K>): map<K, nat> {
    map k | k in m && k !in keys :: m[k]
  }

  lemma OutsideUpdate<K>(m: map<K, nat>, keys: iset<K>, k: K, v: nat)
    ensures k in keys ==> Total(Outside(m[k := v], keys)) == Total(Outside(m, keys))
    ensures k !in keys ==> Total(Outside(m[k := v], keys)) + ValueOrZero(m, k) == Total(Outside(m, keys)) + v
  {
    if k in keys {
      assert Outside(m[k := v], keys) == Outside(m, keys);
    } else {
      assert Outside(m[k := v], keys) == Outside(m, keys)[k := v];
      TotalUpdate(Outside(m, keys), k, v);
    }
  }

  /** A debit, then any new value for a key outside the set. */
  lemma OutsideMove<K>(m: map<K, nat>, keys: iset<K>, from: K, to: K, amount: nat, v: nat)
    requires amount <= ValueOrZero(m, from) && to !in keys
    ensures var debited := m[from := ValueOrZero(m, from) - amount];
            Total(Outside(debited[to := v], keys)) + ValueOrZero(debited, to) + amount
            == Total(Outside(m, keys)) + v + (if from in keys then amount else 0)
  {
    var debited := m[from := ValueOrZero(m, from) - amount];
    OutsideUpdate(m, keys, from, ValueOrZero(m, from) - amount);
    OutsideUpdate(debited, keys, to, v);
  }

  // ----- Balances -----

  ghost function DataKeys(): iset<string> { iset k | IsDataKey(k) }

  /** Everything a ledger holds outside the `data_<n>` cells. */
  ghost function Balances(st: State): map<string, nat> { Outside(st, DataKeys()) }

  lemma BalanceBelowTotal(st: State, k: string)
    requires !IsDataKey(k)
    ensures Lookup(st, k) <= Total(Balances(st))
  {
    if k in st {
      TotalRemove(Balances(st), k);
    }
  }

  /** The credit of a transfer does not wrap around. */
  predicate CreditFits(st: State, sender: string, op: Op) {
    op.Transfer? && !Insufficient(st, sender, op) ==>
      Lookup(st[sender := Lookup(st, sender) - op.amount], AccountKey(op.target)) + op.amount <= U64_MAX
  }

  /** What a successful transfer out of a data cell brings to the other keys. */
  ghost function Inflow(st: State, sender: string, op: Op): nat {
    if op.Transfer? && !Insufficient(st, sender, op) && IsDataKey(sender) then op.amount else 0
  }

  /** What a wrapping credit loses. */
  function Lost(st: State, sender: string, op: Op): nat {
    if CreditFits(st, sender, op) then 0 else U64_LIMIT
  }

  lemma TransferTotal(st: State, sender: string, op: Op)
    requires op.Transfer? && !Insufficient(st, sender, op)
    ensures Total(Balances(Apply(st, sender, op))) + Lost(st, sender, op) == Total(Balances(st)) + Inflow(st, sender, op)
  {
    var target := AccountKey(op.target);
    var debited := st[sender := Lookup(st, sender) - op.amount];
    AccountsAreNotData(op.target);
    OutsideMove(st, DataKeys(), sender, target, op.amount, WrappingAdd(Lookup(debited, target), op.amount));
  }

  /** One instruction, failed or not, changes the total by exactly what it brings in from a data
      cell, less 2^64 if its credit wraps. */
  lemma StepTotal(st: State, sender: string, op: Op)
    ensures Total(Balances(Apply(st, sender, op))) + Lost(st, sender, op) == Total(Balances(st)) + Inflow(st, sender, op)
  {
    match op
    case Transfer(_, _) =>
      if !Insufficient(st, sender, op) {
        TransferTotal(st, sender, op);
      }
    case SetData(i, v) =>
      assert DataKey(i) in DataKeys();
      OutsideUpdate(st, DataKeys(), DataKey(i), v);
    case Increment(i, d) =>
      assert DataKey(i) in DataKeys();
      OutsideUpdate(st, DataKeys(), DataKey(i), SaturatingAdd(Lookup(st, DataKey(i)), d));
    case _ =>
  }

  /** A total that fits in 64 bits leaves no room for a credit to wrap. */
  lemma SmallTotalFits(st: State, sender: string, op: Op)
    requires !IsDataKey(sender) && Total(Balances(st)) <= U64_MAX
    ensures CreditFits(st, sender, op)
  {
    if op.Transfer? && !Insufficient(st, sender, op) {
      var debited := st[sender := Lookup(st, sender) - op.amount];
      OutsideUpdate(st, DataKeys(), sender, Lookup(st, sender) - op.amount);
      AccountsAreNotData(op.target);
      BalanceBelowTotal(debited, AccountKey(op.target));
    }
  }

  // ----- Whole batches -----

  predicate CreditFitsAt(txs: seq<Transaction>, i: nat)
    requires i < |txs|
  {
    CreditFits(StateAfter(InitialState(txs), txs[..i]), txs[i].sender, Decode(txs[i].instructionData))
  }

  ghost function InflowBefore(txs: seq<Transaction>, n: nat): nat
    requires n <= |txs|
  {
    if n == 0 then 0
    else
      var st, tx := StateAfter(InitialState(txs), txs[..n - 1]), txs[n - 1];
      InflowBefore(txs, n - 1) + Inflow(st, tx.sender, Decode(tx.instructionData))
  }

  ghost function BalanceTotal(txs: seq<Transaction>, n: nat): nat
    requires n <= |txs|
  {
    Total(Balances(StateAfter(InitialState(txs), txs[..n])))
  }

  ghost function PlainSenders(txs: seq<Transaction>): set<string> {
    set s | s in Senders(txs) && !IsDataKey(s)
  }

  lemma InitialTotal(txs: seq<Transaction>)
    ensures BalanceTotal(txs, 0) == INITIAL_BALANCE * |PlainSenders(txs)|
  {
    assert txs[..0] == [];
    var b := Balances(InitialState(txs));
    TotalOfMillions(b);
    assert b.Keys == PlainSenders(txs);
  }

  /** How many of the first `n` credits wrapped. */
  function WrapsBefore(txs: seq<Transaction>, n: nat): nat
    requires n <= |txs|
  {
    if n == 0 then 0 else WrapsBefore(txs, n - 1) + if CreditFitsAt(txs, n - 1) then 0 else 1
  }

  /** After every transaction of every batch the total is what the senders started with, plus what
      came out of data cells, less 2^64 for every credit that wrapped. */
  lemma {:induction false} TotalLaw(txs: seq<Transaction>, n: nat)
    requires n <= |txs|
    ensures BalanceTotal(txs, n) + U64_LIMIT * WrapsBefore(txs, n)
         == INITIAL_BALANCE * |PlainSenders(txs)| + InflowBefore(txs, n)
  {
    if n == 0 {
      InitialTotal(txs);
    } else {
      TotalLaw(txs, n - 1);
      StateAfterNext(InitialState(txs), txs, n - 1);
      StepTotal(StateAfter(InitialState(txs), txs[..n - 1]), txs[n - 1].sender, Decode(txs[n - 1].instructionData));
    }
  }

  /** So the total is conserved exactly when the inflow makes up for the wraps. */
  lemma ConservedExactly(txs: seq<Transaction>, n: nat)
    requires n <= |txs|
    ensures BalanceTotal(txs, n) == BalanceTotal(txs, 0) <==> InflowBefore(txs, n) == U64_LIMIT * WrapsBefore(txs, n)
  {
    TotalLaw(txs, n);
    InitialTotal(txs);
  }

  lemma ConservedStep(st: State, sender: string, op: Op)
    requires !IsDataKey(sender) && Total(Balances(st)) <= U64_MAX
    ensures CreditFits(st, sender, op) && Total(Balances(Apply(st, sender, op))) == Total(Balances(st))
  {
    SmallTotalFits(st, sender, op);
    StepTotal(st, sender, op);
  }

  /** Without a sender named like a data cell, the total is one million per distinct sender
      after every transaction, and no credit wraps. */
  lemma {:induction false} Conserved(txs: seq<Transaction>, n: nat)
    requires n <= |txs|
    requires forall s :: s in Senders(txs) ==> !IsDataKey(s)
    requires INITIAL_BALANCE * |Senders(txs)| <= U64_MAX
    ensures BalanceTotal(txs, n) == INITIAL_BALANCE * |Senders(txs)|
    ensures forall i :: 0 <= i < n ==> CreditFitsAt(txs, i)
  {
    if n == 0 {
      assert PlainSenders(txs) == Senders(txs);
      InitialTotal(txs);
    } else {
      Conserved(txs, n - 1);
      assert txs[n - 1].sender in Senders(txs);
      ConservedStep(StateAfter(InitialState(txs), txs[..n - 1]), txs[n - 1].sender, Decode(txs[n - 1].instructionData));
      StateAfterNext(InitialState(txs), txs, n - 1);
    }
  }

  // ----- Which senders are safe -----

  function From(sender: string, op: Op): Transaction
    requires WellFormed(op)
  {
    Transaction("tx", 0, sender, "program", Encode(op), Normal, 0)
  }

  lemma Submit(sender: string, op: Op) returns (tx: Transaction)
    requires WellFormed(op)
    ensures tx.sender == sender && Decode(tx.instructionData) == op
  {
    FromDecodes(sender, op);
    tx := From(sender, op);
  }

  lemma FromDecodes(sender: string, op: Op)
    requires WellFormed(op)
    ensures From(sender, op).sender == sender && Decode(From(sender, op).instructionData) == op
  {
    DecodeEncode(op);
  }

  /** A cell that refills itself between two transfers makes the second credit wrap. */
  lemma RefillWraps(st: State, k: u64)
    requires AccountKey(0) !in st
    ensures var refill, move := SetData(k, U64_MAX), Transfer(U64_MAX, 0);
            var twice := Apply(Apply(Apply(st, DataKey(k), refill), DataKey(k), move), DataKey(k), refill);
            !CreditFits(twice, DataKey(k), move)
  {
    AccountIsNotCell(0, k);
  }

  lemma OneSender(txs: seq<Transaction>, s: string)
    requires txs != [] && forall tx :: tx in txs ==> tx.sender == s
    ensures Senders(txs) == {s}
  {
    assert txs[0] in txs;
  }

  lemma ThreeSteps(st: State, txs: seq<Transaction>)
    requires |txs| >= 3
    ensures StateAfter(st, txs[..3]) ==
      Apply(Apply(Apply(st, txs[0].sender, Decode(txs[0].instructionData)),
                  txs[1].sender, Decode(txs[1].instructionData)), txs[2].sender, Decode(txs[2].instructionData))
  {
    assert txs[..0] == [];
    StateAfterNext(st, txs, 0);
    StateAfterNext(st, txs, 1);
    StateAfterNext(st, txs, 2);
  }

  lemma RefillBatchWraps(txs: seq<Transaction>, refill: Transaction, move: Transaction, k: u64)
    requires txs == [refill, move, refill, move] && refill.sender == move.sender == DataKey(k)
    requires Decode(refill.instructionData) == SetData(k, U64_MAX) && Decode(move.instructionData) == Transfer(U64_MAX, 0)
    ensures !CreditFitsAt(txs, 3)
  {
    OneSender(txs, DataKey(k));
    AccountIsNotCell(0, k);
    ThreeSteps(InitialState(txs), txs);
    RefillWraps(InitialState(txs), k);
  }

  /** Every sender named like a cell that an instruction can address makes a credit wrap, with four
      transactions of its own. */
  lemma DataSenderWraps(k: u64) returns (txs: seq<Transaction>)
    ensures |txs| == 4 && Senders(txs) == {DataKey(k)} && !CreditFitsAt(txs, 3)
  {
    var a := Submit(DataKey(k), SetData(k, U64_MAX));
    var b := Submit(DataKey(k), Transfer(U64_MAX, 0));
    txs := [a, b, a, b];
    OneSender(txs, DataKey(k));
    RefillBatchWraps(txs, a, b, k);
  }

  /** Everyone sends all they have to account 0. */
  function Gather(names: seq<string>): (txs: seq<Transaction>)
    ensures |txs| == |names|
    ensures forall i :: 0 <= i < |names| ==> txs[i] == From(names[i], Transfer(INITIAL_BALANCE, 0))
  {
    seq(|names|, i requires 0 <= i < |names| => From(names[i], Transfer(INITIAL_BALANCE, 0)))
  }

  lemma GatherSenders(names: seq<string>)
    ensures Senders(Gather(names)) == Elements(names)
  {
    forall s | s in names ensures s in Senders(Gather(names)) {
      var i :| 0 <= i < |names| && names[i] == s;
      FromDecodes(s, Transfer(INITIAL_BALANCE, 0));
      assert Gather(names)[i] in Gather(names);
    }
    forall s | s in Senders(Gather(names)) ensures s in names {
      var tx :| tx in Gather(names) && tx.sender == s;
      var i :| 0 <= i < |names| && Gather(names)[i] == tx;
      FromDecodes(names[i], Transfer(INITIAL_BALANCE, 0));
    }
  }

  /** The first `n` have sent: the others still hold their million, account 0 all the rest. */
  ghost predicate Gathered(st: State, names: seq<string>, n: nat)
    requires n <= |names|
  {
    && (forall j :: n <= j < |names| ==> names[j] == AccountKey(0) || Lookup(st, names[j]) == INITIAL_BALANCE)
    && Lookup(st, AccountKey(0)) == INITIAL_BALANCE * (n + if AccountKey(0) in names[n..] then 1 else 0)
  }

  lemma GatherStep(st: State, names: seq<string>, n: nat)
    requires n < |names| && Distinct(names) && Gathered(st, names, n)
    requires CreditFits(st, names[n], Transfer(INITIAL_BALANCE, 0))
    ensures Gathered(Apply(st, names[n], Transfer(INITIAL_BALANCE, 0)), names, n + 1)
  {
    var op, target := Transfer(INITIAL_BALANCE, 0), AccountKey(0);
    var after := Apply(st, names[n], op);
    assert names[n..] == [names[n]] + names[n + 1..];
    assert !Insufficient(st, names[n], op);
    forall j | n + 1 <= j < |names| ensures names[j] == target || Lookup(after, names[j]) == INITIAL_BALANCE {
      assert names[j] != names[n];
    }
    if names[n] == target {
      NotAfter(names, n);
    }
  }

  lemma NotAfter<T>(s: seq<T>, n: nat)
    requires Distinct(s) && n < |s|
    ensures s[n] !in s[n + 1..]
  {}

  lemma GatherStart(names: seq<string>)
    ensures Gathered(InitialState(Gather(names)), names, 0)
  {
    var st := InitialState(Gather(names));
    GatherSenders(names);
    assert names[0..] == names;
    forall j | 0 <= j < |names| ensures Lookup(st, names[j]) == INITIAL_BALANCE {
      assert names[j] in Elements(names);
    }
  }

  lemma GatherNext(names: seq<string>, n: nat)
    requires n < |names| && Distinct(names) && CreditFitsAt(Gather(names), n)
    requires Gathered(StateAfter(InitialState(Gather(names)), Gather(names)[..n]), names, n)
    ensures Gathered(StateAfter(InitialState(Gather(names)), Gather(names)[..n + 1]), names, n + 1)
  {
    var txs := Gather(names);
    StateAfterNext(InitialState(txs), txs, n);
    FromDecodes(names[n], Transfer(INITIAL_BALANCE, 0));
    GatherStep(StateAfter(InitialState(txs), txs[..n]), names, n);
  }

  lemma {:induction false} GatherRun(names: seq<string>, n: nat)
    requires n <= |names| && Distinct(names)
    requires forall i :: 0 <= i < n ==> CreditFitsAt(Gather(names), i)
    ensures Gathered(StateAfter(InitialState(Gather(names)), Gather(names)[..n]), names, n)
  {
    if n == 0 {
      assert Gather(names)[..0] == [];
      GatherStart(names);
    } else {
      GatherRun(names, n - 1);
      GatherNext(names, n - 1);
    }
  }

  /** More senders than 64 bits have room for: gathering all the money wraps a credit. */
  lemma CrowdWraps(names: seq<string>) returns (i: nat)
    requires Distinct(names) && INITIAL_BALANCE * |names| > U64_MAX
    ensures i < |names| && !CreditFitsAt(Gather(names), i)
  {
    if exists j :: 0 <= j < |names| && !CreditFitsAt(Gather(names), j) {
      i :| 0 <= i < |names| && !CreditFitsAt(Gather(names), i);
    } else {
      GatherRun(names, |names|);
      assert false;
    }
  }

  lemma DistinctCons<T>(x: T, s: seq<T>)
    requires Distinct(s) && x !in Elements(s)
    ensures Distinct([x] + s) && Elements([x] + s) == {x} + Elements(s)
  {
    assert forall i :: 0 <= i < |s| ==> s[i] in Elements(s);
  }

  lemma {:induction false} Listing(s: set<string>) returns (names: seq<string>)
    ensures Distinct(names) && Elements(names) == s && |names| == |s|
    decreases |s|
  {
    if s == {} {
      names := [];
    } else {
      var x :| x in s;
      var rest := Listing(s - {x});
      names := [x] + rest;
      DistinctCons(x, rest);
      assert s == {x} + (s - {x});
    }
  }

  /** No credit wraps and the total never changes. */
  ghost predicate WellBehaved(txs: seq<Transaction>) {
    && (forall i :: 0 <= i < |txs| ==> CreditFitsAt(txs, i))
    && forall n :: 0 <= n <= |txs| ==> BalanceTotal(txs, n) == BalanceTotal(txs, 0)
  }

  /** What can be checked of a set of sender names beforehand. */
  ghost predicate SafeNames(s: set<string>) {
    (forall name :: name in s ==> !IsDataKey(name)) && INITIAL_BALANCE * |s| <= U64_MAX
  }

  lemma FewerSenders(txs: seq<Transaction>, s: set<string>)
    requires Senders(txs) <= s
    ensures INITIAL_BALANCE * |Senders(txs)| <= INITIAL_BALANCE * |s|
  {
    assert s == Senders(txs) + (s - Senders(txs));
  }

  lemma SafeBatch(txs: seq<Transaction>, s: set<string>)
    requires SafeNames(s) && Senders(txs) <= s
    ensures WellBehaved(txs)
  {
    FewerSenders(txs, s);
    Conserved(txs, |txs|);
    forall n | 0 <= n <= |txs| ensures BalanceTotal(txs, n) == BalanceTotal(txs, 0) {
      Conserved(txs, n);
      Conserved(txs, 0);
    }
  }

  lemma UnsafeBatch(s: set<string>) returns (txs: seq<Transaction>)
    requires !SafeNames(s)
    ensures Senders(txs) <= s && !WellBehaved(txs)
  {
    if name :| name in s && IsDataKey(name) {
      var k: u64 :| name == DataKey(k);
      txs := DataSenderWraps(k);
      assert !CreditFitsAt(txs, 3);
    } else {
      var names := Listing(s);
      txs := Gather(names);
      GatherSenders(names);
      var i := CrowdWraps(names);
      assert !CreditFitsAt(txs, i);
    }
  }

  /** The senders whose batches are all well behaved: none is named like a cell an instruction can
      address, and their starting balances together fit in 64 bits. */
  lemma SafeExactly(s: set<string>)
    ensures (forall txs :: Senders(txs) <= s ==> WellBehaved(txs)) <==> SafeNames(s)
  {
    if SafeNames(s) {
      forall txs | Senders(txs) <= s ensures WellBehaved(txs) {
        SafeBatch(txs, s);
      }
    } else {
      var txs := UnsafeBatch(s);
    }
  }

  // ----- Data cells -----

  /** What cell `k` would hold without the 64-bit limit: the value last set plus the increments
      since, over an unset cell reading zero. */
  function CellTotal(txs: seq<Transaction>, k: nat): nat {
    if txs == [] then 0
    else
      var before := CellTotal(txs[..|txs| - 1], k);
      match Decode(txs[|txs| - 1].instructionData)
      case SetData(i, v) => if i == k then v else before
      case Increment(i, d) => if i == k then before + d else before
      case _ => before
  }

  predicate WritesCell(tx: Transaction, k: nat) {
    var op := Decode(tx.instructionData);
    (op.SetData? && op.index == k) || (op.Increment? && op.index == k)
  }

  /** A data cell that is no sender's name holds that total, capped once at 2^64 - 1 however
      often an increment saturated, and exists once something has been written to it. */
  lemma {:induction false} CellValue(st: State, txs: seq<Transaction>, k: nat)
    requires DataKey(k) !in st && forall tx :: tx in txs ==> tx.sender != DataKey(k)
    ensures Lookup(StateAfter(st, txs), DataKey(k)) == Min(U64_MAX, CellTotal(txs, k))
    ensures DataKey(k) in StateAfter(st, txs) <==> exists tx :: tx in txs && WritesCell(tx, k)
  {
    if txs != [] {
      var before, last := txs[..|txs| - 1], txs[|txs| - 1];
      CellValue(st, before, k);
      assert txs == before + [last];
      CellStep(StateAfter(st, before), last, k);
    }
  }

  lemma CellStep(st: State, tx: Transaction, k: nat)
    requires tx.sender != DataKey(k)
    ensures var op, after := Decode(tx.instructionData), Apply(st, tx.sender, Decode(tx.instructionData));
            && (DataKey(k) in after <==> DataKey(k) in st || WritesCell(tx, k))
            && Lookup(after, DataKey(k)) ==
                 match op
                 case SetData(i, v) => if i == k then v else Lookup(st, DataKey(k))
                 case Increment(i, d) => if i == k then SaturatingAdd(Lookup(st, DataKey(k)), d) else Lookup(st, DataKey(k))
                 case _ => Lookup(st, DataKey(k))
  {
    match Decode(tx.instructionData)
    case Transfer(_, target) =>
      AccountIsNotCell(target, k);
    case SetData(i, _) => if DataKey(i) == DataKey(k) { DataKeyInjective(i, k); }
    case Increment(i, _) => if DataKey(i) == DataKey(k) { DataKeyInjective(i, k); }
    case _ =>
  }
}
