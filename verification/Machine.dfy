/** The instruction set both executors implement: what an instruction decodes to, what it does
    to a state, which keys it touches and what it costs. */
module Machine {
  import opened Basics
  import opened OrderedMap
  import Text

  datatype Priority = Low | Normal | High | Critical

  datatype Transaction = Transaction(
    txId: string, arrivalTs: u64, sender: string, programId: string,
    instructionData: seq<byte>, priority: Priority, estimatedCu: u64)

  // ----- Decoding -----

  function Pow256(n: nat): (p: nat)
    ensures p >= 1
  {
    if n == 0 then 1 else 256 * Pow256(n - 1)
  }

  lemma Pow256Of8()
    ensures Pow256(8) == U64_LIMIT
  {
    assert Pow256(4) == 0x1_0000_0000;
    assert Pow256(6) == 0x1_0000_0000_0000;
  }

  /** `from_le_bytes` */
  function LittleEndian(bytes: seq<byte>): (n: nat)
    ensures n < Pow256(|bytes|)
  {
    if bytes == [] then 0 else bytes[0] + 256 * LittleEndian(bytes[1..])
  }

  /** `to_le_bytes` on a `width`-byte integer. */
  function ToLittleEndian(n: nat, width: nat): (bytes: seq<byte>)
    ensures |bytes| == width
  {
    if width == 0 then [] else [n % 256] + ToLittleEndian(n / 256, width - 1)
  }

  lemma {:induction false} LittleEndianRoundTrip(n: nat, width: nat)
    requires n < Pow256(width)
    ensures LittleEndian(ToLittleEndian(n, width)) == n
    decreases width
  {
    if width > 0 {
      LittleEndianRoundTrip(n / 256, width - 1);
      assert ToLittleEndian(n, width)[1..] == ToLittleEndian(n / 256, width - 1);
    }
  }

  lemma LittleEndianOne(x: byte)
    ensures LittleEndian([x]) == x
  {
    assert [x][1..] == [];
  }

  lemma Distribute(a: nat, p: nat, x: nat, y: nat)
    ensures a + 256 * (x + p * y) == (a + 256 * x) + (256 * p) * y
  {}

  /** What comes first weighs least: byte `i` counts 256^i. */
  lemma {:induction false} LittleEndianConcat(a: seq<byte>, b: seq<byte>)
    ensures LittleEndian(a + b) == LittleEndian(a) + Pow256(|a|) * LittleEndian(b)
  {
    if a == [] {
      assert a + b == b;
    } else {
      LittleEndianConcat(a[1..], b);
      assert (a + b)[1..] == a[1..] + b;
      Distribute(a[0], Pow256(|a| - 1), LittleEndian(a[1..]), LittleEndian(b));
    }
  }

  /** Four bytes, the lowest first. */
  function FourBytes(a: nat, b: nat, c: nat, d: nat): nat { a + 0x100 * b + 0x1_0000 * c + 0x100_0000 * d }

  lemma LittleEndianTwo(x: byte, y: byte)
    ensures LittleEndian([x, y]) == FourBytes(x, y, 0, 0)
  {
    LittleEndianOne(x);
    LittleEndianOne(y);
    LittleEndianConcat([x], [y]);
    assert [x, y] == [x] + [y];
  }

  lemma LittleEndianFour(s: seq<byte>)
    requires |s| == 4
    ensures LittleEndian(s) == FourBytes(s[0], s[1], s[2], s[3])
  {
    LittleEndianTwo(s[0], s[1]);
    LittleEndianTwo(s[2], s[3]);
    LittleEndianConcat([s[0], s[1]], [s[2], s[3]]);
    assert s == [s[0], s[1]] + [s[2], s[3]];
    assert Pow256(2) == 0x1_0000;
  }

  lemma LittleEndianEight(s: seq<byte>)
    requires |s| == 8
    ensures LittleEndian(s) == FourBytes(s[0], s[1], s[2], s[3]) + 0x1_0000_0000 * FourBytes(s[4], s[5], s[6], s[7])
  {
    LittleEndianFour(s[..4]);
    LittleEndianFour(s[4..]);
    LittleEndianConcat(s[..4], s[4..]);
    assert s == s[..4] + s[4..];
    assert Pow256(4) == 0x1_0000_0000;
  }

  /** The 8-byte little-endian integer at `at`. */
  function Word(args: seq<byte>, at: nat): u64
    requires at + 8 <= |args|
  {
    Pow256Of8();
    LittleEndian(args[at..at + 8])
  }

  datatype Op =
    | Empty
    | Short(opcode: byte)
    | Transfer(amount: u64, target: u64)
    | SetData(index: u64, value: u64)
    | Increment(index: u64, delta: u64)
    | Noop
    | Unknown(opcode: byte)

  function TransferOp(args: seq<byte>): Op {
    if |args| < 16 then Short(0) else Transfer(Word(args, 0), Word(args, 8))
  }

  function SetDataOp(args: seq<byte>): Op {
    if |args| < 16 then Short(1) else SetData(Word(args, 0), Word(args, 8))
  }

  function IncrementOp(args: seq<byte>): Op {
    if |args| < 16 then Short(2) else Increment(Word(args, 0), Word(args, 8))
  }

  function Decode(data: seq<byte>): Op {
    if data == [] then Empty
    else if data[0] == 0 then TransferOp(data[1..])
    else if data[0] == 1 then SetDataOp(data[1..])
    else if data[0] == 2 then IncrementOp(data[1..])
    else if data[0] == 3 then Noop
    else Unknown(data[0])
  }

  /** Eight bytes of an instruction, the first of them the lowest. */
  function Lowest(data: seq<byte>, at: nat): nat
    requires at + 8 <= |data|
  {
    FourBytes(data[at], data[at + 1], data[at + 2], data[at + 3])
    + 0x1_0000_0000 * FourBytes(data[at + 4], data[at + 5], data[at + 6], data[at + 7])
  }

  lemma WordIs(data: seq<byte>, at: nat)
    requires data != [] && at + 8 <= |data| - 1
    ensures Word(data[1..], at) == Lowest(data, at + 1)
  {
    var s := data[1..][at..at + 8];
    assert forall i :: 0 <= i < 8 ==> s[i] == data[at + 1 + i];
    LittleEndianEight(s);
  }

  /** What every byte string means as an instruction, byte by byte. */
  lemma DecodesBytes(data: seq<byte>)
    ensures data == [] ==> Decode(data) == Empty
    ensures 1 <= |data| < 17 && data[0] <= 2 ==> Decode(data) == Short(data[0])
    ensures |data| >= 17 && data[0] == 0 ==> Decode(data) == Transfer(Lowest(data, 1), Lowest(data, 9))
    ensures |data| >= 17 && data[0] == 1 ==> Decode(data) == SetData(Lowest(data, 1), Lowest(data, 9))
    ensures |data| >= 17 && data[0] == 2 ==> Decode(data) == Increment(Lowest(data, 1), Lowest(data, 9))
    ensures data != [] && data[0] == 3 ==> Decode(data) == Noop
    ensures data != [] && data[0] > 3 ==> Decode(data) == Unknown(data[0])
  {
    if |data| >= 17 {
      WordIs(data, 0);
      WordIs(data, 8);
    }
  }

  predicate WellFormed(op: Op) { op.Transfer? || op.SetData? || op.Increment? || op.Noop? }

  /** The two arguments of an instruction, as the workload generator lays them out. */
  function Args(a: u64, b: u64): seq<byte> { ToLittleEndian(a, 8) + ToLittleEndian(b, 8) }

  function Encode(op: Op): seq<byte>
    requires WellFormed(op)
  {
    match op
    case Transfer(amount, target) => [0] + Args(amount, target)
    case SetData(i, v) => [1] + Args(i, v)
    case Increment(i, d) => [2] + Args(i, d)
    case Noop => [3]
  }

  lemma ArgsRoundTrip(a: u64, b: u64)
    ensures |Args(a, b)| == 16 && Word(Args(a, b), 0) == a && Word(Args(a, b), 8) == b
  {
    assert Args(a, b)[0..8] == ToLittleEndian(a, 8) && Args(a, b)[8..16] == ToLittleEndian(b, 8);
    Pow256Of8();
    LittleEndianRoundTrip(a, 8);
    LittleEndianRoundTrip(b, 8);
  }

  lemma DecodeArgs(opcode: byte, args: seq<byte>)
    ensures Decode([opcode] + args) ==
      if opcode == 0 then TransferOp(args) else if opcode == 1 then SetDataOp(args)
      else if opcode == 2 then IncrementOp(args) else if opcode == 3 then Noop else Unknown(opcode)
  {
    assert ([opcode] + args)[1..] == args;
  }

  /** Encoding then decoding gives the operation back: none of them is ever short. */
  lemma DecodeEncode(op: Op)
    requires WellFormed(op)
    ensures Decode(Encode(op)) == op
  {
    match op
    case Transfer(a, b) => DecodeArgs(0, Args(a, b)); ArgsRoundTrip(a, b);
    case SetData(a, b) => DecodeArgs(1, Args(a, b)); ArgsRoundTrip(a, b);
    case Increment(a, b) => DecodeArgs(2, Args(a, b)); ArgsRoundTrip(a, b);
    case Noop =>
  }

  // ----- Effect -----

  function AccountKey(i: nat): string { "account_" + Text.Dec(i) }

  function DataKey(i: nat): string { "data_" + Text.Dec(i) }

  function SaturatingAdd(a: u64, b: u64): u64 { if a + b <= U64_MAX then a + b else U64_MAX }

  predicate Insufficient(st: State, sender: string, op: Op) {
    op.Transfer? && Lookup(st, sender) < op.amount
  }

  /** Debit, then credit: with `sender == target` the credit sees the debited balance. */
  function Moved(st: State, sender: string, target: string, amount: u64): State
    requires amount <= Lookup(st, sender)
  {
    var debited := st[sender := Lookup(st, sender) - amount];
    debited[target := WrappingAdd(Lookup(debited, target), amount)]
  }

  /** The two updates of a transfer, which both executors make in this order. */
  method Move(state: BTreeMap, sender: string, target: string, amount: u64)
    requires amount <= Lookup(state.Contents(), sender)
    modifies state
    ensures state.Contents() == Moved(old(state.Contents()), sender, target, amount)
  {
    state.Debit(sender, amount);
    state.Credit(target, amount);
  }

  /** The state after one instruction; a failing instruction changes nothing. */
  function Apply(st: State, sender: string, op: Op): State {
    match op
    case Transfer(amount, target) =>
      if Insufficient(st, sender, op) then st else Moved(st, sender, AccountKey(target), amount)
    case SetData(i, v) => st[DataKey(i) := v]
    case Increment(i, d) => st[DataKey(i) := SaturatingAdd(Lookup(st, DataKey(i)), d)]
    case _ => st
  }

  /** What a transfer does to every key: the sender's balance falls, the target's rises modulo 2^64,
      of a transfer to oneself nothing is left, and nobody else notices. */
  lemma TransferEffect(st: State, sender: string, amount: u64, target: u64, k: string)
    requires amount <= Lookup(st, sender)
    ensures var t, after := AccountKey(target), Apply(st, sender, Transfer(amount, target));
            && (sender != t ==> Lookup(after, sender) == Lookup(st, sender) - amount)
            && (sender != t ==> Lookup(after, t) == (Lookup(st, t) + amount) % U64_LIMIT)
            && (sender == t ==> Lookup(after, t) == Lookup(st, t))
            && (k != sender && k != t ==> Lookup(after, k) == Lookup(st, k) && (k in after <==> k in st))
            && sender in after && t in after
  {}

  predicate Succeeds(st: State, sender: string, op: Op) {
    WellFormed(op) && !Insufficient(st, sender, op)
  }

  function Reads(sender: string, op: Op): seq<string> {
    match op
    case Transfer(_, target) => [sender, AccountKey(target)]
    case Increment(i, _) => [DataKey(i)]
    case _ => []
  }

  function Writes(sender: string, op: Op): seq<string> {
    match op
    case Transfer(_, target) => [sender, AccountKey(target)]
    case SetData(i, _) => [DataKey(i)]
    case Increment(i, _) => [DataKey(i)]
    case _ => []
  }

  /** Compute units of a successful instruction. */
  function Cost(op: Op): u64 {
    match op
    case Transfer(_, _) => 5000
    case SetData(_, _) => 3000
    case Increment(_, _) => 2000
    case Noop => 1000
    case _ => 0
  }

  lemma DataKeyInjective(i: nat, j: nat)
    requires DataKey(i) == DataKey(j)
    ensures i == j
  {
    assert Text.Dec(i) == DataKey(i)[5..] && Text.Dec(j) == DataKey(j)[5..];
    Text.DecInjective(i, j);
  }

  lemma AccountKeyInjective(i: nat, j: nat)
    requires AccountKey(i) == AccountKey(j)
    ensures i == j
  {
    assert Text.Dec(i) == AccountKey(i)[8..] && Text.Dec(j) == AccountKey(j)[8..];
    Text.DecInjective(i, j);
  }

  /** The cells an instruction can address. */
  ghost predicate IsDataKey(k: string) { exists i: u64 :: k == DataKey(i) }

  lemma AccountIsNotCell(i: nat, j: nat)
    ensures AccountKey(i) != DataKey(j)
  {
    assert AccountKey(i)[0] == 'a' && DataKey(j)[0] == 'd';
  }

  /** Nothing a transfer credits is a data cell. */
  lemma AccountsAreNotData(i: nat)
    ensures !IsDataKey(AccountKey(i))
  {
    forall j: u64 ensures AccountKey(i) != DataKey(j) {
      AccountIsNotCell(i, j);
    }
  }

  // ----- Batches -----

  function StateAfter(st: State, txs: seq<Transaction>): State {
    if txs == [] then st
    else
      var last := txs[|txs| - 1];
      Apply(StateAfter(st, txs[..|txs| - 1]), last.sender, Decode(last.instructionData))
  }

  function Senders(txs: seq<Transaction>): set<string> {
    set tx | tx in txs :: tx.sender
  }

  const INITIAL_BALANCE: u64 := 1_000_000

  /** Every distinct sender starts with one million. */
  function InitialState(txs: seq<Transaction>): State {
    map s | s in Senders(txs) :: INITIAL_BALANCE
  }

  lemma StateAfterNext(st: State, txs: seq<Transaction>, i: nat)
    requires i < |txs|
    ensures StateAfter(st, txs[..i + 1])
         == Apply(StateAfter(st, txs[..i]), txs[i].sender, Decode(txs[i].instructionData))
  {
    assert txs[..i + 1][..i] == txs[..i];
  }
}
