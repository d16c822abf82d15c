/** The workload generator, for every outcome of its random draws, and the batches it makes. */
module Generator {
  import opened Basics
  import opened OrderedMap
  import opened Merkle
  import opened Machine
  import opened HostExecutor
  import opened Guest
  import opened Replay
  import Text

  datatype Scenario = Steady | Bursty | Poisson | MixedPriority | IdleThenSpike

  /** Everything one transaction may draw; a call uses the draws its branches ask for. */
  datatype Draws = Draws(
    jitter: nat, isBurst: bool, short: nat, calm: nat, exponential: real, mixed: nat, roll: nat,
    idle: nat, cool: nat, sender: nat, program: nat, computeUnits: u64,
    opcode: byte, amount: u64, target: u64, key: u64, value: u64, delta: u64)

  /** The ranges drawn from. */
  predicate InRange(d: Draws) {
    && d.jitter < 10 && 1 <= d.short < 5 && 50 <= d.calm < 200 && d.exponential >= 0.0
    && 5 <= d.mixed < 50 && d.roll < 100 && 100 <= d.idle < 500 && 20 <= d.cool < 100
    && d.sender < 100 && d.program < 5 && d.opcode < 5
    && 1 <= d.amount < 1000 && d.target < 100 && d.key < 50 && 1 <= d.delta < 100
  }

  /** `x as i64` and wrapping addition on it. */
  function ToI64(x: int): int {
    var r := x % U64_LIMIT;
    if r < 0x8000_0000_0000_0000 then r else r - U64_LIMIT
  }

  function Arrival(s: Scenario, generated: nat, txCount: nat, base: u64, d: Draws): (nat, Priority) {
    match s
    case Steady =>
      var shifted := ToI64(ToI64(base) + (d.jitter - 5));
      (if shifted < 1 then 1 else shifted, Normal)
    case Bursty => (if d.isBurst then d.short else d.calm, Normal)
    case Poisson =>
      var sample := if d.exponential < 1.0 then 1.0 else d.exponential;
      (Min(U64_MAX, sample.Floor), Normal)
    case MixedPriority =>
      (d.mixed, if d.roll <= 5 then Critical else if d.roll <= 20 then High else if d.roll <= 70 then Normal else Low)
    case IdleThenSpike =>
      if 10 * generated < 3 * txCount then (d.idle, Low)
      else if 10 * generated < 7 * txCount then (d.short, High)
      else (d.cool, Normal)
  }

  function Instruction(d: Draws): seq<byte> {
    if d.opcode == 0 then Encode(Transfer(d.amount, d.target))
    else if d.opcode == 1 then Encode(SetData(d.key, d.value))
    else if d.opcode == 2 then Encode(Increment(d.key, d.delta))
    else if d.opcode == 3 then Encode(Noop)
    else [d.opcode] + [255, 255, 255, 255, 255, 255, 255, 255]
  }

  function TxId(k: nat): string { "tx_" + Text.Padded(k, Text.Decimal, 6) }

  function SenderKey(n: nat): string { "sender_" + Text.Dec(n) }

  /** The generator's state, between calls. */
  datatype Gen = Gen(scenario: Scenario, txCount: nat, base: u64, now: u64, generated: nat)

  function DeltaOf(g: Gen, d: Draws): nat { Arrival(g.scenario, g.generated, g.txCount, g.base, d).0 }

  function TxOf(g: Gen, d: Draws): Transaction
    requires DeltaOf(g, d) <= U64_MAX
  {
    var (delta, priority) := Arrival(g.scenario, g.generated, g.txCount, g.base, d);
    Transaction(TxId(g.generated), WrappingAdd(g.now, delta), SenderKey(d.sender),
                "program_" + Text.Dec(d.program), Instruction(d), priority, d.computeUnits)
  }

  class WorkloadGenerator {
    var scenario: Scenario
    var txCount: nat
    var baseIntervalMs: u64
    var currentTimeMs: u64
    var generated: nat

    function State(): Gen reads this { Gen(scenario, txCount, baseIntervalMs, currentTimeMs, generated) }

    constructor (scenario: Scenario, txCount: nat, baseIntervalMs: u64)
      ensures State() == Gen(scenario, txCount, baseIntervalMs, 0, 0)
    {
      this.scenario, this.txCount, this.baseIntervalMs := scenario, txCount, baseIntervalMs;
      currentTimeMs, generated := 0, 0;
    }

    method Next(d: Draws) returns (tx: Option<Transaction>)
      requires InRange(d)
      modifies this
      ensures State() == Step(old(State()), d)
      ensures old(generated) >= old(txCount) ==> tx == None
      ensures old(generated) < old(txCount) ==> DeltaOf(old(State()), d) <= U64_MAX && tx == Some(TxOf(old(State()), d))
    {
      if generated >= txCount {
        return None;
      }
      DeltaInRange(State(), d);
      var (delta, priority) := Arrival(scenario, generated, txCount, baseIntervalMs, d);
      currentTimeMs := WrappingAdd(currentTimeMs, delta);
      var data := GenerateInstruction(d);
      tx := Some(Transaction(TxId(generated), currentTimeMs, SenderKey(d.sender),
                             "program_" + Text.Dec(d.program), data, priority, d.computeUnits));
      generated := generated + 1;
    }

    method GenerateInstruction(d: Draws) returns (data: seq<byte>)
      ensures data == Instruction(d)
    {
      data := [d.opcode];
      if d.opcode == 0 {
        data := data + (ToLittleEndian(d.amount, 8) + ToLittleEndian(d.target, 8));
      } else if d.opcode == 1 {
        data := data + (ToLittleEndian(d.key, 8) + ToLittleEndian(d.value, 8));
      } else if d.opcode == 2 {
        data := data + (ToLittleEndian(d.key, 8) + ToLittleEndian(d.delta, 8));
      } else if d.opcode != 3 {
        data := data + [255, 255, 255, 255, 255, 255, 255, 255];
      }
    }
  }

  // ----- The stream -----

  lemma DeltaInRange(g: Gen, d: Draws)
    requires InRange(d)
    ensures 1 <= DeltaOf(g, d) <= U64_MAX
    ensures g.scenario.Bursty? || g.scenario.MixedPriority? || g.scenario.IdleThenSpike? ==> DeltaOf(g, d) < 500
  {}

  /** Arrivals move forward exactly as long as the 64-bit clock does not wrap. */
  lemma ArrivalMovesForward(g: Gen, d: Draws)
    requires InRange(d)
    ensures DeltaOf(g, d) <= U64_MAX && (TxOf(g, d).arrivalTs > g.now <==> g.now + DeltaOf(g, d) <= U64_MAX)
  {
    DeltaInRange(g, d);
  }

  function Step(g: Gen, d: Draws): Gen
    requires InRange(d)
  {
    DeltaInRange(g, d);
    if g.generated >= g.txCount then g else g.(now := WrappingAdd(g.now, DeltaOf(g, d)), generated := g.generated + 1)
  }

  predicate AllInRange(draws: seq<Draws>) { forall i :: 0 <= i < |draws| ==> InRange(draws[i]) }

  function After(g: Gen, draws: seq<Draws>): Gen
    requires AllInRange(draws)
  {
    if draws == [] then g else Step(After(g, draws[..|draws| - 1]), draws[|draws| - 1])
  }

  /** The transactions of a run of calls, one per call until the count is reached. */
  function Stream(g: Gen, draws: seq<Draws>): seq<Transaction>
    requires AllInRange(draws)
  {
    if draws == [] then []
    else
      var n := |draws| - 1;
      var before := After(g, draws[..n]);
      DeltaInRange(before, draws[n]);
      Stream(g, draws[..n]) + if before.generated >= before.txCount then [] else [TxOf(before, draws[n])]
  }

  /** Exactly `tx_count` transactions come out. */
  lemma {:induction false} StreamCounts(g: Gen, draws: seq<Draws>)
    requires AllInRange(draws) && g.generated == 0
    ensures After(g, draws).generated == |Stream(g, draws)| == Min(|draws|, g.txCount)
    ensures After(g, draws).txCount == g.txCount && After(g, draws).scenario == g.scenario
  {
    if draws != [] {
      StreamCounts(g, draws[..|draws| - 1]);
    }
  }

  lemma IdIsNumber(g: Gen, d: Draws)
    requires DeltaOf(g, d) <= U64_MAX
    ensures TxOf(g, d).txId == TxId(g.generated)
  {}

  /** What one more draw adds to the stream: nothing, or the transaction numbered next. */
  lemma StreamStep(g: Gen, draws: seq<Draws>) returns (tail: seq<Transaction>)
    requires AllInRange(draws) && draws != []
    ensures Stream(g, draws) == Stream(g, draws[..|draws| - 1]) + tail
    ensures |tail| <= 1 && (tail != [] ==> tail[0].txId == TxId(After(g, draws[..|draws| - 1]).generated))
  {
    var before, d := After(g, draws[..|draws| - 1]), draws[|draws| - 1];
    DeltaInRange(before, d);
    tail := if before.generated >= before.txCount then [] else [TxOf(before, d)];
    IdIsNumber(before, d);
  }

  ghost predicate Numbered(txs: seq<Transaction>) { forall i :: 0 <= i < |txs| ==> txs[i].txId == TxId(i) }

  lemma NumberedNext(txs: seq<Transaction>, tail: seq<Transaction>)
    requires Numbered(txs) && |tail| <= 1 && (tail != [] ==> tail[0].txId == TxId(|txs|))
    ensures Numbered(txs + tail)
  {}

  /** They are numbered from zero. */
  lemma {:induction false} StreamNumbered(g: Gen, draws: seq<Draws>)
    requires AllInRange(draws) && g.generated == 0
    ensures Numbered(Stream(g, draws))
  {
    if draws != [] {
      var n := |draws| - 1;
      StreamNumbered(g, draws[..n]);
      StreamCounts(g, draws[..n]);
      var tail := StreamStep(g, draws);
      NumberedNext(Stream(g, draws[..n]), tail);
    }
  }

  lemma StreamIds(g: Gen, draws: seq<Draws>, i: nat)
    requires AllInRange(draws) && g.generated == 0 && i < |Stream(g, draws)|
    ensures Stream(g, draws)[i].txId == TxId(i)
  {
    StreamNumbered(g, draws);
  }

  lemma TxIdInjective(a: nat, b: nat)
    requires TxId(a) == TxId(b)
    ensures a == b
  {
    assert Text.Padded(a, Text.Decimal, 6) == TxId(a)[3..] && Text.Padded(b, Text.Decimal, 6) == TxId(b)[3..];
    Text.PaddedInjective(a, b, Text.Decimal, 6);
  }

  /** No id comes twice. */
  lemma StreamIdsDiffer(g: Gen, draws: seq<Draws>, i: nat, j: nat)
    requires AllInRange(draws) && g.generated == 0 && i < j < |Stream(g, draws)|
    ensures Stream(g, draws)[i].txId != Stream(g, draws)[j].txId
  {
    StreamIds(g, draws, i);
    StreamIds(g, draws, j);
    if TxId(i) == TxId(j) {
      TxIdInjective(i, j);
    }
  }

  /** No call of the run wraps the clock. */
  predicate NeverWraps(g: Gen, draws: seq<Draws>)
    requires AllInRange(draws)
  {
    draws == [] ||
    var n := |draws| - 1;
    var before := After(g, draws[..n]);
    NeverWraps(g, draws[..n]) && (before.generated >= before.txCount || before.now + DeltaOf(before, draws[n]) <= U64_MAX)
  }

  ghost predicate Increasing(times: seq<nat>) {
    forall i, j :: 0 <= i < j < |times| ==> times[i] < times[j]
  }

  function Arrivals(txs: seq<Transaction>): (times: seq<nat>)
    ensures |times| == |txs| && forall i :: 0 <= i < |txs| ==> times[i] == txs[i].arrivalTs
  {
    seq(|txs|, i requires 0 <= i < |txs| => txs[i].arrivalTs)
  }

  /** The clock after every transaction of a run. */
  function Clocks(g: Gen, draws: seq<Draws>): seq<nat>
    requires AllInRange(draws)
  {
    if draws == [] then []
    else
      var n := |draws| - 1;
      var before := After(g, draws[..n]);
      DeltaInRange(before, draws[n]);
      Clocks(g, draws[..n]) + if before.generated >= before.txCount then [] else [WrappingAdd(before.now, DeltaOf(before, draws[n]))]
  }

  lemma ArrivalIsClock(g: Gen, d: Draws)
    requires DeltaOf(g, d) <= U64_MAX
    ensures TxOf(g, d).arrivalTs == WrappingAdd(g.now, DeltaOf(g, d))
  {}

  lemma ArrivalsNext(txs: seq<Transaction>, tx: Transaction)
    ensures Arrivals(txs + [tx]) == Arrivals(txs) + [tx.arrivalTs]
  {}

  lemma {:induction false} ArrivalsAreClocks(g: Gen, draws: seq<Draws>)
    requires AllInRange(draws)
    ensures Arrivals(Stream(g, draws)) == Clocks(g, draws)
  {
    if draws != [] {
      var n := |draws| - 1;
      var before := After(g, draws[..n]);
      ArrivalsAreClocks(g, draws[..n]);
      DeltaInRange(before, draws[n]);
      ArrivalIsClock(before, draws[n]);
      if before.generated < before.txCount {
        ArrivalsNext(Stream(g, draws[..n]), TxOf(before, draws[n]));
      }
    }
  }

  function Last(times: seq<nat>): nat { if times == [] then 0 else times[|times| - 1] }

  lemma IncreasingNext(times: seq<nat>, t: nat)
    ensures Increasing(times + [t]) <==> Increasing(times) && (times == [] || Last(times) < t)
  {
    var all := times + [t];
    assert all[..|times|] == times;
    if Increasing(all) {
      assert times != [] ==> all[|times| - 1] < all[|times|];
      forall i, j | 0 <= i < j < |times| ensures times[i] < times[j] {
        assert all[i] < all[j];
      }
    }
  }

  lemma {:induction false} ClockIsLast(g: Gen, draws: seq<Draws>)
    requires AllInRange(draws) && g.generated == 0 && g.now == 0
    ensures After(g, draws).now == Last(Clocks(g, draws)) && (Clocks(g, draws) == [] ==> After(g, draws) == g)
  {
    if draws != [] {
      ClockIsLast(g, draws[..|draws| - 1]);
    }
  }

  /** One transaction more: it is later than the last one exactly when the clock does not wrap. */
  lemma LaterNext(earlier: seq<nat>, now: u64, delta: nat)
    requires now == Last(earlier) && 1 <= delta <= U64_MAX
    ensures Increasing(earlier + [WrappingAdd(now, delta)]) <==> Increasing(earlier) && now + delta <= U64_MAX
  {
    IncreasingNext(earlier, WrappingAdd(now, delta));
  }

  lemma {:induction false} ClocksIncrease(g: Gen, draws: seq<Draws>)
    requires AllInRange(draws) && g.generated == 0 && g.now == 0
    ensures Increasing(Clocks(g, draws)) <==> NeverWraps(g, draws)
  {
    if draws != [] {
      var n := |draws| - 1;
      var before := After(g, draws[..n]);
      ClocksIncrease(g, draws[..n]);
      ClockIsLast(g, draws[..n]);
      DeltaInRange(before, draws[n]);
      if before.generated >= before.txCount {
        assert Clocks(g, draws) == Clocks(g, draws[..n]);
      } else {
        LaterNext(Clocks(g, draws[..n]), before.now, DeltaOf(before, draws[n]));
        assert Clocks(g, draws) == Clocks(g, draws[..n]) + [WrappingAdd(before.now, DeltaOf(before, draws[n]))];
      }
    }
  }

  /** Over the stream of a new generator arrivals strictly increase exactly as long as no call
      wraps the clock. */
  lemma StreamIncreases(g: Gen, draws: seq<Draws>)
    requires AllInRange(draws) && g.generated == 0 && g.now == 0
    ensures Increasing(Arrivals(Stream(g, draws))) <==> NeverWraps(g, draws)
  {
    ArrivalsAreClocks(g, draws);
    ClocksIncrease(g, draws);
  }

  // ----- Which configurations never wrap -----

  const I64_MAX: nat := 0x7FFF_FFFF_FFFF_FFFF

  /** The jitter that makes the gap after `base` as long as it gets; at the ends of the signed range
      the largest jitter is not the one. */
  function WorstJitter(base: u64): nat {
    if I64_MAX - 4 < base <= I64_MAX then I64_MAX - base + 5
    else if I64_MAX < base <= I64_MAX + 5 then I64_MAX + 5 - base
    else 9
  }

  const ANY_DRAWS: Draws := Draws(0, false, 4, 199, U64_MAX as real, 49, 0, 499, 99, 0, 0, 0, 3, 1, 0, 0, 0, 1)

  function WorstDraws(base: u64): Draws { ANY_DRAWS.(jitter := WorstJitter(base)) }

  /** The longest gap before the transaction of number `generated`. */
  function WorstGap(s: Scenario, generated: nat, txCount: nat, base: u64): nat {
    Arrival(s, generated, txCount, base, WorstDraws(base)).0
  }

  lemma WorstSteady(base: u64, d: Draws)
    requires InRange(d)
    ensures WorstJitter(base) < 10
    ensures ToI64(ToI64(base) + (d.jitter - 5)) <= ToI64(ToI64(base) + (WorstJitter(base) - 5))
         || ToI64(ToI64(base) + (d.jitter - 5)) < 1
  {}

  lemma WorstIsWorst(g: Gen, d: Draws)
    requires InRange(d)
    ensures InRange(WorstDraws(g.base))
    ensures DeltaOf(g, d) <= WorstGap(g.scenario, g.generated, g.txCount, g.base)
  {
    WorstSteady(g.base, d);
  }

  /** The longest the clock can run for the first `n` transactions, a number to be computed from the
      configuration alone. */
  function WorstTime(s: Scenario, n: nat, txCount: nat, base: u64): nat {
    if n == 0 then 0 else WorstTime(s, n - 1, txCount, base) + WorstGap(s, n - 1, txCount, base)
  }

  lemma {:induction false} WorstTimeGrows(s: Scenario, m: nat, n: nat, txCount: nat, base: u64)
    requires m <= n
    ensures WorstTime(s, m, txCount, base) <= WorstTime(s, n, txCount, base)
    decreases n
  {
    if m < n {
      WorstTimeGrows(s, m, n - 1, txCount, base);
    }
  }

  function New(s: Scenario, txCount: nat, base: u64): Gen { Gen(s, txCount, base, 0, 0) }

  /** The clock is within the longest time of the transactions so far. */
  predicate Within(g: Gen) { g.now <= WorstTime(g.scenario, g.generated, g.txCount, g.base) }

  predicate Fits(g: Gen) { WorstTime(g.scenario, g.txCount, g.txCount, g.base) <= U64_MAX }

  lemma FitsNext(before: Gen, d: Draws)
    requires InRange(d) && Within(before) && Fits(before)
    ensures Within(Step(before, d))
    ensures before.generated >= before.txCount || before.now + DeltaOf(before, d) <= U64_MAX
  {
    if before.generated < before.txCount {
      WorstIsWorst(before, d);
      WorstTimeGrows(before.scenario, before.generated + 1, before.txCount, before.txCount, before.base);
    }
  }

  lemma {:induction false} FitsNeverWraps(g: Gen, draws: seq<Draws>)
    requires AllInRange(draws) && Within(g) && Fits(g)
    ensures NeverWraps(g, draws) && Within(After(g, draws))
  {
    if draws != [] {
      var n := |draws| - 1;
      FitsNeverWraps(g, draws[..n]);
      AfterKeeps(g, draws[..n]);
      FitsNext(After(g, draws[..n]), draws[n]);
    }
  }

  lemma {:induction false} AfterKeeps(g: Gen, draws: seq<Draws>)
    requires AllInRange(draws)
    ensures After(g, draws).base == g.base && After(g, draws).scenario == g.scenario && After(g, draws).txCount == g.txCount
  {
    if draws != [] {
      AfterKeeps(g, draws[..|draws| - 1]);
    }
  }

  function AllWorst(base: u64, n: nat): (draws: seq<Draws>)
    ensures |draws| == n && forall i :: 0 <= i < n ==> draws[i] == WorstDraws(base)
  {
    seq(n, i => WorstDraws(base))
  }

  lemma {:induction false} WorstRun(g: Gen, n: nat)
    requires n <= g.txCount && AllInRange(AllWorst(g.base, n)) && g.generated == 0 && g.now == 0
    requires NeverWraps(g, AllWorst(g.base, n))
    ensures After(g, AllWorst(g.base, n)).now == WorstTime(g.scenario, n, g.txCount, g.base)
    ensures After(g, AllWorst(g.base, n)).generated == n
  {
    if n > 0 {
      assert AllWorst(g.base, n)[..n - 1] == AllWorst(g.base, n - 1);
      WorstRun(g, n - 1);
      AfterKeeps(g, AllWorst(g.base, n - 1));
      WorstNext(After(g, AllWorst(g.base, n - 1)));
    }
  }

  lemma WorstNext(before: Gen)
    requires InRange(WorstDraws(before.base))
    ensures DeltaOf(before, WorstDraws(before.base)) == WorstGap(before.scenario, before.generated, before.txCount, before.base)
  {}

  /** A run that wraps, for every configuration whose longest time does not fit. */
  lemma SomeRunWraps(s: Scenario, txCount: nat, base: u64) returns (draws: seq<Draws>)
    requires WorstTime(s, txCount, txCount, base) > U64_MAX
    ensures AllInRange(draws) && !Increasing(Arrivals(Stream(New(s, txCount, base), draws)))
  {
    draws := AllWorst(base, txCount);
    WorstIsWorst(New(s, txCount, base), ANY_DRAWS);
    StreamIncreases(New(s, txCount, base), draws);
    if NeverWraps(New(s, txCount, base), draws) {
      WorstRun(New(s, txCount, base), txCount);
    }
  }

  /** Exactly the configurations whose longest time fits in 64 bits give strictly increasing
      arrivals whatever is drawn. */
  lemma AlwaysIncreasing(s: Scenario, txCount: nat, base: u64)
    ensures (forall draws :: AllInRange(draws) ==> Increasing(Arrivals(Stream(New(s, txCount, base), draws))))
       <==> WorstTime(s, txCount, txCount, base) <= U64_MAX
  {
    if WorstTime(s, txCount, txCount, base) <= U64_MAX {
      forall draws | AllInRange(draws) ensures Increasing(Arrivals(Stream(New(s, txCount, base), draws))) {
        FitsNeverWraps(New(s, txCount, base), draws);
        StreamIncreases(New(s, txCount, base), draws);
      }
    } else {
      var draws := SomeRunWraps(s, txCount, base);
    }
  }

  /** What a gap is at most. */
  function GapBound(s: Scenario, base: u64): nat {
    match s
    case Steady => if base < I64_MAX - 4 then base + 5 else U64_MAX
    case Bursty => 200
    case Poisson => U64_MAX
    case MixedPriority => 50
    case IdleThenSpike => 500
  }

  lemma {:induction false} WorstTimeBounded(s: Scenario, n: nat, txCount: nat, base: u64)
    ensures WorstTime(s, n, txCount, base) <= GapBound(s, base) * n
  {
    if n > 0 {
      WorstTimeBounded(s, n - 1, txCount, base);
      WorstGapBounded(s, n - 1, txCount, base);
      TimesNext(GapBound(s, base), n - 1);
    }
  }

  lemma WorstGapBounded(s: Scenario, generated: nat, txCount: nat, base: u64)
    ensures WorstGap(s, generated, txCount, base) <= GapBound(s, base)
  {}

  /** Simple bounds that suffice, one for every scenario; no bound does for two or more transactions
      of the Poisson scenario. */
  lemma BoundedNeverWraps(s: Scenario, txCount: nat, base: u64)
    ensures GapBound(s, base) * txCount <= U64_MAX ==> WorstTime(s, txCount, txCount, base) <= U64_MAX
    ensures s.Poisson? ==> (WorstTime(s, txCount, txCount, base) <= U64_MAX <==> txCount <= 1)
  {
    WorstTimeBounded(s, txCount, txCount, base);
    if s.Poisson? {
      PoissonTime(txCount, txCount, base);
    }
  }

  lemma {:induction false} PoissonTime(n: nat, txCount: nat, base: u64)
    ensures WorstTime(Poisson, n, txCount, base) == U64_MAX * n
  {
    if n > 0 {
      PoissonTime(n - 1, txCount, base);
    }
  }

  /** Two draws after which the clock is back at its start. */
  lemma ClockReturns(d: Draws, e: Draws)
    requires InRange(d) && InRange(e) && d.exponential == U64_MAX as real && e.exponential == 1.0
    ensures var s := Stream(New(Poisson, 2, 1), [d, e]);
            |s| == 2 && s[0].arrivalTs == U64_MAX && s[1].arrivalTs == 0
  {
    var g := New(Poisson, 2, 1);
    assert [d, e][..1] == [d] && [d][..0] == [];
    assert After(g, [d]) == Step(g, d);
    assert Stream(g, [d]) == [TxOf(g, d)];
    assert Stream(g, [d, e]) == [TxOf(g, d)] + [TxOf(After(g, [d]), e)];
  }

  // ----- Generated batches -----

  /** What the generator guarantees of a transaction: a sender that is neither an account nor a
      data cell, small transfers, and arguments that are never short. */
  ghost predicate Generated(tx: Transaction) {
    var op := Decode(tx.instructionData);
    && (exists n: nat :: tx.sender == SenderKey(n))
    && (op.Transfer? ==> op.amount <= 999) && !op.Short? && !op.Empty?
  }

  lemma StreamIsGenerated(g: Gen, d: Draws)
    requires InRange(d)
    ensures DeltaOf(g, d) <= U64_MAX && Generated(TxOf(g, d))
    ensures Decode(TxOf(g, d).instructionData).Unknown? <==> d.opcode == 4
  {
    DeltaInRange(g, d);
    if d.opcode == 0 {
      DecodeEncode(Transfer(d.amount, d.target));
    } else if d.opcode == 1 {
      DecodeEncode(SetData(d.key, d.value));
    } else if d.opcode == 2 {
      DecodeEncode(Increment(d.key, d.delta));
    } else if d.opcode == 3 {
      DecodeEncode(Noop);
    }
    assert TxOf(g, d).sender == SenderKey(d.sender);
  }

  /** And so it does of every transaction of a stream. */
  lemma {:induction false} WholeStreamIsGenerated(g: Gen, draws: seq<Draws>)
    requires AllInRange(draws)
    ensures forall i :: 0 <= i < |Stream(g, draws)| ==> Generated(Stream(g, draws)[i])
  {
    if draws != [] {
      var n := |draws| - 1;
      WholeStreamIsGenerated(g, draws[..n]);
      StreamIsGenerated(After(g, draws[..n]), draws[n]);
    }
  }

  function Transfers(txs: seq<Transaction>, s: string): nat {
    if txs == [] then 0
    else
      var last := txs[|txs| - 1];
      Transfers(txs[..|txs| - 1], s) + if last.sender == s && Decode(last.instructionData).Transfer? then 1 else 0
  }

  lemma TransfersNext(txs: seq<Transaction>, s: string, i: nat)
    requires i < |txs|
    ensures Transfers(txs[..i + 1], s)
         == Transfers(txs[..i], s) + (if txs[i].sender == s && Decode(txs[i].instructionData).Transfer? then 1 else 0)
  {
    assert txs[..i + 1][..i] == txs[..i];
  }

  lemma {:induction false} TransfersGrow(txs: seq<Transaction>, s: string, i: nat)
    requires i <= |txs|
    ensures Transfers(txs[..i], s) <= Transfers(txs, s)
    decreases |txs| - i
  {
    if i == |txs| {
      assert txs[..i] == txs;
    } else {
      TransfersGrow(txs, s, i + 1);
      TransfersNext(txs, s, i);
    }
  }

  lemma SenderIsNeither(n: nat, i: nat)
    ensures SenderKey(n) != AccountKey(i) && SenderKey(n) != DataKey(i)
  {
    assert SenderKey(n)[0] == 's' && AccountKey(i)[0] == 'a' && DataKey(i)[0] == 'd';
  }

  /** A sender's balance falls by at most 999, and only by its own transfers. */
  lemma BalanceStep(st: State, tx: Transaction, n: nat)
    requires Generated(tx)
    ensures var op, s := Decode(tx.instructionData), SenderKey(n);
            Lookup(Apply(st, tx.sender, op), s) + (if tx.sender == s && op.Transfer? then 999 else 0) >= Lookup(st, s)
  {
    match Decode(tx.instructionData)
    case Transfer(_, target) => SenderIsNeither(n, target);
    case SetData(i, _) => SenderIsNeither(n, i);
    case Increment(i, _) => SenderIsNeither(n, i);
    case _ =>
  }

  lemma {:induction false} BalanceLeft(txs: seq<Transaction>, n: nat, i: nat)
    requires i <= |txs| && SenderKey(n) in Senders(txs)
    requires forall j :: 0 <= j < |txs| ==> Generated(txs[j])
    ensures Lookup(StateAfter(InitialState(txs), txs[..i]), SenderKey(n)) + 999 * Transfers(txs[..i], SenderKey(n))
         >= 1_000_000
  {
    if i > 0 {
      BalanceLeft(txs, n, i - 1);
      StateAfterNext(InitialState(txs), txs, i - 1);
      TransfersNext(txs, SenderKey(n), i - 1);
      BalanceStep(StateAfter(InitialState(txs), txs[..i - 1]), txs[i - 1], n);
    }
  }

  /** With at most 1001 transfers per sender no generated batch runs out of balance. */
  lemma NeverInsufficient(txs: seq<Transaction>, i: nat)
    requires i < |txs| && forall j :: 0 <= j < |txs| ==> Generated(txs[j])
    requires forall s :: s in Senders(txs) ==> Transfers(txs, s) <= 1001
    ensures !Insufficient(StateAfter(InitialState(txs), txs[..i]), txs[i].sender, Decode(txs[i].instructionData))
  {
    var s := txs[i].sender;
    assert Generated(txs[i]) && txs[i] in txs;
    var n: nat :| s == SenderKey(n);
    assert s in Senders(txs);
    if Decode(txs[i].instructionData).Transfer? {
      BalanceLeft(txs, n, i);
      TransfersNext(txs, s, i);
      TransfersGrow(txs, s, i + 1);
    }
  }

  /** The guest accepts such a batch exactly when it holds none of the deliberately invalid
      instructions. */
  lemma GeneratedBatchAccepted(H: HashFn, cap: u64, batchId: string, txs: seq<Transaction>)
    requires cap >= 5000 && forall j :: 0 <= j < |txs| ==> Generated(txs[j])
    requires forall s :: s in Senders(txs) ==> Transfers(txs, s) <= 1001
    ensures GuestMain(H, ToInput(HostTrace(H, cap, batchId, txs)), SerializeAll(txs), InitialState(txs)).Some?
       <==> forall i :: 0 <= i < |txs| ==> !Decode(txs[i].instructionData).Unknown?
  {
    GenerousCap(H, cap, batchId, txs);
    OnlyInvalidOpcodes(txs);
  }

  /** So for every run of the generator, whatever is drawn: while no sender made more than 1001
      transfers, the guest accepts the batch of all transactions it produced exactly when none of them
      is deliberately invalid. */
  lemma StreamAccepted(H: HashFn, cap: u64, batchId: string, g: Gen, draws: seq<Draws>)
    requires cap >= 5000 && AllInRange(draws)
    requires forall s :: s in Senders(Stream(g, draws)) ==> Transfers(Stream(g, draws), s) <= 1001
    ensures var txs := Stream(g, draws);
            GuestMain(H, ToInput(HostTrace(H, cap, batchId, txs)), SerializeAll(txs), InitialState(txs)).Some?
            <==> forall i :: 0 <= i < |txs| ==> !Decode(txs[i].instructionData).Unknown?
  {
    WholeStreamIsGenerated(g, draws);
    GeneratedBatchAccepted(H, cap, batchId, Stream(g, draws));
  }

  lemma OnlyInvalidOpcodes(txs: seq<Transaction>)
    requires forall j :: 0 <= j < |txs| ==> Generated(txs[j])
    requires forall s :: s in Senders(txs) ==> Transfers(txs, s) <= 1001
    ensures NoChargedFailure(InitialState(txs), txs)
       <==> forall i :: 0 <= i < |txs| ==> !Decode(txs[i].instructionData).Unknown?
  {
    forall i | 0 <= i < |txs|
      ensures ChargedFailure(StateAfter(InitialState(txs), txs[..i]), txs[i])
         <==> Decode(txs[i].instructionData).Unknown?
    {
      NeverInsufficient(txs, i);
    }
  }

  // ----- What is drawn, spelled out -----

  /** The bytes of a generated instruction mean the operation that was drawn. */
  lemma MeansTheDraw(d: Draws)
    ensures d.opcode == 0 ==> Decode(Instruction(d)) == Transfer(d.amount, d.target)
    ensures d.opcode == 1 ==> Decode(Instruction(d)) == SetData(d.key, d.value)
    ensures d.opcode == 2 ==> Decode(Instruction(d)) == Increment(d.key, d.delta)
    ensures d.opcode == 3 ==> Decode(Instruction(d)) == Noop
    ensures d.opcode > 3 ==> Decode(Instruction(d)) == Unknown(d.opcode)
    ensures |Instruction(d)| == if d.opcode <= 2 then 17 else if d.opcode == 3 then 1 else 9
  {
    DecodeEncode(Transfer(d.amount, d.target));
    DecodeEncode(SetData(d.key, d.value));
    DecodeEncode(Increment(d.key, d.delta));
  }

  /** Idle for the first three tenths of the count, a spike up to seven tenths, then cooling down. */
  lemma PhasesOfSpike(g: Gen, d: Draws)
    requires g.scenario.IdleThenSpike? && InRange(d)
    ensures DeltaOf(g, d) <= U64_MAX
    ensures var delta, priority := DeltaOf(g, d), TxOf(g, d).priority;
            && (10 * g.generated < 3 * g.txCount <==> priority == Low)
            && (3 * g.txCount <= 10 * g.generated < 7 * g.txCount <==> priority == High)
            && (7 * g.txCount <= 10 * g.generated <==> priority == Normal)
            && (priority == Low ==> 100 <= delta < 500)
            && (priority == High ==> 1 <= delta < 5)
            && (priority == Normal ==> 20 <= delta < 100)
  {
    DeltaInRange(g, d);
  }

  /** How the hundred rolls of the mixed scenario fall: 6 critical, 15 high, 50 normal, 29 low. */
  lemma MixedShares(g: Gen, d: Draws)
    requires g.scenario.MixedPriority? && InRange(d)
    ensures DeltaOf(g, d) <= U64_MAX && 5 <= DeltaOf(g, d) < 50
    ensures TxOf(g, d).priority == Critical <==> d.roll < 6
    ensures TxOf(g, d).priority == High <==> 6 <= d.roll < 6 + 15
    ensures TxOf(g, d).priority == Normal <==> 21 <= d.roll < 21 + 50
    ensures TxOf(g, d).priority == Low <==> 71 <= d.roll < 71 + 29
  {
    DeltaInRange(g, d);
  }

  lemma SteadyGap(base: u64, generated: nat, txCount: nat, d: Draws)
    requires InRange(d) && base < I64_MAX - 4
    ensures Arrival(Steady, generated, txCount, base, d) == (Max(1, SaturatingSub(base + d.jitter, 5)), Normal)
  {}

  lemma BurstyGap(base: u64, generated: nat, txCount: nat, d: Draws)
    requires InRange(d)
    ensures Arrival(Bursty, generated, txCount, base, d).1 == Normal
    ensures if d.isBurst then 1 <= Arrival(Bursty, generated, txCount, base, d).0 < 5
            else 50 <= Arrival(Bursty, generated, txCount, base, d).0 < 200
  {}

  lemma PoissonGap(base: u64, generated: nat, txCount: nat, d: Draws)
    requires InRange(d)
    ensures var (delta, priority) := Arrival(Poisson, generated, txCount, base, d);
            && priority == Normal && (d.exponential < 1.0 ==> delta == 1)
            && (1.0 <= d.exponential < U64_MAX as real ==> delta as real <= d.exponential < delta as real + 1.0)
  {}

  /** The other scenarios: everything normal, and a gap around the base, in or out of a burst, or as
      drawn but at least one. */
  lemma PlainScenarios(generated: nat, txCount: nat, base: u64, d: Draws)
    requires InRange(d)
    ensures base < I64_MAX - 4 ==>
      Arrival(Steady, generated, txCount, base, d) == (Max(1, SaturatingSub(base + d.jitter, 5)), Normal)
    ensures var (delta, priority) := Arrival(Bursty, generated, txCount, base, d);
            priority == Normal && if d.isBurst then 1 <= delta < 5 else 50 <= delta < 200
    ensures var (delta, priority) := Arrival(Poisson, generated, txCount, base, d);
            && priority == Normal && (d.exponential < 1.0 ==> delta == 1)
            && (1.0 <= d.exponential < U64_MAX as real ==> delta as real <= d.exponential < delta as real + 1.0)
  {
    if base < I64_MAX - 4 {
      SteadyGap(base, generated, txCount, d);
    }
    BurstyGap(base, generated, txCount, d);
    PoissonGap(base, generated, txCount, d);
  }

  /** The strings of a generated transaction. */
  lemma NamesOf(g: Gen, d: Draws)
    requires DeltaOf(g, d) <= U64_MAX
    ensures var tx := TxOf(g, d);
            && tx.txId == "tx_" + Text.Padded(g.generated, Text.Decimal, 6)
            && tx.sender == "sender_" + Text.Dec(d.sender) && tx.programId == "program_" + Text.Dec(d.program)
            && tx.instructionData == Instruction(d) && tx.estimatedCu == d.computeUnits
            && tx.arrivalTs == (g.now + DeltaOf(g, d)) % U64_LIMIT
  {}
}
