# CatalystSVM: a verified model

CatalystSVM queues transactions, seals them into batches, executes each batch on a small
four-opcode machine, commits the run in Merkle roots, replays it in a zkVM guest and compares the
two. This project models that chain in Dafny and proves what keeps its parts in agreement, for
every batch, every run and every interleaving.

## How the model is laid out

| file | models |
|---|---|
| `Basics.dfy`, `Text.dfy`, `OrderedMap.dfy` | machine integers, Rust's number formatting, `BTreeMap` as a class that keeps its entries strictly sorted |
| `MerkleTree.dfy`, `MerkleRepeats.dfy`, `Merkle.dfy`, `ListCommitment.dfy`, `StateCommitment.dfy` | the level loop, the tree it computes, which lists share a root, roots over lists of hashed texts, state roots, binding |
| `Machine.dfy`, `Trace.dfy`, `HostExecutor.dfy` | decoding and effect of instructions, traces, the host executor on a ledger updated in place |
| `Guest.dfy`, `Replay.dfy` | the guest's own machine and assertions; host and guest compared |
| `Pipeline.dfy` | prover reconstruction and verifier comparisons over an ideal proof system |
| `TraceBinding.dfy`, `Verification.dfy` | what a trace hash commits to; what a verified proof says of an unseen run, exactly |
| `Reordering.dfy`, `Commutation.dfy`, `Conservation.dfy` | read and write sets, reordering of batches, totals of balances, data cells |
| `Policies.dfy`, `AdaptiveControl.dfy`, `AutoControl.dfy` | seal policies and the two controllers |
| `SingleQueue.dfy`, `Engine.dfy`, `EngineRuns.dfy` | the batching engine as one queue, the two-deque class that refines it, laws of whole runs |
| `ValidatorProtocol.dfy`, `Validator.dfy` | the validator's atomic steps under every interleaving, and the class that performs them |
| `Generator.dfy`, `LatencyMetrics.dfy` | the workload generator and the metrics summary |
| `Examples.dfy` | strings, roots, traces and thresholds written out for given inputs |

Code that updates state is a class or a method with loops, each proved against a function of the
old state; the laws are lemmas about those functions.

**The hash.** SHA-256 with hex encoding is a parameter `H`. Most results hold of every `H`. The
binding results only assume that outputs are 64 lower-case hex characters, and say: the inputs are
equal, or two different strings among those actually hashed have one digest. Injectivity is never
assumed.

**Where the code differs from what one might expect of it.** Each of these is a lemma with a
concrete input or an exact condition.

- The guest rejects some honest host traces: it charges for unknown opcodes (500) and for
  insufficient balances (5000), the host charges nothing. `Replay.GuestAcceptsExactly` says for
  every cap which batches are accepted; a cap below an instruction's cost also separates the two.
- A sender named like a data cell can create balance and make a credit wrap
  (`Conservation.DataSenderWraps`), and so can more senders than 64 bits have room for
  (`Conservation.CrowdWraps`). `Conservation.SafeExactly` says for which sets of names every batch
  conserves the total and never wraps, and `Conservation.TotalLaw` what any batch does.
- A seal by time can come later than the limit plus the clock advance of the ingest, because
  proving moves the clock past later arrivals (`EngineRuns.LateArrival`);
  `EngineRuns.WaitAtSeal` gives the exact condition.
- `AutoPolicy` documents a high-load pattern that its 100-slot buffer can never reach
  (`AutoControl.NeverHighLoad`), and where the ring wraps a gap between arrivals is replaced by
  zero. That can hide a burst (`AutoControl.BurstHidden`) and can turn one arrival per second into
  one (`AutoControl.SteadyMadeBursty`); `AutoControl.VerdictChanges` says exactly when.
- The latency average stops 3 ms below a constant latency when approached from below
  (`AdaptiveControl.Settles`).
- The verifier does not fix the number of transactions: a guest run of four truncated transfers
  passes all four comparisons against the host trace of three (`Verification.FourForThree`).
  `Verification.LongerRunExactly` says which batches leave the number open.
- Nor does it always fix the transactions: a batch of one transfer by a sender with colons in its
  name is matched by a run of another account's transfer under another id, whatever the hash
  (`Verification.TradedPlaces`). For batches without colons it does, and nothing need be known of
  the run (`Verification.VerifiedEntries`). `Verification.VerifiesExactly` says for all batches and
  runs what verifies.
- The generator's arrivals strictly increase exactly while its 64-bit clock does not wrap
  (`Generator.StreamIncreases`). `Generator.AlwaysIncreasing` says which configurations never wrap,
  by a number computed from the configuration; `Generator.ClockReturns` is a run that does.

## Model

| member | source | states |
|---|---|---|
| Text.PaddedInjective | examples/validator/src/main.rs:174 | numbers printed alike are equal, in decimal and hex, at every padding width |
| Text.DecIsDecimal | crates/common/src/merkle.rs:50 | numerals are decimal: the quotient by ten, then the last digit |
| Text.HexIsHexadecimal | examples/validator/src/main.rs:174 | likewise lower-case hexadecimal for ids |
| Text.PaddedIs | crates/ingress/src/lib.rs:118 | padding puts zeros in front up to the width and never truncates |
| Text.ColonSplit | crates/common/src/merkle.rs:50 | `key:value` determines key and value even when keys contain colons |
| Text.PaddedHasNoColon | examples/validator/src/main.rs:174 | ids printed from counters contain no colon |
| OrderedMap.SortedMeaning | crates/common/src/merkle.rs:48-51 | a key-sorted sequence lists exactly the associations of its map |
| OrderedMap.LessIsLexicographic | crates/common/src/merkle.rs:47-51 | keys are ordered by proper prefix, else by the first character that differs |
| OrderedMap.Canonical | crates/common/src/merkle.rs:48-51 | two key-sorted sequences of one map are equal, whatever the insertion order |
| OrderedMap.PutMeaning | crates/execution-engine/src/lib.rs:120 | inserting keeps the sequence sorted and updates exactly one key |
| OrderedMap.BTreeMap.Insert | crates/execution-engine/src/lib.rs:120 | placing an entry in the sorted sequence keeps it sorted and changes the map it represents at one key only |
| OrderedMap.BTreeMap.OrInsert | crates/execution-engine/src/lib.rs:240-242 | the sorted sequence afterwards represents the old map, extended only if the key was absent |
| OrderedMap.BTreeMap.GetOrZero | crates/execution-engine/src/lib.rs:90 | searching the entries finds the value the map gives the key, zero if none |
| OrderedMap.BTreeMap.Debit | crates/execution-engine/src/lib.rs:98 | one key falls by the amount, the rest stays |
| OrderedMap.BTreeMap.Credit | crates/execution-engine/src/lib.rs:99 | one key, absent or not, rises by the amount modulo 2^64 |
| OrderedMap.BTreeMap.Iterate | crates/common/src/merkle.rs:48-51 | the entries are the unique sequence of the map in that order, whatever insertions built it |
| MerkleTree.HeightIsCeilLog2 | crates/common/src/merkle.rs:28-41 | the number of levels is ceil(log2 n) |
| MerkleTree.LevelKeepsTree | crates/common/src/merkle.rs:28-41 | combining one level leaves every node of the top-down tree above it unchanged |
| MerkleTree.LevelKeepsPairs | crates/common/src/merkle.rs:31-38 | the pairs hashed in the tree are those of this level and those of the levels above |
| MerkleTree.SameHeightBinding | crates/common/src/merkle.rs:28-41 | equal roots at equal heights: the completed leaf rows agree or two hashed pairs collide |
| MerkleTree.ShorterTree | crates/common/src/merkle.rs:28-41 | equal roots at different heights: a leaf of the shorter tree is an inner node of the taller, or two pairs collide |
| MerkleTree.SameRowMeaning | crates/common/src/merkle.rs:31-36 | of two lists that complete to one row the shorter is a prefix of the longer, which only repeats its leaves |
| MerkleTree.RootBinding | crates/common/src/merkle.rs:18-44 | roots over any two lists, of any lengths, repeats allowed: the lists complete to one row, or a digest arose in two ways |
| MerkleTree.RowDecidesRoot | crates/common/src/merkle.rs:18-44 | conversely lists that complete to one row always have one root |
| MerkleRepeats.RepeatedBlock | crates/common/src/merkle.rs:28-41 | repeating the last block, the largest power of two that divides the length, leaves the completed row and so every root unchanged, unless that is the whole list |
| MerkleRepeats.OnlyBlocks | crates/common/src/merkle.rs:28-41 | a longer list with the row of a list without repeats must begin by repeating exactly that block |
| Merkle.NextLevel | crates/common/src/merkle.rs:29-38 | one pass combines neighbours and pairs an odd last digest with itself |
| Merkle.MerkleRoot | crates/common/src/merkle.rs:18-44 | the loop ends in ceil(log2 n) levels with the root of the top-down tree split at powers of two, after n-1 to n-1+ceil(log2 n) hash calls, on exactly the pairs of that tree |
| Merkle.NodeCollision | crates/sp1-program/src/main.rs:60-64 | a collision among tree nodes is a collision of two different hashed strings |
| Merkle.MerkleBinding | crates/sp1-program/src/main.rs:50-72 | digest lists of one length with one root are equal or two hashed strings collide |
| StateCommitment.RootIsCanonical | crates/trace-builder/src/lib.rs:97-108 | the root depends on the map only, not on how it was built |
| StateCommitment.NoEntriesRoot | crates/common/src/merkle.rs:53-55 | the root of no entries hashes `empty_state`, that of no leaves `empty` |
| StateCommitment.OneEntryRoot | crates/common/src/merkle.rs:47-58 | the root of one entry is the hash of `key:value` |
| StateCommitment.TwoEntriesRoot | crates/common/src/merkle.rs:47-58 | the root of two entries hashes the smaller key's digest in front of the other's |
| StateCommitment.CommonStateRoot | crates/common/src/merkle.rs:47-58 | computes the canonical state root, and the fixed digest for the empty state |
| StateCommitment.ComputeStateRoot | crates/sp1-program/src/main.rs:74-83 | the other two implementations compute the same root |
| ListCommitment.ListBinding | crates/common/src/merkle.rs:18-58 | one root over two lists of texts, of any lengths, empty or not: lists that complete to one row, or hashed strings collide |
| ListCommitment.AlikeRoots | crates/common/src/merkle.rs:18-58 | conversely such lists always have one root |
| ListCommitment.AlikeLifts | crates/common/src/merkle.rs:18-58 | entries whose texts are alike are alike when no text stands for two of them |
| ListCommitment.EmptyListBinding | crates/common/src/merkle.rs:53-55 | a non-empty list with the digest of the empty one exhibits a collision |
| StateCommitment.StateRootBinding | crates/common/src/merkle.rs:47-58 | any two states with one root, equal in size or not, are equal or hashed strings collide |
| Machine.LittleEndianConcat | crates/execution-engine/src/lib.rs:86-87 | byte i of an integer weighs 256^i |
| Machine.LittleEndianRoundTrip | crates/ingress/src/lib.rs:199-200 | `from_le_bytes` undoes `to_le_bytes` at every width |
| Machine.DecodesBytes | crates/execution-engine/src/lib.rs:48-148 | what every byte string means, byte by byte: opcode, both arguments lowest byte first, short, unknown, empty |
| Machine.DecodeEncode | crates/execution-engine/src/lib.rs:48-96 | every well-formed operation survives encoding and decoding; none is ever short |
| Machine.TransferEffect | crates/execution-engine/src/lib.rs:98-99 | a transfer lowers the sender, raises the target modulo 2^64, cancels out on oneself and leaves all other keys |
| Machine.AccountKeyInjective | crates/execution-engine/src/lib.rs:87-88 | `account_<n>` names one number |
| Machine.DataKeyInjective | crates/execution-engine/src/lib.rs:116-118 | `data_<n>` names one number |
| Machine.AccountsAreNotData | crates/execution-engine/src/lib.rs:87-88 | no account key is a data key |
| Trace.TraceBuilder.constructor | crates/trace-builder/src/lib.rs:19-28 | starts empty, with the root of the initial ledger |
| Trace.TraceBuilder.AddEntry | crates/trace-builder/src/lib.rs:30-62 | appends one entry and keeps counters and total equal to what the entries say |
| Trace.SuccessesCount | crates/trace-builder/src/lib.rs:44-48 | the success counter is the number of successful positions |
| Trace.TraceBuilder.Build | crates/trace-builder/src/lib.rs:64-93 | the trace commits to the recorded entries: Merkle root of entry hashes, sums, both roots |
| Machine.Move | crates/execution-engine/src/lib.rs:98-99 | debiting, then crediting, gives the ledger of the transfer, self-transfers included |
| HostExecutor.DeterministicExecutor.ExecuteInstruction | crates/execution-engine/src/lib.rs:48-74 | new ledger and outcome are those of the decoded operation, unchanged on every failure |
| HostExecutor.DeterministicExecutor.ExecuteTransfer | crates/execution-engine/src/lib.rs:76-105 | debits then credits, self-transfers included, or rejects without a change |
| HostExecutor.DeterministicExecutor.ExecuteSetData | crates/execution-engine/src/lib.rs:107-126 | sets one data cell, or rejects short arguments |
| HostExecutor.DeterministicExecutor.ExecuteIncrement | crates/execution-engine/src/lib.rs:128-148 | adds to one data cell, saturating, or rejects short arguments |
| HostExecutor.FundSenders | crates/execution-engine/src/lib.rs:239-242 | one million for every distinct sender and nothing else, whatever the order and repetitions |
| HostExecutor.NoopsKeepState | crates/execution-engine/src/lib.rs:167-176 | the path without transactions never changes the ledger |
| HostExecutor.DeterministicExecutor.Execute | crates/execution-engine/src/lib.rs:152-214 | the trace of a batch of no-ops under the given ids |
| HostExecutor.FullExecutor.ExecuteWithTransactions | crates/execution-engine/src/lib.rs:230-291 | the trace holds, per position, the entry determined by the ledger that the preceding transactions leave |
| HostExecutor.ErrorsExplain | crates/execution-engine/src/lib.rs:48-97 | which byte strings fail, and with which error and values |
| HostExecutor.EntryDigests | crates/common/src/merkle.rs:61-75 | the hashed text of every kind of entry, with cost and both account lists |
| HostExecutor.EntryLabels | crates/execution-engine/src/lib.rs:255-285 | label, capped price and error of every entry |
| Guest.ExecuteInstruction | crates/sp1-program/src/main.rs:101-179 | the guest's separately written machine changes the ledger as the host's does and reports its own charges |
| Guest.ExecuteBatch | crates/sp1-program/src/main.rs:181-203 | both roots, total compute and entry hashes of the whole replay |
| Guest.RunMain | crates/sp1-program/src/main.rs:205-247 | commits recomputed inputs exactly when all five comparisons hold |
| Guest.MainExactly | crates/sp1-program/src/main.rs:205-247 | `main` commits if and only if all five recomputed values are the trace's, and commits exactly those |
| Guest.GuestFailures | crates/sp1-program/src/main.rs:101-179 | which byte strings fail in the guest, with which charge and accounts |
| Replay.LedgersAgree | crates/sp1-program/src/main.rs:188-199 | after every transaction of every batch both ledgers are the same |
| Replay.EntriesCompare | crates/execution-engine/src/lib.rs:255-285 | per entry the host charges at most the guest's charge, equally exactly when the transaction is reported alike, and then all fields agree |
| Replay.TotalsCompare | crates/sp1-program/src/main.rs:227-230 | totals are ordered likewise and equal exactly when every transaction is reported alike |
| Replay.HashesAgree | crates/sp1-program/src/main.rs:85-99 | then the entry hashes agree too |
| Replay.GuestAcceptsExactly | crates/sp1-program/src/main.rs:205-247 | for every cap: the guest accepts a host trace if and only if every balance suffices, every opcode is known and the cap covers every cost; no property of the hash is used |
| Replay.CapNeverMatters | crates/execution-engine/src/lib.rs:257 | from a cap of 5000 on the cap plays no part in that condition |
| Replay.GenerousCap | crates/sp1-program/src/main.rs:205-247 | from a cap of 5000 on acceptance is exactly the absence of charged failures |
| Replay.TraceChains | crates/execution-engine/src/lib.rs:246-288 | post hashes meet the next pre hashes and the ends are the trace's roots |
| Replay.FailuresAreInert | crates/execution-engine/src/lib.rs:271-285 | a failed entry changed no key, charges nothing and names no account |
| Replay.TraceCounts | crates/trace-builder/src/lib.rs:30-62 | positions, ids and the two counters fit the batch |
| Replay.TraceTotal | crates/trace-builder/src/lib.rs:43-58 | total compute is the sum of the entries' and at most cap, and 5000, per transaction |
| Reordering.MoveToFront | crates/execution-engine/src/lib.rs:246-252 | a step free of conflicts with those before it may run first, with the same end |
| Reordering.Reorder | crates/execution-engine/src/lib.rs:246-252 | any permutation of a conflict-free successful run succeeds and ends alike |
| Commutation.WritesAreSound | crates/execution-engine/src/lib.rs:76-148 | outside the declared write set no value and no key's existence changes |
| Commutation.ReadsAreSound | crates/execution-engine/src/lib.rs:76-148 | outcome, error and written values depend on the declared read set only |
| Commutation.Commute | crates/execution-engine/src/lib.rs:76-148 | adjacent successful transactions without a conflict may be swapped |
| Commutation.ReorderedBatch | crates/execution-engine/src/lib.rs:230-291 | every reordering of a pairwise conflict-free successful batch succeeds with the same pre and post roots |
| Conservation.StepTotal | crates/execution-engine/src/lib.rs:76-148 | every instruction, failed or wrapping or not, changes the total outside data cells by what a data-named sender pays in, less 2^64 for a wrap |
| Conservation.TotalLaw | crates/execution-engine/src/lib.rs:239-252 | after every transaction of every batch the total is the funding plus that inflow, less 2^64 per wrap so far |
| Conservation.ConservedExactly | crates/execution-engine/src/lib.rs:239-252 | the total is conserved if and only if the inflow equals 2^64 times the wraps |
| Conservation.SmallTotalFits | crates/execution-engine/src/lib.rs:99 | a total within 64 bits leaves no room for a credit to wrap |
| Conservation.Conserved | crates/execution-engine/src/lib.rs:239-252 | without data-named senders the total is one million per distinct sender after every transaction, and no credit wraps |
| Conservation.DataSenderWraps | crates/execution-engine/src/lib.rs:98-99 | every sender named like an addressable cell makes a credit wrap with four transactions of its own |
| Conservation.CrowdWraps | crates/execution-engine/src/lib.rs:98-99 | senders whose funding exceeds 64 bits make a credit wrap by paying one account |
| Conservation.SafeExactly | crates/execution-engine/src/lib.rs:239-252 | every batch over a set of sender names conserves the total and never wraps if and only if no name is an addressable cell and the funding fits in 64 bits |
| Conservation.CellValue | crates/execution-engine/src/lib.rs:107-148 | a data cell holds the last value set plus later increments, capped at 2^64-1, and exists once written |
| TraceBinding.JoinInjective | crates/common/src/merkle.rs:68-69 | comma-joined lists of non-empty separator-free names determine the list |
| TraceBinding.ReportTextInjective | crates/common/src/merkle.rs:68-74 | for entries either executor reports, with colon-free ids and any sender names, the hashed text determines id, outcome, compute and both account lists |
| TraceBinding.SenderTextInjective | crates/common/src/merkle.rs:68-74 | so it does for reports with colon-free senders, whatever the ids |
| TraceBinding.ColonFreeTextDecides | crates/common/src/merkle.rs:68-74 | a report without colons shares its text with no other report, whatever that one's id and sender |
| TraceBinding.PlainTextInjective | crates/common/src/merkle.rs:68-74 | for any entries at all, reported or not, names without separators suffice |
| TraceBinding.ColonHidesSender | crates/common/src/merkle.rs:68-74 | in the remaining case, a colon in one id and in the other sender, two different reported transfers are hashed as one text, for every first id and every second sender |
| TraceBinding.TraceHashBinding | crates/trace-builder/src/lib.rs:64-93 | traces of any lengths and with any names that have one trace hash have alike texts, or hashed strings collide |
| TraceBinding.LinesAlike | crates/trace-builder/src/lib.rs:64-93 | reports that can be told apart are alike if and only if their texts are |
| TraceBinding.RepeatedBlockHidden | crates/common/src/merkle.rs:28-41 | a trace and the same trace with its last block repeated have one trace hash |
| Pipeline.ProveWithTransactions | crates/sp1-prover/src/lib.rs:116-180 | rejects the empty trace, otherwise a proof exactly when the guest accepts, from any initial ledger |
| Pipeline.Prove | crates/sp1-prover/src/lib.rs:184-216 | rebuilds ledger and, without transactions, no-ops, then proves |
| Pipeline.Verify | crates/sp1-verifier/src/lib.rs:47-129 | valid exactly when the proof checks and all four comparisons hold; an error names the first that fails |
| Pipeline.RebuiltPreState | crates/sp1-prover/src/lib.rs:190-214 | the rebuilt ledger has the executor's pre root on both paths |
| Pipeline.SameInput | crates/sp1-prover/src/lib.rs:41-52 | the no-op path gives the guest the input of the real execution of those no-ops |
| Pipeline.DeterministicProved | crates/sp1-prover/src/lib.rs:190-209 | a batch without transactions is proved if and only if it is non-empty and the cap is at least 1000 |
| Pipeline.FullProved | crates/sp1-prover/src/lib.rs:210-216 | a batch with transactions is proved if and only if every one is reported alike by host and guest |
| Pipeline.ProvingFails | crates/sp1-prover/src/lib.rs:116-150 | proving fails for the empty trace, or because the guest does not accept |
| Pipeline.ProvedVerifies | crates/sp1-verifier/src/lib.rs:72-121 | whatever is proved passes all comparisons and commits to id, hash, roots, total and count of its trace |
| Pipeline.VerifiedRun | crates/sp1-verifier/src/lib.rs:72-121 | any guest run whose values verify against a host trace started and ended in the host's states, or hashed strings collide |
| Verification.VerifiesExactly | crates/sp1-verifier/src/lib.rs:72-121 | for all batches and runs, any names: short of a collision the comparisons pass if and only if both states, the totals and the texts, up to their completed row, agree |
| Verification.LinesDecide | crates/sp1-verifier/src/lib.rs:72-81 | for readable batches that is agreement of the entries themselves |
| Verification.VerifiedEntries | crates/sp1-verifier/src/lib.rs:72-121 | for host batches without colons and any run: it reported the host's entries in order, the longer of the two adding only repeats of entries that cost nothing and touch nothing, or hashed strings collide |
| Verification.ReadableEntries | crates/sp1-verifier/src/lib.rs:72-121 | the same when the ids of both, or the senders of both, have no colon |
| Verification.EqualEntries | crates/sp1-verifier/src/lib.rs:72-121 | with equal counts, or a trace without failures, the entries are equal, or hashed strings collide |
| Verification.DistinctEntries | crates/sp1-verifier/src/lib.rs:72-121 | with distinct ids the run is at least as long as the trace |
| Verification.IndistinguishableVerifies | crates/sp1-verifier/src/lib.rs:72-121 | conversely every run that agrees in this sense verifies, collision or not |
| Verification.RepeatedRunVerifies | crates/sp1-verifier/src/lib.rs:72-121 | for every faithfully reported batch whose last block does nothing, the run repeating that block verifies against the batch |
| Verification.FourForThree | crates/sp1-verifier/src/lib.rs:72-121 | four truncated transfers verify against the trace of three |
| Verification.LongerRunExactly | crates/sp1-verifier/src/lib.rs:72-121 | for faithful batches with distinct ids and no colons: some longer run verifies alike if and only if the last block is not the whole batch and does nothing |
| Verification.TradedPlaces | crates/sp1-verifier/src/lib.rs:72-121 | for every hash, id and account: a batch of one transfer and a run of a different one that passes all four comparisons |
| Policies.DeclinedIsSmall | crates/batch-policy/src/lib.rs:16-371 | a non-empty queue a policy declines is below its count limit and its time limit |
| Policies.SealsExactly | crates/batch-policy/src/lib.rs:16-371 | a non-empty queue is sealed if and only if it is full, overdue, or rushed |
| Policies.SealsEmptyExactly | crates/batch-policy/src/lib.rs:16-371 | an empty queue only by a count of zero |
| Policies.ReasonsAre | crates/batch-policy/src/lib.rs:16-371 | full and overdue, by the numbers of each policy |
| AdaptiveControl.AdaptivePolicy.constructor | crates/batch-policy/src/lib.rs:90-105 | the initial state, with a minimum of one |
| AdaptiveControl.AdaptivePolicy.ObserveLatency | crates/batch-policy/src/lib.rs:167-170 | one step of the integer moving average in 64-bit arithmetic, nothing else changes |
| AdaptiveControl.GrowthStaysBetween | crates/batch-policy/src/lib.rs:172-174 | the smoothed rate stays within any bounds of its start and the observed rates |
| AdaptiveControl.GrowthClosesIn | crates/batch-policy/src/lib.rs:172-174 | under a constant rate the distance to it is the initial one times 0.8^n |
| AdaptiveControl.CalmGrowth | crates/batch-policy/src/lib.rs:112-114 | while no observed rate exceeds 1.5 a new policy never scales its threshold up |
| AdaptiveControl.AverageStaysBetween | crates/batch-policy/src/lib.rs:167-170 | the average stays within any bounds of start and observations, and never wraps up to a tenth of 2^64 |
| AdaptiveControl.StepTowardsLimit | crates/batch-policy/src/lib.rs:167-170 | one observation stays on its side of the limit and closes at least three tenths of the distance, at least one |
| AdaptiveControl.Settles | crates/batch-policy/src/lib.rs:167-170 | constant latency L: monotone approach, then exactly L-3 from a gap of 3 or more below, exactly L from above, within as many steps as the distance |
| AdaptiveControl.ConstantRun | crates/batch-policy/src/lib.rs:167-170 | that run is the general average on equal observations |
| AdaptiveControl.ThresholdInRange | crates/batch-policy/src/lib.rs:108-129 | the threshold lies in [1, max_count] |
| AdaptiveControl.ThresholdMonotone | crates/batch-policy/src/lib.rs:108-129 | more latency never raises it, faster growth never lowers it |
| AdaptiveControl.PressureSettles | crates/batch-policy/src/lib.rs:473-483 | sustained latency with L-3 above 70% of the budget fixes the threshold at the value computed from the settled average, no larger than at zero latency |
| AdaptiveControl.PressureShrinks | crates/batch-policy/src/lib.rs:473-483 | it falls strictly when the shrinking takes away a whole transaction within the clamps |
| AutoControl.AutoPolicy.constructor | crates/batch-policy/src/lib.rs:242-254 | an empty ring and the idle limits |
| AutoControl.AutoPolicy.RecordArrival | crates/batch-policy/src/lib.rs:257-262 | the array is again the ring of all arrivals and the limits follow the classifier |
| AutoControl.AutoPolicy.UpdatePattern | crates/batch-policy/src/lib.rs:264-312 | reclassifies from the ring and adapts only on a change of pattern |
| AutoControl.AutoPolicy.AdaptToPattern | crates/batch-policy/src/lib.rs:314-337 | sets both limits of the pattern, nothing else |
| AutoControl.AutoPolicy.ObserveQueueGrowth | crates/batch-policy/src/lib.rs:377-383 | switches to the bursty limits above a rate of 2, except under high load |
| AutoControl.RingAdvances | crates/batch-policy/src/lib.rs:257-262 | overwriting one slot turns the ring of the last 100 arrivals into that of one arrival more |
| AutoControl.NeverHighLoad | crates/batch-policy/src/lib.rs:294-304 | no run reaches high load; the threshold is always the minimum or the midpoint |
| AutoControl.LimitsFollowPattern | crates/batch-policy/src/lib.rs:314-337 | on every run both limits are those of the pattern last seen |
| AutoControl.GrowthMakesBursty | crates/batch-policy/src/lib.rs:377-383 | growth above two makes every reached policy bursty, slower growth changes nothing |
| AutoControl.IrregularBoundary | crates/batch-policy/src/lib.rs:302 | a deviation of 200 exactly is not yet bursty |
| AutoControl.IdleOnlyAtZero | crates/batch-policy/src/lib.rs:294-304 | right after an arrival the pattern is idle exactly at time zero |
| AutoControl.RecentCountExact | crates/batch-policy/src/lib.rs:266-271 | the recent count is the number of the last 100 arrivals in the last second |
| AutoControl.IntervalsDisplaced | crates/batch-policy/src/lib.rs:274-283 | for arrivals in time order the interval list is the chronological one with the gap at the wrap taken out and a zero put where the parts meet |
| AutoControl.WrapGapLost | crates/batch-policy/src/lib.rs:274-283 | the intervals keep their chronological total if and only if one side of the wrap is empty or equal times meet there |
| AutoControl.IrregularExactly | crates/batch-policy/src/lib.rs:285-298 | a deviation above 200 in integers: by number, squares and sum of the gaps |
| AutoControl.SeenExactly | crates/batch-policy/src/lib.rs:274-298 | what the ring finds irregular, by the true gaps less the lost one |
| AutoControl.VerdictChanges | crates/batch-policy/src/lib.rs:264-304 | the verdict differs from that on the same arrivals in time order if and only if an arrival is recent and the lost gap decides |
| AutoControl.VerdictKept | crates/batch-policy/src/lib.rs:264-304 | where nothing is lost the verdict is the same |
| AutoControl.BurstHidden | crates/batch-policy/src/lib.rs:285-304 | a history whose chronological gaps are irregular while the ring's are not |
| AutoControl.SteadyMadeBursty | crates/batch-policy/src/lib.rs:285-304 | one arrival per second, classified as bursty because of the wrap |
| SingleQueue.PartitionKeepsAll | crates/benchmark-cli/src/engine.rs:125-126 | a batch is a rearrangement of its segment |
| SingleQueue.BatchOrder | crates/benchmark-cli/src/engine.rs:125-126 | no High or Critical transaction stands behind another, and of one kind the earlier arrival comes first |
| SingleQueue.SelectSound | crates/benchmark-cli/src/engine.rs:83-88 | each lane holds only transactions of its kind |
| SingleQueue.RatesAre | crates/benchmark-cli/src/engine.rs:167-184 | throughput per second of milliseconds, latency spread evenly |
| SingleQueue.ArrivalRateIs | crates/benchmark-cli/src/engine.rs:107-108 | the arrival rate is per second since the last seal |
| SingleQueue.SealRecords | crates/benchmark-cli/src/engine.rs:145-192 | what a seal records, and when clock and last seal stand, for every outcome of proving and verifying |
| Engine.PipelineEngine.constructor | crates/benchmark-cli/src/engine.rs:45-67 | the empty queue at whatever time the clock shows, its last seal at zero |
| Engine.PipelineEngine.Ingest | crates/benchmark-cli/src/engine.rs:70-94 | two deques, cached arrival, clock and metrics afterwards stand for the single queue after one ingest; fails exactly when a seal fails |
| Engine.PipelineEngine.Enqueue | crates/benchmark-cli/src/engine.rs:70-88 | likewise for the arrival alone |
| Engine.PipelineEngine.TrySeal | crates/benchmark-cli/src/engine.rs:97-118 | seals exactly when the policy decides so for the single queue |
| Engine.PipelineEngine.SealAndProcess | crates/benchmark-cli/src/engine.rs:121-197 | both lanes drained into one batch, counter, clock, cache and metrics as for the single queue, failed seals included |
| Engine.PipelineEngine.Process | crates/benchmark-cli/src/engine.rs:145-190 | execution, proving and verifying advance the clock and record all metrics, throughput and latency per transaction included, only when both succeed |
| Engine.PipelineEngine.Flush | crates/benchmark-cli/src/engine.rs:200-205 | the loop seals all that is pending in one batch and fails exactly when that seal fails |
| EngineRuns.SegmentsCoverArrivals | crates/benchmark-cli/src/engine.rs:70-197 | on every run sealed segments, then pending, are the ingest order, one outcome per segment |
| EngineRuns.FlushedCompletely | crates/benchmark-cli/src/engine.rs:200-205 | after flush nothing is pending and the batches hold every transaction as often as it came |
| EngineRuns.OutcomesFit | crates/benchmark-cli/src/engine.rs:173-189 | each recorded metric carries id, size and compute of the batch at its position |
| EngineRuns.CountersAgree | crates/benchmark-cli/src/engine.rs:132-192 | the batch counter exceeds recorded batches by the number of failed seals |
| EngineRuns.MetricsCountAll | crates/common/src/metrics.rs:128-130 | after flush without failures the metrics count every ingested transaction |
| EngineRuns.EmptyOrDeclined | crates/benchmark-cli/src/engine.rs:97-118 | after every ingest the queue is empty or the policy declined it |
| EngineRuns.SealsForReason | crates/benchmark-cli/src/engine.rs:97-118 | an ingest seals everything if and only if the queue is full, overdue or rushed |
| EngineRuns.SegmentsHadReason | crates/benchmark-cli/src/engine.rs:97-118 | every segment of every run had one of these reasons when it was sealed |
| EngineRuns.BatchesBounded | crates/batch-policy/src/lib.rs:16-74 | with count limit t every batch has at most t transactions, and fewer are pending |
| EngineRuns.AdaptiveBatches | crates/batch-policy/src/lib.rs:108-161 | adaptive batches never exceed max_count |
| EngineRuns.AutoBatches | crates/batch-policy/src/lib.rs:314-371 | batches under any state the auto policy reaches are no larger than midway between its limits |
| EngineRuns.FixedCountFills | crates/batch-policy/src/lib.rs:17-25 | under fixed count every batch is full |
| EngineRuns.FixedCountBatches | crates/batch-policy/src/lib.rs:17-25 | n transactions make exactly ceil(n/t) batches after flush |
| EngineRuns.ClockCoversPending | crates/benchmark-cli/src/engine.rs:77-81 | the clock never falls behind a pending transaction |
| EngineRuns.FirstIsOldest | crates/benchmark-cli/src/engine.rs:73-75 | for monotone arrivals the cached first arrival is the minimum |
| EngineRuns.WaitAtSeal | crates/benchmark-cli/src/engine.rs:70-118 | the wait reaches limit plus clock advance if and only if the transaction came late to an empty queue |
| EngineRuns.LateArrival | crates/benchmark-cli/src/engine.rs:70-118 | such a run: a 10 ms policy sealing at a wait of 999 ms |
| ValidatorProtocol.AlwaysInvariant | examples/validator/src/main.rs:170-317 | the protocol invariant holds after every step of every interleaving |
| ValidatorProtocol.SubmissionsPreserved | examples/validator/src/main.rs:170-239 | batches in counter order, then pending, are the submissions; ids differ; sizes lie between 1 and batch_size |
| ValidatorProtocol.SealTakes | examples/validator/src/main.rs:193-217 | a sealing attempt takes a whole batch or all there is, from the front, if and only if there is a reason |
| ValidatorProtocol.SubmitAppends | examples/validator/src/main.rs:170-188 | a submission joins the end, with its fields, the next id and the priority it names |
| ValidatorProtocol.FinishRecords | examples/validator/src/main.rs:257-310 | a completion adds its record exactly when there is a proof and it was saved |
| ValidatorProtocol.ProofsAreDistinct | examples/validator/src/main.rs:297-310 | proof records belong to sealed batches, none twice, whatever the order of completion |
| ValidatorProtocol.FinishCommutes | examples/validator/src/main.rs:230-233 | a completion outside the lock commutes with every submission and seal |
| ValidatorProtocol.FinishesCommute | examples/validator/src/main.rs:297-310 | two completions commute up to the order of their records |
| ValidatorProtocol.TxIdInjective | examples/validator/src/main.rs:174 | transaction ids name one counter value |
| ValidatorProtocol.BatchIdInjective | examples/validator/src/main.rs:212 | batch ids name one counter value |
| Validator.Validator.constructor | examples/validator/src/main.rs:157-168 | the protocol's start |
| Validator.Validator.SubmitTransaction | examples/validator/src/main.rs:170-191 | performs one submission step and returns its id |
| Validator.Validator.CheckAndSealBatch | examples/validator/src/main.rs:193-228 | performs one sealing step; hands on the front of the queue, `batch_size` transactions or all |
| Validator.Validator.ExecuteAndProve | examples/validator/src/main.rs:257-293 | execution and proving yield the protocol's record for the batch |
| Validator.Validator.ProcessBatch | examples/validator/src/main.rs:241-317 | performs one completion step; pushes commitment, proof hash, times and size when proved and saved |
| Validator.ProvingMeans | examples/validator/src/main.rs:257-306 | a record exists if and only if the batch is non-empty without charged failures, and it carries id, both roots of that execution and the count |
| Validator.ProofsAreSound | examples/validator/src/main.rs:241-317 | on every interleaving each record is that of a sealed batch the guest accepts, one per batch |
| Validator.SealedIds | examples/validator/src/main.rs:172-174 | sealed batches have distinct ids without colons |
| Validator.VerifiedBatch | examples/validator/src/main.rs:193-239 | on every interleaving, a proof verified against a sealed batch whose senders, or whose run's ids, have no colon: its run reported that batch, followed only by repeats of idle entries, or hashed strings collide |
| Generator.WorkloadGenerator.constructor | crates/ingress/src/lib.rs:97-106 | the clock at zero and nothing generated |
| Generator.WorkloadGenerator.Next | crates/ingress/src/lib.rs:109-140 | the next transaction and the advanced state, or nothing once the count is reached |
| Generator.WorkloadGenerator.GenerateInstruction | crates/ingress/src/lib.rs:190-226 | the bytes are the encoding of the drawn operation |
| Generator.DeltaInRange | crates/ingress/src/lib.rs:142-188 | every arrival gap is at least 1, and below 500 where it is drawn from ranges |
| Generator.MeansTheDraw | crates/ingress/src/lib.rs:190-226 | the bytes of an instruction mean the operation drawn |
| Generator.PhasesOfSpike | crates/ingress/src/lib.rs:173-186 | idle, spike and cool-down by position, with their priorities and gaps |
| Generator.MixedShares | crates/ingress/src/lib.rs:165-172 | of a hundred rolls 6 are critical, 15 high, 50 normal, 29 low |
| Generator.PlainScenarios | crates/ingress/src/lib.rs:144-163 | gaps and priority of the other scenarios |
| Generator.NamesOf | crates/ingress/src/lib.rs:114-138 | id, names, clock and fields of a generated transaction |
| Generator.ArrivalMovesForward | crates/ingress/src/lib.rs:114-116 | an arrival is later than the clock exactly when the clock does not wrap |
| Generator.StreamCounts | crates/ingress/src/lib.rs:109-140 | exactly `tx_count` transactions come out |
| Generator.StreamIds | crates/ingress/src/lib.rs:118 | they are numbered from zero |
| Generator.StreamIdsDiffer | crates/ingress/src/lib.rs:118 | no id comes twice |
| Generator.StreamIncreases | crates/ingress/src/lib.rs:114-116 | arrivals strictly increase over the whole stream if and only if no call wraps the clock |
| Generator.AlwaysIncreasing | crates/ingress/src/lib.rs:142-188 | for every configuration: arrivals strictly increase whatever is drawn if and only if its longest possible time fits in 64 bits |
| Generator.SomeRunWraps | crates/ingress/src/lib.rs:142-188 | a wrapping run for every other configuration |
| Generator.WorstIsWorst | crates/ingress/src/lib.rs:142-188 | no draw makes a longer gap than the worst one, the ends of the signed range included |
| Generator.BoundedNeverWraps | crates/ingress/src/lib.rs:142-188 | that time fits when `txCount` times base + 5, 200, 50 or 500 does, by scenario; for Poisson exactly up to one transaction |
| Generator.ClockReturns | crates/ingress/src/lib.rs:158-163 | two Poisson draws after which the clock shows zero |
| Generator.StreamIsGenerated | crates/ingress/src/lib.rs:190-226 | senders are plain, transfers small and arguments never short; unknown exactly for draw 4 |
| Generator.WholeStreamIsGenerated | crates/ingress/src/lib.rs:109-140 | that holds of every transaction of every stream |
| Generator.BalanceLeft | crates/execution-engine/src/lib.rs:90-99 | a sender has lost at most 999 per own transfer |
| Generator.NeverInsufficient | crates/execution-engine/src/lib.rs:90-97 | with at most 1001 transfers per sender no balance is insufficient |
| Generator.GeneratedBatchAccepted | crates/sp1-program/src/main.rs:205-247 | then the guest accepts if and only if the batch holds no deliberately invalid instruction |
| Generator.StreamAccepted | crates/sp1-program/src/main.rs:205-247 | so for the batch of everything a run of the generator produced, whatever is drawn |
| LatencyMetrics.SortPermutes | crates/common/src/metrics.rs:20-24 | sorting is an ascending permutation |
| LatencyMetrics.SortCounts | crates/common/src/metrics.rs:45-48 | sorting keeps the number above any level |
| LatencyMetrics.PercentilesOrdered | crates/common/src/metrics.rs:27-29 | p50, p95 and p99 are observed, in order |
| LatencyMetrics.PercentileBoundsViolations | crates/common/src/metrics.rs:81-87 | a percentile within the level leaves at most n-1-r violations, beyond it at least n-r |
| LatencyMetrics.RankIsNearest | crates/common/src/metrics.rs:85 | the rank is the nearest position, halves upwards |
| LatencyMetrics.AverageBetween | crates/common/src/metrics.rs:26 | the average lies between any bounds of the latencies |
| LatencyMetrics.BatchEfficiency | crates/common/src/metrics.rs:91-107 | the useful share of time, between 0 and 1, and 1 exactly without overhead |
| LatencyMetrics.MeanThroughputBetween | crates/common/src/metrics.rs:34-35 | the average throughput lies between any bounds of the batches' throughputs |
| LatencyMetrics.AggregateMetrics | crates/common/src/metrics.rs:3-79 | names, totals, averages, throughput, percentiles against violations and ratios of any list of batches, zeros for none |
| Examples.PrintedIds | examples/validator/src/main.rs:212 | batch and transaction ids, printed |
| Examples.SmallDecodes | crates/execution-engine/src/lib.rs:86-96 | instructions whose arguments fill two bytes each |
| Examples.FirstTransfer | crates/common/src/merkle.rs:47-58 | the root after a sender's first transfer, as a string |
| Examples.FiveToSevenRoot | crates/common/src/merkle.rs:47-58 | `sender_0` pays 5 to account 7: H(H(account_7:5) + H(sender_0:999995)) |
| Examples.ThreeLeaves | crates/common/src/merkle.rs:28-41 | the root of three leaves, the third paired with itself |
| Examples.LoneNoop | crates/execution-engine/src/lib.rs:230-291 | the whole trace of a single no-op |
| Examples.LoneId | crates/execution-engine/src/lib.rs:152-214 | roots, id and label of a single id without its transaction |
| Examples.HalfTheTime | crates/batch-policy/src/lib.rs:440-462 | what the count, time and hybrid policies decide at and just below their limits |
| Examples.Thresholds | crates/batch-policy/src/lib.rs:108-129 | adaptive thresholds at given growth and latency |

## Left out

- SHA-256, hex and UTF-8 encoding: the hash is a parameter on strings of characters.
- The proof system, ELF loading and serialization: proving succeeds exactly when the guest accepts, and the check passes exactly for values some guest run committed. In the engine and as `saved` in the validator the outcomes are arbitrary inputs instead.
- Clocks, random draws and proving times: parameters. Draws are arbitrary values in the ranges the generator uses; the exponential draw is any non-negative real.
- Floating point: rates, thresholds, ratios and averages are exact reals, percentile ranks integers, and the standard deviation is compared squared. Latencies are naturals; a zero latency budget counts as exceeded by any latency.
- Widths of counters, totals and clock readings: unbounded naturals, except where they are read from instructions, stored in the ledger or kept by the generator and the latency average. `Replay.TraceTotal` bounds the compute total.
- Overflow of a credit: wraps modulo 2^64, as in a build without overflow checks. `Conservation.Conserved` says when it cannot happen.
- Verification.VerifiedEntries: asks that ids and senders of the host's batch contain no colon, which can be looked up in the batch; `Verification.TradedPlaces` shows that senders with colons break it under any id, and `Verification.VerifiesExactly` covers all batches.
- Proof hashes, proof sizes, proving times and timestamps of the validator's records: arbitrary values the completion step brings along.
- EngineRuns.WaitAtSeal: the wait below limit plus advance does not hold for transactions that arrive late to an empty queue; the exact condition is proved instead.
- Error texts, `Display`, the unused error values of the guest and log output: no commitment depends on them.
- The engine never calls the observers of its policy, so a policy's state is constant during an engine run; the controllers' own runs are modelled separately.
- After a seal both lanes are empty, so the refresh of `oldest_arrival` never applies and the flush loop runs at most once; both are modelled as written.
- `DeterministicExecutor` with `fail_on_invalid` off: its handler is modelled, batches under it are not, since the only batch loop with transactions uses the default.
- The validator's never-filled list of batches and unused state map, RPC parsing, files and broadcast; the client and verifier-node examples, the on-chain program and the command line: no invariants of their own.
- `PriorityAwarePolicy::should_seal_for_critical`, policy creation by name and configuration checks: one-line facts.
