# The continuous Shutter tester, modelled and proved

The tester sends one encrypted ("shutterized") transaction for every Shutter block it hears of, watches each
one through two waits, gives up on those that fell behind, frees their nonces with a forfeit transaction, and
now and then reconciles what it sent with what the chain contains. This project models that program in Dafny
and proves what its parts promise each other.

| file | what it holds |
|---|---|
| `Lifecycle.dfy` | one transaction and its watcher, cut into the moves between which other goroutines can act |
| `Sweep.dfy` | the sweep as functions on what it reads |
| `Protocol.dfy` | the whole tester as a step machine: driver, watchers, deadlines, chain; its invariants |
| `Invariants.dfy` | every step keeps every invariant |
| `Runs.dfy` | round robin, the two lists, statuses, cancellation, along every run |
| `SweepReads.dfy` | what the first loop of a sweep reads, over whole runs; an inclusion that is never counted |
| `Nonces.dfy` | nonces on the chain: what can be mined, and when a gap remains |
| `Receipts.dfy` | the block numbers on record are those of the chain |
| `Prospects.dfy` | which transactions can still be included, exactly |
| `SweepRefines.dfy` | the machine's sweep, uninterrupted, is the function of `Sweep.dfy` |
| `Scenarios.dfy` | runs in which something a reader may expect fails, and the runs that leave a nonce gap |
| `GoSlices.dfy`, `Tester.dfy` | the accounts, transactions and lists as objects over a heap of Go slices |
| `BlockCache.dfy`, `Collector.dfy` | the cache with two writers, as interleavings and as code |
| `Hex.dfy`, `Codec.dfy` | hexadecimal, the identity prefix, and the SQL functions that read it again |
| `Pollers.dfy` | the pollers that turn database snapshots into trigger blocks |
| `Report.dfy` | submissions, the join, missed triggers |
| `Reconcile.dfy` | a run, its blocks, its events, the cache and the join put together |
| `Feed.dfy` | a run fed by a poller: distinct triggers and prefixes, and the whole way from poller to report |
| `KeyFile.dfy` | the file of private keys, and restarts |
| `GasLimit.dfy` | the stress scenario that exceeds the encrypted gas limit |

## Granularity

`Protocol.dfy` interleaves at the level of single shared reads and writes. Writing a status and writing the
block number that goes with it are two steps (continuous/tx.go:192-193 and 246-247), so are a sweep's reads of
the status and of the submission block (continuous/continuous.go:226-229). Theorems in `Runs.dfy`,
`Nonces.dfy` and `Reconcile.dfy` hold at that granularity. `Sweep.SweepHasWitness` and the methods of
`Tester.dfy` take a sweep's reads as one snapshot; `SweepRefines.UninterruptedSweep` connects the two.

The driver is the only goroutine that takes the status lock, so "the lock is free" is phase `Idle` or `Swept`.
A wait for a receipt hands back exactly one of a receipt and an error. When the first wait fails while the
context is live, the program dereferences a nil receipt (continuous/tx.go:188-191); that is a step to
`Exited(Panicked)` after which the driver and the watchers stand still. The sending of a transaction is one
step; a client error in it ends the process and so ends the run.

The chain consumes each sender's nonces in order. An inner transaction travels encrypted in its outer one, so it
can be mined only once its submission was mined with status 1; from then on it may be mined at any time its
nonce is next, or never. What holds of every run therefore does not depend on keypers behaving well;
`Prospects.NeverIncludedIff` and `Prospects.GapIsPermanentIff` say what they can still bring about. Outer transactions
are mined in nonce order. A block that is delivered to the driver exists by then.

The block cache is modelled at the granularity of one load, one fetch, one store; any fetch may fail. What a
range over the cache returns is only assumed to be 0 or some present key.

## Where the code does something else than one may expect

- A sweep that reads between a watcher's two writes sees submission block 0 and cancels a transaction that is
  not behind: `Scenarios.CancelledWithoutWitness` gives the run, `Scenarios.DecisionIsTrueIff` the exact
  condition.
- A transaction can be reported `NotIncluded` although it is on the chain, when the cancellation arrives
  between the receipt and the second select: `Scenarios.IncludedButReportedNot`. What settles the matter is not the
  report: a transaction is out for good exactly when its forfeit is mined, its own submission was refused, or a
  refused earlier one of its account can no longer be forfeited (`Prospects.NeverIncludedIff`). The last can
  happen before any watcher has exited (`Prospects.DoomedBeforeAnyExit`).
- Waiting for every watcher to exit does not close a nonce gap. `Nonces.GapHasCulprit` lists the exits that can
  leave one, and `Scenarios.EachExitLeavesGap` gives for each of them a run in which it does. A gap is there for good,
  in every continuation, exactly when the transaction that owns the chain's next nonce was refused and no forfeit
  for it is pending or can still come: `Prospects.GapIsPermanentIff`.
- An inclusion can be collected without ever being counted, when its watcher writes the block between the sweep's
  two loops: `SweepReads.CollectedUncounted` gives the run, `SweepReads.CountedIff` the exact condition.
- The comment at continuous/continuous.go:144-147 describes a transaction per targeted slot; when a validator
  stops being active between two polls the same block triggers twice and two transactions share one identity
  prefix: `Pollers.WithdrawnDutyRepeatsTrigger`; exactly when is `Pollers.TriggersIncreaseIff`.
- A block that reaches the database after one at least as young was sent is never sent: `Pollers.LateIsNeverSent`,
  with a run in `Pollers.LateBlockIsLost`. Delivery is exactly once if and only if blocks arrive in increasing
  order of time and no two become visible between two polls: `Pollers.ExactlyOnceIff`.
- The SQL decoder sees 31 of the 32 prefix bytes (positions start at 0, SQL counts from 1), and the SQL encoder
  writes 16 of them: `Codec.SqlDecodeAgreesIff`, `Codec.SqlEncodeAgreesIff`; `Codec.SqlDecodeDiffers` is a prefix that the
  two read differently.
- The printed count of missed triggers and the printed list disagree as soon as a submitted trigger is not
  among the triggers: `Report.MissedCountIff`, with an input in `Report.MissedCountDiffers`.
- A key file that breaks off in the middle of a word makes the next key stored unreadable:
  `KeyFile.LineReadsBackIff`, with a file in `KeyFile.KeyAfterBrokenWordIsLost`. New keys are always appended to `pk.hex` in the working
  directory, whatever file is configured for reading; when the two differ a restart does not find them. When a
  restart uses the same accounts is `KeyFile.StartTwice`.
- The gas-limit scenario can be packed into blocks only for 2 to 48 transactions: `GasLimit.PackableIff`.

## Model

| member | source | states |
|---|---|---|
| Lifecycle.MoveKeepsWatcherOk | continuous/tx.go:169-251 | Every move of a watcher keeps: the status tells where it stands, a running watcher is cancelled only past its first select, `NotSequenced` is never reached, block numbers are written once and only on the right branch. |
| Lifecycle.MoveAdvancesStatus | continuous/tx.go:169-251 | A move takes the status from Signed to Sequenced to a terminal one or from Signed to a terminal one; terminal ones stay. |
| Lifecycle.MoveLowersRank | continuous/tx.go:169-251 | A watcher takes a bounded number of moves, whatever it observes. |
| Sweep.HighestIsHighest | continuous/continuous.go:218-223 | The first loop's result is 0 or some transaction's inclusion block, and no inclusion block exceeds it. |
| Sweep.VerdictsAre | continuous/continuous.go:226-239 | A transaction leaves if and only if it was read as Included, or as SystemFailure, or as Sequenced with some inclusion block of the list above its submission block. |
| Sweep.SweepConserves | continuous/continuous.go:214-249 | A sweep loses and duplicates nothing, extends the done list at its end and keeps the order of what stays in flight. |
| Sweep.SweepHasWitness | continuous/continuous.go:226-233 | On one snapshot, a cancelled transaction has a different one in the same list with a later inclusion block; a Sequenced one left alone is not behind any inclusion. |
| Invariants.StepKeepsInv | continuous/continuous.go:214-249 | One step of anything (driver, watcher, deadline, chain) keeps all six invariants of the machine. |
| Invariants.RunInv | main.go:95-100 | The invariants hold in every state of every run. |
| Runs.RoundRobin | continuous/config.go:39-41 | Transaction k of any run uses account k mod n, that account's (k div n)-th nonce and the submit account's k-th nonce, however sweeps have moved transactions. |
| Runs.NoncesAreUnique | continuous/tx.go:89-167 | Sender and inner nonce name one transaction of the run; so does the outer nonce. |
| Runs.ListsPartition | continuous/continuous.go:25-33 | Every transaction sent is in exactly one of the two lists, exactly once; the in-flight list is in sending order. |
| Runs.DoneOnlyGrows | continuous/continuous.go:217-247 | Along a run the done list only grows at its end. |
| Runs.StatusOnlyAdvances | continuous/tx.go:169-251 | Along a run a status only moves forward and terminal statuses are absorbing. |
| Runs.CancelOnlyAfterFirstSelect | continuous/tx.go:172-187 | A sweep cancels a watcher only after its first select; Canceled is never seen there and `NotSequenced` is unreachable. |
| Runs.CancelLeadsToForfeit | continuous/tx.go:206-222 | A cancellation that takes effect before the second select leads to the forfeit branch and no other exit, and every forfeit on its way spends exactly that transaction's own nonce. |
| Runs.NotIncludedIsDone | continuous/continuous.go:224-248 | Whenever the lock is free, a NotIncluded transaction is in the done list. |
| Runs.DefaultCaseMeetsOnlySigned | continuous/continuous.go:226-239 | The status a sweep reads is never NotSequenced or NotIncluded, so its default case keeps only Signed ones. |
| Runs.ExitedIsCollected | continuous/continuous.go:224-248 | A transaction whose watcher exited before a sweep began is in the done list after every later commit. |
| Runs.CancelHasWitness | continuous/continuous.go:218-233 | In every interleaving, a cancelled transaction has a different one of the same list whose inclusion block exceeds the submission block read; what was read is the true one or 0. |
| Runs.HeldAreNotBehind | continuous/continuous.go:226-233 | What a committed sweep read as Sequenced and left in flight has a submission block at least the sweep's highest inclusion, also if that block was written late. |
| SweepReads.HighIsHighestRead | continuous/continuous.go:218-223 | In every interleaving the highest inclusion of a sweep reaches a value if and only if some read of its first loop did. |
| SweepReads.HeldAreNotBehindReads | continuous/continuous.go:218-233 | So what the sweep left in flight as Sequenced is not behind any inclusion block that its first loop read. |
| SweepReads.CountedIff | continuous/continuous.go:218-236 | The inclusion of a transaction a sweep has moved was counted by some sweep of the run if and only if its watcher had written the block before that sweep's first loop read it. |
| SweepReads.CollectedUncounted | continuous/tx.go:246-247 | A run in which an inclusion is collected uncounted and a transaction that is behind it stays in flight. |
| Runs.DriverCanStep | main.go:95-100 | Short of a crash the driver always has a step to take. |
| Receipts.RecordedBlocksAreTrue | continuous/tx.go:191-193 | In every state of every run: a submission block on record is where the outer transaction was mined with status 1, a watcher that landed has on record the block in which the chain has its own inner transaction, and no other has an inclusion block. |
| Nonces.AtMostOneMined | continuous/tx.go:253-298 | In every reachable state at most one of a transaction and its forfeit is mined, and neither twice. |
| Nonces.ForfeitedNeverIncluded | continuous/tx.go:206-222 | Once a forfeit is mined its transaction is never included later, nor reported as Included. |
| Nonces.SpentIffBelow | utils/utils.go:63-68 | A transaction's nonce is spent if and only if it is below the chain's next nonce. |
| Nonces.NoGapIff | continuous/tx.go:100-112 | The chain's nonce of an account equals the local one if and only if every transaction sent from it was mined or forfeited. |
| Nonces.NoGapWhenSettled | continuous/tx.go:197-251 | If every watcher of an account exited through an inclusion or a mined forfeit there is no gap. |
| Nonces.GapHasCulprit | continuous/tx.go:172-251 | A gap has one culprit, the owner of the chain's next nonce; if its watcher exited, it did so in one of six ways, and no later transaction of the account is on the chain. |
| Scenarios.EachExitLeavesGap | continuous/tx.go:172-251 | For each of the six there is a run in which every watcher has exited, the last one that way, and the gap remains. |
| SweepRefines.UninterruptedSweep | continuous/continuous.go:214-249 | The machine's sweep without interruption commits the two lists of the sweep functions and cancels exactly the stale transactions. |
| Scenarios.CancelledWithoutWitness | continuous/continuous.go:226-233 | A run in which a sweep cancels a transaction sequenced in block 4 although no inclusion is past block 3. |
| Scenarios.DecisionIsTrueIff | continuous/tx.go:191-193 | The sweep's comparison gives the true answer except exactly when the watcher has yet to write the block and no inclusion exceeds it. |
| Scenarios.IncludedButReportedNot | continuous/tx.go:206-222 | A run that ends with a transaction on the chain and reported NotIncluded. |
| Prospects.RunSources | continuous/tx.go:127-149 | In every run no watcher is past its first select, and no inner transaction mined, without a submission mined with status 1. |
| Prospects.NeverIncludedIff | continuous/tx.go:188-235 | A transaction is off the chain in every continuation of a run if and only if its forfeit is mined, or its submission was refused, or an earlier refused transaction of its account is unspent with no forfeit pending and a watcher (or process) that can no longer send one. |
| Prospects.DoomedBeforeAnyExit | continuous/tx.go:172-182 | A run in which the last case holds while both watchers are still in their first wait. |
| Prospects.GapIsPermanentIff | continuous/tx.go:172-298 | While the chain is behind an account, its chain nonce stays where it is in every continuation of the run if and only if the owner of that nonce was refused, with no forfeit pending and a watcher (or process) that can no longer send one; otherwise some continuation moves it on. |
| GoSlices.Append | continuous/continuous.go:31 | append shows old contents and new elements, in place when the capacity allows, and never changes what the old header shows. |
| Tester.Account.UseNonce | utils/utils.go:63-68 | Hands out the stored nonce and advances it by one. |
| Tester.ShutterTx.WatchTx | continuous/tx.go:169-251 | For every script of observations: which exit is taken, the status, the submission block and inclusion block written (those of the two receipts), and the forfeit sent: its own sender's, back to that sender, one wei, for its own inner nonce, exactly on the forfeiting exits whose calls get that far. All of it is what playing the micro moves gives. |
| Tester.ShutterTx.AwaitInclusion | continuous/tx.go:205-251 | The same for the second half: on landing, the inclusion block is that of the second receipt. |
| Tester.ShutterTx.ForfeitNonce | continuous/tx.go:253-298 | One wei from the account to itself with the nonce, sent if and only if chain id, gas price, signature and sending succeed; no error if and only if then the wait ends with status 1. |
| Tester.ShutterTx.RunForfeit | continuous/tx.go:206-236 | What the watcher makes of it: the machine's moves from forfeiting to the return. |
| Tester.ShutterTx.Judge | continuous/continuous.go:225-239 | Leaves if Included, SystemFailure, or Sequenced behind the highest inclusion; exactly in the last case it is cancelled, with the current block. |
| Tester.Configuration.AddTxInFlight | continuous/continuous.go:29-33 | Appends to the in-flight list; the done list shows what it showed. |
| Tester.Configuration.TxCount | continuous/continuous.go:25-27 | The number of transactions that the two lists show. |
| Tester.Configuration.NextAccount | continuous/config.go:39-41 | The account at the position given by the number of transactions in both lists, modulo the number of accounts. |
| Tester.Configuration.SendShutterizedTX | continuous/tx.go:89-167 | One transaction at the end of the in-flight list, with the next account's nonce and the submit account's nonce, both used up; its trigger is what its prefix decodes to, what its identity matches with the submit account's address, and the value its inner transaction pays to that address. |
| Tester.Configuration.HighestInclusion | continuous/continuous.go:218-223 | No inclusion block in the list exceeds the result, and the result is 0 or one of them. |
| Tester.Configuration.CheckTxInFlight | continuous/continuous.go:214-249 | The sweep as code over slices: a transaction leaves if and only if its status was Included or SystemFailure, or Sequenced with some inclusion block of the list above its submission block; exactly the last kind is cancelled; those that stay and those that go keep their order, the latter behind the old done list; the backing arrays stay disjoint. |
| Tester.Configuration.BuildInnerTxHashToTargetSlotMap | continuous/collector.go:480-494 | The append over the in-flight list changes what neither list shows, and the map is that of all transactions. |
| Tester.TargetSlotsAre | continuous/collector.go:486-493 | The map holds a hash if and only if some transaction with a target slot has it, and then the last such slot. |
| Tester.TargetSlotsAreExact | continuous/collector.go:486-493 | With distinct hashes the map holds exactly the transactions with a target slot, each with its own. |
| Tester.Configuration.Deliver | main.go:95-100 | One delivery adds exactly one transaction, dealt by the number sent before, whatever watchers write and sweeps move. |
| Tester.Configuration.RunContinuous | main.go:89-111 | Over any deliveries and clock: the lists together hold exactly what was sent, transaction k has the k-th account, nonces, block and slot, and statistics are asked for from the first delivered block to the current one whenever the last time is more than 12 seconds ago; their append over the in-flight list, in whichever rounds it happens, changes none of that. |
| Tester.Configuration.DriverRound | main.go:95-110 | One round keeps it: start block, sweep, send, statistics. |
| Tester.FirstBlockIs | main.go:92-98 | startBlock is the first delivered number other than 0. |
| Tester.LastStatsIs | main.go:101-104 | The time of the last collection moves exactly when more than 12 seconds have passed since. |
| Tester.RoundsAre | main.go:101-104 | The rounds that collect are, in order, those that come more than 12 seconds after the last collection. |
| Tester.AskedIs | main.go:105 | Each of them collects up to the block just delivered. |
| Tester.CollectionsShareStart | main.go:92-105 | With numbers other than 0 all collections of a run start at the first block delivered: the fixed base the cache relies on. |
| Base.Int64Is | continuous/collector.go:283 | A value read as a signed word differs from itself by a multiple of 2^64. |
| BlockCache.ScanTxsAre | continuous/collector.go:269-292 | A block's facts are, in order, its transactions to the tool's address, each with its value and hash; contract creations and others are passed over. |
| BlockCache.ScanTxsHas | continuous/collector.go:271-288 | A fact is in a block's scan if and only if it is that of a transaction to the tool's address. |
| BlockCache.ScanRangeIs | continuous/collector.go:257-296 | The facts of a range of blocks are all such transactions and no others, by block and then by position. |
| BlockCache.StepKeepsInv | continuous/collector.go:236-297 | Every step of either goroutine keeps the cache coherent and free of holes and only adds to it. |
| BlockCache.CacheHasNoHoles | continuous/collector.go:199-253 | In every interleaving, with fetches failing anywhere, the cached keys are none or one gap-free interval from the run's start block. |
| BlockCache.CollectionIsTransparent | continuous/collector.go:255-297 | What a collection returns is the block-by-block scan of the chain, complete or an exact prefix if a fetch failed, as if there were no cache. |
| BlockCache.CacheOnlyGrows | continuous/collector.go:186-197 | Entries stay, with the same facts, whatever the other goroutine does. |
| Collector.SharedCache.MaxKey | continuous/collector.go:199-206 | 0 or a present key, and no present key is higher. |
| Collector.SharedCache.ScanBlock | continuous/collector.go:269-292 | The successes of one block are exactly its transactions to the tool's address, in order, each with its own value, block and hash. |
| Collector.SharedCache.FetchAndStore | continuous/collector.go:264-293 | A miss stores the block's scan, or leaves the cache to others when the fetch fails. |
| Collector.SharedCache.CollectSubmitIncomingTx | continuous/collector.go:255-297 | With the other goroutine storing at any point: the result is all transactions to the tool's address in a range of blocks and no others, by block and position, each with its own value, block and hash; the range ends at the first block that could be neither loaded nor fetched. |
| Collector.SharedCache.OnNewHead | continuous/collector.go:240-245 | The primer restarted from the highest key keeps the cache free of holes and, if nothing fails, fills it up to the head. |
| Codec.PrefixRoundTrip | utils/utils.go:522-533 | Decoding an encoded block number gives it back, negative ones as 0. |
| Codec.PrefixInjective | utils/utils.go:522-528 | Two block numbers have the same prefix if and only if they agree where not negative. |
| Codec.ReencodeIff | utils/utils.go:522-533 | Encoding what was decoded gives the same 32 bytes if and only if the high bit and bytes 8 to 31 are zero. |
| Codec.PreimageMatchesIff | continuous/collector.go:454-456 | Splitting an identity preimage at byte 32 matches exactly the trigger and the 20-byte sender it was made from. |
| Codec.MatchIgnoresMiddle | continuous/collector.go:454-456 | Of a longer preimage only the last 20 bytes count as the sender. |
| Codec.SqlDecodeAgreesIff | continuous/collection_queries.sql:50-54 | The SQL decoder, read as an exact number, agrees with the program's exactly when bytes 8 to 30 are zero and the word is not negative. |
| Codec.SqlDecodeDiffers | continuous/collection_queries.sql:50-54 | A prefix that is 0 to the program and 2^64 to the SQL function. |
| Codec.SqlDecodesPrefix | continuous/collection_queries.sql:50-54 | It reads back every block number the program writes, also out of a whole preimage. |
| Codec.SqlEncodeIs | continuous/collection_queries.sql:58-64 | The hex, pad, decode, reverse chain yields the 16-byte little-endian two's complement. |
| Codec.SqlEncodeAgreesIff | continuous/collection_queries.sql:58-64 | Followed by 16 zero bytes it is the program's prefix if and only if the number is not negative. |
| Pollers.QueryNewestShutterBlock | continuous/continuous.go:97-135 | One poll: nothing if no row is newer, the fatal exit if a newer row with a number is followed by another, and the last newer row otherwise. |
| Pollers.QueryAllShutterBlocks | continuous/continuous.go:75-85 | The loop over polls as code computes the stream function. |
| Pollers.ExactlyOnce | continuous/continuous.go:75-134 | With blocks arriving in order, exactly the blocks after the initial one up to the last poll are sent, once each and in order; the fatal exit happens exactly when two become visible between two polls. |
| Pollers.ExactlyOnceIff | continuous/continuous.go:75-134 | For blocks arriving in any order: all that arrive are sent once, in order of arrival, without the fatal exit, if and only if they arrive in strictly increasing order of time and no two become visible between two polls. |
| Pollers.SentTimesIncrease | continuous/continuous.go:80-85 | Whatever the polls see, what is sent is strictly increasing in time and newer than the initial timestamp. |
| Pollers.LateIsNeverSent | continuous/continuous.go:97-135 | A block not sent by the time one at least as young was sent is never sent. |
| Pollers.LateBlockIsLost | continuous/continuous.go:97-135 | A run of three polls in which that happens. |
| Pollers.QueryAllGraffitiBlocks | continuous/continuous.go:86-93 | A poll sends if and only if its row has a wanted, non-empty graffiti and a next slot at least two past the last target sent (0 at first); what is sent is that row's block number and slot, in order. |
| Pollers.TargetsGrow | continuous/continuous.go:199-211 | Target slots grow by at least 2 from one emission to the next. |
| Pollers.TriggersIncreaseIff | continuous/continuous.go:144-211 | Trigger blocks strictly increase if and only if no poll emits while the head has not moved past the block of the emission before and that emission's target is no longer a duty. |
| Pollers.GraffitiTriggersIncrease | continuous/continuous.go:144-211 | In particular as long as no duty is withdrawn. |
| Pollers.WithdrawnDutyRepeatsTrigger | continuous/continuous.go:144-211 | A run of two polls in which a duty is withdrawn and the same block triggers twice. |
| Pollers.PrefixesDiffer | utils/utils.go:522-528 | Increasing triggers give pairwise different identity prefixes. |
| Report.CollectSequencerEvents | continuous/collector.go:144-172 | The submissions stand, in order, for exactly the events whose trigger lies between the start block and 1000 past the end block, each with its trigger and its block. |
| Report.SubmissionsAre | continuous/collector.go:157-165 | A submission is collected if and only if its trigger is within these bounds and an event stands for it. |
| Report.ByTriggerIs | continuous/collector.go:659-662 | The map holds a trigger exactly when some success has it, and then the last such success. |
| Report.Join | continuous/collector.go:659-676 | A submission is matched if and only if some success has its trigger; matched ones get, in order, the last such success and as delay the distance from their own block to it; the others fail, in order. |
| Report.JoinPartitions | continuous/collector.go:665-676 | Every submission is counted exactly once, as failed if and only if no success has its trigger. |
| Report.Difference | utils/utils.go:535-549 | The elements of the first list that are not in the second, in order and as often as they occur. |
| Report.MissedCountIff | continuous/collector.go:740 | For duplicate-free lists the printed count is the length of the printed list if and only if every submitted trigger is among the triggers. |
| Report.MissedCountDiffers | continuous/collector.go:740 | One trigger missed and one submission for another block: the count is 0, the list has one element. |
| Reconcile.SubmissionsAreTheRuns | continuous/tx.go:98-99 | The submissions collected are exactly those of the run's own transactions with an event in range and a trigger in the window. |
| Reconcile.FactsAreTheRuns | continuous/collector.go:271-290 | The successes of finished blocks are exactly the run's included inner transactions, each with its own trigger, block and hash; forfeits are not among them. |
| Reconcile.SuccessfulIffIncluded | continuous/collector.go:659-676 | A submission is counted successful if and only if its own inner transaction lies in the scanned blocks, and failed if and only if it does not. |
| Reconcile.MatchIsOwn | continuous/collector.go:667-671 | The success it is matched with is its own inclusion, so the delay is the distance between its two blocks. |
| Reconcile.Statistics | continuous/collector.go:647-676 | The report as code on what a run left behind: every successful entry is a transaction's own inclusion with the distance between its two blocks as delay, every collected transaction included in the scanned blocks has one, and every other is among the failed. |
| Reconcile.AgreesBefore | continuous/collector.go:255-297 | A finished block is final: a chain that agrees with a later state of a run agrees with all earlier ones. |
| Reconcile.ForfeitNeverSucceeds | continuous/tx.go:264-275 | A submission whose forfeit was mined is counted as failed by every later collection. |
| Reconcile.SuccessStays | main.go:105 | Collecting later and up to a higher block never turns a success into a failure. |
| Reconcile.CollectedThroughCache | continuous/collector.go:647-676 | End to end through the shared cache in any interleaving: exactly the submissions are successful whose inner transaction lies in the blocks the collection got to. |
| Feed.FedRunSends | main.go:95-100 | In every state of every run whose k-th sweep is for the k-th block delivered, transaction k carries the k-th block. |
| Feed.StandardDelivers | continuous/continuous.go:75-134 | Whatever the polls see, and in whatever order blocks of one chain reach the database, the numbers delivered strictly increase. |
| Feed.StandardRunIsDistinct | continuous/continuous.go:79-85 | In every state of every run fed by the standard poller from blocks of one chain, in whatever order they arrive, triggers and identity prefixes are pairwise different. |
| Feed.GraffitiRunIsDistinct | continuous/continuous.go:86-92 | So they are in every run fed by the graffiti poller in which no emission repeats a withdrawn one. |
| Feed.WindowDropsNothing | continuous/collector.go:163-165 | In a fed run a collection from the first block drops none of the run's submissions with an event in range: the window on triggers is never what excludes one. |
| Feed.DeliveredAndCollected | main.go:81-111 | For a run fed with increasing block numbers, through chain, shared cache and join in any interleaving: exactly the submissions with an event in range are successful whose inner transaction lies in the blocks the collection got to. |
| Feed.StandardRunIsReconciled | main.go:81-111 | The same from the standard poller on, over any snapshots of the database. |
| Feed.GraffitiRunIsReconciled | main.go:81-111 | The same from the graffiti poller on, when no emission repeats a withdrawn one. |
| Hex.EncodeIs | utils/utils.go:278-287 | Two lower-case digits for each byte, the high one first. |
| Hex.DecodeEncode | utils/utils.go:278-287 | Decoding printed bytes gives them back. |
| KeyFile.SpacesAre | utils/utils.go:314 | Which characters separate words. |
| KeyFile.WordsAreThere | utils/utils.go:313-317 | Every complete word stands in the text between spaces (or the begin) and has none inside. |
| KeyFile.WordsAreInOrder | utils/utils.go:313-317 | They come one after the other. |
| KeyFile.NothingIsLeftOut | utils/utils.go:313-317 | Every character that is no space is in one of them or in the word the text breaks off in. |
| KeyFile.ReadWordsFail | utils/utils.go:318-322 | Reading fails if and only if some word of 64 characters is no key. |
| KeyFile.KeysAreAt | utils/utils.go:318-323 | The words that give keys are exactly those of 64 characters before the first that is no key. |
| KeyFile.ReadWordsAre | utils/utils.go:319-323 | In order, each its own key. |
| KeyFile.KeyWordIs | utils/utils.go:319-322 | A word of 64 digits is a key if and only if its number is positive and below the order of the curve, and the key is that number. |
| KeyFile.NextWord | utils/utils.go:313-317 | One step of the word scanner, as loops over the text. |
| KeyFile.ReadPks | utils/utils.go:312-327 | The loop over words as code: words of length 64 become keys, the first bad one ends it with an error and the keys so far. |
| KeyFile.LineReadsBackIff | utils/utils.go:268-293 | After one more account is stored, reading adds exactly its key if and only if the file did not break off inside a word. |
| KeyFile.RoundTrip | utils/utils.go:268-327 | Any accounts stored after a clean end are read back: every key, once, in order, behind those already there. |
| KeyFile.File.StoreAccount | utils/utils.go:268-293 | Appends hex key, space, hex address, newline, or as much of it as fits with an error. |
| KeyFile.File.SetUpAccounts | continuous/config.go:92-103 | The six accounts are the first keys of the configured file, then the generated ones, which are stored in this file; no file, an unreadable key or a full disk ends the start. |
| KeyFile.BrokenWordLosesKeys | utils/utils.go:312-327 | After a broken-off word the first key stored is lost, and so is the key that word may have been; all others are read. |
| KeyFile.KeyAfterBrokenWordIsLost | utils/utils.go:268-327 | A file of one character, after which the account stored is not read back. |
| KeyFile.RestartKeepsAccountsIff | continuous/account.go:16-37 | Reading and storing in one file, a restart uses the same six accounts if and only if the start before it had nothing to add or found a cleanly ended file. |
| KeyFile.RestartElsewhereIff | utils/utils.go:272 | Two starts that read the same keys use the same accounts if and only if there were six to read. |
| KeyFile.StartTwice | continuous/config.go:92-103 | A start and a restart on the two files, read and written: both succeeding, they use the same accounts if and only if the first had nothing to add, or added it to the file that is read and found that ending cleanly. |
| GasLimit.SumIs | stress/stress_test.go:486-492 | The gas limits issued sum to the encrypted gas limit plus one, plus 2^64 once the last one wraps. |
| GasLimit.CreateInner | stress/stress_test.go:321-346 | The first loop: consecutive nonces; 21000 gas for all but the last, and for that what is left of the limit plus one, as an unsigned word. |
| GasLimit.SubmitInner | stress/stress_test.go:347-363 | The second loop: consecutive submit nonces, in order, up to the first that cannot be submitted, which uses up one nonce more, or, when every submission is waited for, through the first that is not confirmed. |
| GasLimit.CheckFailsIff | stress/stress_test.go:493-501 | Whichever way the sort orders equal blocks, the check fails if and only if all receipts share one block. |
| GasLimit.CheckPassesWhenPacked | stress/stress_test.go:474-505 | On a chain that packs at most the limit into a block the check passes. |
| GasLimit.PackableIff | stress/stress_test.go:486-492 | Such a chain can include all of them if and only if there are 2 to 48. |

## Left out

- Tester.ShutterTx.WatchTx: `Record` leaves the machine's number of the sender at 0, the sender being an object here, and the watcher as code runs with its observations given beforehand; how it interleaves with sweeps and the chain is the subject of `Protocol.dfy`.
- Tester.Configuration.SendShutterizedTX: takes the client's answers for granted; every error in it panics and ends the process (continuous/tx.go:94-149).
- KeyFile.ReadPks: lengths are counted in characters where the program counts bytes, and Unicode spaces beyond U+00A0 do not separate words, so the two agree on ASCII text; the scanner's limit of 64 KiB for one word is not modelled.
- KeyFile.File.StoreAccount: a file that cannot be opened for appending is a full disk here: nothing is written and an error comes back.
- Codec.SqlDecodeAgreesIff: reads the decoder as exact; the cast through a float loses digits above 15 (continuous/collection_queries.sql:54).
- Pollers.ExactlyOnce: the scan of a timestamp into a date value and errors of single scans are not modelled.
- Report.Join: delays are integers; mean, median and percentages over floats are left out. With no success the program returns an error instead of a report.
- GasLimit.CheckFailsIff: takes any sorted permutation as the result of the library sort; with no receipts at all the program would index an empty slice.
- Reorganisations: blocks are immutable once the head has moved on.
- Encryption, signing, hashing, RLP, and RPC, websocket and database transport; hashes are opaque values.
- Go's memory model: unsynchronised fields are taken to be read and written atomically and in program order.
- Wrap-around of nonces, block numbers and loop counters near 2^63 and 2^64, other than where a contract mentions it.
- The slice `err.Error()[0:8]` of a forfeit error (continuous/tx.go:212), which panics on messages shorter than 8 bytes.
- Shutdown of the cache primer, whose channel is closed only after the loop that waits for it (continuous/collector.go:240-252): it runs forever here.
- Blame files, validator queries, withdrawal credentials, status ratios, plotting and the event scraper: formatting and queries.
- Funding, `Drain`, `FixNonce`, `CountAndLog`, gas pricing: straight-line code or floating point.
- The tests under `tests/` and `requests/`: thin wrappers over sending and waiting.
- `utils/deposit_contract.go`: generated bindings.
