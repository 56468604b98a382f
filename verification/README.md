# ubt-exex in Dafny

ubt-exex follows a reth node and keeps the chain's state as a unified binary
tree: a map from 32-byte tree keys (a 31-byte stem and a one-byte subindex) to
32-byte values. The same map lives in several places that change at different
times: rows of stem nodes in MDBX, an in-memory overlay of dirty nodes that is
flushed every `flush_interval` blocks, a NOMT store with its own rollback by
count, per-block lists of old values, a key index of every key ever written, a
table of the account behind each stem, and the saved heads. Blocks arrive, are
reverted, the process stops, crashes and starts again.

This project models those stores and operations as classes with the original's
loops, shows that every method is one step of a pure state machine, and proves
over all runs of that machine what the copies have to do with each other. Run
`dafny verify dfyconfig.toml` to check it.

## How it is laid out

- `Types`, `Sorting`, `Bytes`, `Bitmaps`: keys, values, byte strings, cursors.
  A Rust byte array of fixed width is the number it spells in big-endian order;
  `Bytes.LexicographicIsNumeric` is why cursor order is then `<`.
- `Ledger`, `StemRows`, `LiveChain`: the reference model. A `Ledger` is a map from
  keys to non-zero values; a `StemNode` likewise drops a subindex when zero is
  stored; the live chain is the list of commits still in force, and
  `LiveChain.LedgerOf` the map it builds from nothing.
- `Tables`, `Index`, `Persistence`, `KeyIndexFile`, `NomtStore`: what the three
  stores hold and the classes that change them. An MDBX or redb transaction
  stages its changes locally and publishes them at its end. A NOMT store is a
  stack of snapshots: a session pushes one, `rollback(n)` pops n or fails.
- `Machine`: the state (all tables, the overlay, the counters) and one function
  per operation. `UbtExExObject`: the class, whose methods are proved equal to
  those functions, with HashMap draining and iteration in arbitrary order.
- `Invariant`, `CommitKeeps`, `RevertKeeps`, `Runs`: the invariant that ties a
  state to a live chain, and the proof that every step of every admissible run
  keeps it. `Runs.Op` is a commit, a revert, a stop (shutdown and start) or a
  crash (start without shutdown); a reorg is a revert followed by a commit.
- `StepFacts`: what one step does to each field, from whatever state.
- `StartUp`, `FailedCommits`: start-up and commit on any state, the cases they refuse
  included, and what the next start-up makes of a flush cut short or a failed commit.
- `AnyRuns`, `StemCount`: what holds after any operations, or nearly: no revert has to
  arrive anywhere.
- `UndoTheorems`, `NomtAgreement`, `Independence`, `Heads`, `Courses`, `Recovery`: the
  theorems that speak of the live chain or compare two instances.
- `PlainRuns`: runs described by what a caller can see before each call, proved
  admissible.
- `StateFile`, `Layouts`, `Listing`, `PirExport`, `ExportTheorems`, `ExportResults`: the
  PIR2 file formats byte range by byte range, the exporters as methods, when they
  succeed, and what their output is worth in a reachable state.
- `Witnesses`: concrete runs on which obvious-looking claims fail.

Three kinds of runs occur.

- Any list of operations. The saved root and start-up verification need nothing more
  (`AnyRuns.StartUpVerifies`), nor does the retention window
  (`AnyRuns.NothingBelowWindow`). Coverage by the key index and the addresses, and what
  `stem_count` counts, need commits that keep one address per stem
  (`AnyRuns.OneAddressRun`); the flush lag needs increasing numbers, no gap above the last
  block and NOMT not behind MDBX (`AnyRuns.PacedRun`). Reverts past retention, for which
  the source warns and carries on, are among these runs (`Witnesses.DeepReorg`).
- `Runs.ValidRun`, for the results that speak of the live chain's map: block numbers
  increase; a stem always comes with the same address; a revert leaves no gap above the
  last block and its stored undo lists lead to the map of the live blocks below it; and
  start-up does not find NOMT behind MDBX. The clause on reverts is the weakest there is: a
  revert in any state arrives at a map if and only if the lists lead there
  (`RevertKeeps.RevertReachesExactly`). What it comes to for ranges that are aligned with
  commits is stated by `RevertKeeps.RevertExactly`, `UndoTheorems.MultiBlockUndo` and
  `UndoTheorems.MultiBlockUndoClean`. `NomtAgreement.SingleRun` is the discipline of one
  block per commit, numbered 1, 2, 3, ..., reverted from the tip down; it implies
  `ValidRun` (`NomtAgreement.SingleReached`) and allows a stop or a crash anywhere.
- `PlainRuns.PlainRun` and `PlainRuns.PlainSingleRun`, which say nothing about where a
  revert arrives: a commit finds no list under the numbers it skips and either changes a
  value or finds its own slot empty; a revert names every number from its lowest to the
  last block and drops no pruned block. They imply the other two
  (`PlainRuns.PlainRunFollows`, `PlainRuns.PlainSingleIsSingle`), so every result above
  holds of them, and never reverting further below the highest flushed block than
  `delta_retention` is enough (`PlainRuns.ShallowIsPlain`). Reverts that stay above the
  persisted block need no condition on slots or values at all
  (`PlainRuns.UnpersistedReorgs`).

The streaming tree builder is a parameter, `Config.rootOf`: any function of the
sorted entry list.

## Where the source does not do what one would expect

Each of these is kept as the source has it, shown on a concrete run, and
delimited for all inputs.

- `get_value` falls through to MDBX when an overlay node lacks the value, so a
  zeroed key can still read as its old value (`Witnesses.StaleRead`,
  `Independence.ValueReadsExactly`). `get_stem` cannot (`Independence.StemReads`).
- Undo lists of persisted blocks survive a revert (`StepFacts.RevertLists`) and empty
  lists are not saved, so a replacement block, or a number inside a replacement chain,
  can inherit one (`Witnesses.LeftoverListBreaksUndo`). Only blocks that were persisted
  at some time leave lists behind (`PlainRuns.LeftoversOncePersisted`). A later revert replays such leftovers too; it
  still restores the map exactly when all the lists it replays are harmless taken
  together (`RevertKeeps.RevertExactly`; `Witnesses.ReorgsOverLeftovers` is a run where
  one list alone would do damage and an older one overrules it).
- `revert` rolls NOMT back once per block, but a commit of several blocks pushed
  one snapshot (`Witnesses.ChainRollbackDiverges`, `NomtAgreement.RollbackExactly`);
  start-up rolls it back once per block number between the two heads
  (`Witnesses.RestartRollbackDiverges`, `NomtAgreement.RestartRollbackExactly`).
- `stem_count` is saved with a head only, while the key index grows at every
  commit, so a crash can leave it short, for good (`Witnesses.CrashLosesCount`,
  `StemCount.StemCountExactly`). The comment on `revert` calls the count inflated
  after reorgs; in crash-free runs it is exactly the number of stems in the key
  index, which never shrinks (`StemCount.StemCountExact`).
- A revert past retention is no error. It stops at the oldest value still recorded
  (`Witnesses.DeepReorg`, `UndoTheorems.RetentionExactly`).
- The range check of `get_state_delta` subtracts the retention from the current
  head, which a revert may have lowered below the block that pruned
  (`Witnesses.DeltaMissesPruned`, `ExportTheorems.PatchExactly`,
  `ExportTheorems.WindowCheckSafe`). It also admits a `to_block` below the head, though
  the file holds head values (`ExportTheorems.PatchToExactly`).
- `revert` and `shutdown` do not save the key index head, so the NOMT export can be
  labelled with another block than the MDBX export, even when nothing is unflushed and
  both say the same number (`Witnesses.IndexHeadStale`, `Witnesses.IndexHeadReplaced`,
  `Heads.HeadsAgreeExactly`), and with another block than its own values
  (`Heads.NomtLabelExactly`).
- A commit that fails an address check has already written NOMT and the overlay
  (`FailedCommits.CommitFailsExactly`). A crash gets rid of it
  (`FailedCommits.FailedCommitForgotten`).
- A flush writes the rows and the head in two transactions. Start-up verification refuses
  what a death between them leaves, except before the first head, when there is no root to
  compare (`StartUp.TornFlushCaught`).
- docs/architecture.md:98 says start-up loads the stems into a tree; the code
  (src/ubt_exex.rs:102-119) only computes the root from a cursor. The model
  follows the code.

## Model

| member | source | states |
|---|---|---|
| UndoTheorems.MultiBlockUndo | src/ubt_exex.rs:444-524 | After any run, commit any blocks (repeated keys included) and revert a range that names all of them and nothing older: as long as none of their lists was pruned, the overlay-over-MDBX map is the one held before, wherever flushes fell, if and only if the lists replayed are harmless to it taken together; a revert that flushes saves the root of the map it arrives at |
| UndoTheorems.MultiBlockUndoClean | src/ubt_exex.rs:444-524 | With nothing stored under the numbers of the range beforehand, and none of the commits' lists pruned, that revert always restores the map |
| UndoTheorems.CommitThenRevertExactly | src/ubt_exex.rs:354-356 | Committing the tip of a chain and reverting the chain's numbers restores the map if and only if the lists then stored under them are harmless to it taken together; with nothing stored under the other numbers, if and only if the commit changed a value or the list already in its slot was harmless |
| UndoTheorems.TopRevertExactly | src/ubt_exex.rs:461-478 | Reverting the numbers of the newest live chain restores the map below it if and only if the lists replayed are harmless there, or, once its list was pruned, if and only if it had changed nothing overall |
| UndoTheorems.RetentionExactly | src/ubt_exex.rs:401-417 | Over any run, a live block that changed something still has its own undo list if and only if no commit since it flushed more than `delta_retention` above it |
| UndoTheorems.RetentionGuarantee | src/ubt_exex.rs:401-417 | Over any run, every live block that changed something and lies within `delta_retention` of the highest flushed block still has exactly its own undo list |
| AnyRuns.NothingBelowWindow | src/persistence.rs:421-478 | After any operations whatever, a stored undo list is no older than any flush since it was written minus `delta_retention` |
| UndoTheorems.PrunedAtMost | src/ubt_exex.rs:401-417 | The bound below which live blocks have lost their lists never passes the highest flushed block minus `delta_retention`, or where it started |
| AnyRuns.FlushLag | src/ubt_exex.rs:361-362 | Whatever the reverts restored, as long as numbers increase, no gap opens above the last block and start-up does not find NOMT behind, the persisted block does not pass the last block and trails it by less than max(flush_interval, 1) |
| UndoTheorems.PersistedRoot | src/ubt_exex.rs:364-382 | Between any two operations of an admissible run the stored rows are the live chain up to the saved block, and the saved root is that chain's |
| StartUp.StartUpExactly | src/ubt_exex.rs:102-119 | On any stores, start-up succeeds if and only if there is no saved head or its root is that of the sorted list of stored values; otherwise the error carries both roots |
| StartUp.ResumesExactly | src/ubt_exex.rs:121-207 | On any stores, a successful start-up resumes at the saved head's block, hash, root and count, or at zero without one, persisted up to the smaller of that block and the one NOMT stores, with an empty overlay, and NOMT rolled back by the difference when it is ahead and holds as many commits |
| StartUp.TornFlushCaught | src/ubt_exex.rs:364-382 | Over every run, if the process dies between writing the overlay and saving the head, the next start-up refuses the stores if and only if the flush changed the map, given roots that tell the two maps apart; before the first head it accepts them at block 0 |
| AnyRuns.StartUpVerifies | src/ubt_exex.rs:102-119 | After any operations whatever, failed commits and reverts past retention included, the saved root is that of the stored rows and start-up verification succeeds |
| UndoTheorems.CommitRecords | src/ubt_exex.rs:315-359 | A commit with consistent addresses succeeds, moves the map by its entries in order, and leaves its undo list, or the list that was there when nothing changed, in its slot |
| Ledger.UndoRestores | src/property_tests.rs:25-45 | Replaying a block's undo records newest first over the map after it gives the map before it, repeated keys included |
| Ledger.HarmlessExactly | src/ubt_exex.rs:602-616 | Replaying a list changes nothing if and only if, for each key, the oldest record that mentions it holds the key's current value |
| Ledger.UndoAt | src/ubt_exex.rs:602-616 | Undo at a key is decided by the oldest record that mentions it, and leaves every other key alone |
| Ledger.UndoReachesExactly | src/ubt_exex.rs:602-616 | Replaying a list takes one map to another if and only if, for each key, the oldest record holds the value wanted, and every key that differs has a record |
| Ledger.PutAllAt | src/ubt_exex.rs:318-341 | After a block a key holds the last value the block writes to it, or its old value |
| Ledger.DeltasCoverChanges | src/ubt_exex.rs:336-338 | Every key whose value a block changes appears in the block's undo records |
| Ledger.OrderIndependent | src/property_tests.rs:93-124 | Permuting a block with distinct keys gives the same map and a permutation of the undo records |
| NomtAgreement.NomtAgrees | src/ubt_exex.rs:297-313 | After every run of single-block commits, reverts, stops and crashes, NOMT reads every key but its own head key as the overlay over MDBX has it, a missing key as zero; its own key is a length error once a block is live |
| NomtAgreement.UndoMechanismsAgree | src/ubt_exex.rs:450-478 | For any range from the tip down within retention, rolling back one NOMT commit per block reads as the map below the range, and replaying the undo lists newest first arrives at that map if and only if they are harmless to it taken together |
| NomtAgreement.SingleRevertExactly | src/ubt_exex.rs:461-478 | In single-block runs a revert within retention leads to the map below it if and only if the lists are harmless there |
| NomtAgreement.RollbackExactly | src/ubt_exex.rs:446-456 | For commits of chains of any length and any numbers reverted, the rollback inside `revert` leaves exactly the remaining chain's snapshots if and only if as many commits were dropped as blocks were named |
| NomtAgreement.RestartRollbackExactly | src/ubt_exex.rs:159-167 | For commits of chains of any length, start-up leaves exactly the persisted chain's snapshots if and only if the two heads are as many numbers apart as commits were lost |
| NomtAgreement.SingleReached | src/ubt_exex.rs:297-313 | A run of consecutive single-block commits, reverts from the tip down to where the stored lists lead, stops and crashes is admissible throughout and keeps NOMT equal to the live chain's snapshots, so NOMT is never behind MDBX at start-up |
| PlainRuns.PlainRunFollows | src/ubt_exex.rs:444-524 | A run of chain commits that find no list under the numbers they skip and change a value or find their slot empty, and of reverts that name every number down to an unpruned one, is admissible: the map is always that of the live blocks, and every stored list up to the last block is a live block's |
| PlainRuns.PlainSingleIsSingle | src/ubt_exex.rs:444-524 | Such a run of consecutive single blocks, with stops and crashes anywhere, is a single-block run: every revert arrives at the map below it |
| PlainRuns.PlainNomtAgrees | src/ubt_exex.rs:297-313 | Over such runs NOMT reads every key but its own as the overlay over MDBX has it, and both are the live chain's map |
| PlainRuns.PlainCrashRecovers | src/ubt_exex.rs:147-183 | Over such runs with right parent hashes and a live block, a crash at any point and its replay rebuild the whole state but the overlay's split and the stem count |
| PlainRuns.ShallowIsPlain | src/ubt_exex.rs:464-471 | Reverting no further below the highest flushed block than `delta_retention` is enough to drop no pruned block |
| PlainRuns.UnpersistedReorgs | src/ubt_exex.rs:461-478 | As long as reverts go down from the last block and stay above the persisted one, no list is ever stored above the last block, so every replacement block finds its slot empty and every revert arrives at the map of the blocks below it, whatever the blocks write |
| PlainRuns.LeftoversOncePersisted | src/ubt_exex.rs:475-477 | However deep the reverts, failed commits included, a list stored above the last block is numbered no higher than the highest block ever persisted |
| StepFacts.CommitNomt | src/ubt_exex.rs:297-313 | A commit pushes one snapshot: its entries' values under their tree indices, then its number under the head key, whatever else the commit does or fails to do |
| NomtStore.BlockSnapshot | src/ubt_exex.rs:302-304 | After a session the stored head is the committed block's number and every other key is as its entries left it |
| Recovery.CrashRecovery | src/ubt_exex.rs:87-207 | After any run, crashing, restarting and replaying the blocks after the persisted head is itself admissible and gives the same map, live chain and pruning bound, and the same rows, addresses, undo lists, saved heads, key index, last root and persisted block as not crashing; last block and hash are those of the newest lost block, or the persisted ones, and stem_count the one saved last |
| Recovery.CrashRecoveryWithNomt | src/ubt_exex.rs:147-183 | For single-block runs the replay rebuilds NOMT too, snapshot for snapshot, and the last block, and needs no precondition about NOMT's head |
| Recovery.CrashUnseen | src/ubt_exex.rs:87-207 | For single-block runs the instance that crashed and replayed is like the one that did not if and only if the latter's hash is that of the newest lost block or the persisted one, and then the two agree on every continuation: same map, tables, undo lists, NOMT, heads up to the stem count, same returned roots |
| Recovery.RevertThenReplay | src/property_tests.rs:48-92 | After any run and any admissible revert, committing the dropped live blocks again is admissible and gives back the map, the live chain, the key index, the addresses and stem_count, wherever flushes fell, and the newest block's number and hash |
| Recovery.RevertThenReplayNomt | src/ubt_exex.rs:446-456 | ... and in single-block runs the NOMT store, snapshot for snapshot |
| Courses.AlikeForever | src/ubt_exex.rs:293-576 | Two instances with the same map, tables, undo lists, NOMT and heads up to the stem count stay so and return the same results on every list of operations that keeps one address per stem, however rows and overlay are split |
| Recovery.KnownBlockChangesNothing | src/key_index.rs:65-134 | Committing again a block both tables already know passes both address checks and leaves both tables as they are |
| Independence.FlushIntervalIndependence | src/ubt_exex.rs:361-434 | Two instances with any two flush intervals and retentions that can both serve the same crash-free notifications have the same map, key index, stem count, last block and last hash afterwards |
| Independence.SameAfterShutdown | src/ubt_exex.rs:551-576 | ... and after a shutdown the same sorted MDBX entries and the same saved head: number, hash, root and stem count |
| Independence.EntryOrderIndependence | src/property_tests.rs:93-124 | Committing a permutation of distinct-key entries gives the same result and root and the same state: effective rows, NOMT snapshots, key index, addresses, both heads, all counters, and every undo list but the block's own, which is a permutation |
| Independence.SessionPermuted | src/ubt_exex.rs:305-312 | A NOMT session with one write per key ends in the same snapshot in any order, so sorting it changes nothing |
| StemCount.StemCountExact | src/ubt_exex.rs:347-352 | Without crashes stem_count is the number of stems in the key index, whatever the commits, reverts and clean restarts; while each stem keeps one address, those are the stems of the overlay and MDBX together |
| StepFacts.CommitOutcome | src/ubt_exex.rs:361-434 | A successful commit moves the map by its entries, adds the index's growth to stem_count, and on a flush saves and returns the root of the new map under its own number, hash and count; otherwise it returns the old root and keeps the saved head |
| StepFacts.CommitFields | src/ubt_exex.rs:354-417 | The remaining fields after a successful commit: last block and hash; on a flush the persisted head, the key index head with the truncated count, and the undo lists pruned below the retention window; otherwise as before with the block's own list saved |
| FailedCommits.CommitFailsExactly | src/ubt_exex.rs:315-352 | In any state, a commit fails with the stem error if and only if a stem in neither overlay nor rows comes first with another address than the one saved, and else with the index error if and only if a stem contradicts the key index or itself; by then NOMT and the map have moved, addresses only in the second case, and nothing else has changed |
| FailedCommits.NewAddressesExactly | src/ubt_exex.rs:324-331 | The addresses a commit saves are, for each stem in neither overlay nor rows, that of its first entry |
| FailedCommits.FailedCommitForgotten | src/ubt_exex.rs:147-183 | In single-block runs, dying after a failed commit resumes exactly as if it had never been tried, NOMT included, but for addresses already saved |
| Independence.StemReads | src/ubt_exex.rs:532-537 | In every reachable state `get_stem` agrees with the model map at every subindex, absent and empty taken as one |
| Independence.ValueReadsExactly | src/ubt_exex.rs:541-548 | In every reachable state `get_value`, missing taken as zero, agrees with the model map if and only if the key is not absent from its overlay node while present in its MDBX row |
| Independence.StemAnswer | src/ubt_exex.rs:532-537 | `get_stem` answers nothing if and only if the stem is in neither overlay nor rows, and the overlay's node before the row |
| Independence.ValueAnswer | src/ubt_exex.rs:541-548 | `get_value` answers nothing if and only if the key is in neither the overlay's node nor the row, and the overlay's value before the row's |
| Independence.StemKnownExactly | src/ubt_exex.rs:532-537 | Without crashes and with one address per stem, `get_stem` answers for exactly the stems of the key index |
| StemCount.StemCountExactly | src/ubt_exex.rs:95-137 | After any operations stem_count is at most the number of stems in the key index; while each stem keeps one address it is equal to it if and only if no crash found a stem in the overlay without an MDBX row |
| Heads.HeadNamesTip | src/ubt_exex.rs:480-511 | Over every run whose reverts pass the right parent hash, the head in memory has the hash of the newest live block, and the saved head that of the newest block it covers |
| Heads.IndexHeadNames | src/ubt_exex.rs:376-385 | Over every run the key index head is that of the live chain the last flushing commit flushed: its tip's number and hash, its root |
| Heads.HeadsCompare | src/ubt_exex.rs:493-511 | Over every run the two saved heads name the same number, hash and root if and only if the persisted block has the number and hash of the newest block of the chain the last flushing commit flushed and both chains have the same root |
| Heads.HeadsAgreeExactly | src/ubt_exex.rs:493-511 | Over every run with true hashes (reverts pass the right parent hash, no two commits with one hash differ in number, entries or parent, the zero hash and that below the first block are no block's) the MDBX head and the key index head name the same number, hash and root if and only if the persisted chain is the one the last flushing commit flushed |
| Heads.SameTipSameChain | src/ubt_exex.rs:487-489 | When no two commits with one hash differ, two chains of the run with the same tip hash are the same chain, block for block |
| Heads.NomtLabelExactly | src/pir_export.rs:260-271 | Over single-block runs with true hashes NOMT holds the values of the live chain, and the key index head, which labels the NOMT export, names that chain's tip if and only if the live chain is the one the last flushing commit flushed; its root is then right |
| Witnesses.LeftoverListBreaksUndo | src/ubt_exex.rs:475-477 | A concrete run after which an empty block 2 inherits the old block 2's list, and reverting it changes the map |
| Witnesses.ReorgsOverLeftovers | src/ubt_exex.rs:461-478 | A concrete run of two reorgs in a row in which a revert replays a harmful leftover list and restores the map all the same, because an older list overrules it |
| Witnesses.StaleRead | src/ubt_exex.rs:541-548 | A concrete run after which `get_value` answers 5 for a key that holds zero |
| Witnesses.CrashLosesCount | src/ubt_exex.rs:347-352 | A concrete run after which stem_count is 0 while the key index holds a stem |
| Witnesses.DeltaMissesPruned | src/pir_export.rs:635-643 | A concrete run after which the range check admits a block whose undo list was pruned and the exported patch misses its key |
| Witnesses.ChainRollbackDiverges | src/ubt_exex.rs:446-456 | A concrete run of a two-block chain commit after which NOMT reads zero where the map holds 1 |
| Witnesses.RestartRollbackDiverges | src/ubt_exex.rs:159-167 | A concrete run of chain commits and a crash after which NOMT reads 1 where the map holds 3 |
| Witnesses.IndexHeadStale | src/ubt_exex.rs:493-511 | A concrete run after which the MDBX head names block 1 and the key index head still block 2 |
| Witnesses.IndexHeadReplaced | src/ubt_exex.rs:551-576 | A concrete run with true hashes after which nothing is unflushed and both heads say block 2, with different hashes |
| Witnesses.DeepReorg | src/ubt_exex.rs:458-471 | A concrete run whose revert goes past retention and leaves 1 where nothing is live any more, and after which the key index still covers the key |
| AnyRuns.KeyIndexCoverage | src/ubt_exex.rs:347-356 | After any operations that keep one address per stem, every key with a value in the overlay over MDBX, in MDBX or in any NOMT snapshot, and every key in a stored undo list, has its bit set in the key index |
| AnyRuns.AddressCoverage | src/ubt_exex.rs:324-345 | After any such operations every stem of the overlay, the rows and the stored undo lists has a saved address, and a saved address is the key index's own, so no export misses one |
| ExportTheorems.ExportersAgree | src/pir_export.rs:287-311 | Right after a flushing commit of a single-block run both full exports succeed, the MDBX export's entries are the NOMT export's with zero values removed, same order and owners, and both heads name the same block, hash and root |
| ExportTheorems.ContractProjection | src/pir_export.rs:401-438 | For any values and owners, a contract export is the order-preserving filter of the full export by address, and its offset table partitions it |
| ExportTheorems.ExportWellFormed | src/pir_export.rs:154-220 | Every export is strictly sorted by tree index, its offset table partitions it by stem, the files are 64 + 84n and 8 + 39m bytes, and parsing them gives back the entries, the rows and a header of the bytes of PIR2, version 1, entry size 84, the count, the head's number, the chain id and the head's hash |
| ExportResults.ExportContents | src/pir_export.rs:200-250 | Every export reports the head's number, hash and root, as many entries as the table has values and as many stems as have an entry; its state file carries the format's magic, version, sizes, count, number, chain and hash at their byte ranges, then the entries |
| ExportResults.ListedExactly | src/pir_export.rs:158-191 | An entry is in a list if and only if its key is in the table, with its value and its owner |
| ExportResults.MdbxExactly | src/pir_export.rs:125-200 | Full and contract exports from MDBX succeed if and only if there is a head and every row has a saved address, whoever owns it; otherwise the error is the missing head or the exact number of rows without one |
| ExportResults.MdbxLists | src/pir_export.rs:401-438 | A successful one lists exactly the stored values, of that contract if one is given, with their owners |
| ExportResults.NomtExactly | src/pir_export.rs:254-318 | Exports from NOMT succeed if and only if there is an index head, every indexed key wanted reads as a value, and, for the full export only, the index lists a key or its head counts no stem; otherwise the error is the first of these that fails |
| ExportResults.NomtLists | src/pir_export.rs:525-553 | A successful one lists exactly the indexed keys, of that contract if one is given, with the index's owners and NOMT's values, zero where it has none |
| ExportResults.RangeExactly | src/pir_export.rs:603-705 | A delta succeeds if and only if from <= to <= head <= from + retention and every key of the range's lists has an owner; every other range gets the first error of the source's order, with the exact count of keys without an owner |
| ExportResults.DeltaLists | src/pir_export.rs:653-739 | A successful delta holds an entry for exactly the keys that a stored list of the range mentions, with owner and stored value, zero where there is none, and its header and result name the head, not the range's end |
| ExportResults.MdbxExportsSucceed | src/pir_export.rs:193-200 | After any operations that keep one address per stem, full and contract exports from MDBX succeed if and only if a head was saved |
| ExportResults.NomtExportsSucceed | src/pir_export.rs:525-596 | Over single-block runs, full and contract exports from NOMT, of accounts without stems too, succeed if and only if an index head was saved and, while a block is live, no account wanted has written NOMT's own tree index |
| ExportResults.DeltasSucceed | src/pir_export.rs:603-705 | After any operations that keep one address per stem, a delta succeeds if and only if from <= to <= head <= from + retention |
| ExportTheorems.PatchToExactly | src/pir_export.rs:627-705 | For any range the head covers, writing the exported entries over the map before the range's first commit gives the map at the head if and only if every key that differs is mentioned by a stored list of the range; with nothing of the range pruned, if and only if every key changed after `to_block` is |
| ExportTheorems.PatchExactly | src/pir_export.rs:635-705 | For any range up to the persisted head, writing the exported entries over the map before the range's first commit gives the map at the head if and only if every key the range's pruned blocks changed overall is mentioned by a list of the range that is still stored |
| ExportTheorems.DeltaIsPatch | src/pir_export.rs:635-705 | For any range from inside the unpruned window to the persisted head the patch is right, extra keys of leftover lists included |
| ExportTheorems.WindowCheckSafe | src/pir_export.rs:635-643 | While the head is not below the highest flushed block, or nothing could have been pruned, every range up to the head that starts within retention of it exports a correct patch |
| CommitKeeps.CommitKeepsInvariant | src/ubt_exex.rs:293-434 | An admissible commit succeeds, moves the map by its entries, and keeps the whole invariant with the block added to the live chain and the pruning bound raised on a flush |
| RevertKeeps.RevertKeepsInvariant | src/ubt_exex.rs:444-524 | A revert whose lists lead to the map below it keeps the whole invariant with the live chain cut below its lowest block, flushed or not |
| RevertKeeps.RevertReachesExactly | src/ubt_exex.rs:444-524 | In any state, for any numbers and any map wanted, a revert arrives at that map if and only if the oldest record it replays for each key holds the value wanted and every key that has to change has a record |
| RevertKeeps.RevertExactly | src/ubt_exex.rs:444-524 | A revert that names every live commit from its lowest number up, none of them pruned, restores the map below it if and only if the lists it replays, leftovers included, are harmless there taken together |
| StepFacts.RevertLists | src/ubt_exex.rs:461-478 | In any state, a revert deletes the lists of exactly the numbers it names above the persisted block and leaves every other list as it is |
| RevertKeeps.TipRestores | src/ubt_exex.rs:461-478 | Replaying the slot of a live block that kept its list is right if and only if the block changed something or the slot is harmless |
| RevertKeeps.NoTipRestores | src/ubt_exex.rs:461-478 | Replaying the slot of a number under which nothing live was committed is right if and only if the list in it is harmless |
| RevertKeeps.UndoWalk | src/ubt_exex.rs:461-478 | When each slot is right on its own, undoing blocks from the highest down takes the map from the chain above the range to the chain below it |
| Runs.RestartKeepsInvariant | src/ubt_exex.rs:87-207 | With NOMT not behind MDBX, start-up verification passes and the resumed state satisfies the invariant for the persisted part of the live chain |
| Runs.StopKeepsInvariant | src/ubt_exex.rs:551-576 | A shutdown and the next start-up keep the whole live chain |
| Runs.RunKeepsInvariant | src/ubt_exex.rs:697-725 | The invariant holds after every admissible sequence of operations |
| UbtExExObject.UbtExEx.New | src/ubt_exex.rs:87-207 | Start-up on the three stores fails, changing nothing, unless there is no head or its root is that of the sorted stored values, and otherwise yields the machine's resumed state, at the saved block and persisted no further |
| UbtExExObject.UbtExEx.Commit | src/ubt_exex.rs:293-434 | The object's state and result after `commit` are the machine's commit step of the pending entries, also on an address error; the pending entries are consumed |
| UbtExExObject.UbtExEx.ApplyEntries | src/ubt_exex.rs:315-341 | The entry loop leaves the overlay, the undo records and the new stem addresses that the reference functions give for the whole list |
| UbtExExObject.UbtExEx.DrainDirty | src/ubt_exex.rs:366 | Draining yields every dirty node once under its stem, in any order, and empties the overlay |
| UbtExExObject.UbtExEx.FlushDirty | src/ubt_exex.rs:364-374 | Whatever the drain order, the rows become the overlay laid over them and the root is that of their sorted entries |
| UbtExExObject.UbtExEx.Revert | src/ubt_exex.rs:444-524 | The object's state after `revert` is the machine's revert step, about which `RevertKeeps.RevertReachesExactly` and `StepFacts.RevertLists` are |
| UbtExExObject.UbtExEx.ApplyDeltasReverse | src/ubt_exex.rs:602-616 | The overlay after the reverse loop is the replay of the whole list, newest record first |
| UbtExExObject.UbtExEx.Shutdown | src/ubt_exex.rs:551-576 | The stores after `shutdown` are those of the machine's shutdown step |
| UbtExExObject.UbtExEx.GetStem | src/ubt_exex.rs:532-537 | Overlay node first, MDBX row otherwise |
| UbtExExObject.UbtExEx.GetValueAt | src/ubt_exex.rs:541-548 | The overlay node's value, or else the MDBX row's |
| StemRows.OverlayPutRefines | src/ubt_exex.rs:318-341 | Writing entries through the overlay, seeding nodes from MDBX, is writing them into the flat map |
| StemRows.OverlayUndoRefines | src/ubt_exex.rs:602-616 | Replaying undo records through the overlay is replaying them on the flat map |
| StemRows.NewAddressesCover | src/ubt_exex.rs:324-331 | The addresses a commit saves come from its entries, one for every stem in neither overlay nor MDBX |
| StemRows.ListingUnique | src/persistence.rs:219-256 | The strictly sorted list of a map's entries is unique, so the root depends on the map alone and empty rows do not matter |
| Tables.FlushIsOverlay | src/ubt_exex.rs:366-370 | Writing the drained batch in any order gives the overlay laid over the rows |
| Tables.SaveAddressesSucceeds | src/persistence.rs:291-330 | A batch of addresses is accepted if and only if it agrees with the table and with itself |
| Tables.SaveAddressesGrows | src/persistence.rs:291-330 | An accepted batch adds exactly its stems, changes no old address and records every mapping |
| Persistence.UbtDatabase.BatchUpdateStems | src/persistence.rs:153-176 | Puts the batch's rows in order, later ones over earlier ones |
| Persistence.UbtDatabase.IterEntriesSorted | src/persistence.rs:219-256 | The cursor loop and the per-node sort give the unique sorted list of all stored non-zero entries |
| Persistence.UbtDatabase.BatchSaveStemAddresses | src/persistence.rs:291-330 | All or nothing: an address that contradicts the table aborts and changes nothing |
| Persistence.UbtDatabase.LoadBlockDeltas | src/persistence.rs:379-399 | A missing block reads as an empty list |
| Persistence.UbtDatabase.DeleteBlockDeltas | src/persistence.rs:401-417 | Deletes one list; a missing one is no error |
| Persistence.UbtDatabase.PruneDeltasBefore | src/persistence.rs:421-478 | Deletes exactly the lists below the bound and returns how many there were |
| Index.GroupedMergeRefines | src/key_index.rs:65-134 | Grouping a batch by stem and OR-ing the groups in equals inserting it one update at a time, failing in exactly the same cases |
| Index.InsertAllSucceeds | src/key_index.rs:70-110 | A batch is accepted if and only if each stem has one address, within the batch and against the table |
| Index.InsertAllGrows | src/key_index.rs:65-134 | An accepted batch covers its keys under their addresses, clears no bit, changes no address and adds only its own stems |
| KeyIndexFile.KeyIndex.ApplyUpdates | src/key_index.rs:65-134 | The table after one-at-a-time insertion and the growth of the stem table; on a mismatch an error and an unchanged table |
| KeyIndexFile.KeyIndex.GroupByStem | src/key_index.rs:69-78 | The groups are the index built from the batch alone; a stem with two addresses fails the batch |
| KeyIndexFile.KeyIndex.MergeGroups | src/key_index.rs:89-134 | In any HashMap order the merge is the union per stem and counts the new stems; it fails exactly when a group contradicts the table |
| KeyIndexFile.KeyIndex.OrBitmaps | src/key_index.rs:111-113 | OR-ing byte by byte unites the subindices |
| KeyIndexFile.HeadToBytes | src/key_index.rs:250-262 | The 80 packed bytes of a head |
| KeyIndexFile.HeadRoundTrip | src/key_index.rs:250-281 | Unpacking a packed head gives it back |
| Bitmaps.SetBit | src/key_index.rs:228-232 | The buffer with that one bit set, in place |
| Bitmaps.WithBitAdds | src/key_index.rs:228-232 | Setting a bit adds that subindex and disturbs no other |
| Bitmaps.SplitPacked | src/key_index.rs:234-248 | Splitting a packed record gives back its address and bitmap |
| Bitmaps.ValueToBytes | src/key_index.rs:234-240 | The 52 packed bytes of a record |
| Bytes.LexicographicIsNumeric | src/key_index.rs:194-226 | On byte strings of one width, lexicographic order is the order of the numbers they spell |
| Bytes.TreeIndexBytes | src/ubt_exex.rs:768-773 | The bytes of a tree index are the stem's 31 bytes and the subindex byte |
| StateFile.TreeIndexFromKey | src/pir_export.rs:741-746 | The buffer the conversion fills |
| StateFile.HeaderToBytes | src/pir_export.rs:76-86 | The 64 header bytes, field by field |
| StateFile.EntryToBytes | src/pir_export.rs:97-103 | The 84 entry bytes, field by field |
| StateFile.StateRoundTrip | src/pir_export.rs:968-997 | A state file has 64 + 84n bytes and parses back to its header and entries |
| StateFile.StemIndexRoundTrip | src/pir_export.rs:1008-1025 | A stem index file parses back to its rows |
| Layouts.FileLayout | src/pir_export.rs:76-86 | A state file has the bytes of PIR2 at 0, version 1 at 4, 84 at 6, the count at 8, the block at 16, the chain at 24, all little-endian, the hash at 32 and the entries at 64 |
| Layouts.EntryLayout | src/pir_export.rs:97-103 | The entry at 84 times i has its address in bytes 0 to 20, its tree index in 20 to 52 and its value in 52 to 84 |
| Layouts.StemIndexLayout | src/pir_export.rs:212-220 | A stem index has its count in 8 bytes, then 39 per row: 31 of stem, 8 of offset |
| Layouts.HeadLayout | src/key_index.rs:250-281 | A packed head has its number in bytes 0 to 8, hash in 8 to 40, root in 40 to 72, stem count in 72 to 80 |
| Layouts.RecordLayout | src/key_index.rs:228-248 | A packed record has its address in 20 bytes and then subindex i at the bit of weight two to the i modulo 8 in byte i divided by 8 |
| Layouts.HeadKeyBytes | src/ubt_exex.rs:57 | NOMT's own key is 32 bytes 0xff, the tree index of the last subindex of the last stem |
| Bytes.LittleEndianByte | src/pir_export.rs:76-86 | Byte k of a little-endian number is its digit of weight 256 to the k |
| Bytes.BigEndianByte | src/pir_export.rs:97-103 | Byte k from the end of a big-endian number is its digit of weight 256 to the k |
| Listing.OffsetTableCorrect | src/pir_export.rs:173-191 | The offset table of a sorted list has strictly increasing stems and offsets and cuts the list into non-empty slices, one per stem, leaving nothing out |
| Listing.FindValue | src/pir_export.rs:1008-1025 | In any table that partitions a sorted list, binary search on the stem rows and a scan of one slice find a key's value if and only if the key was exported |
| PirExport.ExportFromMdbx | src/pir_export.rs:125-240 | The loop's result and both files are `MdbxResult`, about which `ExportResults.MdbxExactly`, `MdbxLists` and `ExportContents` are |
| PirExport.ExportFromNomt | src/pir_export.rs:254-357 | The loop's result and both files are `NomtResult`, about which `ExportResults.NomtExactly`, `NomtLists` and `ExportContents` are: values under the key index, zeros included, and the three errors in the source's order |
| PirExport.IterBitmapSubindices | src/pir_export.rs:748-758 | The set bits, each once, in increasing order |
| PirExport.StemWords | src/pir_export.rs:769-785 | A missing key reads as zero; a value that is not 32 bytes fails the read |
| PirExport.GetStateDelta | src/pir_export.rs:603-739 | The loops' result and file are `DeltaResult`, about which `ExportResults.RangeExactly` and `DeltaLists` are |

## Left out

- The key derivation of `process_chain` (src/ubt_exex.rs:231-284): a commit starts from an arbitrary list of pending entries.
- The hashing tree builder and the inside of NOMT, redb, MDBX and bincode: the root is an arbitrary function of the sorted entries, the stores are maps and snapshot stacks.
- The `ubt` crate's `StemNode` is not part of this model's sources; that storing zero removes a value is taken from the tests (src/property_tests.rs:43 and 228-243).
- The bytes of stem rows and undo lists in MDBX, which go through bincode; rows of the wrong key length, which the cursors skip, and stored addresses of the wrong length.
- Crashes and I/O errors inside one operation, between its separate transactions: the source promises no atomicity across them. One of these points is modelled, that between a flush's rows and its head (`StartUp.TornFlushCaught`), and an operation's own error returns, with the changes made before them (`FailedCommits`).
- NOMT's limit on rollback history: `rollback(n)` fails only when fewer than n commits exist.
- A NOMT session with one key written twice: the last write is taken to win. With distinct keys the question does not arise (`Independence.SessionPermuted`).
- Start-up with NOMT behind MDBX (src/ubt_exex.rs:175-183): where it resumes is stated (`StartUp.ResumesExactly`), but runs of admissible operations do not go through it, since the blocks then re-committed take their undo records from a later state.
- `flush_interval` read from the environment, paths, the header written first as a placeholder and rewritten at the end, buffered writers, logging, metrics, RPC, the command line, the async loop and rayon: an export is its final bytes.
- Machine integers: block numbers, hashes and counts keep their width; `stem_count` is a natural number, truncated to 64 bits where it is written to the key index, and entry counts are truncated where they enter a header.
- MDBX and redb heads of the wrong format, and a key index file that does not exist yet, which reads as empty.
- get_head (src/ubt_exex.rs:220-229): a getter of two fields that `Heads.HeadNamesTip` is about.
- delete_deltas_after, save_stem_address and sync (src/persistence.rs:481, 258, 210): not called by the operations modelled.
- ExportTheorems.ExportersAgree: requires that the key index does not hold the all-0xff tree index, which NOMT reserves for its head; without that the NOMT export reports a length error (`NomtAgreement.NomtAgrees`).
- Listing.FindValue: the source has no reader of the offset table outside its tests; the method is the lookup the format is meant for.
- Heads.HeadsAgreeExactly: takes it that no two commits of the run with one hash differ in number, entries or the hash of the commit below them, as block hashes are meant to; commits of one chain cut in two ways are outside it. `Heads.HeadsCompare` is the statement without that.
