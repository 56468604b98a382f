/** What holds after any operations at all, or nearly: whether or not a revert
    arrives at the map it should. A revert deeper than the stored undo lists is
    no error, only a warning. */
module AnyRuns {
  import opened Types
  import opened Ledger
  import opened StemRows
  import opened Tables
  import opened Index
  import opened NomtStore
  import opened Machine
  import opened LiveChain
  import opened Invariant
  import opened CommitKeeps
  import opened RevertKeeps
  import opened Runs
  import opened StepFacts

  /** The state after a list of operations. */
  function After(cfg: Config, s: State, ops: seq<Op>): State
    decreases |ops|
  {
    if ops == [] then s else After(cfg, Step(cfg, s, ops[0]), ops[1..])
  }

  lemma {:induction false} RunIsAfter(cfg: Config, s: State, r: Reference, ops: seq<Op>)
    ensures Run(cfg, s, r, ops).0 == After(cfg, s, ops)
    decreases |ops|
  {
    hide Step, ReferenceStep;
    if ops != [] {
      RunIsAfter(cfg, Step(cfg, s, ops[0]), ReferenceStep(cfg, s, r, ops[0]), ops[1..]);
    }
  }

  /* ---- The saved root ---- */

  ghost predicate RootSaved(cfg: Config, s: State) {
    s.head.Some? ==> s.head.value.root == RootOfRows(cfg, s.stems)
  }

  lemma FlushSaves(cfg: Config, s: State)
    ensures RootSaved(cfg, FlushAll(cfg, s)) && RootSaved(cfg, Prune(cfg, SaveIndexHead(cfg, FlushAll(cfg, s))))
  {
    hide RootOfRows, PrunedBefore;
  }

  lemma RecordKeepsRows(s: State, b: Block)
    ensures RecordStep(s, b).0.stems == s.stems && RecordStep(s, b).0.head == s.head
    ensures RecordStep(s, b).0.persistedBlock == s.persistedBlock
    ensures RecordStep(s, b).1.Err? ==> RecordStep(s, b).0.lastBlock == s.lastBlock && RecordStep(s, b).0.deltas == s.deltas
    ensures RecordStep(s, b).1.Ok? ==> RecordStep(s, b).0.lastBlock == b.number
  {
    hide OverlayPut, WriteAll, BlockWrites, UpdatesOf, InsertAll, SaveAddresses, NewAddresses, SavedDeltas, Effective;
  }

  lemma CommitSavesRoot(cfg: Config, s: State, b: Block)
    requires RootSaved(cfg, s)
    ensures RootSaved(cfg, CommitStep(cfg, s, b).0)
  {
    hide RecordStep, FlushAll, SaveIndexHead, Prune, RootOfRows, ShouldFlush;
    RecordKeepsRows(s, b);
    FlushSaves(cfg, RecordStep(s, b).0);
  }

  lemma RevertSavesRoot(cfg: Config, s: State, blocks: map<u64, B256>)
    requires RootSaved(cfg, s)
    ensures RootSaved(cfg, RevertStep(cfg, s, blocks))
  {
    hide Unwound, UndoBlocks, Ascending, Rewound, FlushAll, RolledBack, Lowest, RootOfRows;
    if blocks != map[] {
      UnwoundPlace(cfg, s, blocks);
      FlushSaves(cfg, Unwound(s, blocks));
    }
  }

  lemma StepSavesRoot(cfg: Config, s: State, op: Op)
    requires RootSaved(cfg, s)
    ensures RootSaved(cfg, Step(cfg, s, op))
  {
    hide CommitStep, RevertStep, RootOfRows, SyncedNomt, SyncedHead;
    match op
    case Commit(b) => CommitSavesRoot(cfg, s, b);
    case Revert(blocks) => RevertSavesRoot(cfg, s, blocks);
    case Stop =>
    case Crash =>
  }

  lemma {:induction false} RunSavesRoot(cfg: Config, s: State, ops: seq<Op>)
    requires RootSaved(cfg, s)
    ensures RootSaved(cfg, After(cfg, s, ops))
    decreases |ops|
  {
    hide Step, RootSaved;
    if ops != [] {
      StepSavesRoot(cfg, s, ops[0]);
      RunSavesRoot(cfg, Step(cfg, s, ops[0]), ops[1..]);
    }
  }

  /** After any operations whatever, failed commits and reverts past retention included, the
      saved root is the root of the stored rows, so start-up verification passes. */
  lemma StartUpVerifies(cfg: Config, ops: seq<Op>)
    ensures var s := After(cfg, FRESH, ops);
            && (s.head.Some? ==> s.head.value.root == cfg.rootOf(EntriesSorted(Flatten(s.stems))))
            && RestartStep(cfg, s).Ok?
  {
    hide After, Flatten, EntriesSorted, ResumedAt;
    RunSavesRoot(cfg, FRESH, ops);
  }

  /* ---- One address per stem ---- */

  /** Every commit agrees with the key index and with itself on the address of each stem. */
  ghost predicate OneAddressRun(cfg: Config, s: State, ops: seq<Op>)
    decreases |ops|
  {
    ops != [] ==> OneAddress(s, ops[0]) && OneAddressRun(cfg, Step(cfg, s, ops[0]), ops[1..])
  }

  ghost predicate OneAddress(s: State, op: Op) {
    op.Commit? ==> Consistent(s.index, UpdatesOf(op.block.entries))
  }

  lemma {:induction false} AdmissibleIsConsistent(cfg: Config, s: State, r: Reference, ops: seq<Op>)
    requires AdmissibleRun(cfg, s, r, ops)
    ensures OneAddressRun(cfg, s, ops)
    decreases |ops|
  {
    if ops != [] {
      assert OneAddress(s, ops[0]);
      hide Step, ReferenceStep, Admissible, OneAddress;
      AdmissibleIsConsistent(cfg, Step(cfg, s, ops[0]), ReferenceStep(cfg, s, r, ops[0]), ops[1..]);
    }
  }

  /** An admissible run is such a run. */
  lemma ValidIsAfter(cfg: Config, ops: seq<Op>)
    requires ValidRun(cfg, ops)
    ensures Reached(cfg, ops).0 == After(cfg, FRESH, ops) && OneAddressRun(cfg, FRESH, ops)
  {
    hide Run, After, AdmissibleRun, OneAddressRun;
    RunIsAfter(cfg, FRESH, START, ops);
    AdmissibleIsConsistent(cfg, FRESH, START, ops);
  }

  /* ---- Coverage ---- */

  /** The key index and the address table know everything that is stored anywhere. */
  ghost predicate Indexed(s: State) {
    && Covered(s, START)
    && (forall k :: k in Logical(s) || k in Flatten(s.stems) ==> Covers(s.index, k))
  }

  lemma FreshIndexed()
    ensures Indexed(FRESH)
  {
    assert FRESH.stems + FRESH.dirty == map[];
  }

  lemma CommitSucceeds(cfg: Config, s: State, b: Block)
    requires AddressesIndexed(s.index, s.addresses) && Consistent(s.index, UpdatesOf(b.entries))
    ensures CommitStep(cfg, s, b).1.Ok?
  {
    hide UpdatesOf, NewAddresses, SaveAddresses, InsertAll, Stage, Recorded, FlushAll, Prune, SaveIndexHead, Consistent,
      AddressesIndexed;
    AddressCheckPasses(s.index, s.addresses, Effective(s).Keys, b.entries);
    InsertAllSucceeds(s.index, UpdatesOf(b.entries));
  }

  lemma PrunedKnown(index: Index, addresses: Addresses, deltas: DeltaTable, bound: int)
    requires DeltasKnown(index, addresses, deltas) && 0 <= bound < TWO_64
    ensures DeltasKnown(index, addresses, PrunedBefore(deltas, bound))
  {
    hide KeyKnown;
  }

  lemma SavedKnown(s: State, t: State, b: Block)
    requires DeltasKnown(s.index, s.addresses, s.deltas)
    requires Extends(s.index, t.index) && s.addresses.Keys <= t.addresses.Keys && BlockKnown(t, b)
    ensures DeltasKnown(t.index, t.addresses, SavedDeltas(s, b))
  {
    hide SavedDeltas, DeltasKnown, KeyKnown, Extends;
    DeltasStayKnown(s, t.(deltas := SavedDeltas(s, b)), b);
  }

  lemma CommitKnows(cfg: Config, s: State, b: Block)
    requires Covered(s, START) && Consistent(s.index, UpdatesOf(b.entries))
    ensures var t := CommitStep(cfg, s, b).0;
            && CommitStep(cfg, s, b).1.Ok? && Covered(t, START)
            && Extends(s.index, t.index) && s.addresses.Keys <= t.addresses.Keys && BlockKnown(t, b)
  {
    hide CommitStep, UpdatesOf, NewAddresses, SaveAddresses, InsertAll, SavedDeltas, WriteAll, BlockWrites, Effective,
      Logical, EntriesSorted, PutAll, PrunedBefore, ShouldFlush, DeltasKnown, NomtKnown, AddressesIndexed, Consistent,
      BlockKnown, Extends, StemsOf;
    var t := CommitStep(cfg, s, b).0;
    CommitSucceeds(cfg, s, b);
    CommitTables(cfg, s, b);
    CommitOutcome(cfg, s, b);
    CommitFields(cfg, s, b);
    CommitNomt(cfg, s, b);
    BlockBecomesKnown(s, t, b);
    SavedKnown(s, t, b);
    if b.number > cfg.deltaRetention {
      PrunedKnown(t.index, t.addresses, SavedDeltas(s, b), b.number - cfg.deltaRetention);
    }
    NomtStaysKnown(s, t, b);
    StemsKnown(t, b);
  }

  lemma StemsKnown(t: State, b: Block)
    requires BlockKnown(t, b)
    ensures StemsOf(b.entries) <= t.addresses.Keys
  {
  }

  /** A key of the map after a block was there before it or is written by it. */
  lemma PutAllKeys(m: Ledger, entries: seq<Entry>, key: TreeKey)
    requires key in PutAll(m, entries)
    ensures key in m || exists e :: e in entries && e.key == key
  {
    hide PutAll;
    PutAllAt(m, entries, key);
    if j :| 0 <= j < |entries| && entries[j].key == key {
      assert entries[j] in entries;
    } else {
      assert Lookup(PutAll(m, entries), key) == Lookup(m, key);
    }
  }

  /** The rows after a commit are the old ones or the whole effective table. */
  lemma CommitRows(cfg: Config, s: State, b: Block)
    requires CommitStep(cfg, s, b).1.Ok?
    ensures var t := CommitStep(cfg, s, b).0; t.stems == s.stems || t.stems == Effective(t)
  {
    hide CommitStep, ShouldFlush, OverlayPut;
    var t := CommitStep(cfg, s, b).0;
    if ShouldFlush(cfg, s, b.number) {
      FlushedCommit(cfg, s, b);
      assert t.stems + map[] == t.stems;
    } else {
      UnflushedCommit(cfg, s, b);
    }
  }

  lemma CommitIndexed(cfg: Config, s: State, b: Block)
    requires Indexed(s) && Consistent(s.index, UpdatesOf(b.entries))
    ensures CommitStep(cfg, s, b).1.Ok? && Indexed(CommitStep(cfg, s, b).0)
  {
    hide Covered, CommitStep, Consistent, UpdatesOf, Flatten, PutAll, EntriesSorted, ShouldFlush, Effective, Covers, Extends,
      StemsOf;
    var t := CommitStep(cfg, s, b).0;
    CommitKnows(cfg, s, b);
    CommitOutcome(cfg, s, b);
    CommitRows(cfg, s, b);
    forall k | k in Logical(t) || k in Flatten(t.stems) ensures Covers(t.index, k) {
      if k in Logical(s) || k in Flatten(s.stems) {
        ExtendsCovers(s.index, t.index, k);
      } else {
        PutAllKeys(Logical(s), b.entries, k);
      }
    }
  }

  /** A key a replay leaves was there or is named by a stored list. */
  lemma {:induction false} AllSlotsStored(deltas: DeltaTable, ns: seq<u64>, key: TreeKey)
    requires Mentions(AllSlots(deltas, ns), key)
    ensures exists n, d :: n in deltas && d in deltas[n] && d.key == key
    decreases |ns|
  {
    if ns != [] {
      var front, list := AllSlots(deltas, ns[..|ns| - 1]), Slot(deltas, ns[|ns| - 1]);
      var both: seq<Delta> := front + list;
      var i :| 0 <= i < |both| && both[i].key == key;
      if i < |front| {
        assert front[i].key == key;
        AllSlotsStored(deltas, ns[..|ns| - 1], key);
      } else {
        assert list[i - |front|] in list;
      }
    }
  }

  lemma UndoKeysKnown(s: State, blocks: map<u64, B256>, key: TreeKey)
    requires Indexed(s) && blocks != map[] && key in Logical(Unwound(s, blocks))
    ensures Covers(s.index, key)
  {
    hide Logical, Undo, Unwound, AllSlots, Ascending, LiveKnown, NomtKnown, AddressesIndexed, Flatten;
    var list := AllSlots(s.deltas, Ascending(blocks));
    UnwoundReplays(s, blocks);
    UndoLookup(Logical(s), list, key);
    if Mentions(list, key) {
      AllSlotsStored(s.deltas, Ascending(blocks), key);
    }
  }

  lemma RevertIndexed(cfg: Config, s: State, blocks: map<u64, B256>)
    requires Indexed(s) && blocks != map[]
    ensures Indexed(RevertStep(cfg, s, blocks))
  {
    hide Covered, RevertStep, Unwound, FlushAll, Lowest, Covers, Flatten, Ascending;
    var u := Unwound(s, blocks);
    UnwoundPlace(cfg, s, blocks);
    UnwoundCovered(s, START, blocks);
    NothingLive(u, RevertReference(START, blocks));
    forall k | k in Logical(u) ensures Covers(s.index, k) {
      UndoKeysKnown(s, blocks, k);
    }
    FlushIndexed(cfg, u);
  }

  lemma NothingLive(s: State, r: Reference)
    requires Covered(s, r)
    ensures Covered(s, START)
  {
    hide DeltasKnown, NomtKnown, AddressesIndexed;
  }

  lemma FlushIndexed(cfg: Config, s: State)
    requires Covered(s, START) && forall k :: k in Logical(s) ==> Covers(s.index, k)
    ensures Indexed(FlushAll(cfg, s))
  {
    hide RootOfRows, Flatten, LiveKnown, DeltasKnown, NomtKnown, AddressesIndexed, Covers;
    var f := FlushAll(cfg, s);
    assert f.stems + f.dirty == s.stems + s.dirty && f.stems == s.stems + s.dirty;
  }

  /** A restart loses the overlay and perhaps some NOMT commits. */
  lemma RestartIndexed(cfg: Config, s: State)
    requires Indexed(s)
    ensures Indexed(Restarted(cfg, s))
  {
    hide RootOfRows, Flatten, LiveKnown, DeltasKnown, NomtKnown, AddressesIndexed, Covers, RolledBack, ReadHead;
    var nomtHead := ReadHead(Top(s.nomt));
    assert s.stems + map[] == s.stems;
    if nomtHead > DurableHead(s).number {
      RolledBackKnown(s.index, s.nomt, nomtHead - DurableHead(s).number);
    }
  }

  lemma ShutdownIndexed(cfg: Config, s: State)
    requires Indexed(s)
    ensures Indexed(ShutdownStep(cfg, s))
  {
    hide RootOfRows, Flatten, LiveKnown, DeltasKnown, NomtKnown, AddressesIndexed, Covers;
    var f := ShutdownStep(cfg, s);
    assert f.stems + f.dirty == s.stems + s.dirty && f.stems == s.stems + s.dirty;
  }

  lemma StepIndexed(cfg: Config, s: State, op: Op)
    requires Indexed(s) && OneAddress(s, op)
    ensures Indexed(Step(cfg, s, op))
  {
    hide Indexed, CommitStep, RevertStep, Restarted, ShutdownStep, Consistent, UpdatesOf;
    match op
    case Commit(b) => CommitIndexed(cfg, s, b);
    case Revert(blocks) =>
      if blocks == map[] {
        NoRevert(cfg, s);
      } else {
        RevertIndexed(cfg, s, blocks);
      }
    case Stop =>
      ShutdownIndexed(cfg, s);
      RestartIndexed(cfg, ShutdownStep(cfg, s));
    case Crash => RestartIndexed(cfg, s);
  }

  lemma {:induction false} RunIndexed(cfg: Config, s: State, ops: seq<Op>)
    requires Indexed(s) && OneAddressRun(cfg, s, ops)
    ensures Indexed(After(cfg, s, ops))
    decreases |ops|
  {
    hide Indexed, Step, OneAddress;
    if ops != [] {
      StepIndexed(cfg, s, ops[0]);
      RunIndexed(cfg, Step(cfg, s, ops[0]), ops[1..]);
    }
  }

  /** The one tree index NOMT keeps for itself. */
  function ReservedKey(): TreeKey {
    KeyAt(HEAD_KEY)
  }

  /** The key index covers every key that holds a value anywhere or can come back from a stored
      undo list: overlay over MDBX, MDBX alone, every NOMT snapshot. */
  lemma KeyIndexCoverage(cfg: Config, ops: seq<Op>, key: TreeKey)
    requires OneAddressRun(cfg, FRESH, ops)
    ensures var s := After(cfg, FRESH, ops);
            (key in Logical(s)
             || key in Flatten(s.stems)
             || (key != ReservedKey() && exists j :: 0 <= j < |s.nomt| && TreeIndex(key) in s.nomt[j])
             || exists n, d :: n in s.deltas && d in s.deltas[n] && d.key == key)
            ==> Covers(s.index, key)
  {
    hide After, Flatten, Logical, OneAddressRun;
    FreshIndexed();
    RunIndexed(cfg, FRESH, ops);
    var s := After(cfg, FRESH, ops);
    if j :| key != ReservedKey() && 0 <= j < |s.nomt| && TreeIndex(key) in s.nomt[j] {
      if TreeIndex(key) == HEAD_KEY { TreeIndexInjective(key, ReservedKey()); }
      assert Covers(s.index, KeyAt(TreeIndex(key)));
      TreeIndexInjective(key, KeyAt(TreeIndex(key)));
    }
  }

  /** Every stem of the overlay, the rows or a stored undo list has a saved address, and a saved
      address is the key index's own. */
  lemma AddressCoverage(cfg: Config, ops: seq<Op>)
    requires OneAddressRun(cfg, FRESH, ops)
    ensures var s := After(cfg, FRESH, ops);
            && s.stems.Keys + s.dirty.Keys <= s.addresses.Keys
            && (forall stem :: stem in s.addresses ==> stem in s.index && s.index[stem].address == s.addresses[stem])
            && (forall n, d :: n in s.deltas && d in s.deltas[n] ==> d.key.stem in s.addresses)
  {
    hide After, Flatten, Logical, OneAddressRun, LiveKnown, NomtKnown;
    FreshIndexed();
    RunIndexed(cfg, FRESH, ops);
    var s := After(cfg, FRESH, ops);
    assert Effective(s).Keys == s.stems.Keys + s.dirty.Keys;
    forall n, d | n in s.deltas && d in s.deltas[n] ensures d.key.stem in s.addresses {
      assert KeyKnown(s.index, s.addresses, d.key);
    }
  }

  /* ---- Every record lists a key ---- */

  lemma StepNoEmptyRecord(cfg: Config, s: State, op: Op)
    requires Indexed(s) && OneAddress(s, op) && NoEmptyRecord(s.index)
    ensures NoEmptyRecord(Step(cfg, s, op).index)
  {
    hide Indexed, CommitStep, RevertStep, Restarted, ShutdownStep, NoEmptyRecord, InsertAll, UpdatesOf, Consistent;
    if op.Commit? {
      CommitIndexed(cfg, s, op.block);
      CommitTables(cfg, s, op.block);
      InsertAllNoEmptyRecord(s.index, UpdatesOf(op.block.entries));
    } else {
      OthersKeepIndex(cfg, s, op);
    }
  }

  lemma {:induction false} RunNoEmptyRecord(cfg: Config, s: State, ops: seq<Op>)
    requires Indexed(s) && OneAddressRun(cfg, s, ops) && NoEmptyRecord(s.index)
    ensures NoEmptyRecord(After(cfg, s, ops).index)
    decreases |ops|
  {
    hide Indexed, NoEmptyRecord, Step, OneAddress;
    if ops != [] {
      StepNoEmptyRecord(cfg, s, ops[0]);
      StepIndexed(cfg, s, ops[0]);
      RunNoEmptyRecord(cfg, Step(cfg, s, ops[0]), ops[1..]);
    }
  }

  /* ---- Flush lag ---- */

  /** Commit numbers increase, a revert leaves no gap above the last block, and start-up does
      not find NOMT behind MDBX. */
  ghost predicate Paced(s: State, op: Op) {
    match op
    case Commit(b) => b.number > s.lastBlock
    case Revert(blocks) => blocks != map[] ==> Lowest(blocks) <= s.lastBlock + 1
    case Stop => s.lastBlock <= ReadHead(Top(s.nomt))
    case Crash => s.persistedBlock <= ReadHead(Top(s.nomt))
  }

  ghost predicate PacedRun(cfg: Config, s: State, ops: seq<Op>)
    decreases |ops|
  {
    ops != [] ==> Paced(s, ops[0]) && PacedRun(cfg, Step(cfg, s, ops[0]), ops[1..])
  }

  ghost predicate LagKept(cfg: Config, s: State) {
    && LagBounded(cfg, s) && RootSaved(cfg, s)
    && s.persistedBlock == DurableHead(s).number
  }

  lemma FlushLags(cfg: Config, s: State)
    ensures LagKept(cfg, FlushAll(cfg, s)) && LagKept(cfg, Prune(cfg, SaveIndexHead(cfg, FlushAll(cfg, s))))
  {
    hide RootOfRows, PrunedBefore;
  }

  lemma CommitLags(cfg: Config, s: State, b: Block)
    requires LagKept(cfg, s) && b.number > s.lastBlock
    ensures LagKept(cfg, CommitStep(cfg, s, b).0)
  {
    hide RecordStep, FlushAll, SaveIndexHead, Prune, RootOfRows;
    RecordKeepsRows(s, b);
    FlushLags(cfg, RecordStep(s, b).0);
  }

  lemma RevertLags(cfg: Config, s: State, blocks: map<u64, B256>)
    requires LagKept(cfg, s) && blocks != map[] && Lowest(blocks) <= s.lastBlock + 1
    ensures LagKept(cfg, RevertStep(cfg, s, blocks))
  {
    hide Unwound, RevertStep, FlushAll, Lowest, RootOfRows;
    UnwoundPlace(cfg, s, blocks);
    FlushLags(cfg, Unwound(s, blocks));
  }

  lemma RestartLags(cfg: Config, s: State)
    requires LagKept(cfg, s) && s.persistedBlock <= ReadHead(Top(s.nomt))
    ensures LagKept(cfg, Restarted(cfg, s))
  {
    hide RootOfRows, ReadHead, RolledBack;
  }

  lemma StopLags(cfg: Config, s: State)
    requires s.lastBlock <= ReadHead(Top(s.nomt))
    ensures LagKept(cfg, Restarted(cfg, ShutdownStep(cfg, s)))
  {
    hide FlushAll, RestartStep, ShutdownStep, LagKept;
    StopIsFlushThenCrash(cfg, s);
    FlushLags(cfg, s);
    FlushKeepsNomt(cfg, s);
    FlushPersists(cfg, s);
    FlushedRestarts(cfg, s);
    RestartLags(cfg, FlushAll(cfg, s));
  }

  lemma FlushedRestarts(cfg: Config, s: State)
    ensures RestartStep(cfg, FlushAll(cfg, s)).Ok?
  {
    hide RootOfRows, ResumedAt, SyncedNomt, SyncedHead;
  }

  lemma StepLags(cfg: Config, s: State, op: Op)
    requires LagKept(cfg, s) && Paced(s, op)
    ensures LagKept(cfg, Step(cfg, s, op))
  {
    hide LagKept, CommitStep, RevertStep, Restarted, ShutdownStep, Lowest, ReadHead;
    match op
    case Commit(b) => CommitLags(cfg, s, b);
    case Revert(blocks) =>
      if blocks == map[] {
        NoRevert(cfg, s);
      } else {
        RevertLags(cfg, s, blocks);
      }
    case Stop => StopLags(cfg, s);
    case Crash => RestartLags(cfg, s);
  }

  lemma {:induction false} RunLags(cfg: Config, s: State, ops: seq<Op>)
    requires LagKept(cfg, s) && PacedRun(cfg, s, ops)
    ensures LagKept(cfg, After(cfg, s, ops))
    decreases |ops|
  {
    hide LagKept, Step, Paced;
    if ops != [] {
      StepLags(cfg, s, ops[0]);
      RunLags(cfg, Step(cfg, s, ops[0]), ops[1..]);
    }
  }

  /** The persisted block never passes the last one and trails it by less than max(flush_interval, 1),
      whatever the reverts restored and even when a commit failed its address check. */
  lemma FlushLag(cfg: Config, ops: seq<Op>)
    requires PacedRun(cfg, FRESH, ops)
    ensures var s := After(cfg, FRESH, ops);
            && s.persistedBlock <= s.lastBlock
            && s.lastBlock - s.persistedBlock < if cfg.flushInterval > 1 then cfg.flushInterval else 1
  {
    hide After, PacedRun, RootOfRows;
    RunLags(cfg, FRESH, ops);
  }

  /* ---- The retention window ---- */

  /** The number of a commit that took effect, when it flushed. */
  function FlushedAt(cfg: Config, s: State, op: Op): nat {
    if Committed(cfg, s, op) && ShouldFlush(cfg, s, op.block.number) then op.block.number else 0
  }

  predicate Committed(cfg: Config, s: State, op: Op) {
    op.Commit? && CommitStep(cfg, s, op.block).1.Ok?
  }

  function Larger(a: nat, b: nat): nat {
    if a < b then b else a
  }

  /** The highest block number any commit of the run flushed at. */
  function HighestFlushed(cfg: Config, s: State, ops: seq<Op>): nat
    decreases |ops|
  {
    if ops == [] then 0 else Larger(FlushedAt(cfg, s, ops[0]), HighestFlushed(cfg, Step(cfg, s, ops[0]), ops[1..]))
  }

  /** The highest block number flushed since, and including, the last commit numbered `n`;
      `since` is the answer for the operations before `ops`. */
  function FlushedSince(cfg: Config, s: State, ops: seq<Op>, n: u64, since: nat): nat
    decreases |ops|
  {
    if ops == [] then since
    else FlushedSince(cfg, Step(cfg, s, ops[0]), ops[1..], n, SinceStep(cfg, s, ops[0], n, since))
  }

  function SinceStep(cfg: Config, s: State, op: Op, n: u64, since: nat): nat {
    if Committed(cfg, s, op) && op.block.number == n then FlushedAt(cfg, s, op) else Larger(since, FlushedAt(cfg, s, op))
  }

  lemma {:induction false} SinceAtMostHighest(cfg: Config, s: State, ops: seq<Op>, n: u64, since: nat)
    ensures FlushedSince(cfg, s, ops, n, since) <= Larger(since, HighestFlushed(cfg, s, ops))
    decreases |ops|
  {
    if ops != [] {
      hide Step, FlushedAt, Committed;
      SinceAtMostHighest(cfg, Step(cfg, s, ops[0]), ops[1..], n, SinceStep(cfg, s, ops[0], n, since));
    }
  }

  /** A list under `n` survived every flush since it was written. */
  ghost predicate InWindow(cfg: Config, s: State, n: u64, since: nat) {
    n in s.deltas ==> since <= n + cfg.deltaRetention
  }

  lemma FailedCommit(cfg: Config, s: State, b: Block)
    requires CommitStep(cfg, s, b).1.Err?
    ensures CommitStep(cfg, s, b).0.deltas == s.deltas
  {
    hide RecordStep, FlushAll, SaveIndexHead, Prune;
    RecordKeepsRows(s, b);
  }

  lemma WindowAfterCommit(cfg: Config, s: State, b: Block, n: u64, since: nat)
    requires InWindow(cfg, s, n, since)
    ensures InWindow(cfg, CommitStep(cfg, s, b).0, n, SinceStep(cfg, s, Commit(b), n, since))
  {
    hide CommitStep, SavedDeltas, DeltasOf, ShouldFlush, EntriesSorted, PutAll, Logical;
    if CommitStep(cfg, s, b).1.Ok? {
      CommitFields(cfg, s, b);
      SavedSlots(s, b);
    } else {
      FailedCommit(cfg, s, b);
    }
  }

  lemma WindowStep(cfg: Config, s: State, op: Op, n: u64, since: nat)
    requires InWindow(cfg, s, n, since)
    ensures InWindow(cfg, Step(cfg, s, op), n, SinceStep(cfg, s, op, n, since))
  {
    hide CommitStep, RevertStep, Restarted, ShutdownStep;
    if op.Commit? {
      WindowAfterCommit(cfg, s, op.block, n, since);
    } else {
      OtherStepsShrink(cfg, s, op);
    }
  }

  lemma {:induction false} WindowRun(cfg: Config, s: State, ops: seq<Op>, n: u64, since: nat)
    requires InWindow(cfg, s, n, since)
    ensures InWindow(cfg, After(cfg, s, ops), n, FlushedSince(cfg, s, ops, n, since))
    decreases |ops|
  {
    hide InWindow, Step, SinceStep;
    if ops != [] {
      WindowStep(cfg, s, ops[0], n, since);
      WindowRun(cfg, Step(cfg, s, ops[0]), ops[1..], n, SinceStep(cfg, s, ops[0], n, since));
    }
  }

  /** Pruning deletes everything older: after any operations no list is stored below the window
      of a flush since it was written. */
  lemma NothingBelowWindow(cfg: Config, ops: seq<Op>, n: u64)
    ensures n in After(cfg, FRESH, ops).deltas ==> FlushedSince(cfg, FRESH, ops, n, 0) <= n + cfg.deltaRetention
  {
    hide After, FlushedSince;
    WindowRun(cfg, FRESH, ops, n, 0);
  }
}
