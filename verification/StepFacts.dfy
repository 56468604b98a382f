/** What one step does, field by field, whatever state it starts from. */
module StepFacts {
  import opened Types
  import opened Ledger
  import opened StemRows
  import opened Tables
  import opened Index
  import opened NomtStore
  import opened Machine
  import opened Invariant
  import opened CommitKeeps
  import opened RevertKeeps
  import opened Runs

  /* ---- Commits ---- */

  lemma StageTables(s: State, b: Block)
    ensures var t := Stage(s, b); t.index == s.index && t.addresses == s.addresses && t.deltas == s.deltas
  {
  }

  lemma FlushTables(cfg: Config, s: State)
    ensures var t := Prune(cfg, SaveIndexHead(cfg, FlushAll(cfg, s)));
            && t.index == s.index && t.addresses == s.addresses
            && t.lastBlock == s.lastBlock && t.lastHash == s.lastHash
            && (forall n: u64 :: n > s.lastBlock ==> Slot(t.deltas, n) == Slot(s.deltas, n))
  {
    hide RootOfRows;
  }

  /** The tables after a successful commit. */
  lemma CommitTables(cfg: Config, s: State, b: Block)
    requires CommitStep(cfg, s, b).1.Ok?
    ensures var t := CommitStep(cfg, s, b).0;
            && InsertAll(s.index, UpdatesOf(b.entries)) == Some(t.index)
            && SaveAddresses(s.addresses, NewAddresses(Effective(s).Keys, b.entries)) == Some(t.addresses)
            && t.lastBlock == b.number && t.lastHash == b.hash
            && (forall n: u64 :: n > b.number ==> Slot(t.deltas, n) == Slot(s.deltas, n))
  {
    hide UpdatesOf, InsertAll, NewAddresses, SaveAddresses, DeltasOf, Stage, Effective, Logical, FlushAll, Prune,
      SaveIndexHead;
    FlushTables(cfg, RecordStep(s, b).0);
    StageTables(s, b);
  }

  lemma StageNomt(s: State, b: Block)
    ensures Stage(s, b).nomt == s.nomt + [WriteAll(Top(s.nomt), BlockWrites(b))]
  {
  }

  lemma FlushedNomt(cfg: Config, s: State)
    ensures var t := Prune(cfg, SaveIndexHead(cfg, FlushAll(cfg, s))); t.nomt == s.nomt && t.lastBlock == s.lastBlock
  {
    hide RootOfRows, PrunedBefore;
  }

  lemma CommitNomt(cfg: Config, s: State, b: Block)
    ensures CommitStep(cfg, s, b).0.nomt == s.nomt + [WriteAll(Top(s.nomt), BlockWrites(b))]
    ensures CommitStep(cfg, s, b).1.Ok? ==> CommitStep(cfg, s, b).0.lastBlock == b.number
  {
    hide Stage, SaveAddresses, InsertAll, NewAddresses, UpdatesOf, Effective, SavedDeltas, FlushAll, Prune, SaveIndexHead;
    StageNomt(s, b);
    FlushedNomt(cfg, RecordStep(s, b).0);
  }

  lemma SameRows(s: State, t: State)
    requires s.stems == t.stems && s.dirty == t.dirty
    ensures Effective(s) == Effective(t) && Logical(s) == Logical(t)
  {
  }

  lemma StageOutcome(s: State, b: Block)
    ensures var t := Stage(s, b);
            && Effective(t).Keys == Effective(s).Keys + StemsOf(b.entries)
            && Logical(t) == PutAll(Logical(s), b.entries)
            && t == s.(nomt := t.nomt, dirty := t.dirty)
  {
    hide OverlayPut, Flatten, PutAll, WriteAll, BlockWrites, StemsOf;
    OverlayPutKeys(s.stems, s.dirty, b.entries);
    OverlayPutRefines(s.stems, s.dirty, b.entries);
  }

  lemma FlushOutcome(cfg: Config, t: State)
    ensures var root := cfg.rootOf(EntriesSorted(Logical(t)));
            var u := Prune(cfg, SaveIndexHead(cfg, FlushAll(cfg, t)));
            && Effective(u) == Effective(t) && Logical(u) == Logical(t)
            && u.stemCount == t.stemCount && u.index == t.index
            && FlushAll(cfg, t).lastRoot == root
            && u.head == Some(Head(t.lastBlock, t.lastHash, root, t.stemCount))
  {
    hide Flatten, EntriesSorted, PrunedBefore;
    assert t.stems + t.dirty + map[] == t.stems + t.dirty;
  }

  /** The map, counters and heads after a successful commit. */
  lemma CommitOutcome(cfg: Config, s: State, b: Block)
    requires CommitStep(cfg, s, b).1.Ok?
    ensures var (t, x) := CommitStep(cfg, s, b);
            var root := cfg.rootOf(EntriesSorted(PutAll(Logical(s), b.entries)));
            var flush := ShouldFlush(cfg, s, b.number);
            && Logical(t) == PutAll(Logical(s), b.entries)
            && t.stemCount == s.stemCount + |t.index| - |s.index|
            && Effective(t).Keys == Effective(s).Keys + StemsOf(b.entries)
            && x == Ok(if flush then root else s.lastRoot)
            && t.head == if flush then Some(Head(b.number, b.hash, root, t.stemCount)) else s.head
  {
    hide UpdatesOf, InsertAll, NewAddresses, SaveAddresses, SavedDeltas, Stage, Effective, Logical, FlushAll, Prune,
      SaveIndexHead, EntriesSorted, StemsOf, PutAll;
    StageOutcome(s, b);
    var t := RecordStep(s, b).0;
    SameRows(Stage(s, b), t);
    FlushOutcome(cfg, t);
  }

  lemma FlushFields(cfg: Config, t: State)
    ensures var root := cfg.rootOf(EntriesSorted(Logical(t)));
            var u := Prune(cfg, SaveIndexHead(cfg, FlushAll(cfg, t)));
            && u.lastBlock == t.lastBlock && u.lastHash == t.lastHash && u.lastRoot == root
            && u.persistedBlock == t.lastBlock && u.persistedHash == t.lastHash
            && u.indexHead == Some(Head(t.lastBlock, t.lastHash, root, t.stemCount % TWO_64))
            && u.deltas == if t.lastBlock > cfg.deltaRetention
                           then PrunedBefore(t.deltas, t.lastBlock - cfg.deltaRetention) else t.deltas
  {
    hide Flatten, EntriesSorted, PrunedBefore;
  }

  /** The remaining head fields and the undo lists after a successful commit. */
  lemma CommitFields(cfg: Config, s: State, b: Block)
    requires CommitStep(cfg, s, b).1.Ok?
    ensures var t := CommitStep(cfg, s, b).0;
            var root := cfg.rootOf(EntriesSorted(PutAll(Logical(s), b.entries)));
            && t.lastBlock == b.number && t.lastHash == b.hash
            && (if ShouldFlush(cfg, s, b.number) then
                  && t.lastRoot == root && t.persistedBlock == b.number && t.persistedHash == b.hash
                  && t.indexHead == Some(Head(b.number, b.hash, root, t.stemCount % TWO_64))
                  && t.deltas == (if b.number > cfg.deltaRetention
                                  then PrunedBefore(SavedDeltas(s, b), b.number - cfg.deltaRetention)
                                  else SavedDeltas(s, b))
                else
                  && t.lastRoot == s.lastRoot && t.persistedBlock == s.persistedBlock
                  && t.persistedHash == s.persistedHash && t.indexHead == s.indexHead && t.deltas == SavedDeltas(s, b))
  {
    hide UpdatesOf, InsertAll, NewAddresses, SaveAddresses, SavedDeltas, Stage, Effective, Logical, FlushAll, Prune,
      SaveIndexHead, EntriesSorted, PutAll;
    StageOutcome(s, b);
    var t := RecordStep(s, b).0;
    SameRows(Stage(s, b), t);
    FlushOutcome(cfg, t);
    FlushFields(cfg, t);
  }

  lemma UnflushedIsRecorded(cfg: Config, s: State, b: Block)
    requires !ShouldFlush(cfg, s, b.number)
    ensures CommitStep(cfg, s, b).0 == RecordStep(s, b).0
  {
    hide RecordStep;
  }

  lemma RecordedOverlay(s: State, b: Block)
    ensures var t := RecordStep(s, b).0;
            && t.persistedBlock == s.persistedBlock && t.stems == s.stems
            && t.dirty == OverlayPut(s.stems, s.dirty, b.entries)
  {
    hide OverlayPut, WriteAll, BlockWrites, UpdatesOf, InsertAll, SaveAddresses, NewAddresses, SavedDeltas, Effective;
  }

  lemma UnflushedCommit(cfg: Config, s: State, b: Block)
    requires !ShouldFlush(cfg, s, b.number)
    ensures var t := CommitStep(cfg, s, b).0;
            && t.persistedBlock == s.persistedBlock && t.stems == s.stems
            && t.dirty == OverlayPut(s.stems, s.dirty, b.entries)
  {
    hide CommitStep, RecordStep, OverlayPut;
    UnflushedIsRecorded(cfg, s, b);
    RecordedOverlay(s, b);
  }

  lemma FlushedCommit(cfg: Config, s: State, b: Block)
    requires ShouldFlush(cfg, s, b.number) && CommitStep(cfg, s, b).1.Ok?
    ensures var t := CommitStep(cfg, s, b).0; t.dirty == map[] && t.persistedBlock == b.number
  {
    hide OverlayPut, WriteAll, BlockWrites, UpdatesOf, InsertAll, SaveAddresses, NewAddresses, SavedDeltas,
      RootOfRows, PrunedBefore;
  }

  /* ---- Flushes ---- */

  lemma FlushKeepsNomt(cfg: Config, s: State)
    ensures FlushAll(cfg, s).nomt == s.nomt && FlushAll(cfg, s).lastBlock == s.lastBlock
  {
  }

  lemma FlushKeepsDeltas(cfg: Config, s: State)
    ensures SaveIndexHead(cfg, FlushAll(cfg, s)).deltas == s.deltas
  {
    hide RootOfRows;
  }

  lemma FlushCounts(cfg: Config, s: State)
    ensures var f := FlushAll(cfg, s);
            f.stemCount == s.stemCount && f.index == s.index && Effective(f) == Effective(s)
            && f.lastBlock == s.lastBlock && f.lastHash == s.lastHash
  {
    hide RootOfRows;
  }

  lemma FlushAllRows(cfg: Config, s: State)
    ensures var f := FlushAll(cfg, s);
            f.dirty == map[] && f.head.Some? && f.head.value.stemCount == f.stemCount
  {
    hide RootOfRows;
  }

  lemma FlushSavesRoot(cfg: Config, u: State)
    ensures var f := FlushAll(cfg, u); f.head.Some? && f.head.value.root == cfg.rootOf(EntriesSorted(Logical(f)))
  {
    hide EntriesSorted, Flatten;
    assert u.stems + u.dirty + map[] == u.stems + u.dirty;
  }

  lemma FlushedHash(cfg: Config, t: State)
    ensures var f := FlushAll(cfg, t);
            f.lastBlock == f.persistedBlock == t.lastBlock && f.lastHash == f.persistedHash == t.lastHash
  {
    hide RootOfRows;
  }

  lemma FlushPersists(cfg: Config, s: State)
    ensures FlushAll(cfg, s).persistedBlock == s.lastBlock
  {
  }

  /* ---- Reverts ---- */

  lemma RevertFields(cfg: Config, s: State, blocks: map<u64, B256>)
    requires blocks != map[]
    ensures RevertStep(cfg, s, blocks).nomt == RolledBack(s.nomt, |blocks|)
    ensures RevertStep(cfg, s, blocks).lastBlock == if Lowest(blocks) > 0 then Lowest(blocks) - 1 else 0
  {
    hide Unwound, RevertStep, FlushAll, RolledBack, Lowest;
    UnwoundPlace(cfg, s, blocks);
    UnwoundFrame(s, blocks);
    FlushKeepsNomt(cfg, Unwound(s, blocks));
  }

  /** The head fields after a revert. */
  lemma RevertHead(cfg: Config, s: State, blocks: map<u64, B256>)
    requires blocks != map[]
    ensures var t, lo := RevertStep(cfg, s, blocks), Lowest(blocks);
            && t.lastHash == (if lo > 0 then blocks[lo] else 0)
            && (if lo <= s.persistedBlock
                then t.persistedBlock == (if lo > 0 then lo - 1 else 0) && t.persistedHash == t.lastHash
                else t.persistedBlock == s.persistedBlock && t.persistedHash == s.persistedHash)
  {
    hide RevertStep, Unwound, FlushAll, Lowest, RolledBack, UndoBlocks, Effective, Ascending;
    UnwoundPlace(cfg, s, blocks);
    UnwoundFrame(s, blocks);
    FlushedHash(cfg, Unwound(s, blocks));
  }

  /** The undo lists after a revert, exactly: those of the numbers it names above the persisted
      block are gone, all others stand. */
  lemma RevertLists(cfg: Config, s: State, blocks: map<u64, B256>)
    ensures var t := RevertStep(cfg, s, blocks);
            && (forall n :: n in t.deltas <==> n in s.deltas && !(n in blocks && n > s.persistedBlock))
            && (forall n :: n in t.deltas ==> t.deltas[n] == s.deltas[n])
  {
    hide UndoBlocks, RolledBack, Rewound, Ascending, RootOfRows;
    if blocks != map[] {
      var start := s.(nomt := RolledBack(s.nomt, |blocks|));
      UndoFrame(start, Ascending(blocks));
      UndoDeletes(start, Ascending(blocks));
      RewoundLists(UndoBlocks(start, Ascending(blocks)), blocks);
    }
  }

  lemma RewoundLists(s: State, blocks: map<u64, B256>)
    requires blocks != map[]
    ensures Rewound(s, blocks).deltas == s.deltas
  {
    hide Lowest;
  }

  lemma NoRevert(cfg: Config, s: State)
    ensures RevertStep(cfg, s, map[]) == s
  {
  }

  /** A revert that names a persisted block saves the root of the map it arrives at. */
  lemma FlushedRoot(cfg: Config, t: State, named: map<u64, B256>)
    requires named != map[] && exists n :: n in named && n <= t.persistedBlock
    ensures var after := RevertStep(cfg, t, named);
            after.head.Some? && after.head.value.root == cfg.rootOf(EntriesSorted(Logical(after)))
  {
    hide EntriesSorted, Logical, Unwound, RevertStep, FlushAll, Lowest;
    UnwoundPlace(cfg, t, named);
    FlushSavesRoot(cfg, Unwound(t, named));
  }

  /* ---- Start-up, and steps that are no commits ---- */

  lemma CrashStep(cfg: Config, s: State)
    ensures Step(cfg, s, Crash) == Restarted(cfg, s)
  {
  }

  lemma RestartCount(cfg: Config, s: State)
    requires RestartStep(cfg, s).Ok?
    ensures var t := Restarted(cfg, s);
            && t.stemCount == DurableHead(s).stemCount && DurableHead(t) == DurableHead(s)
            && t.index == s.index && t.stems == s.stems && t.dirty == map[]
  {
    hide RootOfRows, SyncedNomt, SyncedHead;
  }

  /** A shutdown and the next start-up: everything flushed, nothing lost. */
  lemma Stopped(cfg: Config, s: State)
    ensures RestartStep(cfg, ShutdownStep(cfg, s)).Ok?
    ensures var t := Restarted(cfg, ShutdownStep(cfg, s));
            && t.stems == s.stems + s.dirty && t.dirty == map[] && t.index == s.index
            && t.lastBlock == s.lastBlock && t.lastHash == s.lastHash && t.stemCount == s.stemCount
            && t.head == Some(Head(s.lastBlock, s.lastHash, RootOfRows(cfg, s.stems + s.dirty), s.stemCount))
  {
    hide RootOfRows, SyncedNomt, SyncedHead;
  }

  /** No operation but a commit writes a list. */
  lemma OtherStepsShrink(cfg: Config, s: State, op: Op)
    requires !op.Commit?
    ensures forall n :: n in Step(cfg, s, op).deltas ==> n in s.deltas
  {
    hide UndoBlocks, RootOfRows, SyncedNomt, SyncedHead, RolledBack, Rewound, Lowest, Ascending;
    if op.Revert? && op.blocks != map[] {
      UnwoundFrame(s, op.blocks);
      UnwoundPlace(cfg, s, op.blocks);
    }
  }

  /** Only a flushing commit saves the key index head. */
  lemma OthersKeepIndexHead(cfg: Config, s: State, op: Op)
    requires !op.Commit?
    ensures Step(cfg, s, op).indexHead == s.indexHead
  {
    hide UndoBlocks, RootOfRows, SyncedNomt, SyncedHead, RolledBack, Rewound, Lowest, Ascending;
    if op.Revert? && op.blocks != map[] {
      UnwoundFrame(s, op.blocks);
      UnwoundPlace(cfg, s, op.blocks);
    }
  }

  /** Only a commit changes the key index. */
  lemma OthersKeepIndex(cfg: Config, s: State, op: Op)
    requires !op.Commit?
    ensures Step(cfg, s, op).index == s.index
  {
    hide UndoBlocks, RootOfRows, SyncedNomt, SyncedHead, RolledBack, Rewound, Lowest, Ascending;
    if op.Revert? && op.blocks != map[] {
      UnwoundFrame(s, op.blocks);
      UnwoundPlace(cfg, s, op.blocks);
    }
  }

  lemma SingleStep(cfg: Config, s: State, r: Reference, op: Op)
    ensures Run(cfg, s, r, [op]) == (Step(cfg, s, op), ReferenceStep(cfg, s, r, op))
  {
    hide Step, ReferenceStep;
    assert [op][1..] == [];
  }
}
