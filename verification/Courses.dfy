/** Two instances that differ only in what no operation reads back: how the map is
    split between rows and overlay, empty nodes, and the stem count. */
module Courses {
  import opened Types
  import opened Ledger
  import opened StemRows
  import opened Tables
  import opened Index
  import opened NomtStore
  import opened Machine
  import opened LiveChain
  import opened Invariant
  import opened CommitKeeps
  import opened RevertKeeps
  import opened Runs
  import opened StepFacts
  import opened AnyRuns
  import opened Independence

  /** The same saved head but for its stem count. */
  ghost predicate SameHead(a: Option<Head>, b: Option<Head>) {
    match a
    case None => b == None
    case Some(h) => b.Some? && b.value == h.(stemCount := b.value.stemCount)
  }

  ghost predicate Alike(s: State, t: State) {
    && Logical(s) == Logical(t) && Flatten(s.stems) == Flatten(t.stems)
    && SameHead(s.head, t.head) && SameHead(s.indexHead, t.indexHead)
    && t == s.(stems := t.stems, dirty := t.dirty, head := t.head, indexHead := t.indexHead, stemCount := t.stemCount)
  }

  /* ---- Commits ---- */

  lemma SameTables(cfg: Config, s: State, t: State, b: Block)
    requires Indexed(s) && Indexed(t) && Alike(s, t) && Consistent(s.index, UpdatesOf(b.entries))
    ensures var (u, v) := (CommitStep(cfg, s, b).0, CommitStep(cfg, t, b).0);
            && CommitStep(cfg, s, b).1.Ok? && CommitStep(cfg, t, b).1.Ok?
            && u.index == v.index && u.addresses == v.addresses
  {
    hide CommitStep, UpdatesOf, InsertAll, NewAddresses, SaveAddresses, Consistent, Flatten, LiveKnown, DeltasKnown,
      NomtKnown, AddressesIndexed, Effective;
    CommitIndexed(cfg, s, b);
    CommitIndexed(cfg, t, b);
    CommitTables(cfg, s, b);
    CommitTables(cfg, t, b);
    AddressesPermuted(s.index, s.addresses, Effective(s).Keys, Effective(t).Keys, b.entries, b.entries);
  }

  lemma SameSaved(s: State, t: State, b: Block)
    requires Alike(s, t)
    ensures SavedDeltas(s, b) == SavedDeltas(t, b)
  {
    hide Flatten, DeltasOf;
  }

  /** The rows hold the whole map after a flush and are untouched otherwise. */
  lemma CommitFlattens(cfg: Config, s: State, b: Block)
    requires CommitStep(cfg, s, b).1.Ok?
    ensures var t := CommitStep(cfg, s, b).0;
            Flatten(t.stems) == if ShouldFlush(cfg, s, b.number) then Logical(t) else Flatten(s.stems)
  {
    hide CommitStep, ShouldFlush, OverlayPut, Flatten;
    var t := CommitStep(cfg, s, b).0;
    if ShouldFlush(cfg, s, b.number) {
      FlushedCommit(cfg, s, b);
      assert t.stems + map[] == t.stems;
    } else {
      UnflushedCommit(cfg, s, b);
    }
  }

  lemma CommitAlike(cfg: Config, s: State, t: State, b: Block)
    requires Indexed(s) && Indexed(t) && Alike(s, t) && Consistent(s.index, UpdatesOf(b.entries))
    ensures Alike(CommitStep(cfg, s, b).0, CommitStep(cfg, t, b).0)
    ensures CommitStep(cfg, s, b).1 == CommitStep(cfg, t, b).1
  {
    hide CommitStep, Indexed, Flatten, PutAll, EntriesSorted, SavedDeltas, WriteAll, BlockWrites, PrunedBefore, Consistent,
      UpdatesOf, Effective;
    SameTables(cfg, s, t, b);
    SameSaved(s, t, b);
    CommitOutcome(cfg, s, b);
    CommitOutcome(cfg, t, b);
    CommitFields(cfg, s, b);
    CommitFields(cfg, t, b);
    CommitNomt(cfg, s, b);
    CommitNomt(cfg, t, b);
    CommitFlattens(cfg, s, b);
    CommitFlattens(cfg, t, b);
  }

  /* ---- Reverts ---- */

  lemma {:induction false} UndoSameDeltas(s: State, t: State, ns: seq<u64>)
    requires s.deltas == t.deltas && s.persistedBlock == t.persistedBlock
    ensures UndoBlocks(s, ns).deltas == UndoBlocks(t, ns).deltas
    decreases |ns|
  {
    hide OverlayUndo;
    if ns != [] {
      UndoSameDeltas(UndoBlock(s, ns[|ns| - 1]), UndoBlock(t, ns[|ns| - 1]), ns[..|ns| - 1]);
    }
  }

  lemma UnwoundAlike(s: State, t: State, blocks: map<u64, B256>)
    requires Alike(s, t) && blocks != map[]
    ensures Alike(Unwound(s, blocks), Unwound(t, blocks))
  {
    hide Flatten, Undo, AllSlots, UndoBlocks, Lowest, Ascending, RolledBack, Effective;
    UnwoundFrame(s, blocks);
    UnwoundFrame(t, blocks);
    UnwoundReplays(s, blocks);
    UnwoundReplays(t, blocks);
    UndoSameDeltas(s.(nomt := RolledBack(s.nomt, |blocks|)), t.(nomt := RolledBack(t.nomt, |blocks|)), Ascending(blocks));
  }

  /** A flush in terms of the map alone. */
  lemma FlushedMap(cfg: Config, s: State)
    ensures var f, root := FlushAll(cfg, s), cfg.rootOf(EntriesSorted(Logical(s)));
            && Logical(f) == Logical(s) && Flatten(f.stems) == Logical(s)
            && f == s.(stems := f.stems, dirty := f.dirty, head := Some(Head(s.lastBlock, s.lastHash, root, s.stemCount)),
                       persistedBlock := s.lastBlock, persistedHash := s.lastHash, lastRoot := root)
  {
    hide Flatten, EntriesSorted;
    assert s.stems + s.dirty + map[] == s.stems + s.dirty;
  }

  lemma FlushAlike(cfg: Config, s: State, t: State)
    requires Alike(s, t)
    ensures Alike(FlushAll(cfg, s), FlushAll(cfg, t))
  {
    hide Flatten, Logical, EntriesSorted, FlushAll;
    FlushedMap(cfg, s);
    FlushedMap(cfg, t);
  }

  lemma RevertAlike(cfg: Config, s: State, t: State, blocks: map<u64, B256>)
    requires Alike(s, t) && blocks != map[]
    ensures Alike(RevertStep(cfg, s, blocks), RevertStep(cfg, t, blocks))
  {
    hide Logical, Flatten, Unwound, RevertStep, FlushAll, Lowest;
    UnwoundPlace(cfg, s, blocks);
    UnwoundPlace(cfg, t, blocks);
    UnwoundAlike(s, t, blocks);
    FlushAlike(cfg, Unwound(s, blocks), Unwound(t, blocks));
  }

  /* ---- Start-up ---- */

  lemma SameVerdict(cfg: Config, s: State, t: State)
    requires Alike(s, t)
    ensures RestartStep(cfg, s).Ok? <==> RestartStep(cfg, t).Ok?
  {
    hide Logical, Flatten, EntriesSorted, ResumedAt, SyncedNomt, SyncedHead;
  }

  lemma ResumedMap(s: State, h: Head, nomt: Stack, persistedBlock: u64)
    ensures Logical(ResumedAt(s, h, nomt, persistedBlock)) == Flatten(s.stems)
  {
    hide Flatten;
    assert s.stems + map[] == s.stems;
  }

  lemma ResumedAlike(s: State, t: State, g: Head, h: Head, nomt: Stack, persistedBlock: u64)
    requires Alike(s, t) && h == g.(stemCount := h.stemCount)
    ensures Alike(ResumedAt(s, g, nomt, persistedBlock), ResumedAt(t, h, nomt, persistedBlock))
  {
    hide Flatten, Logical;
    ResumedMap(s, g, nomt, persistedBlock);
    ResumedMap(t, h, nomt, persistedBlock);
  }

  lemma RestartAlike(cfg: Config, s: State, t: State)
    requires Alike(s, t)
    ensures Alike(Restarted(cfg, s), Restarted(cfg, t))
  {
    hide Logical, Flatten, RootOfRows, ResumedAt, SyncedNomt, SyncedHead;
    SameVerdict(cfg, s, t);
    if RestartStep(cfg, s).Ok? {
      var g, h := DurableHead(s), DurableHead(t);
      ResumedAlike(s, t, g, h, SyncedNomt(s.nomt, g.number), SyncedHead(s.nomt, g.number));
    }
  }

  lemma ShutdownMap(cfg: Config, s: State)
    ensures var f, root := ShutdownStep(cfg, s), cfg.rootOf(EntriesSorted(Logical(s)));
            && Logical(f) == Logical(s) && Flatten(f.stems) == Logical(s)
            && f == s.(stems := f.stems, dirty := f.dirty, head := Some(Head(s.lastBlock, s.lastHash, root, s.stemCount)))
  {
    hide Flatten, EntriesSorted;
    assert s.stems + s.dirty + map[] == s.stems + s.dirty;
  }

  lemma ShutdownAlike(cfg: Config, s: State, t: State)
    requires Alike(s, t)
    ensures Alike(ShutdownStep(cfg, s), ShutdownStep(cfg, t))
  {
    hide Flatten, Logical, EntriesSorted, ShutdownStep;
    ShutdownMap(cfg, s);
    ShutdownMap(cfg, t);
  }

  /* ---- Runs ---- */

  lemma StepAlike(cfg: Config, s: State, t: State, op: Op)
    requires Indexed(s) && Indexed(t) && Alike(s, t) && OneAddress(s, op)
    ensures Alike(Step(cfg, s, op), Step(cfg, t, op))
    ensures op.Commit? ==> CommitStep(cfg, s, op.block).1 == CommitStep(cfg, t, op.block).1
  {
    hide Indexed, Alike, CommitStep, RevertStep, Restarted, ShutdownStep, Consistent, UpdatesOf;
    match op
    case Commit(b) => CommitAlike(cfg, s, t, b);
    case Revert(blocks) =>
      if blocks == map[] {
        NoRevert(cfg, s);
        NoRevert(cfg, t);
      } else {
        RevertAlike(cfg, s, t, blocks);
      }
    case Stop =>
      ShutdownAlike(cfg, s, t);
      RestartAlike(cfg, ShutdownStep(cfg, s), ShutdownStep(cfg, t));
    case Crash => RestartAlike(cfg, s, t);
  }

  /** What the commits of a run return, in order. */
  function Answers(cfg: Config, s: State, ops: seq<Op>): seq<Result<B256>>
    decreases |ops|
  {
    if ops == [] then []
    else
      var rest := Answers(cfg, Step(cfg, s, ops[0]), ops[1..]);
      if ops[0].Commit? then [CommitStep(cfg, s, ops[0].block).1] + rest else rest
  }

  lemma AlikeIndex(s: State, t: State, op: Op)
    requires Alike(s, t) && OneAddress(s, op)
    ensures OneAddress(t, op)
  {
  }

  /** Alike instances stay alike and give the same answers on every continuation that keeps one
      address per stem: any commits, reverts, stops and crashes. */
  lemma {:induction false} AlikeForever(cfg: Config, s: State, t: State, ops: seq<Op>)
    requires Indexed(s) && Indexed(t) && Alike(s, t) && OneAddressRun(cfg, s, ops)
    ensures Alike(After(cfg, s, ops), After(cfg, t, ops))
    ensures Answers(cfg, s, ops) == Answers(cfg, t, ops)
    decreases |ops|
  {
    hide Indexed, Alike, Step, OneAddress, CommitStep;
    if ops != [] {
      AlikeIndex(s, t, ops[0]);
      StepAlike(cfg, s, t, ops[0]);
      StepIndexed(cfg, s, ops[0]);
      StepIndexed(cfg, t, ops[0]);
      AlikeForever(cfg, Step(cfg, s, ops[0]), Step(cfg, t, ops[0]), ops[1..]);
    }
  }
}
