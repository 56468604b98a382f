/** Runs described by what a caller can see before each call. Nothing is assumed
    about where a revert arrives: that it arrives at the map below it is proved. */
module PlainRuns {
  import opened Types
  import opened Sorting
  import opened Ledger
  import opened StemRows
  import opened Tables
  import opened Index
  import opened NomtStore
  import opened Machine
  import opened LiveChain
  import opened Invariant
  import opened CommitKeeps
  import opened RevertKeeps
  import opened Runs
  import opened StepFacts
  import opened AnyRuns
  import opened UndoTheorems
  import opened NomtAgreement
  import opened Heads
  import opened Recovery

  /** A commit has a higher number and one address per stem, finds no list under the numbers it
      skips, and changes a value or finds its own slot empty. A revert names every number from
      its lowest to the last block. */
  ghost predicate Plain(s: State, op: Op) {
    match op
    case Commit(b) =>
      && CommitAdmissible(s, b)
      && (forall n: u64 :: s.lastBlock < n < b.number ==> Slot(s.deltas, n) == [])
      && (DeltasOf(Logical(s), b.entries) != [] || Slot(s.deltas, b.number) == [])
    case Revert(blocks) => blocks != map[] ==> TopRange(s, blocks)
    case Stop => true
    case Crash => true
  }

  /** A revert drops no block that lost its list to pruning. */
  ghost predicate Kept(r: Reference, op: Op) {
    op.Revert? && op.blocks != map[] ==> Unpruned(r, Lowest(op.blocks))
  }

  /** Start-up does not find NOMT behind MDBX. */
  ghost predicate Guarded(s: State, op: Op) {
    && (op == Stop ==> s.lastBlock <= ReadHead(Top(s.nomt)))
    && (op == Crash ==> s.persistedBlock <= ReadHead(Top(s.nomt)))
  }

  ghost predicate OneByOne(s: State, op: Op) {
    op.Commit? ==> op.block.number == s.lastBlock + 1
  }

  /** Commits of chains of any length. */
  ghost predicate PlainSteps(cfg: Config, s: State, r: Reference, ops: seq<Op>)
    decreases |ops|
  {
    ops != [] ==>
      && Plain(s, ops[0]) && Kept(r, ops[0]) && Guarded(s, ops[0])
      && PlainSteps(cfg, Step(cfg, s, ops[0]), ReferenceStep(cfg, s, r, ops[0]), ops[1..])
  }

  /** Single blocks, numbered one after the other; stops and crashes at any time. */
  ghost predicate PlainSingles(cfg: Config, s: State, r: Reference, ops: seq<Op>)
    decreases |ops|
  {
    ops != [] ==>
      && Plain(s, ops[0]) && Kept(r, ops[0]) && OneByOne(s, ops[0])
      && PlainSingles(cfg, Step(cfg, s, ops[0]), ReferenceStep(cfg, s, r, ops[0]), ops[1..])
  }

  ghost predicate PlainRun(cfg: Config, ops: seq<Op>) {
    PlainSteps(cfg, FRESH, START, ops)
  }

  ghost predicate PlainSingleRun(cfg: Config, ops: seq<Op>) {
    PlainSingles(cfg, FRESH, START, ops)
  }

  /* ---- Every stored list is a live block's own ---- */

  ghost predicate AllOwn(s: State, r: Reference) {
    forall n: u64 :: 1 <= n <= s.lastBlock ==> OwnSlot(s.deltas, r.live, n)
  }

  lemma OwnByChange(cfg: Config, s: State, r: Reference, b: Block)
    requires Inv(cfg, s, r) && DeltasOf(Logical(s), b.entries) != []
    ensures OwnSlot(CommitStep(cfg, s, b).0.deltas, r.live + [b], b.number)
  {
    hide Inv, CommitStep, Logical, LedgerOf, DeltasOf, Slot;
    LiveLedger(cfg, s, r);
    var all := r.live + [b];
    assert all[..|r.live|] == r.live && all[|r.live|] == b;
  }

  lemma CommitOwn(cfg: Config, s: State, r: Reference, b: Block)
    requires Inv(cfg, s, r) && AllOwn(s, r) && Plain(s, Commit(b))
    ensures AllOwn(CommitStep(cfg, s, b).0, CommitReference(cfg, s, r, b))
  {
    hide Inv, CommitStep, Logical, DeltasOf, OwnSlot, Consistent, Slot;
    CommitNomt(cfg, s, b);
    CommitKeepsInvariant(cfg, s, r, b);
    forall n: u64 | 1 <= n <= b.number ensures OwnSlot(CommitStep(cfg, s, b).0.deltas, r.live + [b], n) {
      if n == b.number && DeltasOf(Logical(s), b.entries) != [] {
        OwnByChange(cfg, s, r, b);
      } else {
        if n > s.lastBlock {
          SlotStartsOwn(s.deltas, r.live, n);
        }
        SlotOwnByCommit(cfg, s, r, b, n);
      }
    }
  }

  /** A shorter chain over slots that stand keeps its own lists. */
  lemma OwnBelow(s: State, r: Reference, t: State, q: Reference, lo: int)
    requires AllOwn(s, r) && Increasing(r.live) && q.live == Below(r.live, lo)
    requires t.lastBlock <= s.lastBlock && t.lastBlock < lo
    requires forall n :: n in t.deltas ==> n in s.deltas && t.deltas[n] == s.deltas[n]
    ensures AllOwn(t, q)
  {
    hide Below, LedgerOf, DeltasOf;
    BelowSpec(r.live, lo);
    forall n: u64 | 1 <= n <= t.lastBlock ensures OwnSlot(t.deltas, q.live, n) {
      if Slot(t.deltas, n) != [] {
        assert OwnSlot(s.deltas, r.live, n);
        var i :| 0 <= i < |r.live| && r.live[i].number == n && DeltasOf(LedgerOf(r.live[..i]), r.live[i].entries) != [];
        assert q.live[i] == r.live[i] && q.live[..i] == r.live[..i];
      }
    }
  }

  lemma RevertOwn(cfg: Config, s: State, r: Reference, blocks: map<u64, B256>)
    requires Inv(cfg, s, r) && AllOwn(s, r) && blocks != map[] && TopRange(s, blocks)
    ensures AllOwn(RevertStep(cfg, s, blocks), RevertReference(r, blocks))
  {
    hide Inv, AllOwn, RevertStep, Unwound, UndoBlocks, FlushAll, Below, Lowest, RolledBack, Effective, RootOfRows;
    UnwoundFrame(s, blocks);
    UnwoundPlace(cfg, s, blocks);
    FlushStores(cfg, Unwound(s, blocks));
    RevertFields(cfg, s, blocks);
    RangeBounds(s, blocks);
    TipsOf(cfg, s, r);
    OwnBelow(s, r, RevertStep(cfg, s, blocks), RevertReference(r, blocks), Lowest(blocks));
  }

  lemma FlushStores(cfg: Config, s: State)
    ensures FlushAll(cfg, s).deltas == s.deltas
  {
    hide RootOfRows;
  }

  lemma RestartDeltas(cfg: Config, s: State)
    ensures Restarted(cfg, s).deltas == s.deltas && Restarted(cfg, ShutdownStep(cfg, s)).deltas == s.deltas
  {
    hide RootOfRows, SyncedNomt, SyncedHead;
  }

  lemma StopOwn(cfg: Config, s: State, r: Reference)
    requires AllOwn(s, r)
    ensures AllOwn(Restarted(cfg, ShutdownStep(cfg, s)), r)
  {
    hide OwnSlot, Restarted, ShutdownStep, RootOfRows;
    RestartDeltas(cfg, s);
    Stopped(cfg, s);
  }

  lemma CrashOwn(cfg: Config, s: State, r: Reference)
    requires Inv(cfg, s, r) && AllOwn(s, r)
    ensures AllOwn(Restarted(cfg, s), ReferenceStep(cfg, s, r, Crash))
  {
    hide AllOwn, Restarted, Below, Contents, Undoable, Covered, RootOfRows;
    RestartDeltas(cfg, s);
    RestartFields(cfg, s);
    OwnBelow(s, r, Restarted(cfg, s), ReferenceStep(cfg, s, r, Crash), s.persistedBlock + 1);
  }

  lemma StepOwn(cfg: Config, s: State, r: Reference, op: Op)
    requires Inv(cfg, s, r) && AllOwn(s, r) && Plain(s, op)
    ensures AllOwn(Step(cfg, s, op), ReferenceStep(cfg, s, r, op))
  {
    hide Inv, AllOwn, CommitStep, RevertStep, Restarted, ShutdownStep, TopRange, CommitReference, RevertReference, Below,
      Logical, DeltasOf, CommitAdmissible;
    match op
    case Commit(b) => CommitOwn(cfg, s, r, b);
    case Revert(blocks) =>
      if blocks == map[] {
        NoRevert(cfg, s);
        NoReference(r);
      } else {
        RevertOwn(cfg, s, r, blocks);
      }
    case Stop => StopOwn(cfg, s, r);
    case Crash => CrashOwn(cfg, s, r);
  }

  lemma NoReference(r: Reference)
    ensures RevertReference(r, map[]) == r
  {
  }

  /* ---- Such runs are admissible ---- */

  lemma TopRangeNames(s: State, r: Reference, blocks: map<u64, B256>)
    requires Tips(s, r) && blocks != map[] && TopRange(s, blocks)
    ensures NamesTips(r.live, blocks)
  {
    hide Lowest;
    forall i | 0 <= i < |r.live| && Lowest(blocks) <= r.live[i].number ensures r.live[i].number in blocks {
      var n: u64 := r.live[i].number;
    }
  }

  /** Over own lists a revert within retention leads to the map below it. */
  lemma PlainRevert(cfg: Config, s: State, r: Reference, blocks: map<u64, B256>)
    requires Inv(cfg, s, r) && AllOwn(s, r) && blocks != map[] && TopRange(s, blocks) && Unpruned(r, Lowest(blocks))
    ensures RevertAdmissible(s, r, blocks)
  {
    hide Inv, OwnSlot, Lowest, Reaches, AllSlots, LedgerOf, Logical, Unpruned, Restores, NamesTips;
    PlainFacts(cfg, s, r);
    TopRangeNames(s, r, blocks);
    forall n | n in blocks ensures Restores(s.deltas, r.live, n) {
      assert 1 <= n <= s.lastBlock;
      OwnSlotRestores(cfg, s, r, n, Lowest(blocks));
    }
    SteppedReaches(s, r, blocks);
  }

  lemma PlainAdmissible(cfg: Config, s: State, r: Reference, op: Op)
    requires Inv(cfg, s, r) && AllOwn(s, r) && Plain(s, op) && Kept(r, op) && Guarded(s, op)
    ensures Admissible(s, r, op)
  {
    hide Inv, AllOwn, TopRange, RevertAdmissible, CommitAdmissible, Unpruned, Lowest;
    match op
    case Commit(b) =>
    case Revert(blocks) =>
      if blocks == map[] {
        EmptyRevert(s, r);
      } else {
        PlainRevert(cfg, s, r, blocks);
      }
    case Stop =>
    case Crash =>
  }

  lemma EmptyRevert(s: State, r: Reference)
    ensures RevertAdmissible(s, r, map[])
  {
  }

  lemma {:induction false} PlainStepsAdmissible(cfg: Config, s: State, r: Reference, ops: seq<Op>)
    requires Inv(cfg, s, r) && AllOwn(s, r) && PlainSteps(cfg, s, r, ops)
    ensures AdmissibleRun(cfg, s, r, ops)
    ensures AllOwn(Run(cfg, s, r, ops).0, Run(cfg, s, r, ops).1)
    decreases |ops|
  {
    hide Inv, AllOwn, Step, ReferenceStep, Admissible, Plain, Kept, Guarded;
    if ops != [] {
      PlainAdmissible(cfg, s, r, ops[0]);
      StepOwn(cfg, s, r, ops[0]);
      StepKeepsInvariant(cfg, s, r, ops[0]);
      PlainStepsAdmissible(cfg, Step(cfg, s, ops[0]), ReferenceStep(cfg, s, r, ops[0]), ops[1..]);
    }
  }

  lemma PlainIsSingleBlock(cfg: Config, s: State, r: Reference, op: Op)
    requires Inv(cfg, s, r) && AllOwn(s, r) && Plain(s, op) && Kept(r, op) && OneByOne(s, op)
    ensures SingleBlock(s, r, op)
  {
    hide Inv, AllOwn, TopRange, RevertAdmissible, CommitAdmissible, Unpruned, Lowest;
    if op.Revert? && op.blocks != map[] {
      PlainRevert(cfg, s, r, op.blocks);
    }
  }

  lemma {:induction false} PlainSinglesAre(cfg: Config, s: State, r: Reference, ops: seq<Op>)
    requires Inv(cfg, s, r) && NomtInv(s, r) && AllOwn(s, r) && PlainSingles(cfg, s, r, ops)
    ensures SingleBlockRun(cfg, s, r, ops)
    decreases |ops|
  {
    hide Inv, NomtInv, AllOwn, Step, ReferenceStep, Admissible, Plain, Kept, OneByOne, SingleBlock;
    if ops != [] {
      PlainIsSingleBlock(cfg, s, r, ops[0]);
      SingleBlockAdmissible(cfg, s, r, ops[0]);
      SingleBlockKeeps(cfg, s, r, ops[0]);
      StepOwn(cfg, s, r, ops[0]);
      StepKeepsInvariant(cfg, s, r, ops[0]);
      PlainSinglesAre(cfg, Step(cfg, s, ops[0]), ReferenceStep(cfg, s, r, ops[0]), ops[1..]);
    }
  }

  lemma FreshOwn()
    ensures AllOwn(FRESH, START)
  {
  }

  /* ---- The theorems ---- */

  /** Plain runs of chain commits are admissible, so every result about `ValidRun` is about them:
      to begin with, the map is always that of the live blocks, whatever was reverted, and every
      stored list up to the last block is a live block's own. */
  lemma PlainRunFollows(cfg: Config, ops: seq<Op>)
    requires PlainRun(cfg, ops)
    ensures var (s, r) := Reached(cfg, ops);
            && ValidRun(cfg, ops)
            && Logical(s) == LedgerOf(r.live)
            && (forall n: u64 :: 1 <= n <= s.lastBlock && Slot(s.deltas, n) != [] ==> IsTip(r.live, n))
  {
    hide Run, AdmissibleRun, PlainSteps, Inv, Logical, LedgerOf, Slot, DeltasOf;
    FreshHolds(cfg);
    FreshOwn();
    PlainStepsAdmissible(cfg, FRESH, START, ops);
    ReachedInv(cfg, ops);
    var (s, r) := Reached(cfg, ops);
    LiveLedger(cfg, s, r);
    forall n: u64 | 1 <= n <= s.lastBlock && Slot(s.deltas, n) != [] ensures IsTip(r.live, n) {
      assert OwnSlot(s.deltas, r.live, n);
    }
  }

  /** Plain runs of single blocks are single-block runs, so every result about `SingleRun` is
      about them, with no guard at start-up. */
  lemma PlainSingleIsSingle(cfg: Config, ops: seq<Op>)
    requires PlainSingleRun(cfg, ops)
    ensures SingleRun(cfg, ops)
  {
    hide Inv, Step, ReferenceStep, Plain, Kept, OneByOne, SingleBlock;
    FreshHolds(cfg);
    FreshOwn();
    assert NomtInv(FRESH, START);
    PlainSinglesAre(cfg, FRESH, START, ops);
  }

  /** Over plain single-block runs NOMT, with its rollback by count, reads every key but its own
      as the overlay over MDBX, with its replay of lists, has it, and both are the live chain's map. */
  lemma PlainNomtAgrees(cfg: Config, ops: seq<Op>, key: TreeKey)
    requires PlainSingleRun(cfg, ops) && key != ReservedKey()
    ensures var (s, r) := Reached(cfg, ops);
            ReadValue(Top(s.nomt), TreeIndex(key)) == Ok(Lookup(Logical(s), key))
            && Lookup(Logical(s), key) == Lookup(LedgerOf(r.live), key)
  {
    hide Run, PlainSingles, SingleBlockRun, Inv, NomtInv, LedgerOf, Logical, ReadValue;
    PlainSingleIsSingle(cfg, ops);
    NomtAgrees(cfg, ops, key);
    SingleReached(cfg, ops);
    LiveLedger(cfg, Reached(cfg, ops).0, Reached(cfg, ops).1);
  }

  /** Over plain single-block runs a crash at any point, with its replay, rebuilds everything but
      the hash of a chain with nothing live and the stem count. */
  lemma PlainCrashRecovers(cfg: Config, ops: seq<Op>)
    requires PlainSingleRun(cfg, ops) && ParentsKnown({}, cfg, FRESH, START, ops) && Reached(cfg, ops).1.live != []
    ensures var (s, r) := Reached(cfg, ops);
            var (t, q) := Reached(cfg, ops + ([Crash] + Commits(Unpersisted(s, r))));
            Logical(t) == Logical(s) && q == r
            && t == s.(dirty := t.dirty, stemCount := t.stemCount)
  {
    hide Run, PlainSingles, SingleBlockRun, AdmissibleRun, ParentsKnown, Logical, Commits, Unpersisted, DurableHead;
    PlainSingleIsSingle(cfg, ops);
    CrashRecoveryWithNomt(cfg, ops);
    HashKnown(cfg, ops);
  }

  /* ---- Reverts within retention ---- */

  /** The highest block flushed so far, `top`, is no more than `delta_retention` above the range. */
  ghost predicate Shallow(cfg: Config, op: Op, top: nat) {
    op.Revert? && op.blocks != map[] ==> top <= Lowest(op.blocks) + cfg.deltaRetention
  }

  ghost predicate ShallowSingles(cfg: Config, s: State, ops: seq<Op>, top: nat)
    decreases |ops|
  {
    ops != [] ==>
      && Plain(s, ops[0]) && OneByOne(s, ops[0]) && Shallow(cfg, ops[0], top)
      && ShallowSingles(cfg, Step(cfg, s, ops[0]), ops[1..], Larger(top, FlushedAt(cfg, s, ops[0])))
  }

  ghost predicate PrunedWithin(cfg: Config, r: Reference, top: nat) {
    r.pruned > 0 ==> r.pruned + cfg.deltaRetention <= top
  }

  lemma ShallowKept(cfg: Config, r: Reference, op: Op, top: nat)
    requires Shallow(cfg, op, top) && PrunedWithin(cfg, r, top)
    ensures Kept(r, op)
  {
    hide Lowest;
  }

  lemma WithinStep(cfg: Config, s: State, r: Reference, op: Op, top: nat)
    requires Inv(cfg, s, r) && Admissible(s, r, op) && PrunedWithin(cfg, r, top)
    ensures PrunedWithin(cfg, ReferenceStep(cfg, s, r, op), Larger(top, FlushedAt(cfg, s, op)))
  {
    hide Inv, Admissible, ReferenceStep, FlushedAt;
    PrunedByStep(cfg, s, r, op);
  }

  lemma {:induction false} ShallowArePlain(cfg: Config, s: State, r: Reference, ops: seq<Op>, top: nat)
    requires Inv(cfg, s, r) && NomtInv(s, r) && AllOwn(s, r) && PrunedWithin(cfg, r, top)
    requires ShallowSingles(cfg, s, ops, top)
    ensures PlainSingles(cfg, s, r, ops)
    decreases |ops|
  {
    hide Inv, NomtInv, AllOwn, PrunedWithin, Step, ReferenceStep, Admissible, Plain, Kept, OneByOne, Shallow, SingleBlock,
      FlushedAt;
    if ops != [] {
      ShallowKept(cfg, r, ops[0], top);
      PlainIsSingleBlock(cfg, s, r, ops[0]);
      SingleBlockAdmissible(cfg, s, r, ops[0]);
      SingleBlockKeeps(cfg, s, r, ops[0]);
      StepOwn(cfg, s, r, ops[0]);
      StepKeepsInvariant(cfg, s, r, ops[0]);
      WithinStep(cfg, s, r, ops[0], top);
      ShallowArePlain(cfg, Step(cfg, s, ops[0]), ReferenceStep(cfg, s, r, ops[0]), ops[1..],
                      Larger(top, FlushedAt(cfg, s, ops[0])));
    }
  }

  /** A caller who never reverts further below the highest flushed block than `delta_retention`
      runs a plain run; no reference chain is needed to tell. */
  lemma ShallowIsPlain(cfg: Config, ops: seq<Op>)
    requires ShallowSingles(cfg, FRESH, ops, 0)
    ensures PlainSingleRun(cfg, ops)
  {
    hide Inv, Step, ReferenceStep, Plain, Kept, OneByOne, Shallow, FlushedAt;
    FreshHolds(cfg);
    FreshOwn();
    assert NomtInv(FRESH, START);
    ShallowArePlain(cfg, FRESH, START, ops, 0);
  }

  /* ---- Reverts of unpersisted blocks ---- */

  /** No list is stored above the last block. */
  ghost predicate NoneAbove(s: State) {
    forall n :: n in s.deltas ==> n <= s.lastBlock
  }

  /** A revert goes down from the last block and stays above the persisted one; a crash finds
      nothing unflushed. Nothing is asked of the values or of the slots a commit finds. */
  ghost predicate Unpersisting(s: State, op: Op) {
    match op
    case Commit(b) => CommitAdmissible(s, b)
    case Revert(blocks) => blocks != map[] ==> TopRange(s, blocks) && Lowest(blocks) > s.persistedBlock
    case Stop => true
    case Crash => s.lastBlock == s.persistedBlock
  }

  ghost predicate UnpersistingSteps(cfg: Config, s: State, ops: seq<Op>)
    decreases |ops|
  {
    ops != [] ==>
      && Unpersisting(s, ops[0]) && Guarded(s, ops[0])
      && UnpersistingSteps(cfg, Step(cfg, s, ops[0]), ops[1..])
  }

  lemma CommitNoneAbove(cfg: Config, s: State, r: Reference, b: Block)
    requires Inv(cfg, s, r) && NoneAbove(s) && CommitAdmissible(s, b)
    ensures NoneAbove(CommitStep(cfg, s, b).0)
  {
    hide Inv, CommitStep, SavedDeltas, Consistent, EntriesSorted, PutAll, Logical, ShouldFlush;
    CommitKeepsInvariant(cfg, s, r, b);
    CommitFields(cfg, s, b);
    SavedSlots(s, b);
  }

  lemma RevertNoneAbove(cfg: Config, s: State, blocks: map<u64, B256>)
    requires NoneAbove(s) && blocks != map[] && TopRange(s, blocks) && Lowest(blocks) > s.persistedBlock
    ensures NoneAbove(RevertStep(cfg, s, blocks))
  {
    hide RevertStep, Lowest, RolledBack;
    RevertLists(cfg, s, blocks);
    RevertFields(cfg, s, blocks);
    forall n | n in RevertStep(cfg, s, blocks).deltas ensures n < Lowest(blocks) {
      assert n in blocks <==> Lowest(blocks) <= n <= s.lastBlock;
    }
  }

  lemma StepNoneAbove(cfg: Config, s: State, r: Reference, op: Op)
    requires Inv(cfg, s, r) && NoneAbove(s) && Unpersisting(s, op)
    ensures NoneAbove(Step(cfg, s, op))
  {
    hide Inv, NoneAbove, CommitStep, RevertStep, Restarted, ShutdownStep, TopRange, Lowest, CommitAdmissible, RootOfRows;
    match op
    case Commit(b) => CommitNoneAbove(cfg, s, r, b);
    case Revert(blocks) =>
      if blocks == map[] {
        NoRevert(cfg, s);
      } else {
        RevertNoneAbove(cfg, s, blocks);
      }
    case Stop =>
      Stopped(cfg, s);
      RestartDeltas(cfg, s);
      SameListsNoneAbove(s, Restarted(cfg, ShutdownStep(cfg, s)));
    case Crash =>
      assert HeadMatches(cfg, s) by { HeadOf(cfg, s, r); }
      RestartDeltas(cfg, s);
      RestartFields(cfg, s);
      SameListsNoneAbove(s, Restarted(cfg, s));
  }

  lemma SameListsNoneAbove(s: State, t: State)
    requires NoneAbove(s) && t.deltas == s.deltas && t.lastBlock == s.lastBlock
    ensures NoneAbove(t)
  {
  }

  /** Nothing above the last block: every commit finds its slot empty, and only persisted blocks
      can have been pruned. */
  lemma UnpersistingIsPlain(cfg: Config, s: State, r: Reference, op: Op)
    requires Inv(cfg, s, r) && NoneAbove(s) && Unpersisting(s, op)
    ensures Plain(s, op) && Kept(r, op)
  {
    hide Contents, HeadMatches, Undoable, Covered, Consistent, Logical, DeltasOf, Lowest;
  }

  lemma {:induction false} UnpersistingArePlain(cfg: Config, s: State, r: Reference, ops: seq<Op>)
    requires Inv(cfg, s, r) && AllOwn(s, r) && NoneAbove(s) && UnpersistingSteps(cfg, s, ops)
    ensures PlainSteps(cfg, s, r, ops) && NoneAbove(Run(cfg, s, r, ops).0)
    decreases |ops|
  {
    hide Inv, AllOwn, NoneAbove, Step, ReferenceStep, Admissible, Plain, Kept, Guarded, Unpersisting;
    if ops != [] {
      UnpersistingIsPlain(cfg, s, r, ops[0]);
      PlainAdmissible(cfg, s, r, ops[0]);
      StepOwn(cfg, s, r, ops[0]);
      StepNoneAbove(cfg, s, r, ops[0]);
      StepKeepsInvariant(cfg, s, r, ops[0]);
      UnpersistingArePlain(cfg, Step(cfg, s, ops[0]), ReferenceStep(cfg, s, r, ops[0]), ops[1..]);
    }
  }

  /** Reorgs of unpersisted blocks leave nothing behind: as long as reverts stay above the
      persisted block, no list is ever stored above the last block, so every replacement block
      finds its slot empty, whatever it writes, and every revert arrives at the map of the blocks
      below it. */
  lemma UnpersistedReorgs(cfg: Config, ops: seq<Op>)
    requires UnpersistingSteps(cfg, FRESH, ops)
    ensures var (s, r) := Reached(cfg, ops);
            && PlainRun(cfg, ops) && ValidRun(cfg, ops)
            && Logical(s) == LedgerOf(r.live)
            && (forall n :: n in s.deltas ==> n <= s.lastBlock)
  {
    hide Inv, Step, ReferenceStep, Plain, Kept, Guarded, Unpersisting, PlainSteps, UnpersistingSteps, Run, AdmissibleRun,
      Logical, LedgerOf;
    FreshHolds(cfg);
    FreshOwn();
    UnpersistingArePlain(cfg, FRESH, START, ops);
    PlainRunFollows(cfg, ops);
  }

  /* ---- Where leftover lists come from ---- */

  /** Numbers increase, reverts go down from the last block, and no crash loses a block. */
  ghost predicate Downward(s: State, op: Op) {
    match op
    case Commit(b) => b.number > s.lastBlock
    case Revert(blocks) => blocks != map[] ==> TopRange(s, blocks)
    case Stop => true
    case Crash => s.lastBlock <= DurableHead(s).number
  }

  ghost predicate DownwardSteps(cfg: Config, s: State, ops: seq<Op>)
    decreases |ops|
  {
    ops != [] ==> Downward(s, ops[0]) && DownwardSteps(cfg, Step(cfg, s, ops[0]), ops[1..])
  }

  /** The highest block number ever persisted. */
  function Peak(cfg: Config, s: State, ops: seq<Op>): nat
    decreases |ops|
  {
    if ops == [] then s.persistedBlock else Larger(s.persistedBlock, Peak(cfg, Step(cfg, s, ops[0]), ops[1..]))
  }

  /** A list stored above the last block is that of a block persisted at some time. */
  ghost predicate LeftoversBelow(s: State, peak: nat) {
    forall n :: n in s.deltas ==> n <= s.lastBlock || n <= peak
  }

  lemma CommitLeftovers(cfg: Config, s: State, b: Block, peak: nat)
    requires LeftoversBelow(s, peak) && b.number > s.lastBlock
    ensures LeftoversBelow(CommitStep(cfg, s, b).0, peak)
  {
    hide CommitStep, SavedDeltas, EntriesSorted, PutAll, Logical, ShouldFlush, RecordStep;
    if CommitStep(cfg, s, b).1.Ok? {
      CommitFields(cfg, s, b);
      SavedSlots(s, b);
    } else {
      FailedCommit(cfg, s, b);
      FailedPlace(cfg, s, b);
    }
  }

  lemma FailedPlace(cfg: Config, s: State, b: Block)
    requires CommitStep(cfg, s, b).1.Err?
    ensures CommitStep(cfg, s, b).0.lastBlock == s.lastBlock
  {
    hide RecordStep, FlushAll, SaveIndexHead, Prune;
    RecordKeepsRows(s, b);
  }

  lemma RevertLeftovers(cfg: Config, s: State, blocks: map<u64, B256>, peak: nat)
    requires LeftoversBelow(s, peak) && s.persistedBlock <= peak && blocks != map[] && TopRange(s, blocks)
    ensures LeftoversBelow(RevertStep(cfg, s, blocks), peak)
  {
    hide RevertStep, Lowest, RolledBack;
    RevertLists(cfg, s, blocks);
    RevertFields(cfg, s, blocks);
    forall n | n in RevertStep(cfg, s, blocks).deltas ensures n < Lowest(blocks) || n <= peak {
      assert n in blocks <==> Lowest(blocks) <= n <= s.lastBlock;
    }
  }

  lemma CrashedAt(cfg: Config, s: State)
    ensures var t := Restarted(cfg, s); t.lastBlock == s.lastBlock || t.lastBlock == DurableHead(s).number
  {
    hide RootOfRows, SyncedNomt, SyncedHead;
  }

  lemma StepLeftovers(cfg: Config, s: State, op: Op, peak: nat)
    requires LeftoversBelow(s, peak) && s.persistedBlock <= peak && Downward(s, op)
    ensures LeftoversBelow(Step(cfg, s, op), peak)
  {
    hide CommitStep, RevertStep, Restarted, ShutdownStep, TopRange, RootOfRows, DurableHead;
    match op
    case Commit(b) => CommitLeftovers(cfg, s, b, peak);
    case Revert(blocks) =>
      if blocks == map[] {
        NoRevert(cfg, s);
      } else {
        RevertLeftovers(cfg, s, blocks, peak);
      }
    case Stop =>
      Stopped(cfg, s);
      RestartDeltas(cfg, s);
    case Crash =>
      CrashedAt(cfg, s);
      RestartDeltas(cfg, s);
  }

  lemma {:induction false} RunLeftovers(cfg: Config, s: State, ops: seq<Op>, peak: nat)
    requires LeftoversBelow(s, peak) && DownwardSteps(cfg, s, ops) && Peak(cfg, s, ops) <= peak
    ensures LeftoversBelow(After(cfg, s, ops), peak)
    decreases |ops|
  {
    hide LeftoversBelow, Step, Downward;
    if ops != [] {
      StepLeftovers(cfg, s, ops[0], peak);
      RunLeftovers(cfg, Step(cfg, s, ops[0]), ops[1..], peak);
    }
  }

  /** Only once-persisted blocks leave lists behind: whatever the reverts went down to and failed
      commits in between, a list stored above the last block is numbered no higher than the
      highest block ever persisted. */
  lemma LeftoversOncePersisted(cfg: Config, ops: seq<Op>)
    requires DownwardSteps(cfg, FRESH, ops)
    ensures var s := After(cfg, FRESH, ops);
            forall n :: n in s.deltas && n > s.lastBlock ==> n <= Peak(cfg, FRESH, ops)
  {
    hide After, DownwardSteps, Peak;
    RunLeftovers(cfg, FRESH, ops, Peak(cfg, FRESH, ops));
  }
}
