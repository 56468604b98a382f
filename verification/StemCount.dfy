/** What stem_count counts, and what crashes do to it: it is saved only with a
    head while the key index grows at every commit. */
module StemCount {
  import opened Types
  import opened Ledger
  import opened StemRows
  import opened Tables
  import opened Index
  import opened NomtStore
  import opened Machine
  import opened LiveChain
  import opened Invariant
  import opened CommitKeeps
  import opened RevertKeeps
  import opened Runs
  import opened StepFacts
  import opened AnyRuns

  ghost predicate CrashFree(ops: seq<Op>) {
    forall i :: 0 <= i < |ops| ==> ops[i] != Crash
  }

  /* ---- Counter and index move together ---- */

  lemma FailedCounts(cfg: Config, s: State, b: Block)
    requires CommitStep(cfg, s, b).1.Err?
    ensures var t := CommitStep(cfg, s, b).0; t.stemCount == s.stemCount && t.index == s.index && t.head == s.head
  {
    hide Stage, SaveAddresses, NewAddresses, InsertAll, UpdatesOf, SavedDeltas, Effective, FlushAll, Prune, SaveIndexHead;
    StageTables(s, b);
    StageCount(s, b);
  }

  lemma StageCount(s: State, b: Block)
    ensures Stage(s, b).stemCount == s.stemCount && Stage(s, b).head == s.head
  {
  }

  /** Operations other than a crash move the counter and the index together, failed commits included. */
  lemma CountMoves(cfg: Config, s: State, op: Op)
    requires op != Crash && DurableHead(s).stemCount <= s.stemCount
    ensures var t := Step(cfg, s, op);
            t.stemCount - |t.index| == s.stemCount - |s.index| && DurableHead(t).stemCount <= t.stemCount
  {
    hide CommitStep, RevertStep, Restarted, ShutdownStep, EntriesSorted, Flatten;
    match op
    case Commit(b) => CommitMoves(cfg, s, b);
    case Revert(blocks) => RevertMoves(cfg, s, blocks);
    case Stop => Stopped(cfg, s);
  }

  lemma CommitMoves(cfg: Config, s: State, b: Block)
    requires DurableHead(s).stemCount <= s.stemCount
    ensures var t := CommitStep(cfg, s, b).0;
            t.stemCount - |t.index| == s.stemCount - |s.index| && DurableHead(t).stemCount <= t.stemCount
  {
    hide CommitStep, ShouldFlush, PutAll, EntriesSorted, InsertAll, UpdatesOf;
    if CommitStep(cfg, s, b).1.Ok? {
      CommitOutcome(cfg, s, b);
      CommitTables(cfg, s, b);
      InsertAllNeverShrinks(s.index, UpdatesOf(b.entries));
    } else {
      FailedCounts(cfg, s, b);
    }
  }

  lemma RevertMoves(cfg: Config, s: State, blocks: map<u64, B256>)
    requires DurableHead(s).stemCount <= s.stemCount
    ensures var t := RevertStep(cfg, s, blocks);
            t.stemCount == s.stemCount && t.index == s.index && DurableHead(t).stemCount <= t.stemCount
  {
    hide Unwound, UndoBlocks, Rewound, FlushAll, Lowest, Ascending, RolledBack;
    if blocks != map[] {
      UnwoundPlace(cfg, s, blocks);
      FlushCounts(cfg, Unwound(s, blocks));
      FlushAllRows(cfg, Unwound(s, blocks));
    }
  }

  /** Neither the saved count nor the one in memory passes the number of indexed stems. */
  ghost predicate CountBelow(s: State) {
    DurableHead(s).stemCount <= s.stemCount <= |s.index|
  }

  lemma StepBelow(cfg: Config, s: State, op: Op)
    requires CountBelow(s)
    ensures CountBelow(Step(cfg, s, op))
  {
    hide CommitStep, RevertStep, RestartStep, ShutdownStep, DurableHead;
    if op != Crash {
      CountMoves(cfg, s, op);
    } else if RestartStep(cfg, s).Ok? {
      RestartCount(cfg, s);
    }
  }

  lemma {:induction false} RunBelow(cfg: Config, s: State, ops: seq<Op>)
    requires CountBelow(s)
    ensures CountBelow(After(cfg, s, ops))
    decreases |ops|
  {
    hide CountBelow, Step;
    if ops != [] {
      StepBelow(cfg, s, ops[0]);
      RunBelow(cfg, Step(cfg, s, ops[0]), ops[1..]);
    }
  }

  lemma {:induction false} RunMoves(cfg: Config, s: State, ops: seq<Op>)
    requires CrashFree(ops) && DurableHead(s).stemCount <= s.stemCount
    ensures var t := After(cfg, s, ops); t.stemCount - |t.index| == s.stemCount - |s.index|
    decreases |ops|
  {
    hide Step;
    if ops != [] {
      assert ops[0] != Crash;
      CountMoves(cfg, s, ops[0]);
      assert CrashFree(ops[1..]);
      RunMoves(cfg, Step(cfg, s, ops[0]), ops[1..]);
    }
  }

  /* ---- The stems themselves ---- */

  /** The counter, the key index and the effective table agree on the stems. */
  ghost predicate Counted(s: State) {
    && s.stemCount == |s.index|
    && Effective(s).Keys == s.index.Keys
  }

  lemma UpdateStemsAreStems(entries: seq<Entry>)
    ensures UpdateStems(UpdatesOf(entries)) == StemsOf(entries)
  {
    UpdateOfEntry(entries);
    var us := UpdatesOf(entries);
    forall s ensures s in UpdateStems(us) <==> s in StemsOf(entries) {
      if s in UpdateStems(us) {
        var u :| u in us && u.key.stem == s;
        var e :| e in entries && u == Update(e.key, e.address);
      }
      if s in StemsOf(entries) {
        var e :| e in entries && e.key.stem == s;
        assert Update(e.key, e.address) in us;
      }
    }
  }

  lemma CommitCounted(cfg: Config, s: State, b: Block)
    requires Counted(s) && CommitStep(cfg, s, b).1.Ok?
    ensures Counted(CommitStep(cfg, s, b).0)
  {
    hide CommitStep, UpdatesOf, InsertAll, NewAddresses, SaveAddresses, Effective, PutAll, EntriesSorted, Logical;
    CommitOutcome(cfg, s, b);
    CommitTables(cfg, s, b);
    InsertAllGrows(s.index, UpdatesOf(b.entries));
    UpdateStemsAreStems(b.entries);
  }

  lemma {:induction false} UndoKeepsKeys(s: State, ns: seq<u64>)
    requires DeltasKnown(s.index, s.addresses, s.deltas) && s.index.Keys <= Effective(s).Keys
    ensures Effective(UndoBlocks(s, ns)).Keys == Effective(s).Keys
    decreases |ns|
  {
    if ns != [] {
      hide OverlayUndo, KeyKnown;
      var n, front := ns[|ns| - 1], ns[..|ns| - 1];
      var t := UndoBlock(s, n);
      OverlayUndoKeys(s.stems, s.dirty, Slot(s.deltas, n));
      forall stem | stem in DeltaStems(Slot(s.deltas, n)) ensures stem in s.index {
        var d :| d in Slot(s.deltas, n) && d.key.stem == stem;
        KnownIsIndexed(s, d.key);
      }
      UndoKeepsKeys(t, front);
    }
  }

  lemma KnownIsIndexed(s: State, key: TreeKey)
    requires KeyKnown(s.index, s.addresses, key)
    ensures key.stem in s.index
  {
  }

  lemma IndexedDeltas(s: State)
    requires Indexed(s)
    ensures DeltasKnown(s.index, s.addresses, s.deltas)
  {
  }

  lemma RevertCounted(cfg: Config, s: State, blocks: map<u64, B256>)
    requires Indexed(s) && Counted(s) && blocks != map[]
    ensures Counted(RevertStep(cfg, s, blocks))
  {
    hide Indexed, Unwound, UndoBlocks, RevertStep, FlushAll, Lowest, RolledBack, DeltasKnown;
    IndexedDeltas(s);
    UnwoundPlace(cfg, s, blocks);
    UnwoundFrame(s, blocks);
    UndoKeepsKeys(s.(nomt := RolledBack(s.nomt, |blocks|)), Ascending(blocks));
    FlushCounts(cfg, Unwound(s, blocks));
  }

  lemma StopCounted(cfg: Config, s: State)
    requires Counted(s)
    ensures Counted(Restarted(cfg, ShutdownStep(cfg, s)))
  {
    hide ShutdownStep, Restarted, RootOfRows;
    Stopped(cfg, s);
  }

  /* ---- The stored rows ---- */

  /** The count a restart would read is that of the stored rows. */
  ghost predicate RowsCounted(s: State) {
    DurableHead(s).stemCount == |s.stems|
  }

  /** After a flush every stem ever seen has a row. */
  lemma FlushedRowsCounted(t: State)
    requires Counted(t) && t.dirty == map[] && t.head.Some? && t.head.value.stemCount == t.stemCount
    ensures RowsCounted(t)
  {
    assert Effective(t) == t.stems;
    assert |t.stems| == |t.stems.Keys| && |t.index| == |t.index.Keys|;
  }

  lemma SameRowsCounted(s: State, t: State)
    requires RowsCounted(s) && t.stems == s.stems && t.head == s.head
    ensures RowsCounted(t)
  {
  }

  lemma CommitRowsCounted(cfg: Config, s: State, b: Block)
    requires Counted(s) && RowsCounted(s) && CommitStep(cfg, s, b).1.Ok?
    ensures RowsCounted(CommitStep(cfg, s, b).0)
  {
    hide Counted, RowsCounted, CommitStep, ShouldFlush, PutAll, EntriesSorted, OverlayPut;
    var t := CommitStep(cfg, s, b).0;
    CommitCounted(cfg, s, b);
    CommitOutcome(cfg, s, b);
    if ShouldFlush(cfg, s, b.number) {
      FlushedCommit(cfg, s, b);
      FlushedRowsCounted(t);
    } else {
      UnflushedCommit(cfg, s, b);
      SameRowsCounted(s, t);
    }
  }

  lemma RevertRowsCounted(cfg: Config, s: State, blocks: map<u64, B256>)
    requires Indexed(s) && Counted(s) && RowsCounted(s) && blocks != map[]
    ensures RowsCounted(RevertStep(cfg, s, blocks))
  {
    hide Indexed, Counted, RowsCounted, RevertStep, Unwound, FlushAll, Lowest;
    var t := Unwound(s, blocks);
    UnwoundPlace(cfg, s, blocks);
    RevertCounted(cfg, s, blocks);
    FlushAllRows(cfg, t);
    if Lowest(blocks) <= s.persistedBlock {
      FlushedRowsCounted(FlushAll(cfg, t));
    } else {
      SameRowsCounted(s, t);
    }
  }

  lemma StopRowsCounted(cfg: Config, s: State)
    requires Counted(s)
    ensures RowsCounted(Restarted(cfg, ShutdownStep(cfg, s)))
  {
    hide ShutdownStep, Restarted, RootOfRows, Counted, RowsCounted;
    StopCounted(cfg, s);
    Stopped(cfg, s);
    FlushedRowsCounted(Restarted(cfg, ShutdownStep(cfg, s)));
  }

  lemma StepCounted(cfg: Config, s: State, op: Op)
    requires Indexed(s) && Counted(s) && OneAddress(s, op) && op != Crash
    ensures Counted(Step(cfg, s, op))
    ensures RowsCounted(s) ==> RowsCounted(Step(cfg, s, op))
  {
    hide Indexed, Counted, RowsCounted, Consistent, UpdatesOf, CommitStep, RevertStep, Restarted, ShutdownStep;
    match op
    case Commit(b) =>
      CommitIndexed(cfg, s, b);
      CommitCounted(cfg, s, b);
      if RowsCounted(s) { CommitRowsCounted(cfg, s, b); }
    case Revert(blocks) =>
      if blocks == map[] {
        NoRevert(cfg, s);
      } else {
        RevertCounted(cfg, s, blocks);
        if RowsCounted(s) { RevertRowsCounted(cfg, s, blocks); }
      }
    case Stop =>
      StopCounted(cfg, s);
      StopRowsCounted(cfg, s);
  }

  lemma {:induction false} RunCounted(cfg: Config, s: State, ops: seq<Op>)
    requires Indexed(s) && Counted(s) && OneAddressRun(cfg, s, ops) && CrashFree(ops)
    ensures Counted(After(cfg, s, ops))
    decreases |ops|
  {
    hide Indexed, Counted, Step, OneAddress;
    if ops != [] {
      assert ops[0] != Crash;
      StepCounted(cfg, s, ops[0]);
      StepIndexed(cfg, s, ops[0]);
      assert CrashFree(ops[1..]);
      RunCounted(cfg, Step(cfg, s, ops[0]), ops[1..]);
    }
  }

  /** Without crashes stem_count is the number of stems in the key index, whatever the commits,
      reverts and clean restarts; while each stem keeps one address, these are the stems of
      overlay and MDBX together. */
  lemma StemCountExact(cfg: Config, ops: seq<Op>)
    requires CrashFree(ops)
    ensures var s := After(cfg, FRESH, ops);
            && s.stemCount == |s.index|
            && (OneAddressRun(cfg, FRESH, ops) ==> s.stems.Keys + s.dirty.Keys == s.index.Keys)
  {
    hide After, OneAddressRun, Indexed;
    RunMoves(cfg, FRESH, ops);
    if OneAddressRun(cfg, FRESH, ops) {
      FreshIndexed();
      assert Effective(FRESH).Keys == {};
      RunCounted(cfg, FRESH, ops);
      var s := After(cfg, FRESH, ops);
      assert Effective(s).Keys == s.stems.Keys + s.dirty.Keys;
    }
  }

  /* ---- Crashes ---- */

  /** Some crash of the run finds a stem in the overlay that has no row. */
  ghost predicate LosesStems(cfg: Config, s: State, ops: seq<Op>)
    decreases |ops|
  {
    ops != [] && (LostNow(s, ops[0]) || LosesStems(cfg, Step(cfg, s, ops[0]), ops[1..]))
  }

  ghost predicate LostNow(s: State, op: Op) {
    op == Crash && !(s.dirty.Keys <= s.stems.Keys)
  }

  /** The counter is exact until a stem is lost, and short for good from then on. */
  ghost predicate CountTracks(cfg: Config, s: State, lost: bool) {
    && Indexed(s) && RootSaved(cfg, s) && DurableHead(s).stemCount <= s.stemCount
    && if lost then s.stemCount < |s.index| else Counted(s) && RowsCounted(s)
  }

  /** A set of rows counts as many stems as the index that contains them exactly when it is the whole index. */
  lemma SubsetSize(small: set<Stem>, large: set<Stem>)
    requires small <= large
    ensures |small| <= |large| && (|small| == |large| <==> small == large)
  {
    assert large == small + (large - small);
    assert |large| == |small| + |large - small|;
  }

  /** The rows are short of the index exactly when the overlay holds a stem without a row. */
  lemma RowsShort(s: State)
    requires Counted(s)
    ensures |s.stems| <= |s.index| && (|s.stems| == |s.index| <==> s.dirty.Keys <= s.stems.Keys)
    ensures s.dirty.Keys <= s.stems.Keys ==> s.stems.Keys == s.index.Keys
  {
    assert Effective(s).Keys == s.stems.Keys + s.dirty.Keys;
    assert |s.stems| == |s.stems.Keys| && |s.index| == |s.index.Keys|;
    SubsetSize(s.stems.Keys, s.index.Keys);
  }

  lemma RestartedCounts(s: State, t: State)
    requires t.stemCount == |s.stems| == |s.index| && s.stems.Keys == s.index.Keys && DurableHead(t).stemCount == |s.stems|
    requires t.index == s.index && t.stems == s.stems && t.dirty == map[]
    ensures Counted(t) && RowsCounted(t)
  {
    assert Effective(t) == s.stems;
  }

  lemma CrashTracks(cfg: Config, s: State, lost: bool)
    requires CountTracks(cfg, s, lost)
    ensures CountTracks(cfg, Restarted(cfg, s), lost || LostNow(s, Crash))
  {
    hide Indexed, RootSaved, RestartStep, Restarted, DurableHead, Effective, Counted;
    RestartsAnyway(cfg, s);
    RestartIndexed(cfg, s);
    CrashStep(cfg, s);
    StepSavesRoot(cfg, s, Crash);
    RestartCount(cfg, s);
    if !lost {
      RowsShort(s);
      if !LostNow(s, Crash) {
        RestartedCounts(s, Restarted(cfg, s));
      }
    }
  }

  lemma RestartsAnyway(cfg: Config, s: State)
    requires RootSaved(cfg, s)
    ensures RestartStep(cfg, s).Ok?
  {
    hide RootOfRows, SyncedNomt, SyncedHead;
  }

  lemma StepTracks(cfg: Config, s: State, op: Op, lost: bool)
    requires CountTracks(cfg, s, lost) && OneAddress(s, op)
    ensures CountTracks(cfg, Step(cfg, s, op), lost || LostNow(s, op))
  {
    hide Indexed, RootSaved, Step, OneAddress, Counted, RowsCounted, DurableHead;
    if op == Crash {
      CrashStep(cfg, s);
      CrashTracks(cfg, s, lost);
    } else {
      CountMoves(cfg, s, op);
      StepIndexed(cfg, s, op);
      StepSavesRoot(cfg, s, op);
      if !lost {
        StepCounted(cfg, s, op);
      }
    }
  }

  lemma {:induction false} RunTracks(cfg: Config, s: State, ops: seq<Op>, lost: bool)
    requires CountTracks(cfg, s, lost) && OneAddressRun(cfg, s, ops)
    ensures CountTracks(cfg, After(cfg, s, ops), lost || LosesStems(cfg, s, ops))
    decreases |ops|
  {
    hide CountTracks, Step, OneAddress, LostNow;
    if ops != [] {
      StepTracks(cfg, s, ops[0], lost);
      RunTracks(cfg, Step(cfg, s, ops[0]), ops[1..], lost || LostNow(s, ops[0]));
    }
  }

  /** After any operations stem_count is at most the number of indexed stems. While each stem
      keeps one address it equals that number exactly when no crash found an overlay stem
      without a row: a lost stem stays lost. */
  lemma StemCountExactly(cfg: Config, ops: seq<Op>)
    ensures var s := After(cfg, FRESH, ops);
            && s.stemCount <= |s.index|
            && (OneAddressRun(cfg, FRESH, ops) ==> (s.stemCount == |s.index| <==> !LosesStems(cfg, FRESH, ops)))
  {
    hide After, OneAddressRun, Indexed, LosesStems;
    RunBelow(cfg, FRESH, ops);
    if OneAddressRun(cfg, FRESH, ops) {
      FreshIndexed();
      assert Effective(FRESH).Keys == {};
      RunTracks(cfg, FRESH, ops, false);
    }
  }
}
