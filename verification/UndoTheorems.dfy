/** Undo over whole runs: what a revert restores, when, and how far back. */
module UndoTheorems {
  import opened Types
  import opened Sorting
  import opened Ledger
  import opened StemRows
  import opened Tables
  import opened Index
  import opened NomtStore
  import opened Machine
  import opened LiveChain
  import opened Invariant
  import opened CommitKeeps
  import opened RevertKeeps
  import opened Runs
  import opened StepFacts
  import opened AnyRuns

  function Commits(blocks: seq<Block>): seq<Op> {
    seq(|blocks|, i requires 0 <= i < |blocks| => Commit(blocks[i]))
  }

  lemma {:induction false} CommitsExtendLive(cfg: Config, s: State, r: Reference, blocks: seq<Block>)
    requires AdmissibleRun(cfg, s, r, Commits(blocks))
    ensures Run(cfg, s, r, Commits(blocks)).1.live == r.live + blocks
    decreases |blocks|
  {
    hide CommitStep, CommitAdmissible;
    if blocks != [] {
      assert Commits(blocks)[1..] == Commits(blocks[1..]);
      CommitsExtendLive(cfg, Step(cfg, s, Commit(blocks[0])), CommitReference(cfg, s, r, blocks[0]), blocks[1..]);
      assert r.live + [blocks[0]] + blocks[1..] == r.live + blocks;
    }
  }

  /** Multi-block undo: after any run, commit any blocks, then revert a range that names all of
      them and nothing older. As long as no list of theirs was pruned, the map is what it was
      before them, wherever flushes fell, exactly when the lists replayed, leftovers included,
      are harmless to that map taken together. If the revert flushed, the saved root is that
      of the map it arrived at. */
  lemma MultiBlockUndo(cfg: Config, before: seq<Op>, blocks: seq<Block>, named: map<u64, B256>)
    requires ValidRun(cfg, before + Commits(blocks))
    requires named != map[] && Lowest(named) > Reached(cfg, before).0.lastBlock
    requires forall b :: b in blocks ==> b.number in named
    requires forall b :: b in blocks ==> Reached(cfg, before + Commits(blocks)).1.pruned <= b.number
    ensures var s, t := Reached(cfg, before).0, Reached(cfg, before + Commits(blocks)).0;
            var after := RevertStep(cfg, t, named);
            && (Logical(after) == Logical(s) <==> Harmless(Logical(s), AllSlots(t.deltas, Ascending(named))))
            && ((exists n :: n in named && n <= t.persistedBlock) ==>
                  after.head.Some? && after.head.value.root == cfg.rootOf(EntriesSorted(Logical(after))))
  {
    hide Inv, Commits, Logical, EntriesSorted, Run, AdmissibleRun, Lowest, LedgerOf, Harmless, AllSlots, RevertStep;
    var (s, r) := Reached(cfg, before);
    var (t, q) := Reached(cfg, before + Commits(blocks));
    ReachedInv(cfg, before + Commits(blocks));
    RangeNames(cfg, before, blocks, named);
    RevertExactly(cfg, t, q, named);
    if exists n :: n in named && n <= t.persistedBlock {
      FlushedRoot(cfg, t, named);
    }
  }

  /** Such a range names every live block from its lowest up, and ends at the map before them. */
  lemma RangeNames(cfg: Config, before: seq<Op>, blocks: seq<Block>, named: map<u64, B256>)
    requires ValidRun(cfg, before + Commits(blocks))
    requires named != map[] && Lowest(named) > Reached(cfg, before).0.lastBlock
    requires forall b :: b in blocks ==> b.number in named
    ensures var (s, r) := Reached(cfg, before);
            var (t, q) := Reached(cfg, before + Commits(blocks));
            && ValidRun(cfg, before) && Inv(cfg, s, r) && Inv(cfg, t, q)
            && AdmissibleRun(cfg, s, r, Commits(blocks)) && Run(cfg, s, r, Commits(blocks)) == (t, q)
            && q.live == r.live + blocks && Beneath(q, named) == r.live && Logical(s) == LedgerOf(r.live)
            && NamesTips(q.live, named)
            && ((forall b :: b in blocks ==> q.pruned <= b.number) ==> Unpruned(q, Lowest(named)))
  {
    hide Inv, Commits, Logical, Run, AdmissibleRun, Lowest, LedgerOf, Below;
    var (s, r) := Reached(cfg, before);
    var (t, q) := Reached(cfg, before + Commits(blocks));
    RunConcat(cfg, FRESH, START, before, Commits(blocks));
    ReachedInv(cfg, before);
    ReachedInv(cfg, before + Commits(blocks));
    CommitsExtendLive(cfg, s, r, blocks);
    LiveFacts(cfg, s, r);
    LiveFacts(cfg, t, q);
    assert forall b :: b in blocks ==> Lowest(named) <= b.number;
    CutBlocks(r.live, blocks, Lowest(named));
    assert forall i :: 0 <= i < |r.live| ==> q.live[i] == r.live[i];
    forall i | 0 <= i < |q.live| && Lowest(named) <= q.live[i].number ensures q.live[i] in blocks {
      assert q.live[i] == blocks[i - |r.live|];
    }
  }

  /** With no leftover list under any of the numbers, the same revert always restores the map. */
  lemma MultiBlockUndoClean(cfg: Config, before: seq<Op>, blocks: seq<Block>, named: map<u64, B256>)
    requires ValidRun(cfg, before + Commits(blocks))
    requires named != map[] && Lowest(named) > Reached(cfg, before).0.lastBlock
    requires forall b :: b in blocks ==> b.number in named
    requires forall b :: b in blocks ==> Reached(cfg, before + Commits(blocks)).1.pruned <= b.number
    requires forall n :: n in named ==> Slot(Reached(cfg, before).0.deltas, n) == []
    ensures var s, (t, q) := Reached(cfg, before).0, Reached(cfg, before + Commits(blocks));
            && Logical(RevertStep(cfg, t, named)) == Logical(s)
            && (Lowest(named) <= t.lastBlock + 1 ==> RevertAdmissible(t, q, named))
  {
    hide Inv, Commits, Logical, Run, AdmissibleRun, Lowest, LedgerOf, Slot, RevertStep, Below, Restores, NamesTips,
      OwnSlot, Reaches, Unpruned, AllSlots;
    var (s, r) := Reached(cfg, before);
    var (t, q) := Reached(cfg, before + Commits(blocks));
    RangeNames(cfg, before, blocks, named);
    forall n | n in named ensures Restores(t.deltas, q.live, n) {
      SlotStartsOwn(s.deltas, r.live, n);
      SlotStaysOwn(cfg, s, r, blocks, n);
      OwnSlotRestores(cfg, t, q, n, Lowest(named));
    }
    PlainFacts(cfg, t, q);
    SteppedReaches(t, q, named);
    RevertReachesExactly(cfg, t, LedgerOf(Beneath(q, named)), named);
  }

  lemma PlainFacts(cfg: Config, s: State, r: Reference)
    requires Inv(cfg, s, r)
    ensures Tips(s, r) && Contents(s, r) && Undoable(s.deltas, r)
  {
  }

  /** What is stored under `n` was stored by a live block. */
  ghost predicate OwnSlot(deltas: DeltaTable, live: seq<Block>, n: u64) {
    Slot(deltas, n) != [] ==>
      exists i :: 0 <= i < |live| && live[i].number == n && DeltasOf(LedgerOf(live[..i]), live[i].entries) != []
  }

  lemma SlotStartsOwn(deltas: DeltaTable, live: seq<Block>, n: u64)
    requires Slot(deltas, n) == []
    ensures OwnSlot(deltas, live, n)
  {
  }

  lemma CommitSlots(cfg: Config, s: State, r: Reference, b: Block, n: u64)
    requires Inv(cfg, s, r) && CommitAdmissible(s, b)
    ensures var t := CommitStep(cfg, s, b).0;
            Slot(t.deltas, n) != [] ==> Slot(t.deltas, n) == Slot(SavedDeltas(s, b), n)
  {
    hide Inv, SavedDeltas, CommitAdmissible, Stage, SaveAddresses, InsertAll, NewAddresses, UpdatesOf, Effective,
      FlushAll, SaveIndexHead;
    CommitKeepsInvariant(cfg, s, r, b);
    FlushKeepsDeltas(cfg, RecordStep(s, b).0);
  }

  lemma SlotOwnByCommit(cfg: Config, s: State, r: Reference, b: Block, n: u64)
    requires Inv(cfg, s, r) && CommitAdmissible(s, b) && OwnSlot(s.deltas, r.live, n)
    ensures OwnSlot(CommitStep(cfg, s, b).0.deltas, r.live + [b], n)
  {
    hide Consistency, CommitAdmissible, CommitStep, SavedDeltas, DeltasOf, LedgerOf, Slot, Logical;
    CommitSlots(cfg, s, r, b, n);
    SavedSlots(s, b);
    LiveLedger(cfg, s, r);
    var t, all := CommitStep(cfg, s, b).0, r.live + [b];
    assert all[..|r.live|] == r.live && all[|r.live|] == b;
    if Slot(t.deltas, n) != [] {
      if n == b.number && DeltasOf(Logical(s), b.entries) != [] {
        assert all[|r.live|].number == n;
      } else {
        SavedSame(s, b, n);
        var i :| 0 <= i < |r.live| && r.live[i].number == n && DeltasOf(LedgerOf(r.live[..i]), r.live[i].entries) != [];
        assert all[i] == r.live[i] && all[..i] == r.live[..i];
      }
    }
  }

  lemma SavedSame(s: State, b: Block, n: u64)
    requires n != b.number || DeltasOf(Logical(s), b.entries) == []
    ensures Slot(SavedDeltas(s, b), n) == Slot(s.deltas, n)
  {
    hide DeltasOf, Logical;
  }

  lemma LiveLedger(cfg: Config, s: State, r: Reference)
    requires Inv(cfg, s, r)
    ensures Logical(s) == LedgerOf(r.live)
  {
  }

  lemma {:induction false} SlotStaysOwn(cfg: Config, s: State, r: Reference, blocks: seq<Block>, n: u64)
    requires Inv(cfg, s, r) && AdmissibleRun(cfg, s, r, Commits(blocks)) && OwnSlot(s.deltas, r.live, n)
    ensures var (t, q) := Run(cfg, s, r, Commits(blocks)); OwnSlot(t.deltas, q.live, n)
    decreases |blocks|
  {
    hide Inv, CommitStep, CommitAdmissible, OwnSlot;
    if blocks != [] {
      var b := blocks[0];
      assert Commits(blocks)[1..] == Commits(blocks[1..]);
      CommitKeepsInvariant(cfg, s, r, b);
      SlotOwnByCommit(cfg, s, r, b, n);
      assert CommitReference(cfg, s, r, b).live == r.live + [b];
      SlotStaysOwn(cfg, CommitStep(cfg, s, b).0, CommitReference(cfg, s, r, b), blocks[1..], n);
    }
  }

  lemma OwnSlotRestores(cfg: Config, t: State, q: Reference, n: u64, lo: u64)
    requires Inv(cfg, t, q) && OwnSlot(t.deltas, q.live, n) && lo <= n && Unpruned(q, lo)
    ensures Restores(t.deltas, q.live, n)
  {
    hide Contents, HeadMatches, Covered, LedgerOf, DeltasOf, Harmless, Restores, Slot, Retained, Below;
    NothingHarmless(LedgerOf(Below(q.live, n)));
    if IsTip(q.live, n) {
      var i :| 0 <= i < |q.live| && q.live[i].number == n;
      NothingHarmless(LedgerOf(q.live[..i]));
      TipRestores(t.deltas, q.live, i);
    } else {
      NoTipRestores(t.deltas, q.live, n);
    }
  }

  lemma NothingHarmless(m: Ledger)
    ensures Harmless(m, [])
  {
  }

  lemma CutBlocks(live: seq<Block>, blocks: seq<Block>, lo: int)
    requires Increasing(live + blocks)
    requires forall i :: 0 <= i < |live| ==> live[i].number < lo
    requires forall b :: b in blocks ==> lo <= b.number
    ensures Below(live + blocks, lo) == live
  {
    var all := live + blocks;
    assert forall i :: 0 <= i < |live| ==> all[i] == live[i];
    forall i | |live| <= i < |all| ensures lo <= all[i].number {
      assert all[i] == blocks[i - |live|];
      assert all[i] in blocks;
    }
    BelowIs(all, lo, |live|);
    assert all[..|live|] == live;
  }

  /** What the invariant says in plain terms. */
  lemma LiveFacts(cfg: Config, s: State, r: Reference)
    requires Inv(cfg, s, r)
    ensures Increasing(r.live) && forall i :: 0 <= i < |r.live| ==> r.live[i].number <= s.lastBlock
    ensures Logical(s) == LedgerOf(r.live)
    ensures s.persistedBlock == s.lastBlock ==> Flatten(s.stems) == LedgerOf(r.live)
    ensures s.head.Some? ==> s.head.value.root == cfg.rootOf(EntriesSorted(Flatten(s.stems)))
  {
    BelowAll(r.live, s.lastBlock + 1);
  }

  /* ---- When reverting the newest chain restores, exactly ---- */

  /** What a commit leaves in its slot. */
  lemma CommitRecords(cfg: Config, s: State, r: Reference, b: Block)
    requires Inv(cfg, s, r)
    requires b.number > s.lastBlock && Consistent(s.index, UpdatesOf(b.entries))
    ensures CommitStep(cfg, s, b).1.Ok?
    ensures Logical(CommitStep(cfg, s, b).0) == PutAll(Logical(s), b.entries)
    ensures Slot(CommitStep(cfg, s, b).0.deltas, b.number) == Slot(SavedDeltas(s, b), b.number)
    ensures CommitStep(cfg, s, b).0.lastBlock == b.number
  {
    hide DeltasOf, Flatten, LedgerOf, UpdatesOf, NewAddresses, SaveAddresses, InsertAll, OverlayPut, BlockWrites,
      WriteAll, Undoable, RootOfRows, SavedDeltas;
    AddressCheckPasses(s.index, s.addresses, Effective(s).Keys, b.entries);
    InsertAllSucceeds(s.index, UpdatesOf(b.entries));
    InsertAllNeverShrinks(s.index, UpdatesOf(b.entries));
    OverlayPutRefines(s.stems, s.dirty, b.entries);
    var t := RecordStep(s, b).0;
    FlushedPlace(cfg, t);
    FlushLogical(cfg, t);
  }

  lemma {:induction false} NoSlots(deltas: DeltaTable, ns: seq<u64>)
    requires forall n :: n in ns ==> Slot(deltas, n) == []
    ensures AllSlots(deltas, ns) == []
    decreases |ns|
  {
    if ns != [] {
      assert ns == ns[..|ns| - 1] + [ns[|ns| - 1]];
      NoSlots(deltas, ns[..|ns| - 1]);
    }
  }

  /** When one number alone has a list, that list is all there is to replay. */
  lemma {:induction false} OneSlot(deltas: DeltaTable, ns: seq<u64>, tip: u64)
    requires StrictlySorted(ns) && tip in ns && forall n :: n in ns && n != tip ==> Slot(deltas, n) == []
    ensures AllSlots(deltas, ns) == Slot(deltas, tip)
    decreases |ns|
  {
    hide Slot;
    var front, last := ns[..|ns| - 1], ns[|ns| - 1];
    assert ns == front + [last];
    if last == tip {
      NoSlots(deltas, front);
    } else {
      OneSlot(deltas, front, tip);
    }
  }

  /** Committing `b`, the tip of a chain, and reverting the numbers of that chain restores the
      map exactly when the lists then stored under them are harmless to it taken together; with
      nothing stored under the other numbers, exactly when `b` changed some value or the list
      already in its slot was harmless. */
  lemma CommitThenRevertExactly(cfg: Config, s: State, r: Reference, b: Block, blocks: map<u64, B256>)
    requires Inv(cfg, s, r) && CommitAdmissible(s, b)
    requires b.number in blocks && Lowest(blocks) > s.lastBlock
    ensures var t := CommitStep(cfg, s, b).0;
            var restored := Logical(RevertStep(cfg, t, blocks)) == Logical(s);
            && (restored <==> Harmless(Logical(s), AllSlots(t.deltas, Ascending(blocks))))
            && ((forall n :: n in blocks && n != b.number ==> Slot(t.deltas, n) == []) ==>
                  (restored <==> DeltasOf(Logical(s), b.entries) != [] || Harmless(Logical(s), Slot(s.deltas, b.number))))
  {
    hide Inv, CommitAdmissible, CommitStep, RevertStep, CommitReference, Logical, Harmless, AllSlots, DeltasOf, Lowest,
      Slot, LedgerOf, Beneath, NamesTips, Unpruned;
    CommitKeepsInvariant(cfg, s, r, b);
    ChainNames(cfg, s, r, b, blocks);
    RevertExactly(cfg, CommitStep(cfg, s, b).0, CommitReference(cfg, s, r, b), blocks);
    if forall n :: n in blocks && n != b.number ==> Slot(CommitStep(cfg, s, b).0.deltas, n) == [] {
      LoneTip(cfg, s, r, b, Ascending(blocks));
    }
  }

  /** With nothing stored under the other numbers, the block's own list, or the one that was
      there before it, is all a revert replays. */
  lemma LoneTip(cfg: Config, s: State, r: Reference, b: Block, ns: seq<u64>)
    requires Inv(cfg, s, r) && CommitAdmissible(s, b) && StrictlySorted(ns) && b.number in ns
    requires forall n :: n in ns && n != b.number ==> Slot(CommitStep(cfg, s, b).0.deltas, n) == []
    ensures Harmless(Logical(s), AllSlots(CommitStep(cfg, s, b).0.deltas, ns))
       <==> DeltasOf(Logical(s), b.entries) != [] || Harmless(Logical(s), Slot(s.deltas, b.number))
  {
    hide Inv, CommitStep, Logical, Harmless, AllSlots, DeltasOf, Slot, SavedDeltas, Consistent;
    OneSlot(CommitStep(cfg, s, b).0.deltas, ns, b.number);
    CommitRecords(cfg, s, r, b);
    OwnListHarmless(Logical(s), b.entries);
    SavedSlots(s, b);
    if DeltasOf(Logical(s), b.entries) == [] {
      SavedSame(s, b, b.number);
    }
  }

  /** A block's undo records hold the values of the map they were taken from. */
  lemma OwnListHarmless(m: Ledger, entries: seq<Entry>)
    ensures Harmless(m, DeltasOf(m, entries))
  {
    hide Undo, PutAll, DeltasOf, Harmless;
    UndoRestores(m, entries);
    UndoReachesExactly(PutAll(m, entries), m, DeltasOf(m, entries));
  }

  lemma ChainNames(cfg: Config, s: State, r: Reference, b: Block, blocks: map<u64, B256>)
    requires Inv(cfg, s, r) && CommitAdmissible(s, b)
    requires b.number in blocks && Lowest(blocks) > s.lastBlock
    ensures var q := CommitReference(cfg, s, r, b);
            && NamesTips(q.live, blocks) && Unpruned(q, Lowest(blocks))
            && Beneath(q, blocks) == r.live && Logical(s) == LedgerOf(r.live)
  {
    hide Logical, LedgerOf, HeadMatches, Undoable, Covered, Lowest, Consistent, Below;
    var all := r.live + [b];
    assert all[..|r.live|] == r.live && all[|r.live|] == b;
    assert forall i :: 0 <= i < |r.live| ==> all[i] == r.live[i];
    BelowIs(all, Lowest(blocks), |r.live|);
  }

  /** Reverting the numbers of the newest live chain, up to its tip and above every older tip,
      restores the map below it exactly when the lists replayed are harmless there, or, once
      its list was pruned, when it had changed nothing overall. */
  lemma TopRevertExactly(cfg: Config, ops: seq<Op>, blocks: map<u64, B256>)
    requires ValidRun(cfg, ops) && Reached(cfg, ops).1.live != [] && blocks != map[]
    requires var live := Reached(cfg, ops).1.live;
             var k := |live| - 1;
             && live[k].number in blocks && (forall n :: n in blocks ==> n <= live[k].number)
             && (forall i :: 0 <= i < k ==> live[i].number < Lowest(blocks))
    ensures var (s, r) := Reached(cfg, ops);
            var k := |r.live| - 1;
            var base := LedgerOf(r.live[..k]);
            Logical(RevertStep(cfg, s, blocks)) == base
            <==> if r.pruned <= r.live[k].number then Harmless(base, AllSlots(s.deltas, Ascending(blocks)))
                 else LedgerOf(r.live) == base
  {
    hide Inv, Run, AdmissibleRun, Logical, LedgerOf, Harmless, AllSlots, RevertStep, Lowest, Below;
    ReachedInv(cfg, ops);
    var (s, r) := Reached(cfg, ops);
    var k := |r.live| - 1;
    LiveFacts(cfg, s, r);
    BelowIs(r.live, Lowest(blocks), k);
    if r.pruned <= r.live[k].number {
      RevertExactly(cfg, s, r, blocks);
    } else {
      PrunedSlots(cfg, s, r, Ascending(blocks));
      RevertReplays(cfg, s, blocks);
    }
  }

  lemma PrunedSlots(cfg: Config, s: State, r: Reference, ns: seq<u64>)
    requires Inv(cfg, s, r) && forall n :: n in ns ==> n < r.pruned
    ensures AllSlots(s.deltas, ns) == []
  {
    hide Tips, Contents, HeadMatches, Covered, AllSlots;
    NoSlots(s.deltas, ns);
  }

  /* ---- Retention ---- */

  /** A live block `n` is below the pruning bound exactly when it left the window since it was committed. */
  ghost predicate BoundTracks(cfg: Config, r: Reference, n: u64, since: nat) {
    IsTip(r.live, n) ==> (n < r.pruned <==> since > n + cfg.deltaRetention)
  }

  lemma BoundTracksCommit(cfg: Config, s: State, r: Reference, b: Block, n: u64, since: nat)
    requires Tips(s, r) && b.number > s.lastBlock && CommitStep(cfg, s, b).1.Ok? && BoundTracks(cfg, r, n, since)
    ensures BoundTracks(cfg, CommitReference(cfg, s, r, b), n, SinceStep(cfg, s, Commit(b), n, since))
  {
    hide ShouldFlush, CommitStep;
    var all := r.live + [b];
    if b.number != n && IsTip(all, n) {
      var i :| 0 <= i < |all| && all[i].number == n;
      assert i < |r.live| && all[i] == r.live[i];
    }
  }

  lemma BoundTracksCut(cfg: Config, r: Reference, lo: nat, pruned: nat, n: u64, since: nat)
    requires Increasing(r.live) && BoundTracks(cfg, r, n, since)
    requires pruned <= r.pruned && (pruned < r.pruned ==> lo <= pruned)
    ensures BoundTracks(cfg, Reference(Below(r.live, lo), pruned), n, since)
  {
    hide Below;
    BelowSpec(r.live, lo);
    var live := Below(r.live, lo);
    if IsTip(live, n) {
      var i :| 0 <= i < |live| && live[i].number == n;
      assert r.live[i] == live[i];
    }
  }

  lemma BoundTracksStep(cfg: Config, s: State, r: Reference, op: Op, n: u64, since: nat)
    requires Inv(cfg, s, r) && Admissible(s, r, op) && BoundTracks(cfg, r, n, since)
    ensures BoundTracks(cfg, ReferenceStep(cfg, s, r, op), n, SinceStep(cfg, s, op, n, since))
  {
    hide Consistency, BoundTracks, CommitReference, Below, Lowest, Reaches, AllSlots, Consistent, ShouldFlush, ReadHead,
      Logical, LedgerOf, Ascending, UpdatesOf, CommitStep;
    assert Tips(s, r) by { PlainFacts(cfg, s, r); }
    match op
    case Commit(b) =>
      CommitKeepsInvariant(cfg, s, r, b);
      BoundTracksCommit(cfg, s, r, b, n, since);
    case Revert(blocks) =>
      if blocks != map[] {
        BoundTracksCut(cfg, r, Lowest(blocks), Cut(r, Lowest(blocks)).pruned, n, since);
      }
    case Stop =>
    case Crash => BoundTracksCut(cfg, r, s.persistedBlock + 1, r.pruned, n, since);
  }

  lemma {:induction false} BoundTracksRun(cfg: Config, s: State, r: Reference, ops: seq<Op>, n: u64, since: nat)
    requires Inv(cfg, s, r) && AdmissibleRun(cfg, s, r, ops) && BoundTracks(cfg, r, n, since)
    ensures BoundTracks(cfg, Run(cfg, s, r, ops).1, n, FlushedSince(cfg, s, ops, n, since))
    decreases |ops|
  {
    hide Inv, BoundTracks, Step, ReferenceStep, Admissible, SinceStep;
    if ops != [] {
      StepKeepsInvariant(cfg, s, r, ops[0]);
      BoundTracksStep(cfg, s, r, ops[0], n, since);
      BoundTracksRun(cfg, Step(cfg, s, ops[0]), ReferenceStep(cfg, s, r, ops[0]), ops[1..], n,
                     SinceStep(cfg, s, ops[0], n, since));
    }
  }

  /** Retention, exactly: over any run a live block that changed something still has its own
      undo list if and only if no commit since it flushed more than `delta_retention` above it. */
  lemma RetentionExactly(cfg: Config, ops: seq<Op>, i: nat)
    requires ValidRun(cfg, ops) && i < |Reached(cfg, ops).1.live|
    requires var live := Reached(cfg, ops).1.live; DeltasOf(LedgerOf(live[..i]), live[i].entries) != []
    ensures var (s, r) := Reached(cfg, ops);
            var n := r.live[i].number;
            Slot(s.deltas, n) == DeltasOf(LedgerOf(r.live[..i]), r.live[i].entries)
            <==> FlushedSince(cfg, FRESH, ops, n, 0) <= n + cfg.deltaRetention
  {
    hide Run, AdmissibleRun, FlushedSince, LedgerOf, DeltasOf, Covered, Contents, HeadMatches;
    FreshHolds(cfg);
    ReachedInv(cfg, ops);
    var (s, r) := Reached(cfg, ops);
    var n := r.live[i].number;
    BoundTracksRun(cfg, FRESH, START, ops, n, 0);
    assert IsTip(r.live, n);
    if r.pruned <= n {
      assert Retained(s.deltas, r.live, i);
    } else {
      assert n !in s.deltas;
    }
  }

  /** Retention: every live block that changed something and lies within
      `delta_retention` of the highest flushed block still has its own undo list. */
  lemma RetentionGuarantee(cfg: Config, ops: seq<Op>, i: nat)
    requires ValidRun(cfg, ops) && i < |Reached(cfg, ops).1.live|
    requires Reached(cfg, ops).1.live[i].number + cfg.deltaRetention >= HighestFlushed(cfg, FRESH, ops)
    ensures var (s, r) := Reached(cfg, ops);
            var list := DeltasOf(LedgerOf(r.live[..i]), r.live[i].entries);
            list != [] ==> Slot(s.deltas, r.live[i].number) == list
  {
    hide Run, AdmissibleRun, HighestFlushed, FlushedSince, LedgerOf, DeltasOf, Slot;
    var r := Reached(cfg, ops).1;
    SinceAtMostHighest(cfg, FRESH, ops, r.live[i].number, 0);
    if DeltasOf(LedgerOf(r.live[..i]), r.live[i].entries) != [] {
      RetentionExactly(cfg, ops, i);
    }
  }

  lemma PrunedByStep(cfg: Config, s: State, r: Reference, op: Op)
    requires Inv(cfg, s, r) && Admissible(s, r, op)
    ensures var bound := FlushedAt(cfg, s, op) - cfg.deltaRetention;
            ReferenceStep(cfg, s, r, op).pruned <= if bound > r.pruned then bound else r.pruned
  {
    hide Inv, CommitStep, CommitAdmissible, Below, Lowest, ShouldFlush;
    if op.Commit? {
      CommitKeepsInvariant(cfg, s, r, op.block);
    }
  }

  /** The pruning bound never passes the highest flushed block minus `delta_retention`. */
  lemma {:induction false} PrunedAtMost(cfg: Config, s: State, r: Reference, ops: seq<Op>)
    requires Inv(cfg, s, r) && AdmissibleRun(cfg, s, r, ops)
    ensures var bound := HighestFlushed(cfg, s, ops) - cfg.deltaRetention;
            Run(cfg, s, r, ops).1.pruned <= if bound > r.pruned then bound else r.pruned
    decreases |ops|
  {
    hide Inv, Step, ReferenceStep, Admissible, FlushedAt;
    if ops != [] {
      PrunedByStep(cfg, s, r, ops[0]);
      StepKeepsInvariant(cfg, s, r, ops[0]);
      PrunedAtMost(cfg, Step(cfg, s, ops[0]), ReferenceStep(cfg, s, r, ops[0]), ops[1..]);
    }
  }

  /* ---- The persisted rows ---- */

  /** Between any two operations of an admissible run the stored rows are the live chain up to
      the saved block, and the saved root is that chain's. (That it is the root of the rows takes
      no condition on the run, see `AnyRuns.StartUpVerifies`.) */
  lemma PersistedRoot(cfg: Config, ops: seq<Op>)
    requires ValidRun(cfg, ops) && Reached(cfg, ops).0.head.Some?
    ensures var (s, r) := Reached(cfg, ops);
            var kept := LedgerOf(Below(r.live, s.head.value.number + 1));
            Flatten(s.stems) == kept && s.head.value.root == cfg.rootOf(EntriesSorted(kept))
  {
    hide Run, LedgerOf, EntriesSorted, Covered, Undoable, Below, Flatten, Tips, ResumedAt, AdmissibleRun;
    ReachedInv(cfg, ops);
  }
}
