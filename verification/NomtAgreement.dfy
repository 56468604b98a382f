/** Runs of single-block notifications: NOMT, with its own rollback by count,
    stays equal to the overlay over MDBX. */
module NomtAgreement {
  import opened Types
  import opened Sorting
  import opened Ledger
  import opened StemRows
  import opened Tables
  import opened Index
  import opened NomtStore
  import opened Machine
  import opened LiveChain
  import opened Invariant
  import opened CommitKeeps
  import opened RevertKeeps
  import opened Runs
  import opened StepFacts
  import opened AnyRuns

  /** The NOMT commits of a chain, one snapshot per block on top of the empty store. */
  function NomtOf(live: seq<Block>): (stack: Stack)
    ensures |stack| == |live| + 1
    decreases |live|
  {
    if live == [] then [map[]]
    else
      var below := NomtOf(live[..|live| - 1]);
      below + [WriteAll(Top(below), BlockWrites(live[|live| - 1]))]
  }

  /** NOMT holds exactly the live chain, whose blocks are numbered 1, 2, 3, ... */
  ghost predicate NomtInv(s: State, r: Reference) {
    && s.nomt == NomtOf(r.live)
    && s.lastBlock == |r.live|
    && (forall i :: 0 <= i < |r.live| ==> r.live[i].number == i + 1)
  }

  /** Every notification carries consecutive single blocks, every revert goes down from the
      tip to where the stored lists lead; stops and crashes come at any time. */
  ghost predicate SingleBlock(s: State, r: Reference, op: Op) {
    match op
    case Commit(b) => b.number == s.lastBlock + 1 && CommitAdmissible(s, b)
    case Revert(blocks) => blocks != map[] ==> TopRange(s, blocks) && RevertAdmissible(s, r, blocks)
    case Stop => true
    case Crash => true
  }

  /** `blocks` names the numbers from its lowest, at least 1, to the tip. */
  ghost predicate TopRange(s: State, blocks: map<u64, B256>)
    requires blocks != map[]
  {
    && 1 <= Lowest(blocks) <= s.lastBlock
    && (forall n: u64 :: n in blocks <==> Lowest(blocks) <= n <= s.lastBlock)
  }

  ghost predicate SingleBlockRun(cfg: Config, s: State, r: Reference, ops: seq<Op>)
    decreases |ops|
  {
    ops != [] ==>
      && SingleBlock(s, r, ops[0])
      && SingleBlockRun(cfg, Step(cfg, s, ops[0]), ReferenceStep(cfg, s, r, ops[0]), ops[1..])
  }

  /* ---- The stack of a chain ---- */

  lemma {:induction false} NomtPrefix(live: seq<Block>, k: nat)
    requires k <= |live|
    ensures NomtOf(live[..k]) == NomtOf(live)[..k + 1]
    decreases |live|
  {
    hide WriteAll, BlockWrites;
    if k < |live| {
      NomtPrefix(live[..|live| - 1], k);
      assert live[..|live| - 1][..k] == live[..k];
    } else {
      assert live[..k] == live;
    }
  }

  lemma NomtHead(live: seq<Block>)
    requires forall i :: 0 <= i < |live| ==> live[i].number == i + 1
    ensures ReadHead(Top(NomtOf(live))) == |live|
  {
    hide WriteAll, BlockWrites;
    if live != [] {
      BlockSnapshot(Top(NomtOf(live[..|live| - 1])), live[|live| - 1]);
    }
  }

  lemma NumberedBelow(live: seq<Block>, n: nat)
    requires forall i :: 0 <= i < |live| ==> live[i].number == i + 1
    requires 1 <= n <= |live| + 1
    ensures Increasing(live) && Below(live, n) == live[..n - 1]
  {
    BelowIs(live, n, n - 1);
  }

  /** Rolling back by the difference of heights leaves the shorter chain's stack. */
  lemma RollbackToHeight(live: seq<Block>, k: nat)
    requires k <= |live|
    ensures RolledBack(NomtOf(live), |live| - k) == NomtOf(live[..k])
  {
    hide WriteAll, BlockWrites;
    NomtPrefix(live, k);
  }

  lemma RangeSize(s: State, blocks: map<u64, B256>)
    requires blocks != map[] && TopRange(s, blocks)
    ensures |blocks| == s.lastBlock - Lowest(blocks) + 1
  {
    var lo := Lowest(blocks);
    var range := seq(s.lastBlock - lo + 1, i requires 0 <= i < s.lastBlock - lo + 1 => (lo + i) as int);
    var order: seq<int> := Ascending(blocks);
    forall x ensures x in order <==> x in range {
      if x in range {
        var i :| 0 <= i < |range| && range[i] == x;
        assert x in blocks;
      }
      if x in order {
        assert lo <= x <= s.lastBlock;
        assert range[x - lo] == x;
      }
    }
    SortedUnique(order, range);
  }

  /* ---- Every single-block step ---- */

  lemma SingleBlockAdmissible(cfg: Config, s: State, r: Reference, op: Op)
    requires Inv(cfg, s, r) && NomtInv(s, r) && SingleBlock(s, r, op)
    ensures Admissible(s, r, op)
  {
    hide Contents, HeadMatches, Undoable, Covered, CommitAdmissible, Reaches, AllSlots, NomtOf, Below, Lowest, TopRange;
    NomtHead(r.live);
  }

  /** Within retention the stored lists lead to the map below the range exactly when they are
      harmless to it taken together, as they are when no empty block sits on a leftover list. */
  lemma SingleRevertExactly(cfg: Config, s: State, r: Reference, blocks: map<u64, B256>)
    requires Inv(cfg, s, r) && NomtInv(s, r) && blocks != map[] && TopRange(s, blocks) && r.pruned <= Lowest(blocks)
    ensures RevertAdmissible(s, r, blocks)
       <==> Harmless(LedgerOf(Beneath(r, blocks)), AllSlots(s.deltas, Ascending(blocks)))
  {
    hide Inv, NomtOf, Below, Lowest, LedgerOf, Logical, Reaches, Harmless, AllSlots, RevertStep;
    forall i | 0 <= i < |r.live| && Lowest(blocks) <= r.live[i].number ensures r.live[i].number in blocks {
      var n: u64 := r.live[i].number;
    }
    RevertExactly(cfg, s, r, blocks);
    RevertReachesExactly(cfg, s, LedgerOf(Beneath(r, blocks)), blocks);
  }

  lemma SingleBlockKeeps(cfg: Config, s: State, r: Reference, op: Op)
    requires Inv(cfg, s, r) && NomtInv(s, r) && SingleBlock(s, r, op)
    ensures NomtInv(Step(cfg, s, op), ReferenceStep(cfg, s, r, op))
  {
    hide Inv, NomtInv, CommitAdmissible, TopRange, CommitStep, RevertStep, Restarted, ShutdownStep, Lowest,
      CommitReference, RevertReference, Below;
    match op
    case Commit(b) => CommitKeepsNomt(cfg, s, r, b);
    case Revert(blocks) => RevertCase(cfg, s, r, blocks);
    case Stop => StopKeepsNomt(cfg, s, r);
    case Crash => CrashKeepsNomt(cfg, s, r);
  }

  lemma RevertCase(cfg: Config, s: State, r: Reference, blocks: map<u64, B256>)
    requires Inv(cfg, s, r) && NomtInv(s, r) && SingleBlock(s, r, Revert(blocks))
    ensures NomtInv(RevertStep(cfg, s, blocks), RevertReference(r, blocks))
  {
    if blocks != map[] {
      hide Inv, NomtInv, RevertStep, RevertReference, RevertAdmissible, Lowest;
      SingleBlockAdmissible(cfg, s, r, Revert(blocks));
      TipsOf(cfg, s, r);
      RevertKeepsNomt(cfg, s, r, blocks);
    }
  }

  lemma CommitKeepsNomt(cfg: Config, s: State, r: Reference, b: Block)
    requires Inv(cfg, s, r) && NomtInv(s, r) && CommitAdmissible(s, b) && b.number == s.lastBlock + 1
    ensures NomtInv(CommitStep(cfg, s, b).0, CommitReference(cfg, s, r, b))
  {
    hide Inv, CommitAdmissible, CommitStep, WriteAll, BlockWrites;
    CommitKeepsInvariant(cfg, s, r, b);
    CommitNomt(cfg, s, b);
    assert (r.live + [b])[..|r.live|] == r.live;
  }

  /** A contiguous revert pops exactly the snapshots of the blocks it drops. */
  lemma TopRangeCut(s: State, r: Reference, blocks: map<u64, B256>)
    requires NomtInv(s, r) && blocks != map[] && TopRange(s, blocks)
    ensures Below(r.live, Lowest(blocks)) == r.live[..Lowest(blocks) - 1]
    ensures RolledBack(s.nomt, |blocks|) == NomtOf(Below(r.live, Lowest(blocks)))
  {
    hide NomtOf, RolledBack, Below;
    RangeSize(s, blocks);
    NumberedBelow(r.live, Lowest(blocks));
    RollbackToHeight(r.live, Lowest(blocks) - 1);
  }

  lemma RevertKeepsNomt(cfg: Config, s: State, r: Reference, blocks: map<u64, B256>)
    requires Tips(s, r) && NomtInv(s, r) && RevertAdmissible(s, r, blocks)
    requires blocks != map[] && TopRange(s, blocks)
    ensures NomtInv(RevertStep(cfg, s, blocks), RevertReference(r, blocks))
  {
    hide RevertAdmissible, NomtOf, RevertStep, Below, RolledBack, Lowest, TopRange;
    TopRangeCut(s, r, blocks);
    RangeBounds(s, blocks);
    RevertFields(cfg, s, blocks);
    var live := RevertReference(r, blocks).live;
    assert forall i :: 0 <= i < |live| ==> live[i] == r.live[i];
  }

  lemma RangeBounds(s: State, blocks: map<u64, B256>)
    requires blocks != map[] && TopRange(s, blocks)
    ensures 1 <= Lowest(blocks) <= s.lastBlock
  {
  }

  lemma TipsOf(cfg: Config, s: State, r: Reference)
    requires Inv(cfg, s, r)
    ensures Tips(s, r)
  {
  }

  lemma RestartFields(cfg: Config, s: State)
    requires HeadMatches(cfg, s)
    ensures Restarted(cfg, s).nomt == SyncedNomt(s.nomt, s.persistedBlock)
    ensures Restarted(cfg, s).lastBlock == s.persistedBlock
  {
    hide SyncedNomt, SyncedHead, Flatten;
  }

  lemma CrashKeepsNomt(cfg: Config, s: State, r: Reference)
    requires Inv(cfg, s, r) && NomtInv(s, r)
    ensures NomtInv(Restarted(cfg, s), r.(live := Below(r.live, s.persistedBlock + 1)))
  {
    hide Contents, Undoable, Covered, NomtOf, RolledBack, Below, HeadMatches, Restarted;
    NomtHead(r.live);
    RestartFields(cfg, s);
    NumberedBelow(r.live, s.persistedBlock + 1);
    RollbackToHeight(r.live, s.persistedBlock);
    assert r.live[..|r.live|] == r.live;
  }

  lemma StopKeepsNomt(cfg: Config, s: State, r: Reference)
    requires Inv(cfg, s, r) && NomtInv(s, r)
    ensures NomtInv(Restarted(cfg, ShutdownStep(cfg, s)), r)
  {
    hide Consistency, NomtOf, RestartStep, FlushAll, Below;
    FlushKeepsConsistency(cfg, s, r);
    StopIsFlushThenCrash(cfg, s);
    FlushKeepsNomt(cfg, s);
    var f := FlushAll(cfg, s);
    assert f.persistedBlock == s.lastBlock by { FlushPersists(cfg, s); }
    NumberedBelow(r.live, s.lastBlock + 1);
    assert r.live[..|r.live|] == r.live;
    NomtHead(r.live);
    RestartKeepsInvariant(cfg, f, r);
    CrashKeepsNomt(cfg, f, r);
  }

  /** A single-block run is admissible throughout, so no clause about NOMT's head
      or about unnamed blocks is left to the caller. */
  lemma {:induction false} SingleBlockRunKeeps(cfg: Config, s: State, r: Reference, ops: seq<Op>)
    requires Inv(cfg, s, r) && NomtInv(s, r) && SingleBlockRun(cfg, s, r, ops)
    ensures AdmissibleRun(cfg, s, r, ops)
    ensures var (t, q) := Run(cfg, s, r, ops); Inv(cfg, t, q) && NomtInv(t, q)
    decreases |ops|
  {
    hide Inv, NomtInv, Step, ReferenceStep, Admissible, SingleBlock;
    if ops != [] {
      SingleBlockAdmissible(cfg, s, r, ops[0]);
      SingleBlockKeeps(cfg, s, r, ops[0]);
      StepKeepsInvariant(cfg, s, r, ops[0]);
      SingleBlockRunKeeps(cfg, Step(cfg, s, ops[0]), ReferenceStep(cfg, s, r, ops[0]), ops[1..]);
    }
  }

  ghost predicate SingleRun(cfg: Config, ops: seq<Op>) {
    SingleBlockRun(cfg, FRESH, START, ops)
  }

  lemma SingleReached(cfg: Config, ops: seq<Op>)
    requires SingleRun(cfg, ops)
    ensures ValidRun(cfg, ops)
    ensures Inv(cfg, Reached(cfg, ops).0, Reached(cfg, ops).1)
    ensures NomtInv(Reached(cfg, ops).0, Reached(cfg, ops).1)
  {
    hide Inv, Step, ReferenceStep;
    FreshHolds(cfg);
    SingleBlockRunKeeps(cfg, FRESH, START, ops);
  }

  /* ---- NOMT reads ---- */

  ghost predicate ReadsAs(snapshot: Snapshot, m: Ledger) {
    forall k: TreeKey :: k != ReservedKey() ==> ReadValue(snapshot, TreeIndex(k)) == Ok(Lookup(m, k))
  }

  lemma WriteReadsAs(snapshot: Snapshot, m: Ledger, e: Entry)
    requires ReadsAs(snapshot, m)
    ensures ReadsAs(snapshot[TreeIndex(e.key) := Word(e.value)], Put(m, e.key, e.value))
  {
    var after := snapshot[TreeIndex(e.key) := Word(e.value)];
    forall k: TreeKey | k != ReservedKey()
      ensures ReadValue(after, TreeIndex(k)) == Ok(Lookup(Put(m, e.key, e.value), k))
    {
      if k != e.key {
        if TreeIndex(k) == TreeIndex(e.key) { TreeIndexInjective(k, e.key); }
        assert ReadValue(snapshot, TreeIndex(k)) == Ok(Lookup(m, k));
      }
    }
  }

  lemma {:induction false} WritesFollowPuts(snapshot: Snapshot, m: Ledger, entries: seq<Entry>)
    requires ReadsAs(snapshot, m)
    ensures ReadsAs(WriteAll(snapshot, EntryWrites(entries)), PutAll(m, entries))
    decreases |entries|
  {
    if entries != [] {
      hide ReadsAs, Put;
      var e := entries[0];
      assert EntryWrites(entries)[1..] == EntryWrites(entries[1..]);
      WriteReadsAs(snapshot, m, e);
      WritesFollowPuts(snapshot[TreeIndex(e.key) := Word(e.value)], Put(m, e.key, e.value), entries[1..]);
    }
  }

  lemma HeadWriteReadsAs(snapshot: Snapshot, m: Ledger, n: u64)
    requires ReadsAs(snapshot, m)
    ensures ReadsAs(snapshot[HEAD_KEY := BlockNumber(n)], m)
  {
    forall k: TreeKey | k != ReservedKey()
      ensures ReadValue(snapshot[HEAD_KEY := BlockNumber(n)], TreeIndex(k)) == Ok(Lookup(m, k))
    {
      if TreeIndex(k) == HEAD_KEY { TreeIndexInjective(k, ReservedKey()); }
      assert ReadValue(snapshot, TreeIndex(k)) == Ok(Lookup(m, k));
    }
  }

  lemma {:induction false} NomtReadsChain(live: seq<Block>)
    ensures ReadsAs(Top(NomtOf(live)), LedgerOf(live))
    decreases |live|
  {
    if live != [] {
      hide ReadsAs, WriteAll, BlockWrites, PutAll;
      var front, last := live[..|live| - 1], live[|live| - 1];
      NomtReadsChain(front);
      var below := Top(NomtOf(front));
      BlockSnapshot(below, last);
      WritesFollowPuts(below, LedgerOf(front), last.entries);
      HeadWriteReadsAs(WriteAll(below, EntryWrites(last.entries)), LedgerOf(live), last.number);
    }
  }

  /** After every single-block run NOMT reads every key but its own as the overlay
      over MDBX has it; its own key is an error once a block is live. */
  lemma NomtAgrees(cfg: Config, ops: seq<Op>, key: TreeKey)
    requires SingleRun(cfg, ops)
    ensures var (s, r) := Reached(cfg, ops);
            && (key != ReservedKey() ==> ReadValue(Top(s.nomt), TreeIndex(key)) == Ok(Lookup(Logical(s), key)))
            && (r.live != [] ==> ReadValue(Top(s.nomt), HEAD_KEY) == Err(InvalidNomtValueLength))
  {
    hide Run, LedgerOf, Flatten, Covered, Undoable, HeadMatches, WriteAll, BlockWrites;
    SingleReached(cfg, ops);
    var (s, r) := Reached(cfg, ops);
    NomtReadsChain(r.live);
    if r.live != [] {
      BlockSnapshot(Top(NomtOf(r.live[..|r.live| - 1])), r.live[|r.live| - 1]);
    }
  }

  /** The two undo mechanisms: for a range from the tip down within retention, popping one NOMT
      commit per block always arrives at the map below the range, and replaying the blocks' undo
      records newest first arrives there too exactly when they are harmless to it taken together. */
  lemma UndoMechanismsAgree(cfg: Config, ops: seq<Op>, blocks: map<u64, B256>)
    requires SingleRun(cfg, ops) && blocks != map[]
    requires TopRange(Reached(cfg, ops).0, blocks) && Reached(cfg, ops).1.pruned <= Lowest(blocks)
    ensures var (s, r) := Reached(cfg, ops);
            var base := LedgerOf(Beneath(r, blocks));
            && ReadsAs(Top(RolledBack(s.nomt, |blocks|)), base)
            && (Logical(UndoBlocks(s, Ascending(blocks))) == base
                <==> Harmless(base, AllSlots(s.deltas, Ascending(blocks))))
  {
    hide Run, SingleBlockRun, Inv, LedgerOf, Logical, UndoBlocks, NomtOf, RolledBack, Below, Lowest, TopRange, Reaches,
      Harmless, AllSlots, NomtInv, ReadsAs;
    SingleReached(cfg, ops);
    var (s, r) := Reached(cfg, ops);
    TopRangeCut(s, r, blocks);
    NomtReadsChain(Beneath(r, blocks));
    SingleRevertExactly(cfg, s, r, blocks);
    AdmissibleReplay(s, r, blocks);
  }

  lemma AdmissibleReplay(s: State, r: Reference, blocks: map<u64, B256>)
    requires blocks != map[] && TopRange(s, blocks)
    ensures Logical(UndoBlocks(s, Ascending(blocks))) == LedgerOf(Beneath(r, blocks)) <==> RevertAdmissible(s, r, blocks)
  {
    hide Logical, LedgerOf, UndoBlocks, Undo, Beneath, Lowest, Reaches, AllSlots;
    BlocksReplay(s, Ascending(blocks));
    UndoReachesExactly(Logical(s), LedgerOf(Beneath(r, blocks)), AllSlots(s.deltas, Ascending(blocks)));
  }

  /* ---- Chains of several blocks ---- */

  /** A revert rolls NOMT back once per reverted block, but a commit of a whole chain pushed
      one snapshot. Whatever the numbering, NOMT ends with the remaining chain's snapshots
      exactly when as many commits were dropped as blocks were named; a count beyond NOMT's
      history drops nothing. */
  lemma RollbackExactly(cfg: Config, s: State, r: Reference, blocks: map<u64, B256>)
    requires s.nomt == NomtOf(r.live) && blocks != map[]
    ensures var dropped := |r.live| - |RevertReference(r, blocks).live|;
            RevertStep(cfg, s, blocks).nomt == NomtOf(RevertReference(r, blocks).live)
            <==> dropped == if |blocks| <= |r.live| then |blocks| else 0
  {
    hide NomtOf, RevertStep, Below, Lowest;
    RevertFields(cfg, s, blocks);
    var live := RevertReference(r, blocks).live;
    NomtPrefix(r.live, |live|);
    if |blocks| <= |r.live| {
      NomtPrefix(r.live, |r.live| - |blocks|);
    }
  }

  lemma NomtTip(live: seq<Block>)
    ensures ReadHead(Top(NomtOf(live))) == if live == [] then 0 else live[|live| - 1].number
  {
    hide WriteAll, BlockWrites;
    if live != [] {
      BlockSnapshot(Top(NomtOf(live[..|live| - 1])), live[|live| - 1]);
    }
  }

  /** Start-up pops one commit per block number between the two heads. For commits of chains
      of any length NOMT ends with the persisted chain's snapshots exactly when that is the
      number of unpersisted commits; a count beyond NOMT's history pops nothing. */
  lemma RestartRollbackExactly(cfg: Config, s: State, r: Reference)
    requires HeadMatches(cfg, s) && s.nomt == NomtOf(r.live)
    ensures var kept := Below(r.live, s.persistedBlock + 1);
            var tip := if r.live == [] then 0 else r.live[|r.live| - 1].number;
            var behind := if tip > s.persistedBlock then tip - s.persistedBlock else 0;
            Restarted(cfg, s).nomt == NomtOf(kept)
            <==> |r.live| - |kept| == if behind <= |r.live| then behind else 0
  {
    hide NomtOf, Restarted, Below, HeadMatches;
    RestartFields(cfg, s);
    NomtTip(r.live);
    var kept := Below(r.live, s.persistedBlock + 1);
    NomtPrefix(r.live, |kept|);
    var behind := if ReadHead(Top(s.nomt)) > s.persistedBlock then ReadHead(Top(s.nomt)) - s.persistedBlock else 0;
    if behind <= |r.live| {
      NomtPrefix(r.live, |r.live| - behind);
    }
  }
}
