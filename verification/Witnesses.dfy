/** Concrete runs on which an obvious-looking claim about the ExEx fails. */
module Witnesses {
  import opened Types
  import opened Sorting
  import opened Ledger
  import opened StemRows
  import opened Tables
  import opened Index
  import opened NomtStore
  import opened Machine
  import opened LiveChain
  import opened Invariant
  import opened CommitKeeps
  import opened RevertKeeps
  import opened Runs
  import opened StepFacts
  import opened AnyRuns
  import opened UndoTheorems
  import opened Recovery
  import opened Independence
  import opened StemCount
  import opened Heads
  import opened NomtAgreement
  import opened StateFile
  import opened Listing
  import opened PirExport
  import opened ExportTheorems
  import opened ExportResults

  const KEY := TreeKey(0, 0)

  function Write(n: u64, value: B256): Block {
    Block(n, 0, [Entry(KEY, value, 0)])
  }

  function Every(interval: u64): Config {
    Config(interval, 1000, items => 0)
  }

  /** The stem of `KEY` belongs to account 0 if it belongs to any. */
  ghost predicate OwnedByZero(s: State) {
    KEY.stem in s.index ==> s.index[KEY.stem].address == 0
  }

  lemma WriteDeltas(m: Ledger, n: u64, value: B256)
    ensures PutAll(m, Write(n, value).entries) == Put(m, KEY, value)
    ensures DeltasOf(m, Write(n, value).entries) ==
              if Lookup(m, KEY) != value then [Delta(KEY, Lookup(m, KEY))] else []
  {
    var es := Write(n, value).entries;
    assert es[1..] == [];
    assert PutAll(Put(m, KEY, value), []) == Put(m, KEY, value);
    assert DeltasOf(Put(m, KEY, value), []) == [];
  }

  /** A write that changes the value is admissible and leaves the old value in its slot. */
  lemma WriteStep(cfg: Config, s: State, r: Reference, n: u64, value: B256)
    requires Inv(cfg, s, r) && OwnedByZero(s) && n > s.lastBlock && Lookup(Logical(s), KEY) != value
    ensures CommitAdmissible(s, Write(n, value))
    ensures var t := CommitStep(cfg, s, Write(n, value)).0;
            && OwnedByZero(t) && KEY.stem in t.index
            && Lookup(Logical(t), KEY) == value
            && Slot(t.deltas, n) == [Delta(KEY, Lookup(Logical(s), KEY))]
            && (forall m: u64 :: m > n ==> Slot(t.deltas, m) == Slot(s.deltas, m))
            && (n <= cfg.deltaRetention ==> forall m: u64 :: m != n ==> Slot(t.deltas, m) == Slot(s.deltas, m))
    ensures CommitStep(cfg, s, Write(n, value)).1.Ok?
  {
    hide Logical, CommitStep, Inv, InsertAll, SaveAddresses, NewAddresses, CommitReference, DeltasOf, PutAll, UpdatesOf,
      SavedDeltas, EntriesSorted, ShouldFlush;
    var b := Write(n, value);
    UpdateOfEntry(b.entries);
    WriteDeltas(Logical(s), n, value);
    CommitKeepsInvariant(cfg, s, r, b);
    CommitTables(cfg, s, b);
    CommitFields(cfg, s, b);
    CommitRecords(cfg, s, r, b);
    SavedSlots(s, b);
    InsertAllGrows(s.index, UpdatesOf(b.entries));
    assert b.entries[0] in b.entries;
    assert Update(KEY, 0) in UpdatesOf(b.entries);
  }

  /* ---- Walking along a run ---- */

  /** The run ends at block `n` with `value` under the key and these live blocks. */
  ghost predicate Holds(cfg: Config, ops: seq<Op>, n: u64, value: B256, live: seq<Block>) {
    && ValidRun(cfg, ops)
    && var (s, r) := Reached(cfg, ops);
    && Inv(cfg, s, r) && OwnedByZero(s) && s.lastBlock == n && Lookup(Logical(s), KEY) == value && r.live == live
  }

  lemma Begin(cfg: Config)
    ensures Holds(cfg, [], 0, 0, []) && Reached(cfg, []) == (FRESH, START)
  {
    FreshHolds(cfg);
    assert FRESH.stems + FRESH.dirty == map[];
    FlattenEmpty();
  }

  lemma FlattenEmpty()
    ensures Flatten(map[]) == map[]
  {
  }

  lemma Then(cfg: Config, ops: seq<Op>, op: Op)
    requires ValidRun(cfg, ops) && Admissible(Reached(cfg, ops).0, Reached(cfg, ops).1, op)
    ensures ValidRun(cfg, ops + [op])
    ensures var (s, r) := Reached(cfg, ops);
            Reached(cfg, ops + [op]) == (Step(cfg, s, op), ReferenceStep(cfg, s, r, op))
  {
    hide Step, ReferenceStep, Admissible;
    RunConcat(cfg, FRESH, START, ops, [op]);
    SingleStep(cfg, Reached(cfg, ops).0, Reached(cfg, ops).1, op);
    assert [op][1..] == [];
  }

  lemma ThenWrite(cfg: Config, ops: seq<Op>, n: u64, value: B256, live: seq<Block>, m: u64, v: B256)
    requires Holds(cfg, ops, n, value, live) && m > n && v != value
    ensures Holds(cfg, ops + [Commit(Write(m, v))], m, v, live + [Write(m, v)])
    ensures var (s, r) := Reached(cfg, ops);
            var (t, q) := Reached(cfg, ops + [Commit(Write(m, v))]);
            && t == CommitStep(cfg, s, Write(m, v)).0 && q == CommitReference(cfg, s, r, Write(m, v))
            && CommitAdmissible(s, Write(m, v)) && CommitStep(cfg, s, Write(m, v)).1.Ok? && KEY.stem in t.index
            && Slot(t.deltas, m) == [Delta(KEY, value)]
            && (forall k: u64 :: k > m ==> Slot(t.deltas, k) == Slot(s.deltas, k))
            && (m <= cfg.deltaRetention ==> forall k: u64 :: k != m ==> Slot(t.deltas, k) == Slot(s.deltas, k))
  {
    hide Inv, CommitStep, CommitAdmissible, Logical, Run, AdmissibleRun, OwnedByZero, Slot;
    var (s, r) := Reached(cfg, ops);
    WriteStep(cfg, s, r, m, v);
    Then(cfg, ops, Commit(Write(m, v)));
    CommitKeepsInvariant(cfg, s, r, Write(m, v));
    CommitTables(cfg, s, Write(m, v));
  }

  /** Revert all commits after `before`, with nothing stored under their numbers by then. */
  lemma ThenRevert(cfg: Config, before: seq<Op>, n: u64, value: B256, live: seq<Block>,
                   blocks: seq<Block>, named: map<u64, B256>)
    requires Holds(cfg, before, n, value, live) && ValidRun(cfg, before + Commits(blocks))
    requires named != map[] && Lowest(named) == n + 1 <= Reached(cfg, before + Commits(blocks)).0.lastBlock + 1
    requires OwnedByZero(Reached(cfg, before + Commits(blocks)).0)
    requires forall b :: b in blocks ==> b.number in named
    requires forall b :: b in blocks ==> Reached(cfg, before + Commits(blocks)).1.pruned <= b.number
    requires forall k :: k in named ==> Slot(Reached(cfg, before).0.deltas, k) == []
    ensures Holds(cfg, before + Commits(blocks) + [Revert(named)], n, value, live)
    ensures var (t, q) := Reached(cfg, before + Commits(blocks));
            && RevertAdmissible(t, q, named)
            && Reached(cfg, before + Commits(blocks) + [Revert(named)]) == (RevertStep(cfg, t, named), RevertReference(q, named))
  {
    hide Inv, RevertStep, RevertAdmissible, Logical, Run, AdmissibleRun, Slot, Lowest, Below, LedgerOf, Commits, Unpruned,
      NamesTips;
    var (t, q) := Reached(cfg, before + Commits(blocks));
    MultiBlockUndoClean(cfg, before, blocks, named);
    Then(cfg, before + Commits(blocks), Revert(named));
    ReachedInv(cfg, before + Commits(blocks) + [Revert(named)]);
    RangeNames(cfg, before, blocks, named);
    RevertFields(cfg, t, named);
    OthersKeepIndex(cfg, t, Revert(named));
    SameOwner(t, RevertStep(cfg, t, named));
  }

  lemma SameOwner(s: State, t: State)
    requires OwnedByZero(s) && t.index == s.index
    ensures OwnedByZero(t)
  {
  }

  /** A revert keeps the lists of the blocks that were persisted. */
  lemma PersistedSlot(cfg: Config, s: State, named: map<u64, B256>, n: u64)
    requires named != map[] && n <= s.persistedBlock
    ensures Slot(RevertStep(cfg, s, named).deltas, n) == Slot(s.deltas, n)
  {
    hide UndoBlocks, RolledBack, Ascending, Lowest, FlushAll;
    UndoFrame(s.(nomt := RolledBack(s.nomt, |named|)), Ascending(named));
    FlushKeepsDeltas(cfg, Rewound(UndoBlocks(s.(nomt := RolledBack(s.nomt, |named|)), Ascending(named)), named));
  }

  /** Under interval 1 everything is persisted at once. */
  lemma AllPersisted(cfg: Config, s: State, r: Reference)
    requires Inv(cfg, s, r) && cfg.flushInterval == 1
    ensures s.persistedBlock == s.lastBlock
  {
    hide Consistency;
  }

  lemma PairLowest(a: u64, b: u64, named: map<u64, B256>)
    requires a < b && named == map[a := 0, b := 0]
    ensures named != map[] && Lowest(named) == a && |named| == 2
  {
    assert a in named && named.Keys == {a, b};
  }

  lemma OneCommit(ops: seq<Op>, b: Block)
    ensures ops + Commits([b]) == ops + [Commit(b)]
  {
  }

  lemma TwoCommits(ops: seq<Op>, b: Block, c: Block)
    ensures ops + Commits([b, c]) == ops + [Commit(b)] + [Commit(c)]
  {
  }

  lemma HoldsFacts(cfg: Config, ops: seq<Op>, n: u64, value: B256, live: seq<Block>)
    requires Holds(cfg, ops, n, value, live)
    ensures ValidRun(cfg, ops) && Lookup(Logical(Reached(cfg, ops).0), KEY) == value
    ensures Inv(cfg, Reached(cfg, ops).0, Reached(cfg, ops).1) && Reached(cfg, ops).1.live == live
  {
  }

  lemma ThenCrash(cfg: Config, ops: seq<Op>)
    requires ValidRun(cfg, ops) && Reached(cfg, ops).0.persistedBlock <= ReadHead(Top(Reached(cfg, ops).0.nomt))
    ensures ValidRun(cfg, ops + [Crash])
    ensures var s := Reached(cfg, ops).0;
            var t := Reached(cfg, ops + [Crash]).0;
            t == Restarted(cfg, s) && t.stemCount == DurableHead(s).stemCount && t.index == s.index
  {
    hide Inv, Run, AdmissibleRun, Restarted, RestartStep, DurableHead, ReadHead, Below;
    ReachedInv(cfg, ops);
    Then(cfg, ops, Crash);
    CrashStep(cfg, Reached(cfg, ops).0);
    RestartKeepsInvariant(cfg, Reached(cfg, ops).0, Reached(cfg, ops).1);
    RestartCount(cfg, Reached(cfg, ops).0);
  }

  /* ---- A leftover undo list ---- */

  /** Write 1 and 2 at blocks 1 and 2, revert both after they were flushed, write 7 at block 1. */
  function LeftoverRun(): seq<Op> {
    [Commit(Write(1, 1)), Commit(Write(2, 2)), Revert(map[1 := 0, 2 := 0]), Commit(Write(1, 7))]
  }

  /** After that run an empty block 2 inherits the old block 2's list: reverting it
      rewrites the key to 1 instead of leaving 7. */
  lemma LeftoverListBreaksUndo()
    ensures var cfg, b := Every(1), Block(2, 0, []);
            var s := Reached(cfg, LeftoverRun()).0;
            && ValidRun(cfg, LeftoverRun()) && CommitAdmissible(s, b)
            && Logical(RevertStep(cfg, CommitStep(cfg, s, b).0, map[2 := 0])) != Logical(s)
  {
    hide Inv, CommitStep, RevertStep, RevertAdmissible, CommitReference, UpdatesOf, Logical, Run, AdmissibleRun, Harmless,
      Lowest;
    var cfg, named := Every(1), map[1 := 0, 2 := 0];
    var one, two := [Commit(Write(1, 1))], [Commit(Write(1, 1)), Commit(Write(2, 2))];
    Begin(cfg);
    ThenWrite(cfg, [], 0, 0, [], 1, 1);
    assert [] + [Commit(Write(1, 1))] == one && [] + [Write(1, 1)] == [Write(1, 1)];
    ThenWrite(cfg, one, 1, 1, [Write(1, 1)], 2, 2);
    assert one + [Commit(Write(2, 2))] == two;
    var (t, q) := Reached(cfg, two);
    AllPersisted(cfg, t, q);
    PairLowest(1, 2, named);
    TwoCommits([], Write(1, 1), Write(2, 2));
    assert [] + Commits([Write(1, 1), Write(2, 2)]) == two;
    NeverPruned(cfg, FRESH, START, two);
    ThenRevert(cfg, [], 0, 0, [], [Write(1, 1), Write(2, 2)], named);
    PersistedSlot(cfg, t, named, 2);
    var back := two + [Revert(named)];
    ThenWrite(cfg, back, 0, 0, [], 1, 7);
    assert back + [Commit(Write(1, 7))] == LeftoverRun();
    var (s, r) := Reached(cfg, LeftoverRun());
    LeftoverSlot(cfg, s, r);
  }

  lemma LeftoverSlot(cfg: Config, s: State, r: Reference)
    requires Inv(cfg, s, r) && s.lastBlock == 1 && Lookup(Logical(s), KEY) == 7 && Slot(s.deltas, 2) == [Delta(KEY, 1)]
    ensures var b := Block(2, 0, []);
            CommitAdmissible(s, b) && Logical(RevertStep(cfg, CommitStep(cfg, s, b).0, map[2 := 0])) != Logical(s)
  {
    hide Inv, CommitStep, RevertStep, Logical, AllSlots, Lowest, UpdatesOf;
    var b, blocks := Block(2, 0, []), map[2 := 0];
    EmptyBlock(s.index, b);
    NotHarmless(Logical(s), Slot(s.deltas, 2));
    assert 2 in blocks;
    CommitThenRevertExactly(cfg, s, r, b, blocks);
  }

  lemma EmptyBlock(index: Index, b: Block)
    requires b.entries == []
    ensures Consistent(index, UpdatesOf(b.entries))
  {
  }

  lemma NotHarmless(m: Ledger, deltas: seq<Delta>)
    requires deltas == [Delta(KEY, 1)] && Lookup(m, KEY) != 1
    ensures !Harmless(m, deltas)
  {
    assert deltas[0].old_ != Lookup(m, deltas[0].key);
  }

  /* ---- Two reorgs over leftover lists ---- */

  /** Write 1, 2, 3 at blocks 1, 2, 3, revert 2 and 3, commit a chain up to block 4 in their
      place, revert that chain. */
  function ReorgsRun(): seq<Op> {
    [Commit(Write(1, 1)), Commit(Write(2, 2)), Commit(Write(3, 3)), Revert(map[2 := 0, 3 := 0]), Commit(Write(4, 4)),
     Revert(map[2 := 0, 3 := 0, 4 := 0])]
  }

  /** The old list of block 3 would do damage alone, but the older one of block 2 overrules it:
      the second revert restores the value 1 all the same. */
  lemma ReorgsOverLeftovers()
    ensures ValidRun(Every(1), ReorgsRun())
    ensures Lookup(Logical(Reached(Every(1), ReorgsRun()).0), KEY) == 1
  {
    hide Inv, RevertStep, RevertAdmissible, CommitReference, Logical, Run, AdmissibleRun, Harmless, Lowest, LedgerOf, Slot;
    var cfg, named := Every(1), map[2 := 0, 3 := 0, 4 := 0];
    ReorgOps();
    ReorgCommits(cfg);
    var ops := ReorgsRun()[..5];
    var (t, q) := Reached(cfg, ops);
    ReorgReaches(cfg, t, q, named);
    Then(cfg, ops, Revert(named));
    assert ops + [Revert(named)] == ReorgsRun();
    ReachedInv(cfg, ReorgsRun());
    LiveFacts(cfg, Reached(cfg, ReorgsRun()).0, Reached(cfg, ReorgsRun()).1);
    OneLedger();
  }

  lemma ThreeWrites(cfg: Config)
    requires cfg == Every(1)
    ensures var one, three := [Commit(Write(1, 1))], [Commit(Write(1, 1))] + [Commit(Write(2, 2))] + [Commit(Write(3, 3))];
            var (t, q) := Reached(cfg, three);
            && Holds(cfg, one, 1, 1, [Write(1, 1)])
            && (forall k: u64 :: k > 1 ==> Slot(Reached(cfg, one).0.deltas, k) == [])
            && ValidRun(cfg, three) && OwnedByZero(t) && t.lastBlock == t.persistedBlock == 3 && q.pruned == 0
            && Slot(t.deltas, 2) == [Delta(KEY, 1)] && Slot(t.deltas, 3) == [Delta(KEY, 2)]
  {
    hide Inv, CommitStep, CommitReference, Logical, Run, AdmissibleRun, CommitAdmissible;
    var one := [Commit(Write(1, 1))];
    Begin(cfg);
    ThenWrite(cfg, [], 0, 0, [], 1, 1);
    assert [] + [Commit(Write(1, 1))] == one && [] + [Write(1, 1)] == [Write(1, 1)];
    ThenWrite(cfg, one, 1, 1, [Write(1, 1)], 2, 2);
    var two := one + [Commit(Write(2, 2))];
    ThenWrite(cfg, two, 2, 2, [Write(1, 1)] + [Write(2, 2)], 3, 3);
    var three := two + [Commit(Write(3, 3))];
    AllPersisted(cfg, Reached(cfg, three).0, Reached(cfg, three).1);
    NeverPruned(cfg, FRESH, START, three);
  }

  lemma ReorgCommits(cfg: Config)
    requires cfg == Every(1)
    ensures |ReorgsRun()| == 6
    ensures var ops := ReorgsRun()[..5];
            && Holds(cfg, ops, 4, 4, [Write(1, 1), Write(4, 4)]) && Reached(cfg, ops).1.pruned == 0
            && var deltas := Reached(cfg, ops).0.deltas;
            Slot(deltas, 2) == [Delta(KEY, 1)] && Slot(deltas, 3) == [Delta(KEY, 2)] && Slot(deltas, 4) == [Delta(KEY, 1)]
  {
    hide Holds, Inv, CommitStep, RevertStep, RevertAdmissible, RevertReference, CommitReference, Reached, ValidRun,
      OwnedByZero, Lowest, CommitAdmissible, Slot, ReorgsRun;
    var named := map[2 := 0, 3 := 0];
    var one := [Commit(Write(1, 1))];
    var three := one + [Commit(Write(2, 2))] + [Commit(Write(3, 3))];
    ThreeWrites(cfg);
    PairLowest(2, 3, named);
    TwoCommits(one, Write(2, 2), Write(3, 3));
    ThenRevert(cfg, one, 1, 1, [Write(1, 1)], [Write(2, 2), Write(3, 3)], named);
    PersistedSlot(cfg, Reached(cfg, three).0, named, 2);
    PersistedSlot(cfg, Reached(cfg, three).0, named, 3);
    var back := three + [Revert(named)];
    ThenWrite(cfg, back, 1, 1, [Write(1, 1)], 4, 4);
    ReorgOps();
    assert [Write(1, 1)] + [Write(4, 4)] == [Write(1, 1), Write(4, 4)];
    assert Reached(cfg, ReorgsRun()[..5]).1.pruned == 0 by { ReorgUnpruned(cfg); }
  }

  lemma ReorgOps()
    ensures |ReorgsRun()| == 6
    ensures ReorgsRun()[..5] == [Commit(Write(1, 1))] + [Commit(Write(2, 2))] + [Commit(Write(3, 3))]
                                + [Revert(map[2 := 0, 3 := 0])] + [Commit(Write(4, 4))]
  {
  }

  lemma ReorgUnpruned(cfg: Config)
    requires cfg == Every(1)
    ensures |ReorgsRun()| == 6 && Reached(cfg, ReorgsRun()[..5]).1.pruned == 0
  {
    hide Run;
    NeverPruned(cfg, FRESH, START, ReorgsRun()[..5]);
  }

  /** Commits up to the retention prune nothing. */
  lemma {:induction false} NeverPruned(cfg: Config, s: State, r: Reference, ops: seq<Op>)
    requires r.pruned == 0 && forall op :: op in ops && op.Commit? ==> op.block.number <= cfg.deltaRetention
    ensures Run(cfg, s, r, ops).1.pruned == 0
    decreases |ops|
  {
    hide Step, Below, Lowest, ShouldFlush;
    if ops != [] {
      assert ops[0] in ops;
      NeverPruned(cfg, Step(cfg, s, ops[0]), ReferenceStep(cfg, s, r, ops[0]), ops[1..]);
    }
  }

  lemma ReorgReaches(cfg: Config, t: State, q: Reference, named: map<u64, B256>)
    requires Inv(cfg, t, q) && t.lastBlock == 4 && q == Reference([Write(1, 1), Write(4, 4)], 0)
    requires named == map[2 := 0, 3 := 0, 4 := 0]
    requires Slot(t.deltas, 2) == [Delta(KEY, 1)] && Slot(t.deltas, 3) == [Delta(KEY, 2)] && Slot(t.deltas, 4) == [Delta(KEY, 1)]
    ensures RevertAdmissible(t, q, named) && RevertReference(q, named).live == [Write(1, 1)]
  {
    hide Inv, Logical, LedgerOf, RevertStep, Reaches, Harmless, Slot, Below, AllSlots, Lookup;
    ReorgRange(q, named);
    var base, list := LedgerOf([Write(1, 1)]), AllSlots(t.deltas, Ascending(named));
    ThreeSlots(t.deltas);
    OneLedger();
    OldestDecides(base, list);
    RevertExactly(cfg, t, q, named);
    RevertReachesExactly(cfg, t, base, named);
  }

  lemma ReorgRange(q: Reference, named: map<u64, B256>)
    requires q == Reference([Write(1, 1), Write(4, 4)], 0) && named == map[2 := 0, 3 := 0, 4 := 0]
    ensures named != map[] && Lowest(named) == 2 && Ascending(named) == [2, 3, 4]
    ensures Beneath(q, named) == [Write(1, 1)] && NamesTips(q.live, named) && Unpruned(q, 2)
  {
    hide Below, Ascending, Lowest;
    ThreeInOrder(2, named);
    assert q.live[0].number == 1 && q.live[1].number == 4;
    BelowIs(q.live, 2, 1);
    assert q.live[..1] == [Write(1, 1)];
  }

  /** Three numbers in a row. */
  lemma ThreeInOrder(a: u64, named: map<u64, B256>)
    requires a + 2 < TWO_64 && named == map[a := 0, a + 1 := 0, a + 2 := 0]
    ensures named != map[] && Ascending(named) == [a, a + 1, a + 2] && Lowest(named) == a
  {
    hide Ascending, Lowest;
    assert a in named;
    ThreeNamed(a, named);
    OrderedNames(named, [a, a + 1, a + 2]);
    assert Lowest(named) in named;
  }

  lemma ThreeNamed(a: u64, named: map<u64, B256>)
    requires a + 2 < TWO_64 && named == map[a := 0, a + 1 := 0, a + 2 := 0]
    ensures var order: seq<u64> := [a, a + 1, a + 2]; StrictlySorted(order) && forall n: u64 :: n in order <==> n in named
  {
  }

  lemma OrderedNames(named: map<u64, B256>, order: seq<u64>)
    requires StrictlySorted(order) && forall n: u64 :: n in order <==> n in named
    ensures Ascending(named) == order
  {
    hide Ascending;
    SortedUnique(Ascending(named), order);
  }

  lemma ThreeSlots(deltas: DeltaTable)
    requires Slot(deltas, 2) == [Delta(KEY, 1)] && Slot(deltas, 3) == [Delta(KEY, 2)] && Slot(deltas, 4) == [Delta(KEY, 1)]
    ensures AllSlots(deltas, [2, 3, 4]) == [Delta(KEY, 1), Delta(KEY, 2), Delta(KEY, 1)]
  {
    hide Slot;
    assert [2, 3, 4][..2] == [2, 3] && [2, 3][..1] == [2] && [2][..0] == [];
    assert AllSlots(deltas, [2]) == [Delta(KEY, 1)];
    assert AllSlots(deltas, [2, 3]) == [Delta(KEY, 1), Delta(KEY, 2)];
  }

  lemma OldestDecides(m: Ledger, list: seq<Delta>)
    requires list == [Delta(KEY, 1), Delta(KEY, 2), Delta(KEY, 1)] && Lookup(m, KEY) == 1
    ensures Harmless(m, list)
  {
    assert list[0].key == KEY;
  }

  lemma OneLedger()
    ensures Lookup(LedgerOf([Write(1, 1)]), KEY) == 1
  {
    var live := [Write(1, 1)];
    LedgerAppend([], live[0]);
    assert [] + live == live;
    WriteDeltas(LedgerOf([]), 1, 1);
  }

  lemma LedgerOfNothing()
    ensures LedgerOf([]) == map[]
  {
  }

  /* ---- A zeroed value read from MDBX ---- */

  /** Write 5, flush with an empty block 2, then zero the key without a flush. */
  function StaleRun(): seq<Op> {
    [Commit(Write(1, 5)), Commit(Block(2, 0, [])), Commit(Write(3, 0))]
  }

  /** `get_value` still answers 5 after the key was zeroed, until the next flush. */
  lemma StaleRead()
    ensures var s := Reached(Every(2), StaleRun()).0;
            && ValidRun(Every(2), StaleRun())
            && ValueSeen(s, KEY) == Some(5) && Lookup(Logical(s), KEY) == 0
  {
    hide Inv, CommitStep, CommitAdmissible, CommitReference, Logical, Run, AdmissibleRun;
    var cfg, empty := Every(2), Block(2, 0, []);
    var one := [Commit(Write(1, 5))];
    Begin(cfg);
    ThenWrite(cfg, [], 0, 0, [], 1, 5);
    assert [] + [Commit(Write(1, 5))] == one && [] + [Write(1, 5)] == [Write(1, 5)];
    UnflushedCommit(cfg, FRESH, Write(1, 5));
    ThenEmpty(cfg, one, 1, 5, [Write(1, 5)], empty);
    var two := one + [Commit(empty)];
    FlushedCommit(cfg, Reached(cfg, one).0, empty);
    ThenWrite(cfg, two, 2, 5, [Write(1, 5)] + [empty], 3, 0);
    ZeroUnflushed(cfg, Reached(cfg, two).0);
    assert two + [Commit(Write(3, 0))] == StaleRun();
  }

  lemma ThenEmpty(cfg: Config, ops: seq<Op>, n: u64, value: B256, live: seq<Block>, b: Block)
    requires Holds(cfg, ops, n, value, live) && b.number > n && b.entries == []
    ensures Holds(cfg, ops + [Commit(b)], b.number, value, live + [b])
    ensures var (s, r) := Reached(cfg, ops);
            var (t, q) := Reached(cfg, ops + [Commit(b)]);
            && t == CommitStep(cfg, s, b).0 && q == CommitReference(cfg, s, r, b)
            && CommitAdmissible(s, b) && CommitStep(cfg, s, b).1.Ok? && SavedDeltas(s, b) == s.deltas
  {
    hide Inv, CommitStep, Logical, Run, AdmissibleRun, Slot, SaveAddresses, NewAddresses;
    var (s, r) := Reached(cfg, ops);
    EmptyBlock(s.index, b);
    NothingWritten(Logical(s), s.index, b);
    Then(cfg, ops, Commit(b));
    CommitKeepsInvariant(cfg, s, r, b);
    CommitTables(cfg, s, b);
  }

  lemma NothingWritten(m: Ledger, index: Index, b: Block)
    requires b.entries == []
    ensures PutAll(m, b.entries) == m && InsertAll(index, UpdatesOf(b.entries)) == Some(index)
    ensures DeltasOf(m, b.entries) == []
  {
  }

  lemma ZeroUnflushed(cfg: Config, s: State)
    requires cfg == Every(2) && s.persistedBlock == 2 && s.dirty == map[] && Lookup(Logical(s), KEY) == 5
    ensures ValueSeen(CommitStep(cfg, s, Write(3, 0)).0, KEY) == Some(5)
  {
    hide CommitStep, Flatten, OverlayPut;
    UnflushedCommit(cfg, s, Write(3, 0));
    assert s.stems + map[] == s.stems;
    ZeroTouched(s.stems);
  }

  lemma ZeroTouched(stems: Rows)
    requires Lookup(Flatten(stems), KEY) == 5
    ensures KEY.stem in stems && GetValue(stems[KEY.stem], KEY.subindex) == Some(5)
    ensures var dirty := OverlayPut(stems, map[], Write(3, 0).entries);
            KEY.stem in dirty && KEY.subindex !in dirty[KEY.stem]
  {
    hide Flatten;
    FlattenLookup(stems, KEY);
    var entries := Write(3, 0).entries;
    var touched := Touch(stems, map[], KEY, 0);
    assert entries[1..] == [];
    assert OverlayPut(stems, touched, entries[1..]) == touched;
  }

  /* ---- A stem count lost in a crash ---- */

  function CrashRun(): seq<Op> {
    [Commit(Write(1, 5)), Crash]
  }

  /** A crash before the first flush resets stem_count but not the key index, and the
      replay of the block finds no new stem to count. */
  lemma CrashLosesCount()
    ensures var s := Reached(Every(2), CrashRun()).0;
            ValidRun(Every(2), CrashRun()) && s.stemCount == 0 && |s.index| > 0
  {
    hide Holds, Inv, CommitStep, CommitAdmissible, CommitReference, Run, AdmissibleRun, Logical, Restarted, Write, CrashRun,
      Reached, ValidRun, ReadHead, OverlayPut, DurableHead, Slot;
    var cfg := Every(2);
    var one := [Commit(Write(1, 5))];
    Begin(cfg);
    ThenWrite(cfg, [], 0, 0, [], 1, 5);
    assert [] + [Commit(Write(1, 5))] == one;
    HoldsFacts(cfg, one, 1, 5, [] + [Write(1, 5)]);
    FirstWaits();
    FirstUnsaved(cfg, Write(1, 5));
    ThenCrash(cfg, one);
    CrashAfterOne();
    IndexedStem(Reached(cfg, one).0.index);
  }

  lemma FirstWaits()
    ensures !ShouldFlush(Every(2), FRESH, Write(1, 5).number)
  {
  }

  /** A first commit that does not flush leaves nothing a restart would read. */
  lemma FirstUnsaved(cfg: Config, b: Block)
    requires CommitStep(cfg, FRESH, b).1.Ok? && !ShouldFlush(cfg, FRESH, b.number)
    ensures var t := CommitStep(cfg, FRESH, b).0; t.persistedBlock == 0 && DurableHead(t).stemCount == 0
  {
    hide CommitStep, PutAll, EntriesSorted, Logical, Effective, OverlayPut;
    CommitOutcome(cfg, FRESH, b);
    UnflushedCommit(cfg, FRESH, b);
  }

  lemma CrashAfterOne()
    ensures [Commit(Write(1, 5))] + [Crash] == CrashRun()
  {
  }

  lemma IndexedStem(index: Index)
    requires KEY.stem in index
    ensures |index| > 0
  {
    assert |index| == |index.Keys|;
  }

  /* ---- A delta range the window check should have refused ---- */

  /** Every commit flushes and one block of undo lists is kept. */
  const TIGHT: Config := Config(1, 1, items => 0)

  /** Write 1, 2 and 3 at blocks 1, 2 and 3, then revert blocks 2 and 3. */
  function PrunedRun(): seq<Op> {
    [Commit(Write(1, 1)), Commit(Write(2, 2)), Commit(Write(3, 3)), Revert(map[2 := 0, 3 := 0])]
  }

  /** The head is back at block 1, so the range check admits block 1, whose undo list was
      pruned at block 3: the exported patch is empty and misses the key block 1 wrote. */
  lemma DeltaMissesPruned()
    ensures var (s, r) := Reached(TIGHT, PrunedRun());
            var values := PatchValues(s.stems, Touched(s.deltas, 1, 1));
            && ValidRun(TIGHT, PrunedRun())
            && DeltaResult(s.head, s.stems, s.deltas, s.addresses, 1, 1, 0, TIGHT.deltaRetention).Ok?
            && Owned(values, s.addresses)
            && Overwrite(LedgerOf(Below(r.live, 1)), EntryList(values, s.addresses)) != Flatten(s.stems)
  {
    hide DeltaResult, After, OneAddressRun, Inv, Step, ReferenceStep, RevertStep, RevertAdmissible, Logical, LedgerOf, EntryList, Overwrite, Run,
      AdmissibleRun, Lowest, CommitStep, CommitAdmissible, CommitReference, Below;
    var cfg, named := TIGHT, map[2 := 0, 3 := 0];
    var one := [Commit(Write(1, 1))];
    Begin(cfg);
    ThenWrite(cfg, [], 0, 0, [], 1, 1);
    assert [] + [Commit(Write(1, 1))] == one && [] + [Write(1, 1)] == [Write(1, 1)];
    TightBound(FRESH, START, Write(1, 1));
    ThenWrite(cfg, one, 1, 1, [Write(1, 1)], 2, 2);
    TightBound(Reached(cfg, one).0, Reached(cfg, one).1, Write(2, 2));
    var two := one + [Commit(Write(2, 2))];
    ThenWrite(cfg, two, 2, 2, [Write(1, 1)] + [Write(2, 2)], 3, 3);
    TightBound(Reached(cfg, two).0, Reached(cfg, two).1, Write(3, 3));
    PairLowest(2, 3, named);
    TwoCommits(one, Write(2, 2), Write(3, 3));
    ThenRevert(cfg, one, 1, 1, [Write(1, 1)], [Write(2, 2), Write(3, 3)], named);
    var ops := two + [Commit(Write(3, 3))] + [Revert(named)];
    assert ops == PrunedRun();
    CutBound(Reached(cfg, two + [Commit(Write(3, 3))]).1, named);
    AllPersisted(cfg, Reached(cfg, ops).0, Reached(cfg, ops).1);
    ValidIsAfter(cfg, ops);
    DeltasSucceed(cfg, ops, 1, 1, 0);
    PatchIsEmpty(Reached(cfg, ops).0, Reached(cfg, ops).1);
  }

  lemma CutBound(r: Reference, named: map<u64, B256>)
    requires named != map[] && Lowest(named) == 2 && r.pruned == 2
    ensures RevertReference(r, named).pruned == 2
  {
    hide Below;
  }

  /** With every commit flushing, the pruning bound is one below the block. */
  lemma TightBound(s: State, r: Reference, b: Block)
    requires Inv(TIGHT, s, r) && b.number > s.lastBlock && r.pruned <= b.number - 1
    ensures CommitReference(TIGHT, s, r, b).pruned == b.number - 1
  {
    hide Consistency;
    AllPersisted(TIGHT, s, r);
  }

  /** A list below the pruning bound is gone, and the rows are the persisted chain. */
  lemma PrunedFacts(cfg: Config, s: State, r: Reference)
    requires Inv(cfg, s, r) && s.persistedBlock > 0
    ensures forall n :: n in s.deltas ==> r.pruned <= n
    ensures s.head.Some? && s.head.value.number == s.persistedBlock
    ensures Flatten(s.stems) == LedgerOf(Below(r.live, s.persistedBlock + 1))
  {
    hide Flatten, LedgerOf, Below, Covered, Tips, Retained, RootOfRows;
  }

  lemma PatchIsEmpty(s: State, r: Reference)
    requires Inv(TIGHT, s, r) && r == Reference([Write(1, 1)], 2) && s.persistedBlock == 1
    ensures s.head.Some? && s.head.value.number == 1
    ensures var values := PatchValues(s.stems, Touched(s.deltas, 1, 1));
            && Owned(values, s.addresses)
            && Overwrite(LedgerOf(Below(r.live, 1)), EntryList(values, s.addresses)) != Flatten(s.stems)
  {
    hide Inv, Flatten, LedgerOf, Below, EntryList;
    PrunedFacts(TIGHT, s, r);
    assert Touched(s.deltas, 1, 1) == {};
    var values := PatchValues(s.stems, {});
    assert values == map[];
    ListedNothing(values, s.addresses);
    OneWrite(r.live);
  }

  lemma OneWrite(live: seq<Block>)
    requires live == [Write(1, 1)]
    ensures LedgerOf(Below(live, 1)) == map[] && KEY in LedgerOf(Below(live, 2))
  {
    BelowIs(live, 1, 0);
    BelowIs(live, 2, 1);
    assert live[..0] == [] && live[..1] == live;
    LedgerOfNothing();
    OneLedger();
  }

  /* ---- A reorg deeper than retention ---- */

  /** Write 1, 2 and 3 at blocks 1, 2 and 3, then revert all three. */
  function DeepRun(): seq<Op> {
    [Commit(Write(1, 1)), Commit(Write(2, 2)), Commit(Write(3, 3)), Revert(map[1 := 0, 2 := 0, 3 := 0])]
  }

  /** Block 1's undo list was pruned at block 3, so the revert, which the source carries out with a
      warning, stops at 1 where nothing is live any more. It is no admissible revert, but the run
      keeps one address per stem, so the key index still covers the key. */
  lemma DeepReorg()
    ensures var named := map[1 := 0, 2 := 0, 3 := 0];
            var (t, q) := Reached(TIGHT, DeepRun()[..3]);
            var s := After(TIGHT, FRESH, DeepRun());
            && ValidRun(TIGHT, DeepRun()[..3]) && named != map[] && !RevertAdmissible(t, q, named)
            && LedgerOf(Beneath(q, named)) == map[] && Lookup(Logical(s), KEY) == 1
            && OneAddressRun(TIGHT, FRESH, DeepRun()) && Covers(s.index, KEY)
  {
    hide Holds, Reached, ValidRun, RevertStep, RevertAdmissible, Logical, LedgerOf, Beneath, After, OneAddressRun, Lowest;
    var cfg, named := TIGHT, map[1 := 0, 2 := 0, 3 := 0];
    var three := DeepRun()[..3];
    TightWrites();
    DeepOps();
    var (t, q) := Reached(cfg, three);
    HoldsFacts(cfg, three, 3, 3, [Write(1, 1), Write(2, 2), Write(3, 3)]);
    DeepRange(q, named);
    DeepSlots(t, q);
    StopsAtOne(cfg, t, named);
    NotThere(cfg, t, q, named);
    DeepContinues(cfg, three, named);
    KeyIndexCoverage(cfg, DeepRun(), KEY);
    assert KEY in Logical(After(cfg, FRESH, DeepRun()));
  }

  lemma DeepOps()
    ensures var three := DeepRun()[..3];
            && three == [Commit(Write(1, 1)), Commit(Write(2, 2))] + [Commit(Write(3, 3))]
            && DeepRun() == three + [Revert(map[1 := 0, 2 := 0, 3 := 0])]
  {
  }

  lemma TightWrites()
    ensures Holds(TIGHT, DeepRun()[..3], 3, 3, [Write(1, 1), Write(2, 2), Write(3, 3)])
    ensures Reached(TIGHT, DeepRun()[..3]).1.pruned == 2
  {
    hide Inv, Run, AdmissibleRun, CommitStep, CommitAdmissible, CommitReference, Logical;
    var cfg := TIGHT;
    var one, two := [Commit(Write(1, 1))], [Commit(Write(1, 1)), Commit(Write(2, 2))];
    Begin(cfg);
    ThenWrite(cfg, [], 0, 0, [], 1, 1);
    assert [] + one == one && [] + [Write(1, 1)] == [Write(1, 1)];
    TightBound(FRESH, START, Write(1, 1));
    ThenWrite(cfg, one, 1, 1, [Write(1, 1)], 2, 2);
    assert one + [Commit(Write(2, 2))] == two && [Write(1, 1)] + [Write(2, 2)] == [Write(1, 1), Write(2, 2)];
    TightBound(Reached(cfg, one).0, Reached(cfg, one).1, Write(2, 2));
    ThenWrite(cfg, two, 2, 2, [Write(1, 1), Write(2, 2)], 3, 3);
    TightBound(Reached(cfg, two).0, Reached(cfg, two).1, Write(3, 3));
    DeepOps();
    assert [Write(1, 1), Write(2, 2)] + [Write(3, 3)] == [Write(1, 1), Write(2, 2), Write(3, 3)];
  }

  lemma DeepRange(q: Reference, named: map<u64, B256>)
    requires q.live == [Write(1, 1), Write(2, 2), Write(3, 3)] && named == map[1 := 0, 2 := 0, 3 := 0]
    ensures named != map[] && Lowest(named) == 1 && Ascending(named) == [1, 2, 3] && LedgerOf(Beneath(q, named)) == map[]
  {
    hide Below, Ascending, Lowest, LedgerOf;
    ThreeInOrder(1, named);
    assert q.live[0].number == 1 && q.live[1].number == 2 && q.live[2].number == 3;
    BelowIs(q.live, 1, 0);
    LedgerOfNothing();
  }

  /** Only the lists of blocks 2 and 3 are left. */
  lemma DeepSlots(t: State, q: Reference)
    requires Inv(TIGHT, t, q) && q.live == [Write(1, 1), Write(2, 2), Write(3, 3)] && q.pruned == 2
    ensures Slot(t.deltas, 1) == [] && Slot(t.deltas, 2) == [Delta(KEY, 1)]
  {
    hide Tips, Contents, HeadMatches, Covered, LedgerOf, DeltasOf;
    assert q.live[1].number == 2 && Retained(t.deltas, q.live, 1);
    assert q.live[..1] == [Write(1, 1)];
    OneLedger();
    WriteDeltas(LedgerOf([Write(1, 1)]), 2, 2);
  }

  lemma StopsAtOne(cfg: Config, t: State, named: map<u64, B256>)
    requires named != map[] && Ascending(named) == [1, 2, 3]
    requires Slot(t.deltas, 1) == [] && Slot(t.deltas, 2) == [Delta(KEY, 1)]
    ensures Lookup(Logical(RevertStep(cfg, t, named)), KEY) == 1
  {
    hide Logical, Undo, RevertStep, AllSlots, Ascending, Slot, Lookup;
    RevertReplays(cfg, t, named);
    DeepList(t.deltas);
    UndoAt(Logical(t), AllSlots(t.deltas, [1, 2, 3]), KEY);
  }

  lemma DeepList(deltas: DeltaTable)
    requires Slot(deltas, 1) == [] && Slot(deltas, 2) == [Delta(KEY, 1)]
    ensures var list := AllSlots(deltas, [1, 2, 3]); list != [] && list[0] == Delta(KEY, 1)
  {
    hide Slot;
    assert [1, 2, 3][..2] == [1, 2] && [1, 2][..1] == [1] && [1][..0] == [];
    assert AllSlots(deltas, [1]) == [] && AllSlots(deltas, [1, 2]) == [Delta(KEY, 1)];
  }

  lemma NotThere(cfg: Config, t: State, q: Reference, named: map<u64, B256>)
    requires named != map[] && LedgerOf(Beneath(q, named)) == map[]
    requires Lookup(Logical(RevertStep(cfg, t, named)), KEY) == 1
    ensures !RevertAdmissible(t, q, named)
  {
    hide Logical, LedgerOf, Beneath, RevertStep, Reaches, AllSlots, Lowest;
    RevertReachesExactly(cfg, t, map[], named);
  }

  /** A valid run and then any revert keeps one address per stem. */
  lemma DeepContinues(cfg: Config, ops: seq<Op>, named: map<u64, B256>)
    requires ValidRun(cfg, ops)
    ensures OneAddressRun(cfg, FRESH, ops + [Revert(named)])
    ensures After(cfg, FRESH, ops + [Revert(named)]) == RevertStep(cfg, Reached(cfg, ops).0, named)
  {
    hide Reached, ValidRun, OneAddressRun, After, RevertStep;
    ValidIsAfter(cfg, ops);
    AfterConcat(cfg, FRESH, ops, named);
  }

  lemma {:induction false} AfterConcat(cfg: Config, s: State, ops: seq<Op>, named: map<u64, B256>)
    requires OneAddressRun(cfg, s, ops)
    ensures OneAddressRun(cfg, s, ops + [Revert(named)])
    ensures After(cfg, s, ops + [Revert(named)]) == RevertStep(cfg, After(cfg, s, ops), named)
    decreases |ops|
  {
    hide CommitStep, RevertStep, RestartStep, ShutdownStep, Consistent;
    var all := ops + [Revert(named)];
    if ops == [] {
      assert all == [Revert(named)] && all[1..] == [];
    } else {
      assert all[1..] == ops[1..] + [Revert(named)];
      AfterConcat(cfg, Step(cfg, s, ops[0]), ops[1..], named);
    }
  }

  /* ---- One NOMT commit for two blocks ---- */

  /** Write 1 at block 1, commit blocks 2 and 3 as one chain writing 3, revert that chain. */
  function ChainRun(): seq<Op> {
    [Commit(Write(1, 1)), Commit(Write(3, 3)), Revert(map[2 := 0, 3 := 0])]
  }

  /** The revert rolls NOMT back twice, past block 1: NOMT reads zero where the map holds 1. */
  lemma ChainRollbackDiverges()
    ensures var s := Reached(Every(1), ChainRun()).0;
            && ValidRun(Every(1), ChainRun())
            && Lookup(Logical(s), KEY) == 1
            && ReadValue(Top(s.nomt), TreeIndex(KEY)) == Ok(0)
  {
    hide Holds, Inv, RevertStep, RevertAdmissible, RevertReference, Logical, Reached, ValidRun, Lowest, ReadValue,
      RolledBack, OwnedByZero, Slot, TreeIndex, ChainRun, Write;
    var cfg, named := Every(1), map[2 := 0, 3 := 0];
    var one, two := [Commit(Write(1, 1))], [Commit(Write(1, 1))] + [Commit(Write(3, 3))];
    ChainTables(cfg);
    PairLowest(2, 3, named);
    OneCommit(one, Write(3, 3));
    NumberNamed(named);
    ThenRevert(cfg, one, 1, 1, [Write(1, 1)], [Write(3, 3)], named);
    HoldsFacts(cfg, two + [Revert(named)], 1, 1, [Write(1, 1)]);
    RevertFields(cfg, Reached(cfg, two).0, named);
    RolledToStart(Reached(cfg, two).0.nomt, TreeIndex(KEY));
    ChainReverted();
  }

  lemma NumberNamed(named: map<u64, B256>)
    requires named == map[2 := 0, 3 := 0]
    ensures Write(3, 3).number in named && Write(3, 3).number == 3
  {
  }

  lemma ChainReverted()
    ensures [Commit(Write(1, 1))] + [Commit(Write(3, 3))] + [Revert(map[2 := 0, 3 := 0])] == ChainRun()
  {
  }

  lemma ChainTables(cfg: Config)
    requires cfg == Every(1)
    ensures var one, two := [Commit(Write(1, 1))], [Commit(Write(1, 1))] + [Commit(Write(3, 3))];
            var (t, q) := Reached(cfg, two);
            && Holds(cfg, one, 1, 1, [Write(1, 1)])
            && ValidRun(cfg, two) && OwnedByZero(t) && t.lastBlock == 3 && q.pruned == 0
            && |t.nomt| == 3 && t.nomt[0] == map[]
            && (forall k: u64 :: k > 1 ==> Slot(Reached(cfg, one).0.deltas, k) == [])
  {
    hide Inv, CommitStep, CommitAdmissible, CommitReference, Logical, Run, AdmissibleRun, BlockWrites, WriteAll;
    var one := [Commit(Write(1, 1))];
    Begin(cfg);
    ThenWrite(cfg, [], 0, 0, [], 1, 1);
    assert [] + [Commit(Write(1, 1))] == one && [] + [Write(1, 1)] == [Write(1, 1)];
    CommitNomt(cfg, FRESH, Write(1, 1));
    ThenWrite(cfg, one, 1, 1, [Write(1, 1)], 3, 3);
    CommitNomt(cfg, Reached(cfg, one).0, Write(3, 3));
    NeverPruned(cfg, FRESH, START, one + [Commit(Write(3, 3))]);
  }

  lemma RolledToStart(stack: Stack, index: B256)
    requires |stack| == 3 && stack[0] == map[]
    ensures ReadValue(Top(RolledBack(stack, 2)), index) == Ok(0)
  {
  }

  /** Write 1 at block 1, commit blocks 2 and 3 as one chain, which flushes, then 4 and 5 as
      another, which does not; crash. */
  function ChainCrash(): seq<Op> {
    [Commit(Write(1, 1)), Commit(Write(3, 3)), Commit(Write(5, 5)), Crash]
  }

  /** Start-up rolls NOMT back by two block numbers, past the persisted chain: NOMT reads 1
      where the map holds 3. */
  lemma RestartRollbackDiverges()
    ensures var s := Reached(Every(3), ChainCrash()).0;
            && ValidRun(Every(3), ChainCrash())
            && Lookup(Logical(s), KEY) == 3
            && ReadValue(Top(s.nomt), TreeIndex(KEY)) == Ok(1)
  {
    hide Holds, Inv, Logical, Run, AdmissibleRun, Reached, ValidRun, Restarted, WriteAll, BlockWrites, ReadValue, Write,
      ReadHead, ChainCrash, TreeIndex, Slot;
    var cfg := Every(3);
    LastCrash();
    var three := ChainCrash()[..3];
    ChainCommits(cfg);
    HoldsFacts(cfg, three, 5, 5, [Write(1, 1)] + [Write(3, 3)] + [Write(5, 5)]);
    var (s, r) := Reached(cfg, three);
    ThenCrash(cfg, three);
    OneSnapshot();
    CrashedHere(cfg, s, r);
  }

  lemma LastCrash()
    ensures |ChainCrash()| == 4 && ChainCrash()[..3] + [Crash] == ChainCrash()
  {
  }

  lemma ChainCommits(cfg: Config)
    requires cfg == Every(3)
    ensures var ops := ChainCrash()[..3];
            var s := Reached(cfg, ops).0;
            && Holds(cfg, ops, 5, 5, [Write(1, 1)] + [Write(3, 3)] + [Write(5, 5)])
            && s.persistedBlock == 3 && ReadHead(Top(s.nomt)) == 5 && |s.nomt| == 4
            && s.nomt[1] == WriteAll(map[], BlockWrites(Write(1, 1)))
  {
    hide Inv, CommitStep, CommitAdmissible, CommitReference, Logical, Run, AdmissibleRun, BlockWrites, WriteAll,
      SavedDeltas, EntriesSorted, PutAll, OwnedByZero, Slot, PrunedBefore;
    var one := [Commit(Write(1, 1))];
    Begin(cfg);
    ThenWrite(cfg, [], 0, 0, [], 1, 1);
    assert [] + [Commit(Write(1, 1))] == one && [] + [Write(1, 1)] == [Write(1, 1)];
    CommitNomt(cfg, FRESH, Write(1, 1));
    CommitFields(cfg, FRESH, Write(1, 1));
    var (s1, r1) := Reached(cfg, one);
    ThenWrite(cfg, one, 1, 1, [Write(1, 1)], 3, 3);
    var two := one + [Commit(Write(3, 3))];
    CommitNomt(cfg, s1, Write(3, 3));
    CommitFields(cfg, s1, Write(3, 3));
    var (s2, r2) := Reached(cfg, two);
    ThenWrite(cfg, two, 3, 3, [Write(1, 1)] + [Write(3, 3)], 5, 5);
    assert two + [Commit(Write(5, 5))] == ChainCrash()[..3];
    CommitNomt(cfg, s2, Write(5, 5));
    CommitFields(cfg, s2, Write(5, 5));
    BlockSnapshot(Top(s2.nomt), Write(5, 5));
  }

  lemma OneSnapshot()
    ensures ReadValue(WriteAll(map[], BlockWrites(Write(1, 1))), TreeIndex(KEY)) == Ok(1)
  {
    hide WriteAll, BlockWrites, EntryWrites, ReadValue, TreeIndex;
    KeyIsOrdinary();
    SnapshotReads(map[], Write(1, 1), 0);
  }

  lemma KeyIsOrdinary()
    ensures TreeIndex(KEY) != HEAD_KEY
  {
  }

  /** What a commit writes is what NOMT then reads. */
  lemma SnapshotReads(snapshot: Snapshot, b: Block, i: nat)
    requires DistinctKeys(b.entries) && i < |b.entries| && TreeIndex(b.entries[i].key) != HEAD_KEY
    ensures ReadValue(WriteAll(snapshot, BlockWrites(b)), TreeIndex(b.entries[i].key)) == Ok(b.entries[i].value)
  {
    hide WriteAll, BlockWrites, EntryWrites, TreeIndex;
    BlockSnapshot(snapshot, b);
    IndexWritten(snapshot, b.entries, i);
  }

  lemma CrashedHere(cfg: Config, s: State, r: Reference)
    requires Inv(cfg, s, r) && s.persistedBlock == 3 && ReadHead(Top(s.nomt)) == 5 && |s.nomt| == 4
    requires r.live == [Write(1, 1)] + [Write(3, 3)] + [Write(5, 5)]
    ensures Top(Restarted(cfg, s).nomt) == s.nomt[1]
    ensures Lookup(Logical(Restarted(cfg, s)), KEY) == 3
  {
    hide Contents, Undoable, Covered, LedgerOf, Logical, Flatten, Below, Restarted, RootOfRows, HeadMatches;
    RestartFields(cfg, s);
    RestartKeepsInvariant(cfg, s, r);
    BelowIs(r.live, 4, 2);
    assert r.live[..2] == [Write(1, 1)] + [Write(3, 3)];
    LiveLedger(cfg, Restarted(cfg, s), r.(live := Below(r.live, s.persistedBlock + 1)));
    LedgerAppend([Write(1, 1)], Write(3, 3));
    WriteDeltas(LedgerOf([Write(1, 1)]), 3, 3);
  }

  /* ---- A key index head left behind ---- */

  /** Write 1 and 2 at blocks 1 and 2, both flushed, then revert block 2. */
  function StaleHeadRun(): seq<Op> {
    [Commit(Write(1, 1)), Commit(Write(2, 2)), Revert(map[2 := 0])]
  }

  /** The MDBX head is back at block 1, the key index head still names block 2. */
  lemma IndexHeadStale()
    ensures var s := Reached(Every(1), StaleHeadRun()).0;
            && ValidRun(Every(1), StaleHeadRun()) && s.head.Some? && s.indexHead.Some?
            && s.head.value.number == 1 && s.indexHead.value.number == 2
  {
    hide Inv, CommitStep, RevertStep, CommitAdmissible, RevertAdmissible, CommitReference, Logical, Run, AdmissibleRun,
      Lowest, EntriesSorted, PutAll, SavedDeltas;
    var cfg, named := Every(1), map[2 := 0];
    var one := [Commit(Write(1, 1))];
    Begin(cfg);
    ThenWrite(cfg, [], 0, 0, [], 1, 1);
    assert [] + [Commit(Write(1, 1))] == one && [] + [Write(1, 1)] == [Write(1, 1)];
    AllPersisted(cfg, Reached(cfg, one).0, Reached(cfg, one).1);
    ThenWrite(cfg, one, 1, 1, [Write(1, 1)], 2, 2);
    var two := one + [Commit(Write(2, 2))];
    CommitFields(cfg, Reached(cfg, one).0, Write(2, 2));
    assert 2 in named;
    OneCommit(one, Write(2, 2));
    NeverPruned(cfg, FRESH, START, two);
    ThenRevert(cfg, one, 1, 1, [Write(1, 1)], [Write(2, 2)], named);
    OthersKeepIndexHead(cfg, Reached(cfg, two).0, Revert(named));
    var ops := two + [Revert(named)];
    assert ops == StaleHeadRun();
    AllPersisted(cfg, Reached(cfg, ops).0, Reached(cfg, ops).1);
    PrunedFacts(cfg, Reached(cfg, ops).0, Reached(cfg, ops).1);
  }

  /** Commit blocks 1 and 2, which flushes, revert block 2, commit another block 2, which does
      not flush, stop and start again. */
  function ReplacedHeadRun(): seq<Op> {
    [Commit(Block(1, 6, [])), Commit(Block(2, 7, [])), Revert(map[2 := 6]), Commit(Block(2, 8, [])), Stop]
  }

  /** Nothing is unflushed and both heads say block 2, but of two different blocks, although all
      hashes are true. */
  lemma IndexHeadReplaced()
    ensures var s := Reached(Every(2), ReplacedHeadRun()).0;
            && ValidRun(Every(2), ReplacedHeadRun()) && s.lastBlock == s.persistedBlock == 2
            && s.head.Some? && s.indexHead.Some?
            && s.head.value.number == 2 && s.head.value.hash == 8
            && s.indexHead.value.number == 2 && s.indexHead.value.hash == 7
            && TrueHashes(Every(2), ReplacedHeadRun()) && !HeadsAgree(s)
  {
    hide TrueHashes, Holds, Inv, Reached, ValidRun, Restarted, ShutdownStep, ReadHead, HeadsAgree, ReplacedHeadRun, Step, ReferenceStep;
    var cfg := Every(2);
    ReplacedOps();
    ReplacedCommits(cfg);
    var four := ReplacedHeadRun()[..4];
    var (s, r) := Reached(cfg, four);
    HoldsFacts(cfg, four, 2, 0, [Block(1, 6, []), Block(2, 8, [])]);
    Then(cfg, four, Stop);
    StopStep(cfg, s);
    StoppedHead(cfg, s, r);
    OthersKeepIndexHead(cfg, s, Stop);
    DifferentHashes(Restarted(cfg, ShutdownStep(cfg, s)));
    ReplacedHashes(cfg);
  }

  lemma DifferentHashes(s: State)
    requires s.head.Some? && s.indexHead.Some? && s.head.value.hash != s.indexHead.value.hash
    ensures !HeadsAgree(s)
  {
  }

  lemma StopStep(cfg: Config, s: State)
    ensures Step(cfg, s, Stop) == Restarted(cfg, ShutdownStep(cfg, s))
  {
    hide Restarted, ShutdownStep;
  }

  lemma ReplacedOps()
    ensures |ReplacedHeadRun()| == 5 && ReplacedHeadRun()[..4] + [Stop] == ReplacedHeadRun()
    ensures ReplacedHeadRun()[..4] == [Commit(Block(1, 6, []))] + [Commit(Block(2, 7, []))] + [Revert(map[2 := 6])]
                                      + [Commit(Block(2, 8, []))]
  {
  }

  /** The replaced block is the newest live one, unflushed, and the index head still the old one's. */
  lemma ReplacedCommits(cfg: Config)
    requires cfg == Every(2)
    ensures |ReplacedHeadRun()| == 5
    ensures var (b1, b2) := (Block(1, 6, []), Block(2, 7, []));
            && Reached(cfg, [Commit(b1)]).1.live == [b1] && Reached(cfg, [Commit(b1)] + [Commit(b2)]).1.live == [b1, b2]
            && Reached(cfg, [Commit(b1)] + [Commit(b2)] + [Revert(map[2 := 6])]).1.live == [b1]
    ensures var s := Reached(cfg, ReplacedHeadRun()[..4]).0;
            && Holds(cfg, ReplacedHeadRun()[..4], 2, 0, [Block(1, 6, []), Block(2, 8, [])])
            && s.lastBlock == ReadHead(Top(s.nomt)) == 2 && s.lastHash == 8
            && s.indexHead.Some? && s.indexHead.value.number == 2 && s.indexHead.value.hash == 7
  {
    hide Holds, Inv, CommitStep, RevertStep, CommitAdmissible, RevertAdmissible, CommitReference, Logical, Reached, ValidRun,
      Lowest, EntriesSorted, PutAll, SavedDeltas, PrunedBefore, WriteAll, BlockWrites, ReplacedHeadRun, Slot, ReadHead;
    var named := map[2 := 6];
    var (b1, b2, b3) := (Block(1, 6, []), Block(2, 7, []), Block(2, 8, []));
    var two := [Commit(b1)] + [Commit(b2)];
    ReplacedFlush(cfg);
    OneLowest(named);
    OneCommit([Commit(b1)], b2);
    ThenRevert(cfg, [Commit(b1)], 1, 0, [b1], [b2], named);
    var three := two + [Revert(named)];
    HoldsFacts(cfg, [Commit(b1)], 1, 0, [b1]);
    HoldsFacts(cfg, three, 1, 0, [b1]);
    OthersKeepIndexHead(cfg, Reached(cfg, two).0, Revert(named));
    RevertHead(cfg, Reached(cfg, two).0, named);
    ThenEmpty(cfg, three, 1, 0, [b1], b3);
    CommitFields(cfg, Reached(cfg, three).0, b3);
    CommitNomt(cfg, Reached(cfg, three).0, b3);
    BlockSnapshot(Top(Reached(cfg, three).0.nomt), b3);
    ReplacedOps();
    assert [b1] + [b3] == [b1, b3];
  }

  lemma OneLowest(named: map<u64, B256>)
    requires named == map[2 := 6]
    ensures named != map[] && Lowest(named) == 2
  {
    assert 2 in named;
  }

  lemma ReplacedFlush(cfg: Config)
    requires cfg == Every(2)
    ensures var (b1, b2) := (Block(1, 6, []), Block(2, 7, []));
            var (t, q) := Reached(cfg, [Commit(b1)] + [Commit(b2)]);
            && Holds(cfg, [Commit(b1)], 1, 0, [b1])
            && (forall n :: Slot(Reached(cfg, [Commit(b1)]).0.deltas, n) == [])
            && ValidRun(cfg, [Commit(b1)] + [Commit(b2)]) && q.live == [b1, b2] && OwnedByZero(t) && t.lastBlock == t.persistedBlock == 2
            && q.pruned == 0
            && t.indexHead.Some? && t.indexHead.value.number == 2 && t.indexHead.value.hash == 7
  {
    hide Inv, CommitStep, CommitAdmissible, CommitReference, Logical, Run, AdmissibleRun, EntriesSorted, PutAll, SavedDeltas;
    var (b1, b2) := (Block(1, 6, []), Block(2, 7, []));
    var one := [Commit(b1)];
    Begin(cfg);
    ThenEmpty(cfg, [], 0, 0, [], b1);
    assert [] + [Commit(b1)] == one && [] + [b1] == [b1];
    CommitFields(cfg, FRESH, b1);
    ThenEmpty(cfg, one, 1, 0, [b1], b2);
    CommitFields(cfg, Reached(cfg, one).0, b2);
    NeverPruned(cfg, FRESH, START, one + [Commit(b2)]);
    assert [b1] + [b2] == [b1, b2];
  }

  /** One operation more adds its commit to the links, and its parent hash is checked against them. */
  lemma {:induction false} OneMore(links: set<Link>, cfg: Config, s: State, r: Reference, ops: seq<Op>, op: Op)
    ensures var q := Run(cfg, s, r, ops).1;
            && Links(cfg, s, r, ops + [op])
               == Links(cfg, s, r, ops) + (if op.Commit? then {Link(TipOf(q.live), op.block)} else {})
            && (ParentsKnown(links, cfg, s, r, ops) && ParentKnown(links, q, op)
                ==> ParentsKnown(links, cfg, s, r, ops + [op]))
    decreases |ops|
  {
    hide Step, ReferenceStep, ParentKnown, TipOf;
    var all := ops + [op];
    if ops == [] {
      assert all == [op] && all[1..] == [];
    } else {
      assert all[1..] == ops[1..] + [op];
      OneMore(links, cfg, Step(cfg, s, ops[0]), ReferenceStep(cfg, s, r, ops[0]), ops[1..], op);
    }
  }

  lemma ReplacedHashes(cfg: Config)
    requires cfg == Every(2)
    ensures TrueHashes(cfg, ReplacedHeadRun())
  {
    hide Run, Links, ParentsKnown, Holds, Inv, ReplacedHeadRun, Lowest, Below, ReadHead;
    var (b1, b2, b3) := (Block(1, 6, []), Block(2, 7, []), Block(2, 8, []));
    var links := {Link(None, b1), Link(Some(6), b2), Link(Some(6), b3)};
    var one := [Commit(b1)];
    var two := one + [Commit(b2)];
    var three := two + [Revert(map[2 := 6])];
    var four := three + [Commit(b3)];
    ReplacedCommits(cfg);
    ReplacedOps();
    OneMore(links, cfg, FRESH, START, [], Commit(b1));
    assert [] + one == one;
    OneMore(links, cfg, FRESH, START, one, Commit(b2));
    OneMore(links, cfg, FRESH, START, two, Revert(map[2 := 6]));
    OneMore(links, cfg, FRESH, START, three, Commit(b3));
    OneMore(links, cfg, FRESH, START, four, Stop);
    ReplacedParent(links, Reached(cfg, two).1);
    NoLinks(links, cfg);
    assert Links(cfg, FRESH, START, ReplacedHeadRun()) == links;
  }

  lemma NoLinks(links: set<Link>, cfg: Config)
    ensures Links(cfg, FRESH, START, []) == {} && ParentsKnown(links, cfg, FRESH, START, [])
    ensures Run(cfg, FRESH, START, []).1 == START
  {
  }

  lemma ReplacedParent(links: set<Link>, q: Reference)
    requires q.live == [Block(1, 6, []), Block(2, 7, [])]
    ensures ParentKnown(links, q, Revert(map[2 := 6]))
  {
    hide Below;
    OneLowest(map[2 := 6]);
    assert q.live[0].number == 1 && q.live[1].number == 2;
    BelowIs(q.live, 2, 1);
  }

  lemma StoppedHead(cfg: Config, s: State, r: Reference)
    requires Inv(cfg, s, r) && s.lastBlock <= ReadHead(Top(s.nomt))
    ensures var t := Restarted(cfg, ShutdownStep(cfg, s));
            && t.lastBlock == t.persistedBlock == s.lastBlock
            && t.head.Some? && t.head.value.number == s.lastBlock && t.head.value.hash == s.lastHash
  {
    hide Inv, RootOfRows;
    StopKeepsInvariant(cfg, s, r);
  }
}
