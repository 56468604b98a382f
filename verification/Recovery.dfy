/** Doing blocks again: after a revert, and after a crash, where replaying the blocks
    past the persisted head rebuilds what the crash destroyed. */
module Recovery {
  import opened Types
  import opened Ledger
  import opened StemRows
  import opened Tables
  import opened Index
  import opened NomtStore
  import opened Machine
  import opened LiveChain
  import opened Invariant
  import opened CommitKeeps
  import opened RevertKeeps
  import opened Runs
  import opened StepFacts
  import opened AnyRuns
  import opened UndoTheorems
  import opened NomtAgreement
  import opened Heads
  import opened Courses

  lemma {:induction false} SaveAgain(t: Addresses, mappings: seq<(Stem, Address)>)
    requires forall p :: p in mappings ==> p.0 in t && t[p.0] == p.1
    ensures SaveAddresses(t, mappings) == Some(t)
    decreases |mappings|
  {
    if mappings != [] {
      assert mappings[0] in mappings;
      assert forall p :: p in mappings[1..] ==> p in mappings;
      SaveAgain(t, mappings[1..]);
    }
  }

  /** Blocks both tables already know leave both tables as they are. */
  lemma KnownBlockChangesNothing(index: Index, addresses: Addresses, known: set<Stem>, b: Block)
    requires AddressesIndexed(index, addresses)
    requires forall e :: e in b.entries ==> KeyKnown(index, addresses, e.key) && index[e.key.stem].address == e.address
    ensures Consistent(index, UpdatesOf(b.entries))
    ensures InsertAll(index, UpdatesOf(b.entries)) == Some(index)
    ensures SaveAddresses(addresses, NewAddresses(known, b.entries)) == Some(addresses)
  {
    hide UpdatesOf, InsertAll, NewAddresses, SaveAddresses;
    UpdateOfEntry(b.entries);
    InsertAgain(index, UpdatesOf(b.entries));
    InsertAllSucceeds(index, UpdatesOf(b.entries));
    NewAddressesCover(known, b.entries);
    SaveAgain(addresses, NewAddresses(known, b.entries));
  }

  /** How far a replay has come: `k` blocks of `live` are back, the tables and the count
      are those of `origin`. */
  ghost predicate Replayed(cfg: Config, origin: State, live: seq<Block>, t: State, q: Reference, k: nat) {
    && Inv(cfg, t, q) && k <= |live| && q.live == live[..k]
    && t.index == origin.index && t.addresses == origin.addresses && t.stemCount == origin.stemCount
    && (k < |live| ==> t.lastBlock < live[k].number)
  }

  /** What a commit of a block that both tables know leaves alone. */
  lemma ReplayTables(cfg: Config, t: State, q: Reference, b: Block)
    requires Inv(cfg, t, q) && t.lastBlock < b.number && LiveKnown(t.index, t.addresses, [b])
    ensures CommitAdmissible(t, b) && CommitStep(cfg, t, b).1.Ok?
    ensures var u := CommitStep(cfg, t, b).0;
            u.index == t.index && u.addresses == t.addresses && u.stemCount == t.stemCount
  {
    hide UpdatesOf, InsertAll, NewAddresses, SaveAddresses, Contents, HeadMatches, Undoable, Consistent, DeltasKnown,
      NomtKnown, CommitStep, EntriesSorted, PutAll, Logical, Effective;
    assert [b][0] == b;
    KnownBlockChangesNothing(t.index, t.addresses, Effective(t).Keys, b);
    CommitKeepsInvariant(cfg, t, q, b);
    CommitTables(cfg, t, b);
    CommitOutcome(cfg, t, b);
  }

  lemma OneKnown(index: Index, addresses: Addresses, live: seq<Block>, k: nat)
    requires LiveKnown(index, addresses, live) && k < |live|
    ensures LiveKnown(index, addresses, [live[k]])
  {
    forall i, e | 0 <= i < |[live[k]]| && e in [live[k]][i].entries
      ensures KeyKnown(index, addresses, e.key) && index[e.key.stem].address == e.address
    {
      assert e in live[k].entries;
    }
  }

  lemma ReplayOne(cfg: Config, origin: State, live: seq<Block>, t: State, q: Reference, k: nat)
    requires Replayed(cfg, origin, live, t, q, k) && k < |live| && Increasing(live)
    requires LiveKnown(origin.index, origin.addresses, live)
    ensures CommitAdmissible(t, live[k])
    ensures Replayed(cfg, origin, live, CommitStep(cfg, t, live[k]).0, CommitReference(cfg, t, q, live[k]), k + 1)
    ensures CommitStep(cfg, t, live[k]).0.lastBlock == live[k].number
    ensures CommitStep(cfg, t, live[k]).0.lastHash == live[k].hash
  {
    hide Inv, CommitAdmissible, CommitStep, LiveKnown, InsertAll, UpdatesOf, NewAddresses, SaveAddresses, Effective;
    OneKnown(origin.index, origin.addresses, live, k);
    ReplayTables(cfg, t, q, live[k]);
    CommitKeepsInvariant(cfg, t, q, live[k]);
    CommitTables(cfg, t, live[k]);
    assert live[..k + 1] == live[..k] + [live[k]];
  }

  lemma {:induction false} ReplayAll(cfg: Config, origin: State, live: seq<Block>, t: State, q: Reference, k: nat)
    requires Replayed(cfg, origin, live, t, q, k) && Increasing(live)
    requires LiveKnown(origin.index, origin.addresses, live)
    ensures AdmissibleRun(cfg, t, q, Commits(live[k..]))
    ensures var (u, p) := Run(cfg, t, q, Commits(live[k..]));
            && Replayed(cfg, origin, live, u, p, |live|)
            && (k < |live| ==> u.lastBlock == live[|live| - 1].number && u.lastHash == live[|live| - 1].hash)
    decreases |live| - k
  {
    hide CommitAdmissible, CommitStep, LiveKnown, Replayed, CommitReference;
    ReplayedBound(cfg, origin, live, t, q, k);
    var tail := live[k..];
    if k < |live| {
      ReplayOne(cfg, origin, live, t, q, k);
      assert tail[0] == live[k] && tail[1..] == live[k + 1..];
      assert Commits(tail)[1..] == Commits(tail[1..]);
      ReplayAll(cfg, origin, live, CommitStep(cfg, t, live[k]).0, CommitReference(cfg, t, q, live[k]), k + 1);
    }
  }

  lemma ReplayedBound(cfg: Config, origin: State, live: seq<Block>, t: State, q: Reference, k: nat)
    requires Replayed(cfg, origin, live, t, q, k)
    ensures k <= |live|
  {
  }

  lemma KnownOf(cfg: Config, s: State, r: Reference)
    requires Inv(cfg, s, r)
    ensures LiveKnown(s.index, s.addresses, r.live) && Increasing(r.live)
  {
  }

  /* ---- Revert, then replay ---- */

  /** The live blocks a revert drops. */
  function Dropped(r: Reference, blocks: map<u64, B256>): seq<Block>
    requires blocks != map[]
  {
    r.live[|Beneath(r, blocks)|..]
  }

  /** The head in memory names the newest block. */
  ghost predicate AtTip(t: State, live: seq<Block>) {
    live != [] ==> t.lastBlock == live[|live| - 1].number && t.lastHash == live[|live| - 1].hash
  }

  lemma RevertKeepsTables(cfg: Config, s: State, blocks: map<u64, B256>)
    requires blocks != map[]
    ensures var t := RevertStep(cfg, s, blocks);
            t.index == s.index && t.addresses == s.addresses && t.stemCount == s.stemCount
  {
    hide Unwound, RevertStep, Lowest, RootOfRows;
    UnwoundPlace(cfg, s, blocks);
  }

  /** The state right after a revert, seen as a replay that has done the blocks below it. */
  lemma RevertStartsReplay(cfg: Config, s: State, r: Reference, blocks: map<u64, B256>)
    requires Inv(cfg, s, r) && RevertAdmissible(s, r, blocks) && blocks != map[]
    ensures Replayed(cfg, s, r.live, RevertStep(cfg, s, blocks), RevertReference(r, blocks), |Beneath(r, blocks)|)
  {
    hide Inv, RevertAdmissible, RevertStep, Lowest, Below, RolledBack;
    RevertKeepsInvariant(cfg, s, r, blocks);
    RevertKeepsTables(cfg, s, blocks);
    RevertFields(cfg, s, blocks);
    KnownOf(cfg, s, r);
    BelowSpec(r.live, Lowest(blocks));
    TipsOf(cfg, s, r);
  }

  /** Revert and replay from one state. */
  lemma RevertAndReplay(cfg: Config, s: State, r: Reference, blocks: map<u64, B256>)
    requires Inv(cfg, s, r) && RevertAdmissible(s, r, blocks) && blocks != map[]
    ensures var replay := [Revert(blocks)] + Commits(Dropped(r, blocks));
            var (t, q) := Run(cfg, s, r, replay);
            && AdmissibleRun(cfg, s, r, replay) && Replayed(cfg, s, r.live, t, q, |r.live|)
            && (Dropped(r, blocks) != [] ==> AtTip(t, r.live))
  {
    hide Inv, Commits, Below, Lowest, RevertStep, RevertAdmissible, RevertReference, Replayed, LiveKnown;
    var lost := Dropped(r, blocks);
    RunConcat(cfg, s, r, [Revert(blocks)], Commits(lost));
    SingleStep(cfg, s, r, Revert(blocks));
    assert [Revert(blocks)][1..] == [];
    RevertStartsReplay(cfg, s, r, blocks);
    KnownOf(cfg, s, r);
    ReplayAll(cfg, s, r.live, RevertStep(cfg, s, blocks), RevertReference(r, blocks), |Beneath(r, blocks)|);
  }

  /** Revert, then replay: after any run and any admissible revert, committing the dropped live
      blocks again is admissible and gives back the map, the live chain, the key index, the stem
      addresses and stem_count, wherever flushes fell; if anything was dropped, the last block
      and hash are those of the newest live block. */
  lemma RevertThenReplay(cfg: Config, ops: seq<Op>, blocks: map<u64, B256>)
    requires ValidRun(cfg, ops + [Revert(blocks)]) && blocks != map[]
    ensures var (s, r) := Reached(cfg, ops);
            var again := ops + ([Revert(blocks)] + Commits(Dropped(r, blocks)));
            var (t, q) := Reached(cfg, again);
            && ValidRun(cfg, again)
            && Logical(t) == Logical(s) && q.live == r.live
            && t.index == s.index && t.addresses == s.addresses && t.stemCount == s.stemCount
            && (Dropped(r, blocks) != [] ==> AtTip(t, r.live))
  {
    hide Run, AdmissibleRun, Inv, Commits, Flatten, Dropped, RevertAdmissible, Beneath;
    var (s, r) := Reached(cfg, ops);
    RunConcat(cfg, FRESH, START, ops, [Revert(blocks)]);
    RevertIsAdmissible(cfg, s, r, blocks);
    ReachedInv(cfg, ops);
    RevertAndReplay(cfg, s, r, blocks);
    var replay := [Revert(blocks)] + Commits(Dropped(r, blocks));
    RunConcat(cfg, FRESH, START, ops, replay);
    var (t, q) := Reached(cfg, ops + replay);
    LiveFacts(cfg, s, r);
    LiveFacts(cfg, t, q);
    assert r.live[..|r.live|] == r.live;
  }

  lemma RevertIsAdmissible(cfg: Config, s: State, r: Reference, blocks: map<u64, B256>)
    requires AdmissibleRun(cfg, s, r, [Revert(blocks)])
    ensures RevertAdmissible(s, r, blocks)
  {
    hide RevertAdmissible, RevertStep;
  }

  /** In single-block runs NOMT comes back too, snapshot for snapshot. */
  lemma RevertThenReplayNomt(cfg: Config, ops: seq<Op>, blocks: map<u64, B256>)
    requires SingleRun(cfg, ops + [Revert(blocks)]) && blocks != map[]
    ensures var (s, r) := Reached(cfg, ops);
            Reached(cfg, ops + ([Revert(blocks)] + Commits(Dropped(r, blocks)))).0.nomt == s.nomt
  {
    hide Run, AdmissibleRun, SingleBlockRun, Inv, Commits, NomtOf, RevertStep, Beneath, RevertReference;
    var (s, r) := Reached(cfg, ops);
    var revert, lost := [Revert(blocks)], Dropped(r, blocks);
    SingleConcat(cfg, FRESH, START, ops, revert);
    SingleReached(cfg, ops);
    SingleReached(cfg, ops + revert);
    RunConcat(cfg, FRESH, START, ops, revert);
    RunConcat(cfg, FRESH, START, ops, revert + Commits(lost));
    RunConcat(cfg, s, r, revert, Commits(lost));
    SingleStep(cfg, s, r, Revert(blocks));
    ReplayNomt(cfg, RevertStep(cfg, s, blocks), RevertReference(r, blocks), lost);
    assert RevertReference(r, blocks).live + lost == r.live by { BackTogether(r, blocks); }
  }

  lemma BackTogether(r: Reference, blocks: map<u64, B256>)
    requires blocks != map[]
    ensures RevertReference(r, blocks).live + Dropped(r, blocks) == r.live
  {
    hide Lowest;
  }

  lemma {:induction false} SingleConcat(cfg: Config, s: State, r: Reference, a: seq<Op>, b: seq<Op>)
    requires SingleBlockRun(cfg, s, r, a + b)
    ensures SingleBlockRun(cfg, s, r, a)
    decreases |a|
  {
    hide Step, ReferenceStep, SingleBlock;
    if a != [] {
      assert (a + b)[1..] == a[1..] + b;
      SingleConcat(cfg, Step(cfg, s, a[0]), ReferenceStep(cfg, s, r, a[0]), a[1..], b);
    }
  }

  /* ---- Crash, then replay ---- */

  /** The live blocks a crash loses. */
  function Unpersisted(s: State, r: Reference): seq<Block> {
    r.live[|Below(r.live, s.persistedBlock + 1)|..]
  }

  /** `t` is `s` but for the overlay, NOMT, the last block and hash, and the stem count saved last. */
  ghost predicate Recovered(s: State, t: State) {
    && t == s.(dirty := t.dirty, nomt := t.nomt, stemCount := t.stemCount, lastBlock := t.lastBlock, lastHash := t.lastHash)
    && t.stemCount == DurableHead(s).stemCount
  }

  /** How far the replay after a crash has come. */
  ghost predicate Back(cfg: Config, s: State, r: Reference, t: State, q: Reference, k: nat) {
    var kept := |Below(r.live, s.persistedBlock + 1)|;
    && Inv(cfg, t, q) && kept <= k <= |r.live| && q == r.(live := r.live[..k])
    && Recovered(s, t)
    && t.lastBlock == (if k == kept then s.persistedBlock else r.live[k - 1].number)
    && t.lastHash == (if k == kept then s.persistedHash else r.live[k - 1].hash)
  }

  /** A crash keeps the stores and resumes at the persisted head. */
  lemma Crashed(cfg: Config, s: State)
    requires HeadMatches(cfg, s) && s.persistedBlock <= ReadHead(Top(s.nomt))
    ensures Recovered(s, Restarted(cfg, s))
    ensures Restarted(cfg, s).lastBlock == s.persistedBlock && Restarted(cfg, s).lastHash == s.persistedHash
  {
    hide RootOfRows, SyncedNomt;
  }

  lemma HeadOf(cfg: Config, s: State, r: Reference)
    requires Inv(cfg, s, r)
    ensures HeadMatches(cfg, s)
  {
  }

  lemma CrashStartsReplay(cfg: Config, s: State, r: Reference)
    requires Inv(cfg, s, r) && s.persistedBlock <= ReadHead(Top(s.nomt))
    ensures Back(cfg, s, r, Restarted(cfg, s), ReferenceStep(cfg, s, r, Crash), |Below(r.live, s.persistedBlock + 1)|)
  {
    hide Inv, HeadMatches, Below, Recovered, Restarted;
    assert HeadMatches(cfg, s) by { HeadOf(cfg, s, r); }
    RestartKeepsInvariant(cfg, s, r);
    Crashed(cfg, s);
  }

  /** A lost block is within the flush interval of the persisted one and has its list stored. */
  lemma LostBlock(cfg: Config, s: State, r: Reference, k: nat)
    requires Inv(cfg, s, r) && |Below(r.live, s.persistedBlock + 1)| <= k < |r.live|
    ensures !ShouldFlush(cfg, s, r.live[k].number) && Retained(s.deltas, r.live, k)
    ensures s.persistedBlock < r.live[k].number && (k > 0 ==> r.live[k - 1].number < r.live[k].number)
  {
    hide Contents, Covered, HeadMatches, Retained, Below;
    BelowSpec(r.live, s.persistedBlock + 1);
  }

  /** Saving the list that is stored already changes nothing. */
  lemma SavedAgain(s: State, t: State, live: seq<Block>, k: nat)
    requires k < |live| && Retained(s.deltas, live, k) && t.deltas == s.deltas && Logical(t) == LedgerOf(live[..k])
    ensures SavedDeltas(t, live[k]) == s.deltas
  {
    hide Logical, LedgerOf, DeltasOf;
  }

  /** A commit that does not flush and finds tables and list in place. */
  lemma QuietCommit(cfg: Config, t: State, b: Block)
    requires CommitStep(cfg, t, b).1.Ok? && !ShouldFlush(cfg, t, b.number) && SavedDeltas(t, b) == t.deltas
    requires var u := CommitStep(cfg, t, b).0;
             u.index == t.index && u.addresses == t.addresses && u.stemCount == t.stemCount
    ensures var u := CommitStep(cfg, t, b).0;
            u == t.(dirty := u.dirty, nomt := u.nomt, lastBlock := b.number, lastHash := b.hash)
  {
    hide CommitStep, ShouldFlush, SavedDeltas, Logical, Effective, PutAll, EntriesSorted, OverlayPut, WriteAll, BlockWrites;
    CommitOutcome(cfg, t, b);
    CommitFields(cfg, t, b);
    UnflushedCommit(cfg, t, b);
  }

  lemma BackOne(cfg: Config, s: State, r: Reference, t: State, q: Reference, k: nat)
    requires Inv(cfg, s, r) && Back(cfg, s, r, t, q, k) && k < |r.live|
    ensures CommitAdmissible(t, r.live[k])
    ensures Back(cfg, s, r, CommitStep(cfg, t, r.live[k]).0, CommitReference(cfg, t, q, r.live[k]), k + 1)
  {
    hide Inv, CommitAdmissible, CommitStep, LiveKnown, SavedDeltas, Logical, LedgerOf, Below, Retained, DurableHead;
    var b := r.live[k];
    KnownOf(cfg, s, r);
    LostBlock(cfg, s, r, k);
    OneKnown(s.index, s.addresses, r.live, k);
    ReplayTables(cfg, t, q, b);
    LiveLedger(cfg, t, q);
    SavedAgain(s, t, r.live, k);
    QuietCommit(cfg, t, b);
    CommitKeepsInvariant(cfg, t, q, b);
    assert r.live[..k + 1] == r.live[..k] + [b];
  }

  lemma {:induction false} BackAll(cfg: Config, s: State, r: Reference, t: State, q: Reference, k: nat)
    requires Inv(cfg, s, r) && Back(cfg, s, r, t, q, k)
    ensures AdmissibleRun(cfg, t, q, Commits(r.live[k..]))
    ensures var (u, p) := Run(cfg, t, q, Commits(r.live[k..])); Back(cfg, s, r, u, p, |r.live|)
    decreases |r.live| - k
  {
    hide Inv, CommitAdmissible, CommitStep, Back, CommitReference;
    BackBound(cfg, s, r, t, q, k);
    var tail := r.live[k..];
    if k < |r.live| {
      BackOne(cfg, s, r, t, q, k);
      assert tail[0] == r.live[k] && tail[1..] == r.live[k + 1..];
      assert Commits(tail)[1..] == Commits(tail[1..]);
      BackAll(cfg, s, r, CommitStep(cfg, t, r.live[k]).0, CommitReference(cfg, t, q, r.live[k]), k + 1);
    }
  }

  lemma BackBound(cfg: Config, s: State, r: Reference, t: State, q: Reference, k: nat)
    requires Back(cfg, s, r, t, q, k)
    ensures k <= |r.live|
  {
  }

  /** Crash and replay from one state. */
  lemma CrashAndReplay(cfg: Config, s: State, r: Reference)
    requires Inv(cfg, s, r) && s.persistedBlock <= ReadHead(Top(s.nomt))
    ensures var replay := [Crash] + Commits(Unpersisted(s, r));
            var (t, q) := Run(cfg, s, r, replay);
            AdmissibleRun(cfg, s, r, replay) && Back(cfg, s, r, t, q, |r.live|)
  {
    hide Step, ReferenceStep, Admissible, Inv, Commits, Below, Back;
    var lost := Unpersisted(s, r);
    RunConcat(cfg, s, r, [Crash], Commits(lost));
    CrashIsAdmissible(cfg, s, r);
    CrashStartsReplay(cfg, s, r);
    BackAll(cfg, s, r, Restarted(cfg, s), ReferenceStep(cfg, s, r, Crash), |Below(r.live, s.persistedBlock + 1)|);
  }

  lemma CrashIsAdmissible(cfg: Config, s: State, r: Reference)
    requires s.persistedBlock <= ReadHead(Top(s.nomt))
    ensures AdmissibleRun(cfg, s, r, [Crash])
    ensures Run(cfg, s, r, [Crash]) == (Restarted(cfg, s), ReferenceStep(cfg, s, r, Crash))
  {
    hide Restarted, Below;
    assert [Crash][1..] == [];
  }

  /** Crash recovery: after any run, crash, restart and replay of the lost blocks is itself an
      admissible run. It ends with the map, the live chain and the pruning bound of the run that
      did not crash and with the same MDBX rows, addresses, undo lists and head, key index and
      key index head, last root, persisted block and hash. The last block and hash are those of
      the newest lost block, or the persisted ones; stem_count is the one saved last. */
  lemma CrashRecovery(cfg: Config, ops: seq<Op>)
    requires ValidRun(cfg, ops)
    requires Reached(cfg, ops).0.persistedBlock <= ReadHead(Top(Reached(cfg, ops).0.nomt))
    ensures var (s, r) := Reached(cfg, ops);
            var lost := Unpersisted(s, r);
            var again := ops + ([Crash] + Commits(lost));
            var (t, q) := Reached(cfg, again);
            && ValidRun(cfg, again)
            && Logical(t) == Logical(s) && q == r && Recovered(s, t)
            && (t.lastBlock, t.lastHash) == if lost == [] then (s.persistedBlock, s.persistedHash)
                                            else (lost[|lost| - 1].number, lost[|lost| - 1].hash)
  {
    hide Run, AdmissibleRun, Inv, Commits, Flatten, Below, Recovered;
    var (s, r) := Reached(cfg, ops);
    ReachedInv(cfg, ops);
    CrashAndReplay(cfg, s, r);
    var replay := [Crash] + Commits(Unpersisted(s, r));
    RunConcat(cfg, FRESH, START, ops, replay);
    var (t, q) := Reached(cfg, ops + replay);
    LiveLedger(cfg, s, r);
    LiveLedger(cfg, t, q);
    assert r.live[..|r.live|] == r.live;
  }

  /* ---- Single-block runs ---- */

  /** For single-block runs NOMT is rebuilt too, snapshot for snapshot, the last block is the
      same, and the crash needs no precondition: NOMT is never behind MDBX. */
  lemma CrashRecoveryWithNomt(cfg: Config, ops: seq<Op>)
    requires SingleRun(cfg, ops)
    ensures var (s, r) := Reached(cfg, ops);
            var lost := Unpersisted(s, r);
            var again := ops + ([Crash] + Commits(lost));
            var (t, q) := Reached(cfg, again);
            && ValidRun(cfg, again)
            && Logical(t) == Logical(s) && q == r && Recovered(s, t)
            && t.nomt == s.nomt && t.lastBlock == s.lastBlock
            && t.lastHash == if lost == [] then s.persistedHash else lost[|lost| - 1].hash
  {
    hide Run, AdmissibleRun, SingleBlockRun, Inv, Commits, Flatten, Unpersisted, NomtOf, Recovered;
    var (s, r) := Reached(cfg, ops);
    SingleReached(cfg, ops);
    NomtHead(r.live);
    TipsOf(cfg, s, r);
    CrashRecovery(cfg, ops);
    CrashReplaysNomt(cfg, s, r);
    RunConcat(cfg, FRESH, START, ops, [Crash] + Commits(Unpersisted(s, r)));
    NewestLost(s, r);
  }

  lemma NewestLost(s: State, r: Reference)
    requires Tips(s, r) && NomtInv(s, r)
    ensures var lost := Unpersisted(s, r);
            s.lastBlock == if lost == [] then s.persistedBlock else lost[|lost| - 1].number
  {
    hide NomtOf, Below;
    NumberedBelow(r.live, s.persistedBlock + 1);
  }

  lemma CrashReplaysNomt(cfg: Config, s: State, r: Reference)
    requires Inv(cfg, s, r) && NomtInv(s, r)
    ensures Run(cfg, s, r, [Crash] + Commits(Unpersisted(s, r))).0.nomt == s.nomt
  {
    hide Step, Admissible, Inv, Commits, NomtOf, Below;
    var lost := Unpersisted(s, r);
    RunConcat(cfg, s, r, [Crash], Commits(lost));
    NomtHead(r.live);
    assert s.persistedBlock <= s.lastBlock by { TipsOf(cfg, s, r); }
    CrashIsAdmissible(cfg, s, r);
    CrashKeepsNomt(cfg, s, r);
    ReplayNomt(cfg, Restarted(cfg, s), ReferenceStep(cfg, s, r, Crash), lost);
    assert ReferenceStep(cfg, s, r, Crash).live + lost == r.live;
  }

  /** Nobody can tell: for single-block runs the instance that crashed and replayed is like the
      one that did not exactly when the latter's hash is that of the newest lost block, or the
      persisted one; the two then agree, on every further list of operations that keeps one
      address per stem, in everything but stem counts and the split between rows and overlay,
      and return the same roots. */
  lemma CrashUnseen(cfg: Config, ops: seq<Op>, more: seq<Op>)
    requires SingleRun(cfg, ops) && OneAddressRun(cfg, Reached(cfg, ops).0, more)
    ensures var (s, r) := Reached(cfg, ops);
            var lost := Unpersisted(s, r);
            var t := Reached(cfg, ops + ([Crash] + Commits(lost))).0;
            && (Alike(s, t) <==> s.lastHash == if lost == [] then s.persistedHash else lost[|lost| - 1].hash)
            && (Alike(s, t) ==> Alike(After(cfg, s, more), After(cfg, t, more))
                                && Answers(cfg, s, more) == Answers(cfg, t, more))
  {
    hide Run, AdmissibleRun, SingleBlockRun, OneAddressRun, Inv, Commits, Unpersisted, Indexed, After, Answers, Alike, Recovered;
    var (s, r) := Reached(cfg, ops);
    var again := ops + ([Crash] + Commits(Unpersisted(s, r)));
    var t := Reached(cfg, again).0;
    SingleReached(cfg, ops);
    CrashRecoveryWithNomt(cfg, ops);
    ReachedIndexed(cfg, ops);
    ReachedIndexed(cfg, again);
    RecoveredAlike(s, t);
    if Alike(s, t) {
      AlikeForever(cfg, s, t, more);
    }
  }

  lemma ReachedIndexed(cfg: Config, ops: seq<Op>)
    requires ValidRun(cfg, ops)
    ensures Indexed(Reached(cfg, ops).0)
  {
    hide Run, After, AdmissibleRun, OneAddressRun, Indexed;
    ValidIsAfter(cfg, ops);
    FreshIndexed();
    RunIndexed(cfg, FRESH, ops);
  }

  lemma RecoveredAlike(s: State, t: State)
    requires Recovered(s, t) && Logical(t) == Logical(s) && t.nomt == s.nomt && t.lastBlock == s.lastBlock
    ensures Alike(s, t) <==> t.lastHash == s.lastHash
  {
    hide Logical, Flatten;
  }

  /** With reverts that pass the right parent hash, and something live, it is. */
  lemma HashKnown(cfg: Config, ops: seq<Op>)
    requires SingleRun(cfg, ops) && ParentsKnown({}, cfg, FRESH, START, ops) && Reached(cfg, ops).1.live != []
    ensures var (s, r) := Reached(cfg, ops);
            var lost := Unpersisted(s, r);
            s.lastHash == if lost == [] then s.persistedHash else lost[|lost| - 1].hash
  {
    hide Run, AdmissibleRun, SingleBlockRun, ParentsKnown, Inv, NomtOf, Below;
    var (s, r) := Reached(cfg, ops);
    SingleReached(cfg, ops);
    FreshHolds(cfg);
    FreshNames({});
    RunNames({}, cfg, FRESH, START, ops);
    assert Unpersisted(s, r) == [] ==> Below(r.live, s.persistedBlock + 1) == r.live;
  }

  /** Replayed commits push the snapshots of their blocks. */
  lemma {:induction false} ReplayNomt(cfg: Config, s: State, r: Reference, blocks: seq<Block>)
    requires s.nomt == NomtOf(r.live)
    ensures Run(cfg, s, r, Commits(blocks)).0.nomt == NomtOf(r.live + blocks)
    decreases |blocks|
  {
    hide CommitStep, WriteAll, BlockWrites;
    if blocks == [] {
      assert r.live + blocks == r.live;
    } else {
      var b := blocks[0];
      assert Commits(blocks)[1..] == Commits(blocks[1..]);
      CommitNomt(cfg, s, b);
      assert (r.live + [b])[..|r.live|] == r.live;
      ReplayNomt(cfg, CommitStep(cfg, s, b).0, CommitReference(cfg, s, r, b), blocks[1..]);
      assert r.live + [b] + blocks[1..] == r.live + blocks;
    }
  }
}
