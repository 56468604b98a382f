/** Whole runs: operations from a fresh start, the reference they follow, and
    the invariant over every admissible run. */
module Runs {
  import opened Types
  import opened Ledger
  import opened StemRows
  import opened Tables
  import opened Index
  import opened NomtStore
  import opened Machine
  import opened LiveChain
  import opened Invariant
  import opened CommitKeeps
  import opened RevertKeeps

  /** One notification or process event. A reorg is a revert followed by a commit;
      `Stop` is a shutdown and the next start-up, `Crash` a start-up without one. */
  datatype Op =
    | Commit(block: Block)
    | Revert(blocks: map<u64, B256>)
    | Stop
    | Crash

  function Restarted(cfg: Config, s: State): State {
    match RestartStep(cfg, s)
    case Ok(t) => t
    case Err(_) => s
  }

  function Step(cfg: Config, s: State, op: Op): State {
    match op
    case Commit(b) => CommitStep(cfg, s, b).0
    case Revert(blocks) => RevertStep(cfg, s, blocks)
    case Stop => Restarted(cfg, ShutdownStep(cfg, s))
    case Crash => Restarted(cfg, s)
  }

  /** Only a crash loses live blocks: those after the persisted head. */
  function ReferenceStep(cfg: Config, s: State, r: Reference, op: Op): Reference {
    match op
    case Commit(b) => CommitReference(cfg, s, r, b)
    case Revert(blocks) => RevertReference(r, blocks)
    case Stop => r
    case Crash => r.(live := Below(r.live, s.persistedBlock + 1))
  }

  ghost predicate Admissible(s: State, r: Reference, op: Op) {
    match op
    case Commit(b) => CommitAdmissible(s, b)
    case Revert(blocks) => RevertAdmissible(s, r, blocks)
    case Stop => s.lastBlock <= ReadHead(Top(s.nomt))
    case Crash => s.persistedBlock <= ReadHead(Top(s.nomt))
  }

  function Run(cfg: Config, s: State, r: Reference, ops: seq<Op>): (State, Reference)
    decreases |ops|
  {
    if ops == [] then (s, r)
    else Run(cfg, Step(cfg, s, ops[0]), ReferenceStep(cfg, s, r, ops[0]), ops[1..])
  }

  ghost predicate AdmissibleRun(cfg: Config, s: State, r: Reference, ops: seq<Op>)
    decreases |ops|
  {
    ops != [] ==>
      && Admissible(s, r, ops[0])
      && AdmissibleRun(cfg, Step(cfg, s, ops[0]), ReferenceStep(cfg, s, r, ops[0]), ops[1..])
  }

  const START := Reference([], 0)

  /* ---- Start-up ---- */

  lemma FreshHolds(cfg: Config)
    ensures Inv(cfg, FRESH, START)
  {
    assert Flatten(map[]) == map[];
    assert FRESH.stems + FRESH.dirty == map[];
  }

  /** Start-up verification passes and resumes at the persisted block. */
  lemma RestartKeepsInvariant(cfg: Config, s: State, r: Reference)
    requires Inv(cfg, s, r) && s.persistedBlock <= ReadHead(Top(s.nomt))
    ensures RestartStep(cfg, s).Ok?
    ensures Inv(cfg, Restarted(cfg, s), r.(live := Below(r.live, s.persistedBlock + 1)))
  {
    hide Flatten, LedgerOf, RootOfRows, Undoable, Below, LiveKnown, DeltasKnown, NomtKnown, AddressesIndexed,
      RolledBack;
    var t := Restarted(cfg, s);
    var lo := s.persistedBlock + 1;
    assert s.stems + map[] == s.stems;
    ShorterTips(s, r, lo);
    BelowBelow(r.live, lo, lo);
    ShorterUndoable(s.deltas, t.deltas, r, lo, r.pruned);
    PrefixKnown(s.index, s.addresses, r.live, Below(r.live, lo));
    RolledBackKnown(s.index, s.nomt, 0);
    if ReadHead(Top(s.nomt)) > s.persistedBlock {
      RolledBackKnown(s.index, s.nomt, ReadHead(Top(s.nomt)) - s.persistedBlock);
    }
  }

  /** The durable part of a shutdown is that of a flush, so a clean stop loses nothing. */
  lemma StopIsFlushThenCrash(cfg: Config, s: State)
    ensures RestartStep(cfg, ShutdownStep(cfg, s)) == RestartStep(cfg, FlushAll(cfg, s))
  {
    hide RootOfRows, SyncedNomt, SyncedHead;
  }

  lemma StopKeepsInvariant(cfg: Config, s: State, r: Reference)
    requires Inv(cfg, s, r) && s.lastBlock <= ReadHead(Top(s.nomt))
    ensures RestartStep(cfg, ShutdownStep(cfg, s)).Ok?
    ensures Inv(cfg, Restarted(cfg, ShutdownStep(cfg, s)), r)
  {
    hide Consistency, RestartStep, Below;
    FlushKeepsConsistency(cfg, s, r);
    StopIsFlushThenCrash(cfg, s);
    var f := FlushAll(cfg, s);
    RestartKeepsInvariant(cfg, f, r);
    LiveBelowLast(cfg, s, r);
  }

  lemma LiveBelowLast(cfg: Config, s: State, r: Reference)
    requires Inv(cfg, s, r)
    ensures Below(r.live, s.lastBlock + 1) == r.live
  {
    BelowAll(r.live, s.lastBlock + 1);
  }

  /* ---- Every step, every run ---- */

  lemma StepKeepsInvariant(cfg: Config, s: State, r: Reference, op: Op)
    requires Inv(cfg, s, r) && Admissible(s, r, op)
    ensures Inv(cfg, Step(cfg, s, op), ReferenceStep(cfg, s, r, op))
  {
    hide Consistency, CommitAdmissible, RevertAdmissible, CommitStep, RevertStep, RestartStep, ShutdownStep, Below,
      CommitReference, RevertReference;
    match op
    case Commit(b) => CommitKeepsInvariant(cfg, s, r, b);
    case Revert(blocks) => RevertKeepsInvariant(cfg, s, r, blocks);
    case Stop => StopKeepsInvariant(cfg, s, r);
    case Crash => RestartKeepsInvariant(cfg, s, r);
  }

  lemma {:induction false} RunKeepsInvariant(cfg: Config, s: State, r: Reference, ops: seq<Op>)
    requires Inv(cfg, s, r) && AdmissibleRun(cfg, s, r, ops)
    ensures Inv(cfg, Run(cfg, s, r, ops).0, Run(cfg, s, r, ops).1)
    decreases |ops|
  {
    hide Inv, Step, ReferenceStep, Admissible;
    if ops != [] {
      StepKeepsInvariant(cfg, s, r, ops[0]);
      RunKeepsInvariant(cfg, Step(cfg, s, ops[0]), ReferenceStep(cfg, s, r, ops[0]), ops[1..]);
    }
  }

  lemma {:induction false} RunConcat(cfg: Config, s: State, r: Reference, a: seq<Op>, b: seq<Op>)
    ensures Run(cfg, s, r, a + b) == Run(cfg, Run(cfg, s, r, a).0, Run(cfg, s, r, a).1, b)
    ensures AdmissibleRun(cfg, s, r, a + b) <==>
              AdmissibleRun(cfg, s, r, a) && AdmissibleRun(cfg, Run(cfg, s, r, a).0, Run(cfg, s, r, a).1, b)
    decreases |a|
  {
    hide Step, ReferenceStep, Admissible;
    if a == [] {
      assert a + b == b;
    } else {
      assert (a + b)[1..] == a[1..] + b;
      RunConcat(cfg, Step(cfg, s, a[0]), ReferenceStep(cfg, s, r, a[0]), a[1..], b);
    }
  }

  /** The state and reference after a run from a fresh start. */
  function Reached(cfg: Config, ops: seq<Op>): (State, Reference) {
    Run(cfg, FRESH, START, ops)
  }

  /** Any list of operations a caller may issue from a fresh start. */
  ghost predicate ValidRun(cfg: Config, ops: seq<Op>) {
    AdmissibleRun(cfg, FRESH, START, ops)
  }

  lemma ReachedInv(cfg: Config, ops: seq<Op>)
    requires ValidRun(cfg, ops)
    ensures Inv(cfg, Reached(cfg, ops).0, Reached(cfg, ops).1)
  {
    hide Inv, Step, ReferenceStep;
    FreshHolds(cfg);
    RunKeepsInvariant(cfg, FRESH, START, ops);
  }
}
