/** Start-up on stores of any content: when verification passes, where the process
    resumes, and what it makes of a flush that was cut short. */
module StartUp {
  import opened Types
  import opened Ledger
  import opened StemRows
  import opened NomtStore
  import opened Machine
  import opened LiveChain
  import opened Invariant
  import opened Runs
  import opened StepFacts
  import opened UndoTheorems

  /** Start-up succeeds if and only if nothing was ever saved or the saved root is that of the
      sorted list of the stored values; otherwise the error carries both roots. */
  lemma StartUpExactly(cfg: Config, s: State)
    ensures var computed := cfg.rootOf(EntriesSorted(Flatten(s.stems)));
            && (RestartStep(cfg, s).Ok? <==> s.head.None? || s.head.value.root == computed)
            && (RestartStep(cfg, s).Err? ==>
                  s.head.Some? && RestartStep(cfg, s) == Err(RootVerificationFailed(s.head.value.root, computed)))
  {
    hide Flatten, EntriesSorted, ResumedAt, SyncedNomt, SyncedHead;
  }

  function Smaller(a: u64, b: u64): u64 {
    if a < b then a else b
  }

  /** Where a successful start-up resumes: at the saved head, block 0 when there is none; persisted
      up to the smaller of that and the block NOMT stores; an empty overlay; NOMT rolled back by
      the difference if it is ahead and holds that many commits; the stores as they are. */
  lemma ResumesExactly(cfg: Config, s: State)
    requires RestartStep(cfg, s).Ok?
    ensures var t := RestartStep(cfg, s).value;
            var saved := if s.head.Some? then s.head.value else Head(0, 0, 0, 0);
            var stored := ReadHead(Top(s.nomt));
            && t.lastBlock == saved.number && t.lastHash == t.persistedHash == saved.hash
            && t.lastRoot == saved.root && t.stemCount == saved.stemCount
            && t.persistedBlock == Smaller(saved.number, stored)
            && t.dirty == map[]
            && t.nomt == (if saved.number < stored && stored - saved.number < |s.nomt|
                          then s.nomt[..|s.nomt| - (stored - saved.number)] else s.nomt)
            && t.stems == s.stems && t.addresses == s.addresses && t.deltas == s.deltas && t.head == s.head
            && t.index == s.index && t.indexHead == s.indexHead
  {
    hide RootOfRows, ReadHead;
  }

  /* ---- A flush cut short ---- */

  /** The stores when the process dies after the overlay was written and before the head was saved. */
  function Torn(s: State): State {
    s.(stems := s.stems + s.dirty)
  }

  lemma TornRows(s: State)
    ensures Flatten(Torn(s).stems) == Logical(s)
  {
  }

  /** The builder tells these two lists of entries apart, if they differ. */
  ghost predicate RootTells(cfg: Config, a: Ledger, b: Ledger) {
    cfg.rootOf(EntriesSorted(a)) == cfg.rootOf(EntriesSorted(b)) ==> a == b
  }

  lemma SameSaved(cfg: Config, s: State, r: Reference)
    requires Inv(cfg, s, r) && s.head.Some?
    ensures s.head.value.root == cfg.rootOf(EntriesSorted(LedgerOf(Below(r.live, s.persistedBlock + 1))))
  {
    hide Flatten, LedgerOf, Below, EntriesSorted, Undoable, Covered, Tips;
  }

  /** Verification catches a flush that was cut short: over every run, once a head was saved, the
      next start-up refuses the stores if and only if the flush changed the map, given that the
      builder tells the map before it from the map after it. Before the first head it accepts
      them, at block 0. */
  lemma TornFlushCaught(cfg: Config, ops: seq<Op>)
    requires ValidRun(cfg, ops)
    requires var (s, r) := Reached(cfg, ops);
             RootTells(cfg, LedgerOf(r.live), LedgerOf(Below(r.live, s.persistedBlock + 1)))
    ensures var (s, r) := Reached(cfg, ops);
            && (s.head.Some? ==>
                  (RestartStep(cfg, Torn(s)).Err?
                   <==> LedgerOf(r.live) != LedgerOf(Below(r.live, s.persistedBlock + 1))))
            && (s.head.None? ==>
                  && RestartStep(cfg, Torn(s)).Ok?
                  && RestartStep(cfg, Torn(s)).value.lastBlock == 0
                  && Flatten(RestartStep(cfg, Torn(s)).value.stems) == LedgerOf(r.live))
  {
    hide Run, AdmissibleRun, Inv, LedgerOf, Below, Flatten, EntriesSorted, RestartStep, Logical, Torn, ReadHead;
    ReachedInv(cfg, ops);
    var (s, r) := Reached(cfg, ops);
    LiveLedger(cfg, s, r);
    TornRows(s);
    TornHead(s);
    StartUpExactly(cfg, Torn(s));
    if s.head.Some? {
      SameSaved(cfg, s, r);
    } else {
      ResumesExactly(cfg, Torn(s));
    }
  }

  lemma TornHead(s: State)
    ensures Torn(s).head == s.head
  {
  }
}
