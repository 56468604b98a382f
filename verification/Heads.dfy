/** What the saved heads name: the block a restart resumes from, and the block
    the NOMT export is labelled with. */
module Heads {
  import opened Types
  import opened Ledger
  import opened StemRows
  import opened Tables
  import opened Index
  import opened NomtStore
  import opened Machine
  import opened LiveChain
  import opened Invariant
  import opened CommitKeeps
  import opened RevertKeeps
  import opened Runs
  import opened StepFacts
  import opened AnyRuns
  import opened UndoTheorems
  import opened NomtAgreement
  import opened Independence

  /** One commit of a run: the hash of the newest block live before it, and its block. */
  datatype Link = Link(parent: Option<B256>, block: Block)

  function TipOf(live: seq<Block>): Option<B256> {
    if live == [] then None else Some(live[|live| - 1].hash)
  }

  /** All commits of a run. */
  function Links(cfg: Config, s: State, r: Reference, ops: seq<Op>): set<Link>
    decreases |ops|
  {
    if ops == [] then {}
    else
      var rest := Links(cfg, Step(cfg, s, ops[0]), ReferenceStep(cfg, s, r, ops[0]), ops[1..]);
      if ops[0].Commit? then {Link(TipOf(r.live), ops[0].block)} + rest else rest
  }

  /** None of the commits has this hash. */
  ghost predicate NoBlock(links: set<Link>, hash: B256) {
    forall l :: l in links ==> l.block.hash != hash
  }

  /** `hash` is that of the newest block of `live`, or of none of the commits when there is none. */
  ghost predicate TipHash(links: set<Link>, live: seq<Block>, hash: B256) {
    if live == [] then NoBlock(links, hash) else hash == live[|live| - 1].hash
  }

  /** The head in memory and the persisted head carry the hashes of their blocks. */
  ghost predicate NamesTip(links: set<Link>, s: State, r: Reference) {
    && NoBlock(links, 0)
    && TipHash(links, r.live, s.lastHash)
    && TipHash(links, Below(r.live, s.persistedBlock + 1), s.persistedHash)
  }

  /** A revert passes the parent hash of its lowest block: that of the live block below it, and
      if there is none, the hash of no block ever committed. */
  ghost predicate ParentKnown(links: set<Link>, r: Reference, op: Op) {
    (op.Revert? && op.blocks != map[] && Lowest(op.blocks) > 0) ==>
      TipHash(links, Below(r.live, Lowest(op.blocks)), op.blocks[Lowest(op.blocks)])
  }

  ghost predicate ParentsKnown(links: set<Link>, cfg: Config, s: State, r: Reference, ops: seq<Op>)
    decreases |ops|
  {
    ops != [] ==>
      && ParentKnown(links, r, ops[0])
      && ParentsKnown(links, cfg, Step(cfg, s, ops[0]), ReferenceStep(cfg, s, r, ops[0]), ops[1..])
  }

  lemma CommitPlace(cfg: Config, s: State, r: Reference, b: Block)
    requires Inv(cfg, s, r) && CommitAdmissible(s, b)
    ensures s.persistedBlock <= s.lastBlock < b.number
    ensures Increasing(r.live + [b])
    ensures Below(r.live + [b], b.number + 1) == r.live + [b]
    ensures Below(r.live + [b], s.persistedBlock + 1) == Below(r.live, s.persistedBlock + 1)
  {
    hide Contents, HeadMatches, Undoable, Covered, Consistent, UpdatesOf;
    var live := r.live + [b];
    BelowAll(live, b.number + 1);
    BelowAppend(r.live, b, s.persistedBlock + 1);
  }

  lemma CommitNames(links: set<Link>, cfg: Config, s: State, r: Reference, b: Block)
    requires Inv(cfg, s, r) && NamesTip(links, s, r) && CommitAdmissible(s, b)
    ensures NamesTip(links, CommitStep(cfg, s, b).0, CommitReference(cfg, s, r, b))
  {
    hide Inv, CommitAdmissible, CommitStep, ShouldFlush, Below, SavedDeltas, EntriesSorted, PutAll, PrunedBefore;
    CommitKeepsInvariant(cfg, s, r, b);
    CommitFields(cfg, s, b);
    CommitPlace(cfg, s, r, b);
  }

  /** The live chain after a revert, seen from the new head and from the old persisted one. */
  lemma RevertPlace(s: State, r: Reference, lo: u64)
    requires Tips(s, r)
    ensures var live := Below(r.live, lo);
            && Below(live, if lo > 0 then lo else 1) == live
            && (lo == 0 ==> live == [])
            && (s.persistedBlock < lo ==> Below(live, s.persistedBlock + 1) == Below(r.live, s.persistedBlock + 1))
  {
    ShorterTips(s, r, lo);
    BelowAll(Below(r.live, lo), if lo > 0 then lo else 1);
    BelowBelow(r.live, if s.persistedBlock < lo then s.persistedBlock + 1 else lo, lo);
    if lo == 0 {
      BelowIs(r.live, 0, 0);
    }
  }

  lemma RevertNames(links: set<Link>, cfg: Config, s: State, r: Reference, blocks: map<u64, B256>)
    requires Inv(cfg, s, r) && NamesTip(links, s, r) && RevertAdmissible(s, r, blocks) && ParentKnown(links, r, Revert(blocks))
    ensures NamesTip(links, RevertStep(cfg, s, blocks), RevertReference(r, blocks))
  {
    hide Inv, NamesTip, RevertAdmissible, ParentKnown, Lowest, UndoBlocks, Ascending, FlushAll, Rewound, Below;
    if blocks != map[] {
      NonEmptyRevertNames(links, cfg, s, r, blocks);
    }
  }

  lemma NonEmptyRevertNames(links: set<Link>, cfg: Config, s: State, r: Reference, blocks: map<u64, B256>)
    requires Inv(cfg, s, r) && NamesTip(links, s, r) && RevertAdmissible(s, r, blocks) && ParentKnown(links, r, Revert(blocks))
    requires blocks != map[]
    ensures NamesTip(links, RevertStep(cfg, s, blocks), RevertReference(r, blocks))
  {
    hide Inv, Tips, RevertAdmissible, RevertStep, Below, Lowest, TipHash, NoBlock;
    TipsOf(cfg, s, r);
    RevertHead(cfg, s, blocks);
    var lo, t := Lowest(blocks), RevertStep(cfg, s, blocks);
    RevertPlace(s, r, lo);
    NothingNamed(links);
    assert lo <= s.persistedBlock ==> t.persistedBlock + 1 == if lo > 0 then lo else 1;
  }

  lemma NothingNamed(links: set<Link>)
    requires NoBlock(links, 0)
    ensures TipHash(links, [], 0)
  {
  }

  /** A restart resumes with the persisted head. */
  lemma RestartedHead(cfg: Config, s: State)
    requires HeadMatches(cfg, s) && s.persistedBlock <= ReadHead(Top(s.nomt))
    ensures var t := Restarted(cfg, s);
            t.lastBlock == t.persistedBlock == s.persistedBlock && t.lastHash == t.persistedHash == s.persistedHash
  {
    hide Flatten, EntriesSorted, SyncedNomt;
  }

  lemma CrashNames(links: set<Link>, cfg: Config, s: State, r: Reference)
    requires Inv(cfg, s, r) && NamesTip(links, s, r) && s.persistedBlock <= ReadHead(Top(s.nomt))
    ensures NamesTip(links, Restarted(cfg, s), r.(live := Below(r.live, s.persistedBlock + 1)))
  {
    hide Contents, HeadMatches, Undoable, Covered, Below, TipHash, Restarted;
    RestartedHead(cfg, s);
    BelowBelow(r.live, s.persistedBlock + 1, s.persistedBlock + 1);
  }

  lemma StopNames(links: set<Link>, cfg: Config, s: State, r: Reference)
    requires Inv(cfg, s, r) && NamesTip(links, s, r) && s.lastBlock <= ReadHead(Top(s.nomt))
    ensures NamesTip(links, Restarted(cfg, ShutdownStep(cfg, s)), r)
  {
    hide Consistency, FlushAll, Below, TipHash, RestartStep;
    FlushKeepsConsistency(cfg, s, r);
    StopIsFlushThenCrash(cfg, s);
    FlushedHash(cfg, s);
    FlushKeepsNomt(cfg, s);
    LiveBelowLast(cfg, s, r);
    CrashNames(links, cfg, FlushAll(cfg, s), r);
  }

  lemma StepNames(links: set<Link>, cfg: Config, s: State, r: Reference, op: Op)
    requires Inv(cfg, s, r) && NamesTip(links, s, r) && Admissible(s, r, op) && ParentKnown(links, r, op)
    ensures NamesTip(links, Step(cfg, s, op), ReferenceStep(cfg, s, r, op))
  {
    hide Inv, NamesTip, CommitAdmissible, RevertAdmissible, CommitStep, RevertStep, Restarted, ShutdownStep, Below,
      CommitReference, RevertReference, ParentKnown;
    match op
    case Commit(b) => CommitNames(links, cfg, s, r, b);
    case Revert(blocks) => RevertNames(links, cfg, s, r, blocks);
    case Stop => StopNames(links, cfg, s, r);
    case Crash => CrashNames(links, cfg, s, r);
  }

  lemma {:induction false} RunNames(links: set<Link>, cfg: Config, s: State, r: Reference, ops: seq<Op>)
    requires Inv(cfg, s, r) && NamesTip(links, s, r) && AdmissibleRun(cfg, s, r, ops) && ParentsKnown(links, cfg, s, r, ops)
    ensures NamesTip(links, Run(cfg, s, r, ops).0, Run(cfg, s, r, ops).1)
    decreases |ops|
  {
    hide Inv, NamesTip, Step, ReferenceStep, Admissible, ParentKnown;
    if ops != [] {
      StepNames(links, cfg, s, r, ops[0]);
      StepKeepsInvariant(cfg, s, r, ops[0]);
      RunNames(links, cfg, Step(cfg, s, ops[0]), ReferenceStep(cfg, s, r, ops[0]), ops[1..]);
    }
  }

  /** Over every run whose reverts name the right parent hash, the head in memory carries
      the hash of the newest live block and the saved head, from which a restart resumes,
      that of the newest block it covers. */
  lemma HeadNamesTip(cfg: Config, ops: seq<Op>)
    requires ValidRun(cfg, ops) && ParentsKnown({}, cfg, FRESH, START, ops)
    ensures var (s, r) := Reached(cfg, ops);
            && (r.live != [] ==> s.lastHash == r.live[|r.live| - 1].hash)
            && (s.head.Some? ==>
                  var kept := Below(r.live, s.head.value.number + 1);
                  kept != [] ==> s.head.value.hash == kept[|kept| - 1].hash)
  {
    hide Run, ParentsKnown, Contents, Undoable, Covered, Tips, RootOfRows, Below, AdmissibleRun;
    FreshHolds(cfg);
    ReachedInv(cfg, ops);
    FreshNames({});
    RunNames({}, cfg, FRESH, START, ops);
  }

  /* ---- The key index head ---- */

  /** Both heads were saved and name the same block and root. */
  predicate HeadsAgree(s: State) {
    && s.head.Some? && s.indexHead.Some?
    && s.head.value.number == s.indexHead.value.number
    && s.head.value.hash == s.indexHead.value.hash
    && s.head.value.root == s.indexHead.value.root
  }

  /** The live chain right after the last flushing commit of the run, empty when there is none;
      `chain` is the answer for the operations before `ops`. */
  function FlushedChain(cfg: Config, s: State, r: Reference, ops: seq<Op>, chain: seq<Block>): seq<Block>
    decreases |ops|
  {
    if ops == [] then chain
    else FlushedChain(cfg, Step(cfg, s, ops[0]), ReferenceStep(cfg, s, r, ops[0]), ops[1..],
                      ChainStep(cfg, s, r, ops[0], chain))
  }

  function ChainStep(cfg: Config, s: State, r: Reference, op: Op, chain: seq<Block>): seq<Block> {
    if op.Commit? && ShouldFlush(cfg, s, op.block.number) then r.live + [op.block] else chain
  }

  /** The key index head is that of the newest block of `chain`, with the chain's root. */
  ghost predicate IndexNames(cfg: Config, s: State, chain: seq<Block>) {
    if chain == [] then s.indexHead == None
    else
      var tip := chain[|chain| - 1];
      && tip.number > 0 && s.indexHead.Some?
      && s.indexHead.value.number == tip.number && s.indexHead.value.hash == tip.hash
      && s.indexHead.value.root == cfg.rootOf(EntriesSorted(LedgerOf(chain)))
  }

  lemma IndexSaved(cfg: Config, t: State, live: seq<Block>, b: Block, count: nat)
    requires b.number > 0
    requires t.indexHead == Some(Head(b.number, b.hash, cfg.rootOf(EntriesSorted(LedgerOf(live + [b]))), count))
    ensures IndexNames(cfg, t, live + [b])
  {
    hide EntriesSorted, LedgerOf;
  }

  lemma IndexKept(cfg: Config, s: State, t: State, chain: seq<Block>)
    requires IndexNames(cfg, s, chain) && t.indexHead == s.indexHead
    ensures IndexNames(cfg, t, chain)
  {
    hide EntriesSorted, LedgerOf;
  }

  lemma CommitIndexes(cfg: Config, s: State, r: Reference, b: Block, chain: seq<Block>)
    requires Inv(cfg, s, r) && CommitAdmissible(s, b) && IndexNames(cfg, s, chain)
    ensures IndexNames(cfg, CommitStep(cfg, s, b).0, ChainStep(cfg, s, r, Commit(b), chain))
  {
    hide Inv, CommitAdmissible, CommitStep, ShouldFlush, SavedDeltas, EntriesSorted, PutAll, PrunedBefore, LedgerOf,
      Logical, IndexNames, Below;
    var t := CommitStep(cfg, s, b).0;
    CommitKeepsInvariant(cfg, s, r, b);
    CommitFields(cfg, s, b);
    if ShouldFlush(cfg, s, b.number) {
      CommitPlace(cfg, s, r, b);
      LiveLedger(cfg, s, r);
      LedgerAppend(r.live, b);
      IndexSaved(cfg, t, r.live, b, t.stemCount % TWO_64);
    } else {
      IndexKept(cfg, s, t, chain);
    }
  }

  lemma StepIndexes(cfg: Config, s: State, r: Reference, op: Op, chain: seq<Block>)
    requires Inv(cfg, s, r) && Admissible(s, r, op) && IndexNames(cfg, s, chain)
    ensures IndexNames(cfg, Step(cfg, s, op), ChainStep(cfg, s, r, op, chain))
  {
    hide Inv, CommitAdmissible, RevertAdmissible, CommitStep, RevertStep, Restarted, ShutdownStep, ShouldFlush, LedgerOf,
      EntriesSorted;
    if op.Commit? {
      CommitIndexes(cfg, s, r, op.block, chain);
    } else {
      OthersKeepIndexHead(cfg, s, op);
    }
  }

  lemma {:induction false} RunIndexes(cfg: Config, s: State, r: Reference, ops: seq<Op>, chain: seq<Block>)
    requires Inv(cfg, s, r) && AdmissibleRun(cfg, s, r, ops) && IndexNames(cfg, s, chain)
    ensures IndexNames(cfg, Run(cfg, s, r, ops).0, FlushedChain(cfg, s, r, ops, chain))
    decreases |ops|
  {
    hide Inv, IndexNames, Step, ReferenceStep, Admissible, ChainStep;
    if ops != [] {
      StepIndexes(cfg, s, r, ops[0], chain);
      StepKeepsInvariant(cfg, s, r, ops[0]);
      RunIndexes(cfg, Step(cfg, s, ops[0]), ReferenceStep(cfg, s, r, ops[0]), ops[1..], ChainStep(cfg, s, r, ops[0], chain));
    }
  }

  /** Over every run the key index head is that of the chain the last flushing commit flushed. */
  lemma IndexHeadNames(cfg: Config, ops: seq<Op>)
    requires ValidRun(cfg, ops)
    ensures IndexNames(cfg, Reached(cfg, ops).0, FlushedChain(cfg, FRESH, START, ops, []))
  {
    hide Inv, Run, AdmissibleRun, FlushedChain;
    FreshHolds(cfg);
    RunIndexes(cfg, FRESH, START, ops, []);
  }

  /** The saved head in the terms of the persisted chain. */
  lemma SavedHeadIs(cfg: Config, s: State, r: Reference)
    requires Inv(cfg, s, r)
    ensures s.head.None? ==> s.persistedBlock == 0
    ensures s.head.Some? ==>
              && s.head.value.number == s.persistedBlock && s.head.value.hash == s.persistedHash
              && s.head.value.root == cfg.rootOf(EntriesSorted(LedgerOf(Below(r.live, s.persistedBlock + 1))))
  {
    hide Undoable, Covered, Tips, Below, LedgerOf, EntriesSorted, Flatten;
  }

  /** Over every run, whatever hashes the callers pass: the two saved heads agree exactly when the
      persisted block has the number and hash of the newest block of the chain the last flushing
      commit flushed, and the two chains have the same root. */
  lemma HeadsCompare(cfg: Config, ops: seq<Op>)
    requires ValidRun(cfg, ops)
    ensures var (s, r) := Reached(cfg, ops);
            var flushed := FlushedChain(cfg, FRESH, START, ops, []);
            HeadsAgree(s)
            <==> flushed != []
                 && s.persistedBlock == flushed[|flushed| - 1].number && s.persistedHash == flushed[|flushed| - 1].hash
                 && cfg.rootOf(EntriesSorted(LedgerOf(Below(r.live, s.persistedBlock + 1))))
                    == cfg.rootOf(EntriesSorted(LedgerOf(flushed)))
  {
    hide Inv, Run, AdmissibleRun, FlushedChain, Below, LedgerOf, EntriesSorted;
    ReachedInv(cfg, ops);
    IndexHeadNames(cfg, ops);
    SavedHeadIs(cfg, Reached(cfg, ops).0, Reached(cfg, ops).1);
  }

  /* ---- What a hash tells ---- */

  /** No two commits with the same hash differ in number, entries or the hash below them. */
  ghost predicate HashesTell(links: set<Link>) {
    forall a, b :: a in links && b in links && a.block.hash == b.block.hash ==> a == b
  }

  /** Every block of the chain was committed on the one before it. */
  ghost predicate Linked(links: set<Link>, live: seq<Block>) {
    forall i :: 0 <= i < |live| ==> Link(TipOf(live[..i]), live[i]) in links
  }

  lemma LinkedAppend(links: set<Link>, live: seq<Block>, b: Block)
    requires Linked(links, live) && Link(TipOf(live), b) in links
    ensures Linked(links, live + [b])
  {
    hide TipOf;
    var all := live + [b];
    forall i | 0 <= i < |all| ensures Link(TipOf(all[..i]), all[i]) in links {
      assert all[..i] == live[..i];
      assert live[..|live|] == live;
    }
  }

  lemma LinkedPrefix(links: set<Link>, live: seq<Block>, k: nat)
    requires Linked(links, live) && k <= |live|
    ensures Linked(links, live[..k])
  {
    hide TipOf;
    forall i | 0 <= i < k ensures Link(TipOf(live[..k][..i]), live[..k][i]) in links {
      assert live[..k][..i] == live[..i];
    }
  }

  /** Chains of a run with the same tip hash are the same chain. */
  lemma {:induction false} SameTipSameChain(links: set<Link>, a: seq<Block>, b: seq<Block>)
    requires HashesTell(links) && Linked(links, a) && Linked(links, b) && TipOf(a) == TipOf(b)
    ensures a == b
    decreases |a|
  {
    hide HashesTell, Linked;
    if a != [] {
      var m, n := |a| - 1, |b| - 1;
      TipsLinked(links, a, b);
      LinkedPrefix(links, a, m);
      LinkedPrefix(links, b, n);
      SameTipSameChain(links, a[..m], b[..n]);
      assert a == a[..m] + [a[m]] && b == b[..n] + [b[n]];
    }
  }

  lemma TipsLinked(links: set<Link>, a: seq<Block>, b: seq<Block>)
    requires HashesTell(links) && Linked(links, a) && Linked(links, b) && a != [] && TipOf(a) == TipOf(b)
    ensures b != [] && a[|a| - 1] == b[|b| - 1] && TipOf(a[..|a| - 1]) == TipOf(b[..|b| - 1])
  {
    assert Link(TipOf(a[..|a| - 1]), a[|a| - 1]) in links;
    assert Link(TipOf(b[..|b| - 1]), b[|b| - 1]) in links;
  }

  lemma StepLinked(links: set<Link>, cfg: Config, s: State, r: Reference, op: Op, chain: seq<Block>)
    requires Linked(links, r.live) && Linked(links, chain)
    requires op.Commit? ==> Link(TipOf(r.live), op.block) in links
    ensures Linked(links, ReferenceStep(cfg, s, r, op).live) && Linked(links, ChainStep(cfg, s, r, op, chain))
  {
    hide Linked, Below, Lowest, ShouldFlush, TipOf;
    match op
    case Commit(b) => LinkedAppend(links, r.live, b);
    case Revert(blocks) =>
      if blocks != map[] {
        LinkedPrefix(links, r.live, |Below(r.live, Lowest(blocks))|);
      }
    case Stop =>
    case Crash => LinkedPrefix(links, r.live, |Below(r.live, s.persistedBlock + 1)|);
  }

  /** The live chain and the last flushed chain are made of the run's own commits. */
  lemma {:induction false} RunLinked(links: set<Link>, cfg: Config, s: State, r: Reference, ops: seq<Op>, chain: seq<Block>)
    requires Linked(links, r.live) && Linked(links, chain) && Links(cfg, s, r, ops) <= links
    ensures Linked(links, Run(cfg, s, r, ops).1.live) && Linked(links, FlushedChain(cfg, s, r, ops, chain))
    decreases |ops|
  {
    hide Linked, Step, ReferenceStep, ChainStep, TipOf;
    if ops != [] {
      var s', r' := Step(cfg, s, ops[0]), ReferenceStep(cfg, s, r, ops[0]);
      assert ops[0].Commit? ==> Link(TipOf(r.live), ops[0].block) in Links(cfg, s, r, ops);
      assert Links(cfg, s', r', ops[1..]) <= Links(cfg, s, r, ops);
      StepLinked(links, cfg, s, r, ops[0], chain);
      RunLinked(links, cfg, s', r', ops[1..], ChainStep(cfg, s, r, ops[0], chain));
    }
  }

  /** Hashes as a node passes them: the reverts of the run name the right parent hashes, the zero
      hash is no block's, and no two commits with one hash differ. */
  ghost predicate TrueHashes(cfg: Config, ops: seq<Op>) {
    var links := Links(cfg, FRESH, START, ops);
    ParentsKnown(links, cfg, FRESH, START, ops) && NoBlock(links, 0) && HashesTell(links)
  }

  /** What a hash that stands for `live` says about the last flushed chain. */
  lemma HashIsChain(links: set<Link>, live: seq<Block>, chain: seq<Block>, hash: B256)
    requires HashesTell(links) && Linked(links, live) && Linked(links, chain) && TipHash(links, live, hash)
    ensures chain != [] && hash == chain[|chain| - 1].hash <==> chain != [] && live == chain
  {
    if chain != [] && hash == chain[|chain| - 1].hash {
      assert Link(TipOf(chain[..|chain| - 1]), chain[|chain| - 1]) in links;
      SameTipSameChain(links, live, chain);
    }
  }

  /** Over every run with true hashes: what the two hashes of a state say about the last flushed chain. */
  lemma HashesTellChains(cfg: Config, ops: seq<Op>)
    requires ValidRun(cfg, ops) && TrueHashes(cfg, ops)
    ensures var (s, r) := Reached(cfg, ops);
            var kept, flushed := Below(r.live, s.persistedBlock + 1), FlushedChain(cfg, FRESH, START, ops, []);
            flushed != [] ==>
              && (s.persistedHash == flushed[|flushed| - 1].hash <==> kept == flushed)
              && (s.lastHash == flushed[|flushed| - 1].hash <==> r.live == flushed)
  {
    hide Inv, Run, AdmissibleRun, ParentsKnown, FlushedChain, Below, HashesTell, Linked, TipHash, NoBlock, Links;
    var links := Links(cfg, FRESH, START, ops);
    FreshHolds(cfg);
    FreshNames(links);
    RunNames(links, cfg, FRESH, START, ops);
    StartLinked(links);
    RunLinked(links, cfg, FRESH, START, ops, []);
    var (s, r) := Reached(cfg, ops);
    var kept, flushed := Below(r.live, s.persistedBlock + 1), FlushedChain(cfg, FRESH, START, ops, []);
    LinkedPrefix(links, r.live, |kept|);
    HashIsChain(links, kept, flushed, s.persistedHash);
    HashIsChain(links, r.live, flushed, s.lastHash);
  }

  lemma StartLinked(links: set<Link>)
    ensures Linked(links, START.live) && Linked(links, [])
  {
  }

  lemma FreshNames(links: set<Link>)
    requires NoBlock(links, 0)
    ensures NamesTip(links, FRESH, START)
  {
  }

  /** Over every run with true hashes the two saved heads name the same block, hash and root
      exactly when the persisted chain is the one the last flushing commit flushed. Shutdowns,
      reverts and replacements since then do not matter as such. */
  lemma HeadsAgreeExactly(cfg: Config, ops: seq<Op>)
    requires ValidRun(cfg, ops) && TrueHashes(cfg, ops)
    ensures var (s, r) := Reached(cfg, ops);
            var flushed := FlushedChain(cfg, FRESH, START, ops, []);
            HeadsAgree(s)
            <==> flushed != [] && Below(r.live, s.persistedBlock + 1) == flushed
                 && s.persistedBlock == flushed[|flushed| - 1].number
  {
    hide Run, AdmissibleRun, TrueHashes, FlushedChain, Below, LedgerOf, EntriesSorted, HeadsAgree;
    HashesTellChains(cfg, ops);
    HeadsCompare(cfg, ops);
  }

  /** The NOMT export holds the values of the live chain and is labelled with the key index
      head. Over single-block runs with true hashes the label names the live tip, by number and
      hash, exactly when the live chain is the one the last flushing commit flushed; its root is
      then right. */
  lemma NomtLabelExactly(cfg: Config, ops: seq<Op>)
    requires SingleRun(cfg, ops) && TrueHashes(cfg, ops) && Reached(cfg, ops).0.indexHead.Some?
    ensures var (s, r) := Reached(cfg, ops);
            var tag := s.indexHead.value;
            && ReadsAs(Top(s.nomt), LedgerOf(r.live)) && ReadHead(Top(s.nomt)) == s.lastBlock
            && (tag.number == s.lastBlock && tag.hash == s.lastHash
                <==> FlushedChain(cfg, FRESH, START, ops, []) == r.live)
            && (FlushedChain(cfg, FRESH, START, ops, []) == r.live ==>
                  tag.root == cfg.rootOf(EntriesSorted(LedgerOf(r.live))))
  {
    hide Inv, Run, AdmissibleRun, SingleBlockRun, TrueHashes, FlushedChain, Below, LedgerOf, EntriesSorted, ReadsAs, NomtOf;
    SingleReached(cfg, ops);
    HashesTellChains(cfg, ops);
    IndexHeadNames(cfg, ops);
    var (s, r) := Reached(cfg, ops);
    NomtReadsChain(r.live);
    NomtHead(r.live);
  }
}
