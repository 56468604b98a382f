/** What holds between any two operations, stated against the live chain. */
module Invariant {
  import opened Types
  import opened Sorting
  import opened Ledger
  import opened StemRows
  import opened Tables
  import opened Index
  import opened NomtStore
  import opened Machine
  import opened LiveChain

  /** The reference state: the live blocks, and the number below which they have lost their deltas. */
  datatype Reference = Reference(live: seq<Block>, pruned: nat)

  ghost predicate Tips(s: State, r: Reference) {
    && Increasing(r.live)
    && (forall i :: 0 <= i < |r.live| ==> 0 < r.live[i].number <= s.lastBlock)
    && s.persistedBlock <= s.lastBlock
    && r.pruned <= s.persistedBlock + 1
  }

  /** The overlay over MDBX is the live chain's ledger; MDBX alone is its persisted part. */
  ghost predicate Contents(s: State, r: Reference) {
    && Logical(s) == LedgerOf(r.live)
    && Flatten(s.stems) == LedgerOf(Below(r.live, s.persistedBlock + 1))
  }

  /** The saved head names the persisted block and the root of the rows. */
  ghost predicate HeadMatches(cfg: Config, s: State) {
    match s.head
    case None => s.persistedBlock == 0 && s.persistedHash == 0 && s.lastRoot == 0 && s.stems == map[]
    case Some(h) =>
      && h.number == s.persistedBlock && h.hash == s.persistedHash
      && h.root == RootOfRows(cfg, s.stems) && s.lastRoot == h.root
  }

  /** Every live block not yet pruned still has its list; below the bound nothing is stored. */
  ghost predicate Undoable(deltas: DeltaTable, r: Reference) {
    && (forall i :: 0 <= i < |r.live| && r.pruned <= r.live[i].number ==> Retained(deltas, r.live, i))
    && (forall n :: n in deltas ==> r.pruned <= n)
  }

  /** A live block that changed something still has its own list. */
  ghost predicate Retained(deltas: DeltaTable, live: seq<Block>, i: nat)
    requires i < |live|
  {
    var list := DeltasOf(LedgerOf(live[..i]), live[i].entries);
    list != [] ==> Slot(deltas, live[i].number) == list
  }

  /** A key no list of these blocks mentions keeps its value across them. */
  lemma {:induction false} UnchangedAcross(deltas: DeltaTable, live: seq<Block>, j: nat, k: nat, key: TreeKey)
    requires j <= k <= |live|
    requires forall i :: j <= i < k ==> Retained(deltas, live, i) && !Mentions(Slot(deltas, live[i].number), key)
    ensures Lookup(LedgerOf(live[..k]), key) == Lookup(LedgerOf(live[..j]), key)
    decreases k
  {
    hide LedgerOf, Retained, Mentions;
    if j < k {
      UnchangedAcross(deltas, live, j, k - 1, key);
      UnchangedByOne(deltas, live, k - 1, key);
    }
  }

  lemma UnchangedByOne(deltas: DeltaTable, live: seq<Block>, i: nat, key: TreeKey)
    requires i < |live| && Retained(deltas, live, i) && !Mentions(Slot(deltas, live[i].number), key)
    ensures Lookup(LedgerOf(live[..i + 1]), key) == Lookup(LedgerOf(live[..i]), key)
  {
    hide LedgerOf, DeltasOf, PutAll, Slot;
    var b, before := live[i], LedgerOf(live[..i]);
    assert live[..i + 1] == live[..i] + [b];
    LedgerAppend(live[..i], b);
    if Lookup(PutAll(before, b.entries), key) != Lookup(before, key) {
      DeltasCoverChanges(before, b.entries, key);
    }
  }

  ghost predicate KeyKnown(index: Index, addresses: Addresses, key: TreeKey) {
    Covers(index, key) && key.stem in addresses
  }

  ghost predicate LiveKnown(index: Index, addresses: Addresses, live: seq<Block>) {
    forall i, e :: 0 <= i < |live| && e in live[i].entries ==>
      KeyKnown(index, addresses, e.key) && index[e.key.stem].address == e.address
  }

  ghost predicate DeltasKnown(index: Index, addresses: Addresses, deltas: DeltaTable) {
    forall n, d :: n in deltas && d in deltas[n] ==> KeyKnown(index, addresses, d.key)
  }

  ghost predicate NomtKnown(index: Index, nomt: Stack) {
    forall j, x :: 0 <= j < |nomt| && x in nomt[j] && x != HEAD_KEY ==> Covers(index, KeyAt(x))
  }

  ghost predicate AddressesIndexed(index: Index, addresses: Addresses) {
    forall stem :: stem in addresses ==> stem in index && index[stem].address == addresses[stem]
  }

  /** The key index and the address table know every key that can come back. */
  ghost predicate Covered(s: State, r: Reference) {
    && LiveKnown(s.index, s.addresses, r.live)
    && DeltasKnown(s.index, s.addresses, s.deltas)
    && NomtKnown(s.index, s.nomt)
    && AddressesIndexed(s.index, s.addresses)
    && Effective(s).Keys <= s.addresses.Keys
  }

  ghost predicate LagBounded(cfg: Config, s: State) {
    s.persistedBlock <= s.lastBlock
    && (s.lastBlock == s.persistedBlock || s.lastBlock - s.persistedBlock < cfg.flushInterval)
  }

  /** Everything but the flush lag, which a commit exceeds until its flush. */
  ghost predicate Consistency(cfg: Config, s: State, r: Reference) {
    Tips(s, r) && Contents(s, r) && HeadMatches(cfg, s) && Undoable(s.deltas, r) && Covered(s, r)
  }

  ghost predicate Inv(cfg: Config, s: State, r: Reference) {
    Consistency(cfg, s, r) && LagBounded(cfg, s)
  }

  /* ---- Flushing ---- */

  lemma FlushKeepsConsistency(cfg: Config, s: State, r: Reference)
    requires Consistency(cfg, s, r)
    ensures Inv(cfg, FlushAll(cfg, s), r)
    ensures Logical(FlushAll(cfg, s)) == Logical(s)
  {
    hide Flatten, RootOfRows, LedgerOf, Below, Undoable, LiveKnown, DeltasKnown, NomtKnown, AddressesIndexed;
    var f := FlushAll(cfg, s);
    assert f.stems + f.dirty == s.stems + s.dirty;
    BelowAll(r.live, s.lastBlock + 1);
  }

  lemma SaveIndexHeadKeeps(cfg: Config, s: State, r: Reference)
    requires Inv(cfg, s, r)
    ensures Inv(cfg, SaveIndexHead(cfg, s), r)
  {
    hide Flatten, RootOfRows, LedgerOf, Below, Undoable, LiveKnown, DeltasKnown, NomtKnown, AddressesIndexed;
  }

  function PrunedTo(cfg: Config, s: State, r: Reference): Reference {
    if s.lastBlock > cfg.deltaRetention && s.lastBlock - cfg.deltaRetention > r.pruned
    then r.(pruned := s.lastBlock - cfg.deltaRetention)
    else r
  }

  lemma PruneKeeps(cfg: Config, s: State, r: Reference)
    requires Inv(cfg, s, r) && s.persistedBlock == s.lastBlock
    ensures Inv(cfg, Prune(cfg, s), PrunedTo(cfg, s, r))
  {
    hide Flatten, RootOfRows, LedgerOf, Below, Undoable, LiveKnown, NomtKnown, AddressesIndexed;
    if s.lastBlock > cfg.deltaRetention {
      var bound := s.lastBlock - cfg.deltaRetention;
      PrunedUndoable(s.deltas, r, bound, PrunedTo(cfg, s, r).pruned);
    }
  }

  lemma PrunedUndoable(deltas: DeltaTable, r: Reference, bound: u64, pruned: nat)
    requires Undoable(deltas, r)
    requires pruned == if r.pruned < bound then bound else r.pruned
    ensures Undoable(PrunedBefore(deltas, bound), r.(pruned := pruned))
  {
    hide LedgerOf, Below;
    var after := PrunedBefore(deltas, bound);
    forall i | 0 <= i < |r.live| && pruned <= r.live[i].number
      ensures Retained(after, r.live, i)
    {
      assert Retained(deltas, r.live, i);
      assert Slot(after, r.live[i].number) == Slot(deltas, r.live[i].number);
    }
  }
}
