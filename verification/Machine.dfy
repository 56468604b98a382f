/** The ExEx as a state machine: what each operation does to every table,
    to NOMT, to the overlay and to the counters. */
module Machine {
  import opened Types
  import opened Sorting
  import opened Ledger
  import opened StemRows
  import opened Tables
  import opened Index
  import opened NomtStore

  /** `rootOf` stands for the streaming tree builder: any function of the sorted entry list. */
  datatype Config = Config(flushInterval: u64, deltaRetention: u64, rootOf: Items -> B256)

  datatype State = State(
    // MDBX
    stems: Rows,
    addresses: Addresses,
    deltas: DeltaTable,
    head: Option<Head>,
    // key index
    index: Index,
    indexHead: Option<Head>,
    // NOMT
    nomt: Stack,
    // memory
    dirty: Rows,
    lastBlock: u64,
    lastHash: B256,
    lastRoot: B256,
    persistedBlock: u64,
    persistedHash: B256,
    stemCount: nat)

  const FRESH: State :=
    State(map[], map[], map[], None, map[], None, [map[]], map[], 0, 0, 0, 0, 0, 0)

  /** The overlay laid over the database rows. */
  function Effective(s: State): Rows {
    s.stems + s.dirty
  }

  /** The map the ExEx stands for. */
  function Logical(s: State): Ledger {
    Flatten(Effective(s))
  }

  /** `compute_root_from_db`. */
  function RootOfRows(cfg: Config, rows: Rows): B256 {
    cfg.rootOf(EntriesSorted(Flatten(rows)))
  }

  /* ---- Flushing ---- */

  function FlushRows(s: State): State {
    s.(stems := s.stems + s.dirty, dirty := map[])
  }

  function SaveHead(cfg: Config, s: State): State {
    s.(head := Some(Head(s.lastBlock, s.lastHash, RootOfRows(cfg, s.stems), s.stemCount)))
  }

  /** The persisted-head fields after a flush inside `commit` or `revert`. */
  function MarkPersisted(cfg: Config, s: State): State {
    s.(persistedBlock := s.lastBlock, persistedHash := s.lastHash, lastRoot := RootOfRows(cfg, s.stems))
  }

  function FlushAll(cfg: Config, s: State): State {
    MarkPersisted(cfg, SaveHead(cfg, FlushRows(s)))
  }

  function SaveIndexHead(cfg: Config, s: State): State {
    s.(indexHead := Some(Head(s.lastBlock, s.lastHash, RootOfRows(cfg, s.stems), s.stemCount % TWO_64)))
  }

  function Prune(cfg: Config, s: State): State {
    if s.lastBlock > cfg.deltaRetention
    then s.(deltas := PrunedBefore(s.deltas, s.lastBlock - cfg.deltaRetention))
    else s
  }

  /* ---- Commit ---- */

  predicate ShouldFlush(cfg: Config, s: State, n: u64) {
    n <= s.persistedBlock || n - s.persistedBlock >= cfg.flushInterval
  }

  /** The NOMT session and the overlay writes, which precede every check. */
  function Stage(s: State, b: Block): State {
    s.(nomt := s.nomt + [WriteAll(Top(s.nomt), BlockWrites(b))],
       dirty := OverlayPut(s.stems, s.dirty, b.entries))
  }

  function SavedDeltas(s: State, b: Block): DeltaTable {
    var deltas := DeltasOf(Logical(s), b.entries);
    if deltas == [] then s.deltas else s.deltas[b.number := deltas]
  }

  /** A commit whose address checks passed, before the flush decision. */
  function Recorded(s: State, b: Block, addresses: Addresses, index: Index): State
    requires |s.index| <= |index|
  {
    Stage(s, b).(
      addresses := addresses,
      index := index,
      stemCount := s.stemCount + (|index| - |s.index|),
      deltas := SavedDeltas(s, b),
      lastBlock := b.number,
      lastHash := b.hash)
  }

  /** A commit up to its flush decision. An error leaves the changes made before it. */
  function RecordStep(s: State, b: Block): (State, Result<()>) {
    var staged := Stage(s, b);
    match SaveAddresses(s.addresses, NewAddresses(Effective(s).Keys, b.entries))
    case None => (staged, Err(StemAddressMismatch))
    case Some(addresses) =>
      match InsertAll(s.index, UpdatesOf(b.entries))
      case None => (staged.(addresses := addresses), Err(KeyIndexAddressMismatch))
      case Some(index) =>
        InsertAllNeverShrinks(s.index, UpdatesOf(b.entries));
        (Recorded(s, b, addresses, index), Ok(()))
  }

  function CommitStep(cfg: Config, s: State, b: Block): (State, Result<B256>) {
    var (recorded, r) := RecordStep(s, b);
    if r.Err? then (recorded, Err(r.error))
    else if ShouldFlush(cfg, s, b.number) then
      var flushed := FlushAll(cfg, recorded);
      (Prune(cfg, SaveIndexHead(cfg, flushed)), Ok(flushed.lastRoot))
    else
      (recorded, Ok(s.lastRoot))
  }

  lemma InsertAllNeverShrinks(t: Index, updates: seq<Update>)
    requires InsertAll(t, updates).Some?
    ensures |t| <= |InsertAll(t, updates).value|
  {
    InsertAllGrows(t, updates);
    var t' := InsertAll(t, updates).value;
    assert t'.Keys == t.Keys + (t'.Keys - t.Keys);
    assert |t| == |t.Keys| && |t'| == |t'.Keys|;
  }

  /* ---- Revert ---- */

  function UndoBlock(s: State, n: u64): State {
    s.(dirty := OverlayUndo(s.stems, s.dirty, Slot(s.deltas, n)),
       deltas := if n > s.persistedBlock then s.deltas - {n} else s.deltas)
  }

  /** Undo the listed blocks, highest (last) first. */
  function UndoBlocks(s: State, ascending: seq<u64>): State
    decreases |ascending|
  {
    if ascending == [] then s
    else UndoBlocks(UndoBlock(s, ascending[|ascending| - 1]), ascending[..|ascending| - 1])
  }

  /** The reverted block numbers in increasing order. */
  function Ascending(blocks: map<u64, B256>): (r: seq<u64>)
    ensures StrictlySorted(r) && |r| == |blocks|
    ensures forall n :: n in r <==> n in blocks
  {
    var order := SortedSeq(blocks.Keys);
    assert forall i :: 0 <= i < |order| ==> order[i] in order;
    var r: seq<u64> := seq(|order|, i requires 0 <= i < |order| => order[i]);
    assert r == order;
    DistinctCount(r, blocks.Keys);
    r
  }

  /** The head moves to the parent of the lowest reverted block. */
  function Rewound(s: State, blocks: map<u64, B256>): State
    requires blocks != map[]
  {
    var first := Lowest(blocks);
    if first > 0 then s.(lastBlock := first - 1, lastHash := blocks[first])
    else s.(lastBlock := 0, lastHash := 0)
  }

  function Lowest(blocks: map<u64, B256>): (n: u64)
    requires blocks != map[]
    ensures n in blocks && forall b :: b in blocks ==> n <= b
  {
    var order := Ascending(blocks);
    assert exists n :: n in blocks;
    assert order[0] in order;
    assert forall b :: b in blocks ==> b in order;
    order[0]
  }

  /** `blocks` maps each reverted block number to its parent hash. */
  function RevertStep(cfg: Config, s: State, blocks: map<u64, B256>): State {
    if blocks == map[] then s
    else
      var undone := UndoBlocks(s.(nomt := RolledBack(s.nomt, |blocks|)), Ascending(blocks));
      var rewound := Rewound(undone, blocks);
      if exists b :: b in blocks && b <= s.persistedBlock then FlushAll(cfg, rewound) else rewound
  }

  /* ---- Shutdown and start-up ---- */

  function ShutdownStep(cfg: Config, s: State): State {
    SaveHead(cfg, FlushRows(s))
  }

  function DurableHead(s: State): Head {
    match s.head
    case None => Head(0, 0, 0, 0)
    case Some(h) => h
  }

  function SyncedNomt(stack: Stack, mdbxHead: u64): Stack {
    var nomtHead := ReadHead(Top(stack));
    if nomtHead > mdbxHead then RolledBack(stack, nomtHead - mdbxHead) else stack
  }

  function SyncedHead(stack: Stack, mdbxHead: u64): u64 {
    var nomtHead := ReadHead(Top(stack));
    if nomtHead < mdbxHead then nomtHead else mdbxHead
  }

  function ResumedAt(s: State, h: Head, nomt: Stack, persistedBlock: u64): State {
    s.(dirty := map[], nomt := nomt,
       lastBlock := h.number, lastHash := h.hash, lastRoot := h.root,
       persistedBlock := persistedBlock, persistedHash := h.hash, stemCount := h.stemCount)
  }

  /** `UbtExEx::new` on the durable part of `s`. */
  function RestartStep(cfg: Config, s: State): Result<State> {
    var h := DurableHead(s);
    if s.head.Some? && RootOfRows(cfg, s.stems) != h.root then
      Err(RootVerificationFailed(h.root, RootOfRows(cfg, s.stems)))
    else
      Ok(ResumedAt(s, h, SyncedNomt(s.nomt, h.number), SyncedHead(s.nomt, h.number)))
  }

  /* ---- Reads ---- */

  function StemSeen(s: State, stem: Stem): Option<StemNode> {
    if stem in s.dirty then Some(s.dirty[stem])
    else if stem in s.stems then Some(s.stems[stem])
    else None
  }

  function ValueSeen(s: State, key: TreeKey): Option<B256> {
    if key.stem in s.dirty && key.subindex in s.dirty[key.stem]
    then Some(s.dirty[key.stem][key.subindex])
    else GetValue(NodeAt(s.stems, key.stem), key.subindex)
  }
}
