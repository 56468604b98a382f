/** When each export succeeds and what it then holds, key by key, first for any
    stores and then over runs. */
module ExportResults {
  import opened Types
  import opened Sorting
  import opened Bytes
  import opened Ledger
  import opened StemRows
  import opened Tables
  import opened Index
  import opened NomtStore
  import opened Machine
  import opened LiveChain
  import opened Invariant
  import opened CommitKeeps
  import opened RevertKeeps
  import opened Runs
  import opened StepFacts
  import opened AnyRuns
  import opened StemCount
  import opened UndoTheorems
  import opened NomtAgreement
  import opened StateFile
  import opened Listing
  import opened Layouts
  import opened PirExport
  import opened ExportTheorems

  /* ---- Entry lists ---- */

  /** A list holds exactly one entry per key of the table, with its owner and value. */
  lemma ListedExactly(values: Values, addresses: Addresses, e: StorageEntry)
    requires Owned(values, addresses)
    ensures e in EntryList(values, addresses)
       <==> KeyAt(e.treeIndex) in values && values[KeyAt(e.treeIndex)] == e.value
            && addresses[KeyAt(e.treeIndex).stem] == e.address
  {
    hide SortedKeys;
    var ks, k := SortedKeys(values.Keys), KeyAt(e.treeIndex);
    var es := EntryList(values, addresses);
    if e in es {
      var i :| 0 <= i < |es| && es[i] == e;
      assert ks[i] in ks;
      TreeIndexInjective(ks[i], k);
    }
    if k in values && values[k] == e.value && addresses[k.stem] == e.address {
      assert k in ks;
      var i :| 0 <= i < |ks| && ks[i] == k;
      assert es[i] == e;
    }
  }

  function ListedStems(es: seq<StorageEntry>): set<Stem> {
    set e | e in es :: StemOf(e)
  }

  /** There are as many rows as stems with an entry. */
  lemma RowPerStem(rows: seq<StemRow>, es: seq<StorageEntry>)
    requires Partitions(rows, es)
    ensures |rows| == |ListedStems(es)|
  {
    hide StemOf;
    var stems := seq(|rows|, r requires 0 <= r < |rows| => rows[r].stem);
    forall s ensures s in ListedStems(es) <==> s in stems {
      RowStem(rows, es, stems, s);
    }
    DistinctCount(stems, ListedStems(es));
  }

  lemma RowStem(rows: seq<StemRow>, es: seq<StorageEntry>, stems: seq<Stem>, s: Stem)
    requires Partitions(rows, es)
    requires |stems| == |rows| && forall r :: 0 <= r < |rows| ==> stems[r] == rows[r].stem
    ensures s in ListedStems(es) <==> s in stems
  {
    hide StemOf, Partitions;
    if s in ListedStems(es) {
      var e :| e in es && StemOf(e) == s;
      var i :| 0 <= i < |es| && es[i] == e;
      LastSlice(rows, es);
      var r := RowOf(es, rows, i, |rows| - 1);
      assert stems[r] == s;
    }
    if s in stems {
      var r :| 0 <= r < |stems| && stems[r] == s;
      FirstOfSlice(rows, es, r);
      assert es[rows[r].offset] in es;
    }
  }

  lemma LastSlice(rows: seq<StemRow>, es: seq<StorageEntry>)
    requires Partitions(rows, es) && es != []
    ensures rows != [] && EndOf(rows, es, |rows| - 1) == |es|
  {
  }

  lemma FirstOfSlice(rows: seq<StemRow>, es: seq<StorageEntry>, r: nat)
    requires Partitions(rows, es) && r < |rows|
    ensures rows[r].offset < |es| && StemOf(es[rows[r].offset]) == rows[r].stem
  {
    assert rows[r].offset < EndOf(rows, es, r) <= |es|;
  }

  /** What an export of a list says about itself: the head's number, hash and root, how many entries
      and how many stems with an entry; and its two files. */
  lemma ExportContents(head: Head, chainId: u64, values: Values, addresses: Addresses)
    requires Owned(values, addresses)
    ensures var es := EntryList(values, addresses);
            var e := ExportOf(head, chainId, es);
            && e.number == head.number && e.hash == head.hash && e.root == head.root
            && e.entryCount == |values| && e.stemCount == |ListedStems(es)|
            && Labelled(e.stateFile, |values|, head.number, chainId, head.hash)
            && e.stateFile[64..] == EntriesBytes(es)
            && e.stemIndexFile == StemIndexBytes(OffsetTable(es))
  {
    hide SortedKeys, EntryList, OffsetTable, HeaderBytes, EntriesBytes, RowsBytes, Labelled, ListedStems, StateFileBytes,
      StemIndexBytes;
    var es := EntryList(values, addresses);
    EntryListSorted(values, addresses);
    OffsetTableCorrect(es);
    RowPerStem(OffsetTable(es), es);
    ListedCount(values, addresses);
    FileLayout(|es|, head.number, chainId, head.hash, es);
  }

  lemma ListedCount(values: Values, addresses: Addresses)
    requires Owned(values, addresses)
    ensures |EntryList(values, addresses)| == |values|
  {
    var ks := SortedKeys(values.Keys);
    forall p, q | 0 <= p < q < |ks| ensures ks[p] != ks[q] {
      assert TreeIndex(ks[p]) < TreeIndex(ks[q]);
    }
    DistinctCount(ks, values.Keys);
    assert |values| == |values.Keys|;
  }

  ghost predicate Wanted(contract: Option<Address>, address: Address) {
    contract.None? || contract.value == address
  }

  /* ---- MDBX exports ---- */

  /** The full and the contract export from MDBX: an error without a head; otherwise they succeed
      if and only if every row has a saved address, whoever owns it, and else count the rows that
      lack one. */
  lemma MdbxExactly(head: Option<Head>, rows: Rows, addresses: Addresses, contract: Option<Address>, chainId: u64)
    ensures var r := MdbxResult(head, rows, addresses, contract, chainId);
            && (r.Ok? <==> head.Some? && forall stem :: stem in rows ==> stem in addresses)
            && (head.None? ==> r == Err(NoCanonicalState))
            && (head.Some? && r.Err? ==> r == Err(MissingAddresses(|set stem | stem in rows && stem !in addresses|)))
  {
    hide ExportOf, EntryList, Selected, MdbxValues;
    assert rows.Keys - addresses.Keys == (set stem | stem in rows && stem !in addresses);
  }

  /** A successful one lists exactly the stored values of the wanted accounts, with their owners,
      under the MDBX head. */
  lemma MdbxLists(head: Option<Head>, rows: Rows, addresses: Addresses, contract: Option<Address>, chainId: u64, e: StorageEntry)
    requires MdbxResult(head, rows, addresses, contract, chainId).Ok?
    ensures rows.Keys <= addresses.Keys && Owned(Selected(Flatten(rows), addresses, contract), addresses)
    ensures var es := EntryList(Selected(Flatten(rows), addresses, contract), addresses);
            var k := KeyAt(e.treeIndex);
            && MdbxResult(head, rows, addresses, contract, chainId) == Ok(ExportOf(head.value, chainId, es))
            && (e in es <==> GetValue(NodeAt(rows, k.stem), k.subindex) == Some(e.value)
                             && k.stem in addresses && addresses[k.stem] == e.address && Wanted(contract, e.address))
  {
    hide ExportOf, EntryList, Flatten;
    MdbxOwned(rows, addresses);
    ListedExactly(Selected(Flatten(rows), addresses, contract), addresses, e);
    FlattenAt(rows, KeyAt(e.treeIndex));
  }

  /* ---- NOMT exports ---- */

  /** NOMT holds a block number where a value is expected. */
  ghost predicate Unreadable(snapshot: Snapshot, k: TreeKey) {
    TreeIndex(k) in snapshot && snapshot[TreeIndex(k)].BlockNumber?
  }

  /** Some indexed key of a wanted account cannot be read. */
  ghost predicate Blocked(index: Index, snapshot: Snapshot, contract: Option<Address>) {
    exists k: TreeKey :: Covers(index, k) && Wanted(contract, index[k.stem].address) && Unreadable(snapshot, k)
  }

  lemma IndexedValue(index: Index, snapshot: Snapshot, contract: Option<Address>, k: TreeKey)
    ensures Owned(NomtValues(index, snapshot), IndexAddresses(index))
    ensures k in Selected(NomtValues(index, snapshot), IndexAddresses(index), contract)
       <==> Covers(index, k) && Wanted(contract, index[k.stem].address)
  {
    hide ReadValue;
    NomtOwned(index, snapshot);
    IndexedKeys(index, k);
  }

  lemma ReadableExactly(index: Index, snapshot: Snapshot, contract: Option<Address>)
    requires Owned(NomtValues(index, snapshot), IndexAddresses(index))
    ensures Readable(snapshot, Selected(NomtValues(index, snapshot), IndexAddresses(index), contract))
       <==> !Blocked(index, snapshot, contract)
  {
    hide NomtValues, Selected;
    var values := Selected(NomtValues(index, snapshot), IndexAddresses(index), contract);
    forall k: TreeKey ensures k in values <==> Covers(index, k) && Wanted(contract, index[k.stem].address) {
      IndexedValue(index, snapshot, contract, k);
    }
  }

  ghost predicate NothingIndexed(index: Index) {
    forall k: TreeKey :: !Covers(index, k)
  }

  lemma NoValuesExactly(index: Index, snapshot: Snapshot)
    requires Owned(NomtValues(index, snapshot), IndexAddresses(index))
    ensures Selected(NomtValues(index, snapshot), IndexAddresses(index), None) == map[] <==> NothingIndexed(index)
  {
    hide NomtValues, Covers;
    var values := NomtValues(index, snapshot);
    forall k: TreeKey ensures k in values <==> Covers(index, k) {
      IndexedValue(index, snapshot, None, k);
    }
    if NothingIndexed(index) {
      assert values.Keys == {};
    }
  }

  /** The exports from NOMT: an error without an index head; then one if an indexed key of a wanted
      account does not read as a value; then, for the full export alone, one if the index lists
      no key though its head counts stems. Otherwise they succeed, with or without entries. */
  lemma NomtExactly(head: Option<Head>, index: Index, snapshot: Snapshot, contract: Option<Address>, chainId: u64)
    ensures var r := NomtResult(head, index, snapshot, contract, chainId);
            var blocked := Blocked(index, snapshot, contract);
            var empty := contract.None? && NothingIndexed(index) && head.Some? && head.value.stemCount > 0;
            && (r.Ok? <==> head.Some? && !blocked && !empty)
            && (head.None? ==> r == Err(MissingKeyIndexHead))
            && (head.Some? && blocked ==> r == Err(InvalidNomtValueLength))
            && (head.Some? && !blocked && empty ==> r == Err(EmptyKeyIndex))
  {
    hide Readable, ExportOf, EntryList, Selected, NomtValues, IndexAddresses, Blocked, NothingIndexed;
    NomtOwned(index, snapshot);
    ReadableExactly(index, snapshot, contract);
    NoValuesExactly(index, snapshot);
  }

  /** A successful one lists exactly the indexed keys of the wanted accounts, with the index's owners
      and NOMT's values, zero where NOMT has none, under the key index head. */
  lemma NomtLists(head: Option<Head>, index: Index, snapshot: Snapshot, contract: Option<Address>, chainId: u64, e: StorageEntry)
    requires NomtResult(head, index, snapshot, contract, chainId).Ok?
    ensures Owned(Selected(NomtValues(index, snapshot), IndexAddresses(index), contract), IndexAddresses(index))
    ensures var es := EntryList(Selected(NomtValues(index, snapshot), IndexAddresses(index), contract), IndexAddresses(index));
            var k := KeyAt(e.treeIndex);
            && NomtResult(head, index, snapshot, contract, chainId) == Ok(ExportOf(head.value, chainId, es))
            && (e in es <==> Covers(index, k) && index[k.stem].address == e.address && Wanted(contract, e.address)
                             && (if e.treeIndex in snapshot then snapshot[e.treeIndex] == Word(e.value) else e.value == 0))
  {
    hide ExportOf, EntryList;
    NomtOwned(index, snapshot);
    var k := KeyAt(e.treeIndex);
    var values := Selected(NomtValues(index, snapshot), IndexAddresses(index), contract);
    ListedExactly(values, IndexAddresses(index), e);
    IndexedValue(index, snapshot, contract, k);
    if k in values {
      assert values[k] == WordAt(snapshot, k);
      assert ReadValue(snapshot, TreeIndex(k)).Ok?;
    }
  }

  /* ---- Delta exports ---- */

  /** The keys of the range's lists whose stem has no saved address. */
  function Unowned(deltas: DeltaTable, addresses: Addresses, from: int, to: int): set<TreeKey> {
    set n, d | n in deltas && from <= n <= to && d in deltas[n] && d.key.stem !in addresses :: d.key
  }

  /** Which ranges are admitted, and what the others get. */
  lemma RangeExactly(head: Option<Head>, rows: Rows, deltas: DeltaTable, addresses: Addresses,
                     from: u64, to: u64, chainId: u64, retention: u64)
    ensures var r := DeltaResult(head, rows, deltas, addresses, from, to, chainId, retention);
            var unowned := Unowned(deltas, addresses, from, to);
            && (r.Ok? <==> head.Some? && from <= to <= head.value.number <= from + retention && unowned == {})
            && (head.None? ==> r == Err(NoCanonicalState))
            && (head.Some? && from > to ==> r == Err(FromAfterTo))
            && (head.Some? && from <= to && to > head.value.number ==> r == Err(ToAheadOfHead))
            && (head.Some? && from <= to <= head.value.number && head.value.number > from + retention ==>
                  r == Err(BeforeRetentionWindow))
            && (head.Some? && from <= to <= head.value.number <= from + retention && unowned != {} ==>
                  r == Err(MissingAddresses(|unowned|)))
  {
    hide EntryList, StateFileBytes;
    assert Unowned(deltas, addresses, from, to) == (set k | k in Touched(deltas, from, to) && k.stem !in addresses);
  }

  /** A successful one holds one entry per key that a stored list of the range mentions, and no
      other, with its owner and its stored value, zero where there is none; the file carries the
      head's block and hash, the result the range and the head. */
  lemma DeltaLists(head: Option<Head>, rows: Rows, deltas: DeltaTable, addresses: Addresses,
                   from: u64, to: u64, chainId: u64, retention: u64, e: StorageEntry)
    requires DeltaResult(head, rows, deltas, addresses, from, to, chainId, retention).Ok?
    ensures Owned(PatchValues(rows, Touched(deltas, from, to)), addresses)
    ensures var d := DeltaResult(head, rows, deltas, addresses, from, to, chainId, retention).value;
            var es := EntryList(PatchValues(rows, Touched(deltas, from, to)), addresses);
            var k := KeyAt(e.treeIndex);
            && d.fromBlock == from && d.toBlock == to && head.Some? && d.headBlock == head.value.number
            && d.entryCount == |es|
            && Labelled(d.file, |es|, head.value.number, chainId, head.value.hash) && d.file[64..] == EntriesBytes(es)
            && (e in es <==> (exists n, x :: n in deltas && from <= n <= to && x in deltas[n] && x.key == k)
                             && k.stem in addresses && addresses[k.stem] == e.address
                             && e.value == GetOrZero(NodeAt(rows, k.stem), k.subindex))
  {
    hide DeltaResult, EntryList, StateFileBytes, Labelled, PatchValues, Touched, EntriesBytes;
    DeltaOwned(head, rows, deltas, addresses, from, to, chainId, retention);
    DeltaIs(head, rows, deltas, addresses, from, to, chainId, retention);
    var es := EntryList(PatchValues(rows, Touched(deltas, from, to)), addresses);
    ListedExactly(PatchValues(rows, Touched(deltas, from, to)), addresses, e);
    TouchedValue(rows, deltas, from, to, KeyAt(e.treeIndex));
    FileLayout(|es|, head.value.number, chainId, head.value.hash, es);
  }

  lemma TouchedValue(rows: Rows, deltas: DeltaTable, from: int, to: int, k: TreeKey)
    ensures var values := PatchValues(rows, Touched(deltas, from, to));
            && (k in values <==> exists n, x :: n in deltas && from <= n <= to && x in deltas[n] && x.key == k)
            && (k in values ==> values[k] == GetOrZero(NodeAt(rows, k.stem), k.subindex))
  {
  }

  lemma DeltaOwned(head: Option<Head>, rows: Rows, deltas: DeltaTable, addresses: Addresses,
                   from: u64, to: u64, chainId: u64, retention: u64)
    requires DeltaResult(head, rows, deltas, addresses, from, to, chainId, retention).Ok?
    ensures head.Some? && Owned(PatchValues(rows, Touched(deltas, from, to)), addresses)
  {
    hide DeltaResult;
    RangeExactly(head, rows, deltas, addresses, from, to, chainId, retention);
    forall k | k in Touched(deltas, from, to) ensures k.stem in addresses {
      var n, d :| n in deltas && from <= n <= to && d in deltas[n] && d.key == k;
      assert d.key !in Unowned(deltas, addresses, from, to);
    }
  }

  lemma DeltaIs(head: Option<Head>, rows: Rows, deltas: DeltaTable, addresses: Addresses,
                from: u64, to: u64, chainId: u64, retention: u64)
    requires DeltaResult(head, rows, deltas, addresses, from, to, chainId, retention).Ok?
    requires head.Some? && Owned(PatchValues(rows, Touched(deltas, from, to)), addresses)
    ensures var h := head.value;
            var es := EntryList(PatchValues(rows, Touched(deltas, from, to)), addresses);
            DeltaResult(head, rows, deltas, addresses, from, to, chainId, retention)
            == Ok(DeltaExport(from, to, h.number, |es|, StateFileBytes(NewHeader(|es| % TWO_64, h.number, chainId, h.hash), es)))
  {
    hide Touched, PatchValues, EntryList, StateFileBytes, NewHeader;
  }

  /* ---- Over runs ---- */

  /** MDBX exports never fail once a head was saved: full or of any account, after any operations
      that keep one address per stem. */
  lemma MdbxExportsSucceed(cfg: Config, ops: seq<Op>, contract: Option<Address>, chainId: u64)
    requires OneAddressRun(cfg, FRESH, ops)
    ensures var s := After(cfg, FRESH, ops);
            MdbxResult(s.head, s.stems, s.addresses, contract, chainId).Ok? <==> s.head.Some?
  {
    hide After, OneAddressRun, ExportOf, EntryList, Selected, MdbxValues;
    AddressCoverage(cfg, ops);
    var s := After(cfg, FRESH, ops);
    MdbxExactly(s.head, s.stems, s.addresses, contract, chainId);
  }

  /** A delta export succeeds exactly when its range ends at or below the head and starts within
      retention of it: no key lacks an owner after any such operations. */
  lemma DeltasSucceed(cfg: Config, ops: seq<Op>, from: u64, to: u64, chainId: u64)
    requires OneAddressRun(cfg, FRESH, ops)
    ensures var s := After(cfg, FRESH, ops);
            DeltaResult(s.head, s.stems, s.deltas, s.addresses, from, to, chainId, cfg.deltaRetention).Ok?
            <==> s.head.Some? && from <= to <= s.head.value.number <= from + cfg.deltaRetention
  {
    hide After, OneAddressRun, DeltaResult;
    AddressCoverage(cfg, ops);
    var s := After(cfg, FRESH, ops);
    RangeExactly(s.head, s.stems, s.deltas, s.addresses, from, to, chainId, cfg.deltaRetention);
  }

  /* ---- The count in the key index head ---- */

  /** The index is never behind its own head. */
  ghost predicate HeadCounts(s: State) {
    CountBelow(s) && (s.indexHead.Some? ==> s.indexHead.value.stemCount <= |s.index|)
  }

  lemma IndexNeverShrinks(cfg: Config, s: State, b: Block)
    ensures |s.index| <= |CommitStep(cfg, s, b).0.index|
  {
    hide CommitStep, InsertAll, UpdatesOf;
    if CommitStep(cfg, s, b).1.Ok? {
      CommitTables(cfg, s, b);
      InsertAllNeverShrinks(s.index, UpdatesOf(b.entries));
    } else {
      FailedCounts(cfg, s, b);
    }
  }

  lemma FailedKeepsIndexHead(cfg: Config, s: State, b: Block)
    requires CommitStep(cfg, s, b).1.Err?
    ensures CommitStep(cfg, s, b).0.indexHead == s.indexHead
  {
    hide OverlayPut, WriteAll, BlockWrites, UpdatesOf, InsertAll, SaveAddresses, NewAddresses, SavedDeltas, Effective,
      FlushAll, Prune, SaveIndexHead;
  }

  lemma StepHeadCounts(cfg: Config, s: State, op: Op)
    requires HeadCounts(s)
    ensures HeadCounts(Step(cfg, s, op))
  {
    hide CommitStep, RevertStep, RestartStep, ShutdownStep, CountBelow, SavedDeltas, EntriesSorted, PutAll, Logical,
      ShouldFlush, PrunedBefore;
    StepBelow(cfg, s, op);
    if op.Commit? {
      IndexNeverShrinks(cfg, s, op.block);
      if CommitStep(cfg, s, op.block).1.Ok? {
        CommitFields(cfg, s, op.block);
        BelowBound(CommitStep(cfg, s, op.block).0);
      } else {
        FailedKeepsIndexHead(cfg, s, op.block);
      }
    } else {
      OthersKeepIndexHead(cfg, s, op);
      OthersKeepIndex(cfg, s, op);
    }
  }

  lemma BelowBound(s: State)
    requires CountBelow(s)
    ensures s.stemCount % TWO_64 <= |s.index|
  {
  }

  lemma {:induction false} RunHeadCounts(cfg: Config, s: State, ops: seq<Op>)
    requires HeadCounts(s)
    ensures HeadCounts(After(cfg, s, ops))
    decreases |ops|
  {
    hide HeadCounts, Step;
    if ops != [] {
      StepHeadCounts(cfg, s, ops[0]);
      RunHeadCounts(cfg, Step(cfg, s, ops[0]), ops[1..]);
    }
  }

  /** An index head that counts stems sits over an index that lists a key. */
  lemma CountedIsIndexed(cfg: Config, ops: seq<Op>)
    requires OneAddressRun(cfg, FRESH, ops)
    ensures var s := After(cfg, FRESH, ops);
            s.indexHead.Some? && s.indexHead.value.stemCount > 0 ==> !NothingIndexed(s.index)
  {
    hide After, OneAddressRun, Indexed;
    FreshIndexed();
    RunHeadCounts(cfg, FRESH, ops);
    RunNoEmptyRecord(cfg, FRESH, ops);
    var s := After(cfg, FRESH, ops);
    if s.indexHead.Some? && s.indexHead.value.stemCount > 0 {
      assert |s.index| == |s.index.Keys|;
      var stem: Stem := SomeStem(s.index);
      var i :| i in s.index[stem].bits;
      assert Covers(s.index, TreeKey(stem, i));
    }
  }

  /** NOMT exports over single-block runs: full or of any account, with or without entries, they
      succeed exactly when a commit has saved the index head and, while a block is live, no wanted
      account has written the tree index NOMT keeps for itself. */
  lemma NomtExportsSucceed(cfg: Config, ops: seq<Op>, contract: Option<Address>, chainId: u64)
    requires SingleRun(cfg, ops)
    ensures var (s, r) := Reached(cfg, ops);
            NomtResult(s.indexHead, s.index, Top(s.nomt), contract, chainId).Ok?
            <==> s.indexHead.Some?
                 && !(r.live != [] && Covers(s.index, ReservedKey())
                      && Wanted(contract, s.index[ReservedKey().stem].address))
  {
    hide Run, After, OneAddressRun, AdmissibleRun, SingleBlockRun, Inv, NomtInv, NomtResult, Covers, Blocked, NothingIndexed,
      TreeIndex, Logical;
    var (s, r) := Reached(cfg, ops);
    SingleReached(cfg, ops);
    ValidIsAfter(cfg, ops);
    CountedIsIndexed(cfg, ops);
    NomtExactly(s.indexHead, s.index, Top(s.nomt), contract, chainId);
    BlockedExactly(cfg, ops, contract);
  }

  lemma BlockedExactly(cfg: Config, ops: seq<Op>, contract: Option<Address>)
    requires SingleRun(cfg, ops)
    ensures var (s, r) := Reached(cfg, ops);
            Blocked(s.index, Top(s.nomt), contract)
            <==> r.live != [] && Covers(s.index, ReservedKey())
                 && Wanted(contract, s.index[ReservedKey().stem].address)
  {
    hide Run, SingleBlockRun, Inv, Logical;
    var (s, r) := Reached(cfg, ops);
    forall k: TreeKey ensures Unreadable(Top(s.nomt), k) <==> k == ReservedKey() && r.live != [] {
      UnreadableExactly(cfg, ops, k);
    }
    if r.live != [] && Covers(s.index, ReservedKey()) && Wanted(contract, s.index[ReservedKey().stem].address) {
      assert Unreadable(Top(s.nomt), ReservedKey());
    }
  }

  /** The one unreadable key is NOMT's own, once a block is live. */
  lemma UnreadableExactly(cfg: Config, ops: seq<Op>, k: TreeKey)
    requires SingleRun(cfg, ops)
    ensures var (s, r) := Reached(cfg, ops);
            Unreadable(Top(s.nomt), k) <==> k == ReservedKey() && r.live != []
  {
    hide Run, SingleBlockRun, Inv, Logical, TreeIndex;
    var (s, r) := Reached(cfg, ops);
    SingleReached(cfg, ops);
    NomtAgrees(cfg, ops, k);
    assert TreeIndex(ReservedKey()) == HEAD_KEY;
    if r.live == [] {
      assert Top(s.nomt) == map[];
    }
  }
}
