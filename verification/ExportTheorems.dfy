/** What the exports of a reachable state contain. */
module ExportTheorems {
  import opened Types
  import opened Sorting
  import opened Bytes
  import opened Ledger
  import opened StemRows
  import opened Tables
  import opened Index
  import opened NomtStore
  import opened Machine
  import opened LiveChain
  import opened Invariant
  import opened CommitKeeps
  import opened RevertKeeps
  import opened Runs
  import opened StepFacts
  import opened AnyRuns
  import opened StemCount
  import opened UndoTheorems
  import opened NomtAgreement
  import opened Recovery
  import opened Independence
  import opened StateFile
  import opened Listing
  import opened PirExport

  /* ---- Sub-lists of an export ---- */

  function KeepKeys(ks: seq<TreeKey>, keep: set<TreeKey>): seq<TreeKey>
    decreases |ks|
  {
    if ks == [] then []
    else
      var front, last := KeepKeys(ks[..|ks| - 1], keep), ks[|ks| - 1];
      if last in keep then front + [last] else front
  }

  lemma {:induction false} KeepKeysSpec(ks: seq<TreeKey>, keep: set<TreeKey>)
    requires InOrder(ks)
    ensures InOrder(KeepKeys(ks, keep))
    ensures forall k :: k in KeepKeys(ks, keep) <==> k in ks && k in keep
    decreases |ks|
  {
    if ks != [] {
      var front, last := ks[..|ks| - 1], ks[|ks| - 1];
      KeepKeysSpec(front, keep);
      assert ks == front + [last];
      var kept := KeepKeys(front, keep);
      forall i | 0 <= i < |kept| ensures TreeIndex(kept[i]) < TreeIndex(last) {
        assert kept[i] in kept;
        var j :| 0 <= j < |front| && front[j] == kept[i];
        assert ks[j] == front[j];
      }
    }
  }

  /** Filtering the sorted keys of a set sorts the filtered set. */
  lemma KeepIsSorted(all: set<TreeKey>, keep: set<TreeKey>)
    requires keep <= all
    ensures KeepKeys(SortedKeys(all), keep) == SortedKeys(keep)
  {
    hide SortedKeys, KeepKeys;
    KeepKeysSpec(SortedKeys(all), keep);
    OrderUnique(KeepKeys(SortedKeys(all), keep), SortedKeys(keep));
  }

  function DropZeros(es: seq<StorageEntry>): seq<StorageEntry>
    decreases |es|
  {
    if es == [] then []
    else
      var front, last := DropZeros(es[..|es| - 1]), es[|es| - 1];
      if last.value != 0 then front + [last] else front
  }

  function ByAddress(es: seq<StorageEntry>, c: Address): seq<StorageEntry>
    decreases |es|
  {
    if es == [] then []
    else
      var front, last := ByAddress(es[..|es| - 1], c), es[|es| - 1];
      if last.address == c then front + [last] else front
  }

  /** `small` is the non-zero part of `big`, with the same owners. */
  ghost predicate NonZeroPart(small: Values, owners: Addresses, big: Values, bigOwners: Addresses) {
    && Owned(small, owners) && Owned(big, bigOwners)
    && (forall k :: k in small <==> k in big && big[k] != 0)
    && (forall k :: k in small ==> small[k] == big[k] && owners[k.stem] == bigOwners[k.stem])
  }

  lemma {:induction false} DropZerosAt(ks: seq<TreeKey>, small: Values, owners: Addresses, big: Values, bigOwners: Addresses)
    requires NonZeroPart(small, owners, big, bigOwners) && forall k :: k in ks ==> k in big
    ensures forall k :: k in KeepKeys(ks, small.Keys) ==> k in small && k.stem in owners
    ensures DropZeros(EntriesAt(ks, big, bigOwners)) == EntriesAt(KeepKeys(ks, small.Keys), small, owners)
    decreases |ks|
  {
    if ks != [] {
      var front, last := ks[..|ks| - 1], ks[|ks| - 1];
      assert last in ks && forall k :: k in front ==> k in ks;
      DropZerosAt(front, small, owners, big, bigOwners);
      var es := EntriesAt(ks, big, bigOwners);
      assert es[..|es| - 1] == EntriesAt(front, big, bigOwners);
      var kept := KeepKeys(front, small.Keys);
      if last in small {
        assert EntriesAt(kept + [last], small, owners)
            == EntriesAt(kept, small, owners) + [StorageEntry(owners[last.stem], TreeIndex(last), small[last])];
      }
    }
  }

  lemma NonZeroList(small: Values, owners: Addresses, big: Values, bigOwners: Addresses)
    requires NonZeroPart(small, owners, big, bigOwners)
    ensures EntryList(small, owners) == DropZeros(EntryList(big, bigOwners))
  {
    hide SortedKeys, DropZeros, KeepKeys, EntriesAt;
    assert small.Keys <= big.Keys;
    DropZerosAt(SortedKeys(big.Keys), small, owners, big, bigOwners);
    KeepIsSorted(big.Keys, small.Keys);
  }

  lemma {:induction false} ByAddressAt(ks: seq<TreeKey>, values: Values, addresses: Addresses, c: Address)
    requires Owned(values, addresses) && forall k :: k in ks ==> k in values
    ensures var part := Selected(values, addresses, Some(c));
            && (forall k :: k in KeepKeys(ks, part.Keys) ==> k in part && k.stem in addresses)
            && ByAddress(EntriesAt(ks, values, addresses), c) == EntriesAt(KeepKeys(ks, part.Keys), part, addresses)
    decreases |ks|
  {
    if ks != [] {
      var part := Selected(values, addresses, Some(c));
      var front, last := ks[..|ks| - 1], ks[|ks| - 1];
      assert last in ks && forall k :: k in front ==> k in ks;
      ByAddressAt(front, values, addresses, c);
      var es := EntriesAt(ks, values, addresses);
      assert es[..|es| - 1] == EntriesAt(front, values, addresses);
      var kept := KeepKeys(front, part.Keys);
      if last in part {
        assert EntriesAt(kept + [last], part, addresses)
            == EntriesAt(kept, part, addresses) + [StorageEntry(addresses[last.stem], TreeIndex(last), part[last])];
      }
    }
  }

  /** A contract export is the order-preserving filter of the full export by address,
      for MDBX values and NOMT values alike, and its offset table partitions what is left. */
  lemma ContractProjection(values: Values, addresses: Addresses, c: Address)
    requires Owned(values, addresses)
    ensures var full, part := EntryList(values, addresses), EntryList(Selected(values, addresses, Some(c)), addresses);
            && part == ByAddress(full, c)
            && Partitions(OffsetTable(part), part)
  {
    hide SortedKeys, ByAddress, KeepKeys, EntriesAt, OffsetTable, Partitions;
    var sub := Selected(values, addresses, Some(c));
    assert sub.Keys <= values.Keys;
    ByAddressAt(SortedKeys(values.Keys), values, addresses, c);
    KeepIsSorted(values.Keys, sub.Keys);
    EntryListSorted(sub, addresses);
    OffsetTableCorrect(EntryList(sub, addresses));
  }

  /* ---- The two exporters ---- */

  /** NOMT under the key index, at one key. */
  lemma NomtHoldsRow(cfg: Config, ops: seq<Op>, k: TreeKey)
    requires SingleRun(cfg, ops) && Reached(cfg, ops).0.dirty == map[]
    requires !Covers(Reached(cfg, ops).0.index, ReservedKey())
    ensures var s := Reached(cfg, ops).0;
            && (k in Flatten(s.stems) ==> Covers(s.index, k))
            && (Covers(s.index, k) ==> ReadValue(Top(s.nomt), TreeIndex(k)) == Ok(Lookup(Flatten(s.stems), k)))
  {
    hide Run, After, OneAddressRun, Flatten, ReadValue, SingleBlockRun, Inv, NomtInv, AdmissibleRun;
    SingleReached(cfg, ops);
    var s := Reached(cfg, ops).0;
    assert s.stems + s.dirty == s.stems;
    ValidIsAfter(cfg, ops);
    KeyIndexCoverage(cfg, ops, k);
    if Covers(s.index, k) {
      NomtAgrees(cfg, ops, k);
    }
  }

  /** Values read through the index are the rows' values, zeros where the rows have none. */
  lemma IndexedValues(s: State)
    requires s.stems.Keys <= s.addresses.Keys
    requires forall stem :: stem in s.addresses ==> stem in s.index && s.index[stem].address == s.addresses[stem]
    requires forall k :: k in Flatten(s.stems) ==> Covers(s.index, k)
    requires forall k :: Covers(s.index, k) ==> ReadValue(Top(s.nomt), TreeIndex(k)) == Ok(Lookup(Flatten(s.stems), k))
    ensures NonZeroPart(MdbxValues(s.stems), s.addresses, NomtValues(s.index, Top(s.nomt)), IndexAddresses(s.index))
    ensures Readable(Top(s.nomt), NomtValues(s.index, Top(s.nomt)))
  {
    hide Flatten, ReadValue, IndexKeys;
    var big := NomtValues(s.index, Top(s.nomt));
    MdbxOwned(s.stems, s.addresses);
    NomtOwned(s.index, Top(s.nomt));
    forall k ensures k in big <==> Covers(s.index, k) {
      IndexedKeys(s.index, k);
    }
    assert forall k :: k in big ==> big[k] == Lookup(Flatten(s.stems), k);
    RowOwners(s, MdbxValues(s.stems));
  }

  /** With an empty overlay, NOMT under the key index holds the rows' values and zeros. */
  lemma NomtHoldsRows(cfg: Config, ops: seq<Op>)
    requires SingleRun(cfg, ops) && Reached(cfg, ops).0.dirty == map[]
    requires !Covers(Reached(cfg, ops).0.index, ReservedKey())
    ensures var s := Reached(cfg, ops).0;
            && NonZeroPart(MdbxValues(s.stems), s.addresses,
                           NomtValues(s.index, Top(s.nomt)), IndexAddresses(s.index))
            && Readable(Top(s.nomt), NomtValues(s.index, Top(s.nomt)))
  {
    hide Run, After, OneAddressRun, Flatten, ReadValue, SingleBlockRun, Inv, NomtInv, AdmissibleRun, NonZeroPart, Readable, Covers;
    SingleReached(cfg, ops);
    ValidIsAfter(cfg, ops);
    AddressCoverage(cfg, ops);
    var s := Reached(cfg, ops).0;
    forall k
      ensures k in Flatten(s.stems) ==> Covers(s.index, k)
      ensures Covers(s.index, k) ==> ReadValue(Top(s.nomt), TreeIndex(k)) == Ok(Lookup(Flatten(s.stems), k))
    {
      NomtHoldsRow(cfg, ops, k);
    }
    IndexedValues(s);
  }

  lemma IndexedKeys(index: Index, key: TreeKey)
    ensures key in IndexKeys(index) <==> Covers(index, key)
  {
    assert key == TreeKey(key.stem, key.subindex);
  }

  lemma RowOwners(s: State, values: Values)
    requires Owned(values, s.addresses)
    requires forall stem :: stem in s.addresses ==> stem in s.index && s.index[stem].address == s.addresses[stem]
    ensures forall k :: k in values ==> k.stem in s.index && s.addresses[k.stem] == IndexAddresses(s.index)[k.stem]
  {
  }

  /** A counted stem is an indexed stem, and an indexed stem has a key to export. */
  lemma CountedIsListed(cfg: Config, ops: seq<Op>, snapshot: Snapshot)
    requires ValidRun(cfg, ops) && Reached(cfg, ops).0.stemCount > 0
    ensures NomtValues(Reached(cfg, ops).0.index, snapshot) != map[]
  {
    hide Run, After, OneAddressRun, AdmissibleRun, Inv, LosesStems, Indexed;
    ValidIsAfter(cfg, ops);
    FreshIndexed();
    StemCountExactly(cfg, ops);
    RunNoEmptyRecord(cfg, FRESH, ops);
    var index := Reached(cfg, ops).0.index;
    assert |index| == |index.Keys|;
    var stem: Stem := SomeStem(index);
    var i :| i in index[stem].bits;
    var key := TreeKey(stem, i);
    assert key in IndexKeys(index);
    assert key in NomtValues(index, snapshot);
  }

  lemma SomeStem(index: Index) returns (stem: Stem)
    requires |index| > 0
    ensures stem in index
  {
    assert index != map[];
    stem :| stem in index;
  }

  /** The two exporters agree: right after a flushing commit of a single-block run both full
      exports succeed, the MDBX export lists the NOMT export without its zero entries, in the
      same order, with the same owners, and both name the same block, hash and root. */
  lemma ExportersAgree(cfg: Config, ops: seq<Op>, b: Block, chainId: u64)
    requires SingleRun(cfg, ops + [Commit(b)]) && ShouldFlush(cfg, Reached(cfg, ops).0, b.number)
    requires !Covers(Reached(cfg, ops + [Commit(b)]).0.index, ReservedKey())
    ensures var s := Reached(cfg, ops + [Commit(b)]).0;
            && Owned(MdbxValues(s.stems), s.addresses)
            && Owned(NomtValues(s.index, Top(s.nomt)), IndexAddresses(s.index))
            && var rows, stored := EntryList(MdbxValues(s.stems), s.addresses),
                                   EntryList(NomtValues(s.index, Top(s.nomt)), IndexAddresses(s.index));
            && s.head.Some? && s.indexHead.Some?
            && MdbxResult(s.head, s.stems, s.addresses, None, chainId) == Ok(ExportOf(s.head.value, chainId, rows))
            && NomtResult(s.indexHead, s.index, Top(s.nomt), None, chainId)
               == Ok(ExportOf(s.indexHead.value, chainId, stored))
            && rows == DropZeros(stored)
            && s.head.value.number == s.indexHead.value.number == b.number
            && s.head.value.hash == s.indexHead.value.hash == b.hash
            && s.head.value.root == s.indexHead.value.root
  {
    hide Step, ReferenceStep, Admissible, SingleBlock, Inv, EntryList, DropZeros, MdbxValues, NomtValues, Readable,
      Run, After, OneAddressRun, AdmissibleRun, SingleBlockRun, ExportOf, NonZeroPart, Covers, ShouldFlush;
    var all := ops + [Commit(b)];
    FlushedRun(cfg, ops, b);
    ValidIsAfter(cfg, all);
    AddressCoverage(cfg, all);
    NomtHoldsRows(cfg, all);
    var t := Reached(cfg, all).0;
    NonZeroPartOwned(MdbxValues(t.stems), t.addresses, NomtValues(t.index, Top(t.nomt)), IndexAddresses(t.index));
    NonZeroList(MdbxValues(t.stems), t.addresses, NomtValues(t.index, Top(t.nomt)), IndexAddresses(t.index));
    if t.indexHead.value.stemCount > 0 {
      CountedIsListed(cfg, all, Top(t.nomt));
    }
  }

  lemma NonZeroPartOwned(small: Values, owners: Addresses, big: Values, bigOwners: Addresses)
    requires NonZeroPart(small, owners, big, bigOwners)
    ensures Owned(small, owners) && Owned(big, bigOwners)
  {
  }

  /** The state after a run that ends in a flushing commit. */
  lemma FlushedRun(cfg: Config, ops: seq<Op>, b: Block)
    requires SingleRun(cfg, ops + [Commit(b)]) && ShouldFlush(cfg, Reached(cfg, ops).0, b.number)
    ensures var s := Reached(cfg, ops + [Commit(b)]).0;
            && ValidRun(cfg, ops + [Commit(b)]) && s.dirty == map[]
            && s.head.Some? && s.indexHead.Some?
            && s.head.value.number == s.indexHead.value.number == b.number
            && s.head.value.hash == s.indexHead.value.hash == b.hash
            && s.head.value.root == s.indexHead.value.root
            && s.indexHead.value.stemCount == s.stemCount % TWO_64
  {
    hide Step, ReferenceStep, Admissible, SingleBlock, Inv, Run, AdmissibleRun, SingleBlockRun, ShouldFlush;
    var all := ops + [Commit(b)];
    SingleReached(cfg, all);
    RunConcat(cfg, FRESH, START, ops, [Commit(b)]);
    var (s, r) := Reached(cfg, ops);
    ReachedInv(cfg, ops);
    SingleStep(cfg, s, r, Commit(b));
    CommitIsAdmissible(cfg, s, r, b);
    FlushedHeads(cfg, s, r, b);
  }

  lemma CommitIsAdmissible(cfg: Config, s: State, r: Reference, b: Block)
    requires AdmissibleRun(cfg, s, r, [Commit(b)])
    ensures CommitAdmissible(s, b)
    ensures Step(cfg, s, Commit(b)) == CommitStep(cfg, s, b).0
  {
    hide CommitAdmissible, CommitStep;
  }

  lemma FlushedHeads(cfg: Config, s: State, r: Reference, b: Block)
    requires Inv(cfg, s, r) && CommitAdmissible(s, b) && ShouldFlush(cfg, s, b.number)
    ensures var t := CommitStep(cfg, s, b).0;
            && t.dirty == map[] && t.head.Some? && t.indexHead.Some?
            && t.head.value.number == t.indexHead.value.number == b.number
            && t.head.value.hash == t.indexHead.value.hash == b.hash
            && t.head.value.root == t.indexHead.value.root
            && t.indexHead.value.stemCount == t.stemCount % TWO_64
  {
    hide Inv, CommitAdmissible, CommitStep, ShouldFlush, SavedDeltas, EntriesSorted, PutAll, PrunedBefore, Logical,
      Effective;
    CommitKeepsInvariant(cfg, s, r, b);
    CommitOutcome(cfg, s, b);
    CommitFields(cfg, s, b);
    FlushedCommit(cfg, s, b);
  }

  /* ---- The shape of every export ---- */

  /** Every export is strictly sorted, its offset table partitions it by stem, the files have the
      sizes of their formats, and parsing them gives back the entries, the rows and a header of
      magic, version, entry size and count, the head's number, the chain and the head's hash. */
  lemma ExportWellFormed(head: Head, chainId: u64, values: Values, addresses: Addresses)
    requires Owned(values, addresses) && |EntryList(values, addresses)| < TWO_64
    ensures var es := EntryList(values, addresses);
            var e := ExportOf(head, chainId, es);
            && SortedEntries(es) && Partitions(OffsetTable(es), es)
            && |e.stateFile| == 64 + 84 * |es|
            && |e.stemIndexFile| == 8 + 39 * |OffsetTable(es)|
            && ParseState(e.stateFile)
               == Some((StateHeader([0x50, 0x49, 0x52, 0x32], 1, 84, |es|, head.number, chainId, head.hash), es))
            && ParseStemIndex(e.stemIndexFile) == Some(OffsetTable(es))
  {
    hide EntryList, OffsetTable, ParseState, ParseStemIndex, HeaderBytes, EntriesBytes, RowsBytes, Partitions, ToLE;
    var es := EntryList(values, addresses);
    EntryListSorted(values, addresses);
    OffsetTableCorrect(es);
    StateRoundTrip(NewHeader(|es|, head.number, chainId, head.hash), es);
    RowsFit(OffsetTable(es), es);
    StemIndexRoundTrip(OffsetTable(es));
  }

  /** Row offsets point into the entries, so there are no more rows than entries. */
  lemma RowsFit(rows: seq<StemRow>, es: seq<StorageEntry>)
    requires Partitions(rows, es)
    ensures |rows| <= |es| && forall r :: 0 <= r < |rows| ==> rows[r].offset < |es|
  {
    if rows != [] {
      OffsetsGrow(rows, es, |rows| - 1);
    }
    forall r | 0 <= r < |rows| ensures rows[r].offset < |es| {
      assert rows[r].offset < EndOf(rows, es, r);
    }
  }

  lemma {:induction false} OffsetsGrow(rows: seq<StemRow>, es: seq<StorageEntry>, r: nat)
    requires Partitions(rows, es) && r < |rows|
    ensures r <= rows[r].offset < |es|
    decreases r
  {
    assert rows[r].offset < EndOf(rows, es, r);
    if r > 0 {
      OffsetsGrow(rows, es, r - 1);
    }
  }

  /* ---- The delta file ---- */

  /** Apply exported entries to a map in file order. */
  function Overwrite(m: Ledger, es: seq<StorageEntry>): Ledger
    decreases |es|
  {
    if es == [] then m
    else Put(Overwrite(m, es[..|es| - 1]), KeyAt(es[|es| - 1].treeIndex), es[|es| - 1].value)
  }

  lemma {:induction false} OverwriteAt(m: Ledger, ks: seq<TreeKey>, values: Values, addresses: Addresses, k: TreeKey)
    requires forall j :: j in ks ==> j in values && j.stem in addresses
    ensures Lookup(Overwrite(m, EntriesAt(ks, values, addresses)), k) == if k in ks then values[k] else Lookup(m, k)
    decreases |ks|
  {
    if ks != [] {
      var front, last := ks[..|ks| - 1], ks[|ks| - 1];
      assert ks == front + [last];
      assert forall j :: j in ks <==> j in front || j == last;
      OverwriteAt(m, front, values, addresses, k);
      var es := EntriesAt(ks, values, addresses);
      assert es[..|es| - 1] == EntriesAt(front, values, addresses);
      TreeIndexInjective(KeyAt(es[|es| - 1].treeIndex), last);
    }
  }

  lemma SlotTouched(deltas: DeltaTable, from: int, to: int, n: u64, key: TreeKey)
    requires from <= n <= to && key !in Touched(deltas, from, to)
    ensures !Mentions(Slot(deltas, n), key)
  {
    var list := Slot(deltas, n);
    forall i | 0 <= i < |list| ensures list[i].key != key {
      assert list[i] in list;
    }
  }

  /** A key no stored list of the range mentions keeps its value above the pruning bound. */
  lemma UntouchedUnchanged(deltas: DeltaTable, r: Reference, from: int, to: int, j: nat, k: nat, key: TreeKey)
    requires Undoable(deltas, r) && j <= k <= |r.live|
    requires forall i :: j <= i < k ==> from <= r.live[i].number <= to && r.pruned <= r.live[i].number
    requires key !in Touched(deltas, from, to)
    ensures Lookup(LedgerOf(r.live[..k]), key) == Lookup(LedgerOf(r.live[..j]), key)
  {
    hide Touched, LedgerOf, Retained, Mentions, Slot;
    forall i | j <= i < k ensures Retained(deltas, r.live, i) && !Mentions(Slot(deltas, r.live[i].number), key) {
      SlotTouched(deltas, from, to, r.live[i].number, key);
    }
    UnchangedAcross(deltas, r.live, j, k, key);
  }

  /** Where the lists of the range start to be complete. */
  function Complete(r: Reference, from: u64): nat {
    if from < r.pruned then r.pruned else from
  }

  /** No key of a delta lacks an owner. */
  lemma PatchOwned(cfg: Config, ops: seq<Op>, from: int, to: int)
    requires OneAddressRun(cfg, FRESH, ops)
    ensures var s := After(cfg, FRESH, ops); Owned(PatchValues(s.stems, Touched(s.deltas, from, to)), s.addresses)
  {
    hide After, OneAddressRun;
    AddressCoverage(cfg, ops);
  }

  /** The patched map at one key. */
  lemma PatchAt(cfg: Config, s: State, r: Reference, from: u64, to: u64, values: Values, key: TreeKey)
    requires Inv(cfg, s, r) && s.head.Some? && from <= to <= s.head.value.number
    requires values == PatchValues(s.stems, Touched(s.deltas, from, to)) && Owned(values, s.addresses)
    ensures var patched := Lookup(Overwrite(LedgerOf(Below(r.live, from)), EntryList(values, s.addresses)), key);
            if key in values then patched == Lookup(Flatten(s.stems), key)
            else
              && patched == Lookup(LedgerOf(Below(r.live, from)), key)
              && (Complete(r, from) <= to + 1 ==>
                    Lookup(LedgerOf(Below(r.live, to + 1)), key) == Lookup(LedgerOf(Below(r.live, Complete(r, from))), key))
  {
    hide Flatten, LedgerOf, Touched, SortedKeys, Overwrite, EntriesAt, Retained, Covered, Below, Complete, Undoable,
      HeadMatches;
    OverwriteAt(LedgerOf(Below(r.live, from)), SortedKeys(values.Keys), values, s.addresses, key);
    FlattenLookup(s.stems, key);
    if key !in values && Complete(r, from) <= to + 1 {
      RangeUnchanged(s.deltas, r, from, to, key);
    }
  }

  lemma RangeUnchanged(deltas: DeltaTable, r: Reference, from: u64, to: u64, key: TreeKey)
    requires Increasing(r.live) && Undoable(deltas, r) && Complete(r, from) <= to + 1
    requires key !in Touched(deltas, from, to)
    ensures Lookup(LedgerOf(Below(r.live, to + 1)), key) == Lookup(LedgerOf(Below(r.live, Complete(r, from))), key)
  {
    hide LedgerOf, Touched, Undoable, Below;
    var lo := Complete(r, from);
    BelowSpec(r.live, lo);
    BelowSpec(r.live, to + 1);
    var j, k := |Below(r.live, lo)|, |Below(r.live, to + 1)|;
    assert j <= k by {
      assert k < |r.live| ==> r.live[k].number >= to + 1;
    }
    UntouchedUnchanged(deltas, r, from, to, j, k, key);
  }

  /** Delta file as a patch, exactly, for any range the head covers: writing the exported entries
      over the map before the first live block of the range gives the map at the head if and only
      if every key that differs between the two is mentioned by a stored list of the range. With
      nothing of the range pruned, these are the keys that changed after its last block. */
  lemma PatchToExactly(cfg: Config, ops: seq<Op>, from: u64, to: u64)
    requires ValidRun(cfg, ops) && Reached(cfg, ops).0.head.Some?
    requires from <= to <= Reached(cfg, ops).0.head.value.number
    ensures var (s, r) := Reached(cfg, ops);
            var touched := Touched(s.deltas, from, to);
            var values := PatchValues(s.stems, touched);
            && Owned(values, s.addresses)
            && var patched := Overwrite(LedgerOf(Below(r.live, from)), EntryList(values, s.addresses));
            && (patched == Flatten(s.stems)
                <==> forall k ::
                       Lookup(LedgerOf(Below(r.live, from)), k) != Lookup(Flatten(s.stems), k) ==> k in touched)
            && (r.pruned <= from ==>
                  (patched == Flatten(s.stems)
                   <==> forall k ::
                          Lookup(LedgerOf(Below(r.live, to + 1)), k) != Lookup(Flatten(s.stems), k) ==> k in touched))
  {
    hide Run, After, OneAddressRun, AdmissibleRun, Inv, Flatten, LedgerOf, Below, Touched, Overwrite, EntryList;
    ReachedInv(cfg, ops);
    ValidIsAfter(cfg, ops);
    PatchOwned(cfg, ops, from, to);
    var (s, r) := Reached(cfg, ops);
    var values := PatchValues(s.stems, Touched(s.deltas, from, to));
    var patched := Overwrite(LedgerOf(Below(r.live, from)), EntryList(values, s.addresses));
    forall k
      ensures Lookup(patched, k) == Lookup(Flatten(s.stems), k)
         <==> k in values || Lookup(LedgerOf(Below(r.live, from)), k) == Lookup(Flatten(s.stems), k)
      ensures r.pruned <= from && k !in values ==>
                Lookup(LedgerOf(Below(r.live, from)), k) == Lookup(LedgerOf(Below(r.live, to + 1)), k)
    {
      PatchAt(cfg, s, r, from, to, values, k);
    }
    if forall k :: Lookup(patched, k) == Lookup(Flatten(s.stems), k) {
      LedgersEqual(patched, Flatten(s.stems));
    }
  }

  /** For a range up to the head, pruned or not: the patch is right if and only if every key that
      the range's pruned blocks changed overall is mentioned by a list of the range that is still
      stored. Extra keys of leftover lists do no harm. */
  lemma PatchExactly(cfg: Config, ops: seq<Op>, from: u64)
    requires ValidRun(cfg, ops) && Reached(cfg, ops).0.head.Some?
    requires from <= Reached(cfg, ops).0.head.value.number
    ensures var (s, r) := Reached(cfg, ops);
            var touched := Touched(s.deltas, from, s.head.value.number);
            var values := PatchValues(s.stems, touched);
            && Owned(values, s.addresses)
            && (Overwrite(LedgerOf(Below(r.live, from)), EntryList(values, s.addresses)) == Flatten(s.stems)
                <==> forall k ::
                       Lookup(LedgerOf(Below(r.live, from)), k) != Lookup(LedgerOf(Below(r.live, Complete(r, from))), k)
                       ==> k in touched)
  {
    hide Run, AdmissibleRun, Inv, Flatten, LedgerOf, Below, Touched, Overwrite, EntryList, Complete;
    ReachedInv(cfg, ops);
    var (s, r) := Reached(cfg, ops);
    var to: u64 := NumberOf(cfg, s, r);
    PatchToExactly(cfg, ops, from, to);
    var values := PatchValues(s.stems, Touched(s.deltas, from, to));
    forall k | k !in values
      ensures Lookup(Flatten(s.stems), k) == Lookup(LedgerOf(Below(r.live, Complete(r, from))), k)
    {
      PatchAt(cfg, s, r, from, to, values, k);
    }
  }

  /** The saved head covers exactly the stored rows. */
  lemma NumberOf(cfg: Config, s: State, r: Reference) returns (to: u64)
    requires Inv(cfg, s, r) && s.head.Some?
    ensures s.head.value.number == to == s.persistedBlock && r.pruned <= to + 1
    ensures Flatten(s.stems) == LedgerOf(Below(r.live, to + 1))
    ensures forall from: u64 :: from <= to ==> Complete(r, from) <= to + 1
  {
    hide Flatten, EntriesSorted, LedgerOf, Below, Undoable, Covered;
    to := s.persistedBlock;
  }

  /** Delta file is a correct patch: for any range from inside the unpruned window to the
      persisted head, the patched map is the map at the head. */
  lemma DeltaIsPatch(cfg: Config, ops: seq<Op>, from: u64)
    requires ValidRun(cfg, ops) && Reached(cfg, ops).0.head.Some?
    requires Reached(cfg, ops).1.pruned <= from <= Reached(cfg, ops).0.head.value.number
    ensures var (s, r) := Reached(cfg, ops);
            var values := PatchValues(s.stems, Touched(s.deltas, from, s.head.value.number));
            && Owned(values, s.addresses)
            && Overwrite(LedgerOf(Below(r.live, from)), EntryList(values, s.addresses)) == Flatten(s.stems)
  {
    hide Run, AdmissibleRun, Flatten, LedgerOf, Below, Touched, Overwrite, EntryList;
    PatchExactly(cfg, ops, from);
  }

  /** The range check is enough as long as the head is not below the highest flushed block, or
      nothing could have been pruned yet: every admitted range then exports a correct patch. */
  lemma WindowCheckSafe(cfg: Config, ops: seq<Op>, from: u64)
    requires ValidRun(cfg, ops) && Reached(cfg, ops).0.head.Some?
    requires var head := Reached(cfg, ops).0.head.value.number;
             var top := HighestFlushed(cfg, FRESH, ops);
             && from <= head <= from + cfg.deltaRetention
             && (top <= head || top <= cfg.deltaRetention)
    ensures var (s, r) := Reached(cfg, ops);
            var values := PatchValues(s.stems, Touched(s.deltas, from, s.head.value.number));
            && Owned(values, s.addresses)
            && Overwrite(LedgerOf(Below(r.live, from)), EntryList(values, s.addresses)) == Flatten(s.stems)
  {
    hide Run, HighestFlushed, AdmissibleRun, Inv, Flatten, LedgerOf, Below, Touched, Overwrite, EntryList;
    FreshHolds(cfg);
    PrunedAtMost(cfg, FRESH, START, ops);
    DeltaIsPatch(cfg, ops, from);
  }
}
