/** The exporters: MDBX rows or key index plus NOMT, whole or one contract, and
    the delta between two blocks. A file is modelled by its final bytes. */
module PirExport {
  import opened Types
  import opened Sorting
  import opened Bytes
  import opened Bitmaps
  import opened Ledger
  import opened StemRows
  import opened Tables
  import opened Index
  import opened KeyIndexFile
  import opened Persistence
  import opened NomtStore
  import opened StateFile
  import opened Listing

  datatype Export = Export(number: u64, hash: B256, root: B256, entryCount: nat, stemCount: nat,
                           stateFile: seq<Byte>, stemIndexFile: seq<Byte>)

  /** The result and both files of an export with these entries. */
  function ExportOf(head: Head, chainId: u64, entries: seq<StorageEntry>): Export {
    Export(head.number, head.hash, head.root, |entries|, |OffsetTable(entries)|,
           StateFileBytes(NewHeader(|entries| % TWO_64, head.number, chainId, head.hash), entries),
           StemIndexBytes(OffsetTable(entries)))
  }

  /* ---- Values of the two stores ---- */

  function MdbxValues(rows: Rows): Values {
    Flatten(rows)
  }

  function IndexKeys(index: Index): set<TreeKey> {
    set s, i | s in index && i in index[s].bits :: TreeKey(s, i)
  }

  function WordAt(snapshot: Snapshot, key: TreeKey): B256 {
    match ReadValue(snapshot, TreeIndex(key))
    case Ok(w) => w
    case Err(_) => 0
  }

  /** What NOMT holds at every key the index lists, zeros included. */
  function NomtValues(index: Index, snapshot: Snapshot): Values {
    map k | k in IndexKeys(index) :: WordAt(snapshot, k)
  }

  function IndexAddresses(index: Index): (a: Addresses)
    ensures a.Keys == index.Keys
  {
    map s | s in index :: index[s].address
  }

  lemma MdbxOwned(rows: Rows, addresses: Addresses)
    requires rows.Keys <= addresses.Keys
    ensures Owned(MdbxValues(rows), addresses)
  {
    forall k | k in MdbxValues(rows) ensures k.stem in addresses {
      FlattenAt(rows, k);
    }
  }

  lemma NomtOwned(index: Index, snapshot: Snapshot)
    ensures Owned(NomtValues(index, snapshot), IndexAddresses(index))
  {
  }

  /* ---- Writing one stem ---- */

  /** What the files hold so far: the entries of the keys `ks`, their count and their offset table. */
  ghost predicate Written(ks: seq<TreeKey>, values: Values, addresses: Addresses,
                          body: seq<Byte>, offset: nat, rows: seq<StemRow>) {
    && (forall k :: k in ks ==> k in values && k.stem in addresses)
    && body == EntriesBytes(EntriesAt(ks, values, addresses))
    && offset == |ks|
    && rows == OffsetTable(EntriesAt(ks, values, addresses))
  }

  lemma WroteStem(ks: seq<TreeKey>, values: Values, addresses: Addresses, body: seq<Byte>, offset: nat,
                  rows: seq<StemRow>, stem: Stem, subindices: seq<Subindex>)
    requires Written(ks, values, addresses, body, offset, rows)
    requires forall k :: k in ks ==> k.stem < stem
    requires stem in addresses && forall i :: i in subindices ==> TreeKey(stem, i) in values
    ensures forall k :: k in StemKeys(stem, subindices) ==> k in values && k.stem in addresses
    ensures Written(ks + StemKeys(stem, subindices), values, addresses,
                    body + EntriesBytes(EntriesAt(StemKeys(stem, subindices), values, addresses)),
                    offset + |subindices|,
                    if subindices == [] then rows else rows + [StemRow(stem, offset)])
  {
    hide EntriesBytes, OffsetTable;
    var more := StemKeys(stem, subindices);
    forall k | k in more ensures k in values && k.stem in addresses {
      var i :| 0 <= i < |more| && more[i] == k;
      assert subindices[i] in subindices;
    }
    EntriesAtConcat(ks, more, values, addresses);
    var old_, new_ := EntriesAt(ks, values, addresses), EntriesAt(more, values, addresses);
    EntriesBytesConcat(old_, new_);
    if subindices == [] {
      assert ks + more == ks;
      assert new_ == [];
      assert old_ + new_ == old_;
      EmptyBytes();
      assert body + EntriesBytes(new_) == body;
    } else {
      forall i | 0 <= i < |new_| ensures StemOf(new_[i]) == stem {
        assert more[i] == TreeKey(stem, subindices[i]);
      }
      if old_ != [] {
        assert ks[|ks| - 1] in ks;
        assert StemOf(old_[|old_| - 1]) == ks[|ks| - 1].stem;
      }
      OffsetTableAppend(old_, new_, stem);
    }
  }

  lemma EmptyBytes()
    ensures EntriesBytes([]) == []
  {
  }

  /** Write the entries of one stem. */
  method StemBytes(stem: Stem, address: Address, subindices: seq<Subindex>, words: seq<B256>,
                   ghost values: Values, ghost addresses: Addresses) returns (bytes: seq<Byte>)
    requires |words| == |subindices| && stem in addresses && addresses[stem] == address
    requires forall i :: 0 <= i < |words| ==>
               TreeKey(stem, subindices[i]) in values && words[i] == values[TreeKey(stem, subindices[i])]
    requires forall k :: k in StemKeys(stem, subindices) ==> k in values && k.stem in addresses
    ensures bytes == EntriesBytes(EntriesAt(StemKeys(stem, subindices), values, addresses))
  {
    hide EntryBytes;
    bytes := [];
    ghost var es := EntriesAt(StemKeys(stem, subindices), values, addresses);
    for j := 0 to |subindices|
      invariant bytes == EntriesBytes(es[..j])
    {
      var treeIndex := TreeIndex(TreeKey(stem, subindices[j]));
      var buffer := EntryToBytes(StorageEntry(address, treeIndex, words[j]));
      assert es[j] == StorageEntry(address, treeIndex, words[j]);
      assert es[..j + 1][..j] == es[..j];
      bytes := bytes + buffer[..];
    }
    assert es[..|subindices|] == es;
  }

  /** The two files: header rewritten with the final count, entries, then the stem index. */
  method Finish(head: Head, chainId: u64, body: seq<Byte>, offset: nat, rows: seq<StemRow>,
                ghost es: seq<StorageEntry>) returns (r: Export)
    requires body == EntriesBytes(es) && offset == |es| && rows == OffsetTable(es)
    ensures r == ExportOf(head, chainId, es)
  {
    hide EntriesBytes, OffsetTable, RowBytes, HeaderBytes;
    var buffer := HeaderToBytes(NewHeader(offset % TWO_64, head.number, chainId, head.hash));
    var header := buffer[..];
    var index := ToLE(|rows|, 8);
    for i := 0 to |rows|
      invariant index == ToLE(|rows|, 8) + RowsBytes(rows[..i])
    {
      assert rows[..i + 1][..i] == rows[..i];
      index := index + RowBytes(rows[i]);
      Associate(ToLE(|rows|, 8), RowsBytes(rows[..i]), RowBytes(rows[i]));
    }
    assert rows[..|rows|] == rows;
    return Export(head.number, head.hash, head.root, offset, |rows|, header + body, index);
  }

  /* ---- From MDBX ---- */

  ghost predicate KeysOfRow(rows: Rows, addresses: Addresses, contract: Option<Address>, stem: Stem,
                            subindices: seq<Subindex>)
    requires rows.Keys <= addresses.Keys && Owned(MdbxValues(rows), addresses)
  {
    forall i :: i in subindices <==> TreeKey(stem, i) in Selected(MdbxValues(rows), addresses, contract)
  }

  lemma SelectedRow(rows: Rows, addresses: Addresses, contract: Option<Address>, stem: Stem)
    requires rows.Keys <= addresses.Keys && Owned(MdbxValues(rows), addresses) && stem in rows
    ensures KeysOfRow(rows, addresses, contract, stem,
                      if contract.Some? && addresses[stem] != contract.value then [] else SortedSubindices(rows[stem]))
    ensures forall i :: i in rows[stem] && (contract.None? || addresses[stem] == contract.value) ==>
              Selected(MdbxValues(rows), addresses, contract)[TreeKey(stem, i)] == rows[stem][i]
  {
    hide SortedSubindices;
    forall i: Subindex
      ensures TreeKey(stem, i) in MdbxValues(rows) <==> i in rows[stem]
      ensures i in rows[stem] ==> MdbxValues(rows)[TreeKey(stem, i)] == rows[stem][i]
    {
      FlattenAt(rows, TreeKey(stem, i));
    }
  }

  /** The values of one node in subindex order. */
  method NodeWords(node: StemNode) returns (subindices: seq<Subindex>, words: seq<B256>)
    ensures subindices == SortedSubindices(node)
    ensures |words| == |subindices| && forall i :: 0 <= i < |words| ==> subindices[i] in node && words[i] == node[subindices[i]]
  {
    subindices := SortedSubindices(node);
    words := [];
    for i := 0 to |subindices|
      invariant |words| == i
      invariant forall j :: 0 <= j < i ==> subindices[j] in node && words[j] == node[subindices[j]]
    {
      assert subindices[i] in subindices;
      words := words + [node[subindices[i]]];
    }
  }

  /** What the MDBX exporters return. Every row needs a saved address, owned by the contract
      or not, empty or not. */
  function MdbxResult(head: Option<Head>, rows: Rows, addresses: Addresses, contract: Option<Address>, chainId: u64)
    : Result<Export>
  {
    if head == None then Err(NoCanonicalState)
    else if !(rows.Keys <= addresses.Keys) then Err(MissingAddresses(|rows.Keys - addresses.Keys|))
    else
      MdbxOwned(rows, addresses);
      Ok(ExportOf(head.value, chainId, EntryList(Selected(MdbxValues(rows), addresses, contract), addresses)))
  }

  /** `export_full_state_from_mdbx`, and with a contract `export_contract_state_from_mdbx`. */
  method ExportFromMdbx(db: UbtDatabase, contract: Option<Address>, chainId: u64) returns (r: Result<Export>)
    ensures r == MdbxResult(db.head, db.stems, db.addresses, contract, chainId)
  {
    hide Selected, MdbxValues, ExportOf, EntryList;
    var saved := db.LoadHead();
    if saved == None {
      return Err(NoCanonicalState);
    }
    var missing := CountMissing(db);
    if missing > 0 {
      return Err(MissingAddresses(missing));
    }
    MdbxOwned(db.stems, db.addresses);
    var written := ExportRows(db, contract, chainId, saved.value);
    return Ok(written);
  }

  /** The rows without a saved address. */
  method CountMissing(db: UbtDatabase) returns (count: nat)
    ensures count == |db.stems.Keys - db.addresses.Keys|
    ensures count == 0 <==> db.stems.Keys <= db.addresses.Keys
  {
    var cursor := SortedSeq(db.stems.Keys);
    var missing: seq<Stem> := [];
    for i := 0 to |cursor|
      invariant forall s :: s in missing <==> s in cursor[..i] && s !in db.addresses
      invariant forall s :: s in missing ==> s in db.stems
      invariant forall p, q :: 0 <= p < q < |missing| ==> missing[p] != missing[q]
    {
      assert cursor[i] in cursor;
      assert cursor[..i + 1] == cursor[..i] + [cursor[i]];
      if cursor[i] !in db.addresses {
        assert cursor[i] !in cursor[..i];
        missing := missing + [cursor[i]];
      }
    }
    assert cursor[..|cursor|] == cursor;
    count := |missing|;
    assert forall s :: s in db.stems.Keys - db.addresses.Keys <==> s in missing;
    DistinctCount(missing, db.stems.Keys - db.addresses.Keys);
    if missing != [] {
      assert missing[0] in missing;
    }
  }

  method ExportRows(db: UbtDatabase, contract: Option<Address>, chainId: u64, head: Head) returns (r: Export)
    requires db.stems.Keys <= db.addresses.Keys && Owned(MdbxValues(db.stems), db.addresses)
    ensures r == ExportOf(head, chainId,
                          EntryList(Selected(MdbxValues(db.stems), db.addresses, contract), db.addresses))
  {
    hide Selected, MdbxValues, KeysOfRow, Written, EntriesBytes, OffsetTable, EmittedBelow, SortedSubindices, ExportOf;
    ghost var values := Selected(MdbxValues(db.stems), db.addresses, contract);
    var body: seq<Byte>, offset: nat, rows: seq<StemRow> := [], 0, [];
    var cursor := SortedSeq(db.stems.Keys);
    ghost var ks: seq<TreeKey> := [];
    StartRows(db.stems, db.addresses, contract, cursor);
    for i := 0 to |cursor|
      invariant EmittedBelow(ks, values.Keys, if i < |cursor| then cursor[i] else TWO_248)
      invariant Written(ks, values, db.addresses, body, offset, rows)
    {
      assert cursor[i] in cursor;
      var stem: Stem := cursor[i];
      var node := db.stems[stem];
      var address := db.addresses[stem];
      var subindices, words := [], [];
      if contract == None || address == contract.value {
        subindices, words := NodeWords(node);
      }
      SelectedRow(db.stems, db.addresses, contract, stem);
      SubindicesInOrder(node);
      ghost var bound := if i + 1 < |cursor| then cursor[i + 1] else TWO_248;
      RowStep(db.stems, db.addresses, contract, cursor, i, ks, subindices, body, offset, rows);
      var bytes := StemBytes(stem, address, subindices, words, values, db.addresses);
      body := body + bytes;
      if subindices != [] {
        rows := rows + [StemRow(stem, offset)];
      }
      offset := offset + |subindices|;
      ks := ks + StemKeys(stem, subindices);
    }
    AllWritten(ks, values, db.addresses, body, offset, rows);
    r := Finish(head, chainId, body, offset, rows, EntryList(values, db.addresses));
  }

  lemma SubindicesInOrder(node: StemNode)
    ensures forall i, j :: 0 <= i < j < |SortedSubindices(node)| ==> SortedSubindices(node)[i] < SortedSubindices(node)[j]
    ensures forall x :: x in SortedSubindices(node) <==> x in node
  {
  }

  lemma StartRows(rows: Rows, addresses: Addresses, contract: Option<Address>, cursor: seq<int>)
    requires rows.Keys <= addresses.Keys && Owned(MdbxValues(rows), addresses)
    requires StrictlySorted(cursor) && forall s :: s in cursor <==> s in rows
    ensures var values := Selected(MdbxValues(rows), addresses, contract);
            && EmittedBelow([], values.Keys, if 0 < |cursor| then cursor[0] else TWO_248)
            && Written([], values, addresses, [], 0, [])
  {
    var values := Selected(MdbxValues(rows), addresses, contract);
    forall k | k in values ensures k.stem in cursor {
      FlattenAt(rows, k);
    }
  }

  /** One turn of the row loop, on the ghost side. */
  lemma RowStep(rows: Rows, addresses: Addresses, contract: Option<Address>, cursor: seq<int>, i: nat,
                ks: seq<TreeKey>, subindices: seq<Subindex>, body: seq<Byte>, offset: nat, table: seq<StemRow>)
    requires rows.Keys <= addresses.Keys && Owned(MdbxValues(rows), addresses)
    requires StrictlySorted(cursor) && (forall s :: s in cursor <==> s in rows) && i < |cursor| && cursor[i] in rows
    requires EmittedBelow(ks, Selected(MdbxValues(rows), addresses, contract).Keys, cursor[i])
    requires Written(ks, Selected(MdbxValues(rows), addresses, contract), addresses, body, offset, table)
    requires KeysOfRow(rows, addresses, contract, cursor[i], subindices)
    requires forall a, b :: 0 <= a < b < |subindices| ==> subindices[a] < subindices[b]
    ensures var values := Selected(MdbxValues(rows), addresses, contract);
            var more := StemKeys(cursor[i], subindices);
            && (forall k :: k in more ==> k in values && k.stem in addresses)
            && (forall j :: 0 <= j < |subindices| ==> TreeKey(cursor[i], subindices[j]) in values)
            && EmittedBelow(ks + more, values.Keys, if i + 1 < |cursor| then cursor[i + 1] else TWO_248)
            && Written(ks + more, values, addresses, body + EntriesBytes(EntriesAt(more, values, addresses)),
                       offset + |subindices|, if subindices == [] then table else table + [StemRow(cursor[i], offset)])
  {
    hide Written, EntriesBytes, OffsetTable, Selected, MdbxValues;
    var values := Selected(MdbxValues(rows), addresses, contract);
    var stem: Stem := cursor[i];
    var bound := if i + 1 < |cursor| then cursor[i + 1] else TWO_248;
    assert bound == TWO_248 || bound in cursor;
    ValuesInRows(rows, addresses, contract);
    assert forall k :: k in values && stem < k.stem ==> bound <= k.stem;
    EmitStem(ks, values.Keys, stem, subindices, bound);
    forall j | 0 <= j < |subindices| ensures TreeKey(stem, subindices[j]) in values {
      assert subindices[j] in subindices;
    }
    WroteStem(ks, values, addresses, body, offset, table, stem, subindices);
  }

  lemma ValuesInRows(rows: Rows, addresses: Addresses, contract: Option<Address>)
    requires Owned(MdbxValues(rows), addresses)
    ensures forall k :: k in Selected(MdbxValues(rows), addresses, contract) ==> k.stem in rows
  {
    forall k | k in Selected(MdbxValues(rows), addresses, contract) ensures k.stem in rows {
      FlattenAt(rows, k);
    }
  }

  lemma AllWritten(ks: seq<TreeKey>, values: Values, addresses: Addresses, body: seq<Byte>, offset: nat, rows: seq<StemRow>)
    requires Owned(values, addresses) && EmittedBelow(ks, values.Keys, TWO_248)
    requires Written(ks, values, addresses, body, offset, rows)
    ensures var es := EntryList(values, addresses);
            body == EntriesBytes(es) && offset == |es| && rows == OffsetTable(es)
  {
    hide EntriesBytes, OffsetTable;
    EmittedAll(ks, values.Keys);
  }

  /* ---- From the key index and NOMT ---- */

  /** `iter_bitmap_subindices`: the set bits in increasing order. */
  method IterBitmapSubindices(bitmap: Bitmap) returns (subindices: seq<Subindex>)
    ensures forall i, j :: 0 <= i < j < |subindices| ==> subindices[i] < subindices[j]
    ensures forall i :: i in subindices <==> i in Bits(bitmap)
  {
    subindices := [];
    for idx := 0 to 256
      invariant forall i, j :: 0 <= i < j < |subindices| ==> subindices[i] < subindices[j]
      invariant forall i :: i in subindices <==> i in Bits(bitmap) && i < idx
    {
      if bitmap[idx / 8] & Mask(idx % 8) != 0 {
        assert forall j :: 0 <= j < |subindices| ==> subindices[j] in subindices;
        subindices := subindices + [idx];
      }
    }
  }

  ghost predicate Readable(snapshot: Snapshot, values: Values) {
    forall k :: k in values ==> ReadValue(snapshot, TreeIndex(k)).Ok?
  }

  /** Read the listed subindices of one stem from NOMT; a value of the wrong length fails. */
  method StemWords(nomt: Nomt, stem: Stem, subindices: seq<Subindex>) returns (r: Result<seq<B256>>)
    ensures r.Ok? ==> |r.value| == |subindices|
                      && forall i :: 0 <= i < |subindices| ==>
                           ReadValue(Top(nomt.stack), TreeIndex(TreeKey(stem, subindices[i]))) == Ok(r.value[i])
    ensures r.Err? ==> r.error == InvalidNomtValueLength
                       && exists i :: 0 <= i < |subindices|
                            && ReadValue(Top(nomt.stack), TreeIndex(TreeKey(stem, subindices[i]))).Err?
  {
    var words := [];
    for i := 0 to |subindices|
      invariant |words| == i
      invariant forall j :: 0 <= j < i ==>
                  ReadValue(Top(nomt.stack), TreeIndex(TreeKey(stem, subindices[j]))) == Ok(words[j])
    {
      var stored := nomt.Read(TreeIndex(TreeKey(stem, subindices[i])));
      if stored.Some? && stored.value.BlockNumber? {
        return Err(InvalidNomtValueLength);
      }
      var word: B256 := if stored.Some? then stored.value.word else 0;
      words := words + [word];
    }
    return Ok(words);
  }

  ghost predicate KeysOfStem(index: Index, snapshot: Snapshot, contract: Option<Address>, stem: Stem,
                             subindices: seq<Subindex>)
    requires Owned(NomtValues(index, snapshot), IndexAddresses(index))
  {
    forall i :: i in subindices <==> TreeKey(stem, i) in Selected(NomtValues(index, snapshot), IndexAddresses(index), contract)
  }

  lemma SelectedStem(index: Index, snapshot: Snapshot, contract: Option<Address>, stem: Stem, subindices: seq<Subindex>)
    requires stem in index && Owned(NomtValues(index, snapshot), IndexAddresses(index))
    requires contract.Some? && index[stem].address != contract.value ==> subindices == []
    requires !(contract.Some? && index[stem].address != contract.value) ==>
               forall i :: i in subindices <==> i in index[stem].bits
    ensures KeysOfStem(index, snapshot, contract, stem, subindices)
    ensures forall i :: i in subindices ==>
              Selected(NomtValues(index, snapshot), IndexAddresses(index), contract)[TreeKey(stem, i)]
              == WordAt(snapshot, TreeKey(stem, i))
  {
    forall i: Subindex ensures TreeKey(stem, i) in NomtValues(index, snapshot) <==> i in index[stem].bits {
      assert TreeKey(stem, i) in IndexKeys(index) <==> i in index[stem].bits;
    }
  }

  /** What the NOMT exporters return. Only the full export rejects an empty index under a head
      that counts stems. */
  ghost function NomtResult(head: Option<Head>, index: Index, snapshot: Snapshot, contract: Option<Address>, chainId: u64)
    : Result<Export>
  {
    NomtOwned(index, snapshot);
    var values := Selected(NomtValues(index, snapshot), IndexAddresses(index), contract);
    match head
    case None => Err(MissingKeyIndexHead)
    case Some(h) =>
      if !Readable(snapshot, values) then Err(InvalidNomtValueLength)
      else if contract == None && values == map[] && h.stemCount > 0 then Err(EmptyKeyIndex)
      else Ok(ExportOf(h, chainId, EntryList(values, IndexAddresses(index))))
  }

  /** `export_full_state_from_nomt_with`, and with a contract `export_contract_state_from_nomt`. */
  method ExportFromNomt(keyIndex: KeyIndex, nomt: Nomt, contract: Option<Address>, chainId: u64)
    returns (r: Result<Export>)
    ensures r == NomtResult(keyIndex.SavedHead(), keyIndex.Contents(), Top(nomt.stack), contract, chainId)
  {
    hide Selected, KeysOfStem, Written, EntriesBytes, OffsetTable, EmittedBelow, ExportOf, NomtValues, EntryList;
    ghost var index, top := keyIndex.Contents(), Top(nomt.stack);
    NomtOwned(index, top);
    ghost var addresses := IndexAddresses(index);
    ghost var values := Selected(NomtValues(index, top), addresses, contract);
    var saved := keyIndex.LoadHead();
    if saved == None {
      return Err(MissingKeyIndexHead);
    }
    var written := ExportStems(keyIndex, nomt, contract);
    if written.Err? {
      return Err(written.error);
    }
    var (body, offset, rows) := written.value;
    ListedNothing(values, addresses);
    if contract == None && offset == 0 && saved.value.stemCount > 0 {
      return Err(EmptyKeyIndex);
    }
    var result := Finish(saved.value, chainId, body, offset, rows, EntryList(values, addresses));
    return Ok(result);
  }

  lemma ListedNothing(values: Values, addresses: Addresses)
    requires Owned(values, addresses)
    ensures |EntryList(values, addresses)| == 0 <==> values == map[]
  {
    var ks := SortedKeys(values.Keys);
    if ks != [] {
      assert ks[0] in ks;
    } else {
      assert forall k :: k in values ==> k in ks;
    }
  }

  /** The closure `for_each_stem` runs, over the index in cursor order. */
  method ExportStems(keyIndex: KeyIndex, nomt: Nomt, contract: Option<Address>)
    returns (r: Result<(seq<Byte>, nat, seq<StemRow>)>)
    requires Owned(NomtValues(keyIndex.Contents(), Top(nomt.stack)), IndexAddresses(keyIndex.Contents()))
    ensures var index, top := keyIndex.Contents(), Top(nomt.stack);
            var values := Selected(NomtValues(index, top), IndexAddresses(index), contract);
            var es := EntryList(values, IndexAddresses(index));
            if Readable(top, values)
            then r.Ok? && r.value == (EntriesBytes(es), |es|, OffsetTable(es))
            else r == Err(InvalidNomtValueLength)
  {
    hide *;
    ghost var index, top := keyIndex.Contents(), Top(nomt.stack);
    ghost var addresses := IndexAddresses(index);
    ghost var values := Selected(NomtValues(index, top), addresses, contract);
    var body: seq<Byte>, offset: nat, rows: seq<StemRow> := [], 0, [];
    var cursor := SortedSeq(keyIndex.table.Keys);
    ghost var ks: seq<TreeKey> := [];
    IndexStems(keyIndex);
    StartStems(index, top, contract, cursor);
    for i := 0 to |cursor|
      invariant EmittedBelow(ks, values.Keys, if i < |cursor| then cursor[i] else TWO_248)
      invariant Written(ks, values, addresses, body, offset, rows)
      invariant ReadableKeys(top, ks)
    {
      assert cursor[i] in cursor;
      var stem: Stem := cursor[i];
      var output := ExportStem(keyIndex, nomt, contract, stem);
      if output.Err? {
        return Err(output.error);
      }
      var (subindices, bytes) := output.value;
      StemStep(index, top, contract, cursor, i, ks, subindices, body, offset, rows);
      ReadableBoth(top, ks, StemKeys(stem, subindices));
      body := body + bytes;
      if subindices != [] {
        rows := rows + [StemRow(stem, offset)];
      }
      offset := offset + |subindices|;
      ks := ks + StemKeys(stem, subindices);
    }
    AllWritten(ks, values, addresses, body, offset, rows);
    AllReadable(top, ks, values);
    return Ok((body, offset, rows));
  }

  lemma IndexStems(keyIndex: KeyIndex)
    ensures keyIndex.table.Keys == keyIndex.Contents().Keys
  {
  }

  lemma ReadableBoth(snapshot: Snapshot, a: seq<TreeKey>, b: seq<TreeKey>)
    requires ReadableKeys(snapshot, a) && ReadableKeys(snapshot, b)
    ensures ReadableKeys(snapshot, a + b)
  {
  }

  /** One call of the closure: the stem's record, its set bits, and their NOMT values. */
  method ExportStem(keyIndex: KeyIndex, nomt: Nomt, contract: Option<Address>, stem: Stem)
    returns (r: Result<(seq<Subindex>, seq<Byte>)>)
    requires Owned(NomtValues(keyIndex.Contents(), Top(nomt.stack)), IndexAddresses(keyIndex.Contents()))
    requires stem in keyIndex.table
    ensures var index, top := keyIndex.Contents(), Top(nomt.stack);
            var addresses := IndexAddresses(index);
            var values := Selected(NomtValues(index, top), addresses, contract);
            match r
            case Err(e) => e == InvalidNomtValueLength && !Readable(top, values)
            case Ok((subindices, bytes)) =>
              && KeysOfStem(index, top, contract, stem, subindices)
              && (forall i, j :: 0 <= i < j < |subindices| ==> subindices[i] < subindices[j])
              && (forall k :: k in StemKeys(stem, subindices) ==> k in values && k.stem in addresses)
              && ReadableKeys(top, StemKeys(stem, subindices))
              && bytes == EntriesBytes(EntriesAt(StemKeys(stem, subindices), values, addresses))
  {
    hide Selected, KeysOfStem, EntriesBytes, NomtValues, Bits, Readable, SplitValue, ReadValue, StemKeys, ReadableKeys;
    ghost var index, top := keyIndex.Contents(), Top(nomt.stack);
    ghost var addresses := IndexAddresses(index);
    ghost var values := Selected(NomtValues(index, top), addresses, contract);
    var (address, bitmap) := SplitValue(keyIndex.table[stem]);
    assert index[stem] == StemRecord(address, Bits(bitmap));
    var subindices: seq<Subindex> := [];
    if contract == None || address == contract.value {
      subindices := IterBitmapSubindices(bitmap);
    }
    SelectedStem(index, top, contract, stem, subindices);
    KeysAreValues(index, top, contract, stem, subindices);
    var words := StemWords(nomt, stem, subindices);
    if words.Err? {
      UnreadableStem(index, top, contract, stem, subindices);
      return Err(words.error);
    }
    ReadStem(index, top, contract, stem, subindices, words.value);
    var bytes := StemBytes(stem, address, subindices, words.value, values, addresses);
    return Ok((subindices, bytes));
  }

  lemma KeysAreValues(index: Index, snapshot: Snapshot, contract: Option<Address>, stem: Stem, subindices: seq<Subindex>)
    requires Owned(NomtValues(index, snapshot), IndexAddresses(index)) && stem in index
    requires KeysOfStem(index, snapshot, contract, stem, subindices)
    ensures forall k :: k in StemKeys(stem, subindices) ==>
              k in Selected(NomtValues(index, snapshot), IndexAddresses(index), contract) && k.stem in IndexAddresses(index)
  {
    var more := StemKeys(stem, subindices);
    forall k | k in more
      ensures k in Selected(NomtValues(index, snapshot), IndexAddresses(index), contract) && k.stem in IndexAddresses(index)
    {
      var i :| 0 <= i < |more| && more[i] == k;
      assert subindices[i] in subindices;
    }
  }

  ghost predicate ReadableKeys(snapshot: Snapshot, ks: seq<TreeKey>) {
    forall k :: k in ks ==> ReadValue(snapshot, TreeIndex(k)).Ok?
  }

  lemma AllReadable(snapshot: Snapshot, ks: seq<TreeKey>, values: Values)
    requires EmittedBelow(ks, values.Keys, TWO_248) && ReadableKeys(snapshot, ks)
    ensures Readable(snapshot, values)
  {
  }

  lemma UnreadableStem(index: Index, snapshot: Snapshot, contract: Option<Address>, stem: Stem, subindices: seq<Subindex>)
    requires Owned(NomtValues(index, snapshot), IndexAddresses(index))
    requires KeysOfStem(index, snapshot, contract, stem, subindices)
    requires exists i :: 0 <= i < |subindices| && ReadValue(snapshot, TreeIndex(TreeKey(stem, subindices[i]))).Err?
    ensures !Readable(snapshot, Selected(NomtValues(index, snapshot), IndexAddresses(index), contract))
  {
    var i :| 0 <= i < |subindices| && ReadValue(snapshot, TreeIndex(TreeKey(stem, subindices[i]))).Err?;
    assert subindices[i] in subindices;
  }

  lemma ReadStem(index: Index, snapshot: Snapshot, contract: Option<Address>, stem: Stem, subindices: seq<Subindex>,
                 words: seq<B256>)
    requires Owned(NomtValues(index, snapshot), IndexAddresses(index)) && stem in index
    requires KeysOfStem(index, snapshot, contract, stem, subindices)
    requires forall i :: i in subindices ==>
               Selected(NomtValues(index, snapshot), IndexAddresses(index), contract)[TreeKey(stem, i)]
               == WordAt(snapshot, TreeKey(stem, i))
    requires |words| == |subindices|
    requires forall i :: 0 <= i < |subindices| ==>
               ReadValue(snapshot, TreeIndex(TreeKey(stem, subindices[i]))) == Ok(words[i])
    ensures ReadableKeys(snapshot, StemKeys(stem, subindices))
    ensures var values := Selected(NomtValues(index, snapshot), IndexAddresses(index), contract);
            forall i :: 0 <= i < |words| ==>
              TreeKey(stem, subindices[i]) in values && words[i] == values[TreeKey(stem, subindices[i])]
  {
    hide ReadValue, Selected, NomtValues;
    forall i | 0 <= i < |words| ensures words[i] == WordAt(snapshot, TreeKey(stem, subindices[i])) {
    }
    assert forall i :: 0 <= i < |subindices| ==> subindices[i] in subindices;
  }

  lemma StartStems(index: Index, snapshot: Snapshot, contract: Option<Address>, cursor: seq<int>)
    requires Owned(NomtValues(index, snapshot), IndexAddresses(index))
    requires StrictlySorted(cursor) && forall s :: s in cursor <==> s in index
    ensures var values := Selected(NomtValues(index, snapshot), IndexAddresses(index), contract);
            && EmittedBelow([], values.Keys, if 0 < |cursor| then cursor[0] else TWO_248)
            && Written([], values, IndexAddresses(index), [], 0, [])
            && ReadableKeys(snapshot, [])
  {
    var values := Selected(NomtValues(index, snapshot), IndexAddresses(index), contract);
    forall k | k in values ensures k.stem in cursor {
      assert k in IndexKeys(index);
    }
  }

  /** One turn of the stem loop, on the ghost side. */
  lemma StemStep(index: Index, snapshot: Snapshot, contract: Option<Address>, cursor: seq<int>, i: nat,
                 ks: seq<TreeKey>, subindices: seq<Subindex>, body: seq<Byte>, offset: nat, table: seq<StemRow>)
    requires Owned(NomtValues(index, snapshot), IndexAddresses(index))
    requires StrictlySorted(cursor) && (forall s :: s in cursor <==> s in index) && i < |cursor| && cursor[i] in index
    requires EmittedBelow(ks, Selected(NomtValues(index, snapshot), IndexAddresses(index), contract).Keys, cursor[i])
    requires Written(ks, Selected(NomtValues(index, snapshot), IndexAddresses(index), contract), IndexAddresses(index),
                     body, offset, table)
    requires KeysOfStem(index, snapshot, contract, cursor[i], subindices)
    requires forall a, b :: 0 <= a < b < |subindices| ==> subindices[a] < subindices[b]
    ensures var addresses := IndexAddresses(index);
            var values := Selected(NomtValues(index, snapshot), addresses, contract);
            var more := StemKeys(cursor[i], subindices);
            && (forall k :: k in more ==> k in values && k.stem in addresses)
            && EmittedBelow(ks + more, values.Keys, if i + 1 < |cursor| then cursor[i + 1] else TWO_248)
            && Written(ks + more, values, addresses, body + EntriesBytes(EntriesAt(more, values, addresses)),
                       offset + |subindices|, if subindices == [] then table else table + [StemRow(cursor[i], offset)])
  {
    hide Written, EntriesBytes, OffsetTable, Selected, NomtValues;
    var values := Selected(NomtValues(index, snapshot), IndexAddresses(index), contract);
    var stem: Stem := cursor[i];
    var bound := if i + 1 < |cursor| then cursor[i + 1] else TWO_248;
    assert bound == TWO_248 || bound in cursor;
    ValuesInIndex(index, snapshot, contract);
    assert forall k :: k in values && stem < k.stem ==> bound <= k.stem;
    EmitStem(ks, values.Keys, stem, subindices, bound);
    forall j | 0 <= j < |subindices| ensures TreeKey(stem, subindices[j]) in values {
      assert subindices[j] in subindices;
    }
    WroteStem(ks, values, IndexAddresses(index), body, offset, table, stem, subindices);
  }

  lemma ValuesInIndex(index: Index, snapshot: Snapshot, contract: Option<Address>)
    requires Owned(NomtValues(index, snapshot), IndexAddresses(index))
    ensures forall k :: k in Selected(NomtValues(index, snapshot), IndexAddresses(index), contract) ==> k.stem in index
  {
  }

  /* ---- The delta between two blocks ---- */

  datatype DeltaExport = DeltaExport(fromBlock: u64, toBlock: u64, headBlock: u64, entryCount: nat, file: seq<Byte>)

  /** Every key mentioned by a stored list of the range. */
  function Touched(deltas: DeltaTable, from: int, to: int): set<TreeKey> {
    set n, d | n in deltas && from <= n <= to && d in deltas[n] :: d.key
  }

  /** Their current MDBX values, zero when missing. */
  function PatchValues(rows: Rows, keys: set<TreeKey>): Values {
    map k | k in keys :: GetOrZero(NodeAt(rows, k.stem), k.subindex)
  }

  function SaturatingSub(a: u64, b: u64): u64 {
    if b <= a then a - b else 0
  }

  /** The range checks of `get_state_delta`, in its order. */
  function WindowError(head: u64, from: u64, to: u64, retention: u64): Option<Error> {
    if from > to then Some(FromAfterTo)
    else if to > head then Some(ToAheadOfHead)
    else if from < SaturatingSub(head, retention) then Some(BeforeRetentionWindow)
    else None
  }

  /** What `get_state_delta` returns: range errors in its order, then the keys without an owner,
      counted, or the touched keys, sorted, with owners and current values. */
  function DeltaResult(head: Option<Head>, rows: Rows, deltas: DeltaTable, addresses: Addresses,
                       from: u64, to: u64, chainId: u64, retention: u64): Result<DeltaExport>
  {
    match head
    case None => Err(NoCanonicalState)
    case Some(h) =>
      match WindowError(h.number, from, to, retention)
      case Some(e) => Err(e)
      case None =>
        var keys := Touched(deltas, from, to);
        var unowned := set k | k in keys && k.stem !in addresses;
        if unowned != {} then Err(MissingAddresses(|unowned|))
        else
          assert forall k :: k in keys ==> k !in unowned;
          var es := EntryList(PatchValues(rows, keys), addresses);
          Ok(DeltaExport(from, to, h.number, |es|, StateFileBytes(NewHeader(|es| % TWO_64, h.number, chainId, h.hash), es)))
  }

  /** `get_state_delta`. */
  method GetStateDelta(db: UbtDatabase, fromBlock: u64, toBlock: u64, chainId: u64, deltaRetention: u64)
    returns (r: Result<DeltaExport>)
    ensures r == DeltaResult(db.head, db.stems, db.deltas, db.addresses, fromBlock, toBlock, chainId, deltaRetention)
  {
    hide EntriesBytes, EntryBytes, HeaderBytes, SortedKeys;
    var saved := db.LoadHead();
    if saved == None {
      return Err(NoCanonicalState);
    }
    var head := saved.value;
    if fromBlock > toBlock {
      return Err(FromAfterTo);
    }
    if toBlock > head.number {
      return Err(ToAheadOfHead);
    }
    var minBlock := SaturatingSub(head.number, deltaRetention);
    if fromBlock < minBlock {
      return Err(BeforeRetentionWindow);
    }
    var touched := CollectTouched(db, fromBlock, toBlock);
    ghost var values := PatchValues(db.stems, touched);
    assert values.Keys == touched;
    var order := SortedKeys(touched);
    var missing := MissingOwners(db, order, touched);
    ghost var unowned := set k | k in touched && k.stem !in db.addresses;
    if missing > 0 {
      assert unowned != {};
      return Err(MissingAddresses(missing));
    }
    var body := PatchBytes(db, order, values);
    var buffer := HeaderToBytes(NewHeader(|order| % TWO_64, head.number, chainId, head.hash));
    return Ok(DeltaExport(fromBlock, toBlock, head.number, |order|, buffer[..] + body));
  }

  method CollectTouched(db: UbtDatabase, fromBlock: u64, toBlock: u64) returns (touched: set<TreeKey>)
    requires fromBlock <= toBlock
    ensures touched == Touched(db.deltas, fromBlock, toBlock)
  {
    touched := {};
    var block: int := fromBlock;
    while block <= toBlock
      invariant fromBlock <= block <= toBlock + 1
      invariant touched == Touched(db.deltas, fromBlock, block - 1)
    {
      var list := db.LoadBlockDeltas(block);
      ghost var before := touched;
      for i := 0 to |list|
        invariant touched == before + (set d | d in list[..i] :: d.key)
      {
        assert list[..i + 1] == list[..i] + [list[i]];
        touched := touched + {list[i].key};
      }
      assert list[..|list|] == list;
      TouchedStep(db.deltas, fromBlock, block, list);
      block := block + 1;
    }
  }

  lemma TouchedStep(deltas: DeltaTable, from: int, n: u64, list: seq<Delta>)
    requires from <= n && list == Slot(deltas, n)
    ensures Touched(deltas, from, n) == Touched(deltas, from, n - 1) + (set d | d in list :: d.key)
  {
  }

  /** The keys whose stem has no saved address. */
  method MissingOwners(db: UbtDatabase, order: seq<TreeKey>, ghost keys: set<TreeKey>) returns (count: nat)
    requires InOrder(order) && forall k :: k in order <==> k in keys
    ensures count == |(set k | k in keys && k.stem !in db.addresses)|
    ensures count == 0 <==> Owned(PatchValues(db.stems, keys), db.addresses)
  {
    var missing: seq<TreeKey> := [];
    for i := 0 to |order|
      invariant forall k :: k in missing <==> k in order[..i] && k.stem !in db.addresses
      invariant forall p, q :: 0 <= p < q < |missing| ==> missing[p] != missing[q]
    {
      assert order[..i + 1] == order[..i] + [order[i]];
      var owner := db.LoadStemAddress(order[i].stem);
      if owner == None {
        assert order[i] !in order[..i];
        missing := missing + [order[i]];
      }
    }
    assert order[..|order|] == order;
    ghost var unowned := set k | k in keys && k.stem !in db.addresses;
    assert forall k :: k in unowned <==> k in missing;
    DistinctCount(missing, unowned);
    count := |missing|;
    if missing != [] {
      assert missing[0] in missing;
    }
  }

  method PatchBytes(db: UbtDatabase, order: seq<TreeKey>, ghost values: Values) returns (body: seq<Byte>)
    requires Owned(values, db.addresses) && forall k :: k in order <==> k in values
    requires forall k :: k in values ==> values[k] == GetOrZero(NodeAt(db.stems, k.stem), k.subindex)
    ensures body == EntriesBytes(EntriesAt(order, values, db.addresses))
  {
    hide EntryBytes;
    body := [];
    ghost var es := EntriesAt(order, values, db.addresses);
    for i := 0 to |order|
      invariant body == EntriesBytes(es[..i])
    {
      assert order[i] in order;
      var owner := db.LoadStemAddress(order[i].stem);
      var stored := db.LoadValue(order[i]);
      var value: B256 := if stored.Some? then stored.value else 0;
      var buffer := EntryToBytes(StorageEntry(owner.value, TreeIndex(order[i]), value));
      assert es[i] == StorageEntry(owner.value, TreeIndex(order[i]), value);
      assert es[..i + 1][..i] == es[..i];
      body := body + buffer[..];
    }
    assert es[..|order|] == es;
  }
}
