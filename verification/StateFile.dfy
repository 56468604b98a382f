/** The PIR2 file formats: fixed-width header, entries and stem index rows. */
module StateFile {
  import opened Types
  import opened Bytes

  const STATE_HEADER_SIZE := 64
  const STATE_ENTRY_SIZE := 84
  const STEM_INDEX_ENTRY_SIZE := 39

  type u16 = x: int | 0 <= x < 0x1_0000
  type Magic = m: seq<Byte> | |m| == 4 witness [0, 0, 0, 0]

  /** The bytes of "PIR2". */
  const STATE_MAGIC: Magic := [0x50, 0x49, 0x52, 0x32]

  datatype StateHeader = StateHeader(magic: Magic, version: u16, entrySize: u16,
                                     entryCount: u64, blockNumber: u64, chainId: u64, blockHash: B256)

  function NewHeader(entryCount: u64, blockNumber: u64, chainId: u64, blockHash: B256): StateHeader {
    StateHeader(STATE_MAGIC, 1, STATE_ENTRY_SIZE, entryCount, blockNumber, chainId, blockHash)
  }

  datatype StorageEntry = StorageEntry(address: Address, treeIndex: B256, value: B256)

  /* ---- Encoding ---- */

  function HeaderBytes(h: StateHeader): (b: seq<Byte>)
    ensures |b| == STATE_HEADER_SIZE
  {
    h.magic + ToLE(h.version, 2) + ToLE(h.entrySize, 2) + ToLE(h.entryCount, 8)
    + ToLE(h.blockNumber, 8) + ToLE(h.chainId, 8) + ToBE(h.blockHash, 32)
  }

  function EntryBytes(e: StorageEntry): (b: seq<Byte>)
    ensures |b| == STATE_ENTRY_SIZE
  {
    ToBE(e.address, 20) + ToBE(e.treeIndex, 32) + ToBE(e.value, 32)
  }

  function EntriesBytes(entries: seq<StorageEntry>): (b: seq<Byte>)
    ensures |b| == STATE_ENTRY_SIZE * |entries|
    decreases |entries|
  {
    if entries == [] then []
    else EntriesBytes(entries[..|entries| - 1]) + EntryBytes(entries[|entries| - 1])
  }

  function StateFileBytes(h: StateHeader, entries: seq<StorageEntry>): seq<Byte> {
    HeaderBytes(h) + EntriesBytes(entries)
  }

  /** One row of the offset table: a stem and the position of its first entry. */
  datatype StemRow = StemRow(stem: Stem, offset: nat)

  function RowBytes(row: StemRow): (b: seq<Byte>)
    ensures |b| == STEM_INDEX_ENTRY_SIZE
  {
    ToBE(row.stem, 31) + ToLE(row.offset, 8)
  }

  function RowsBytes(rows: seq<StemRow>): (b: seq<Byte>)
    ensures |b| == STEM_INDEX_ENTRY_SIZE * |rows|
    decreases |rows|
  {
    if rows == [] then [] else RowsBytes(rows[..|rows| - 1]) + RowBytes(rows[|rows| - 1])
  }

  function StemIndexBytes(rows: seq<StemRow>): seq<Byte> {
    ToLE(|rows|, 8) + RowsBytes(rows)
  }

  /* ---- Filling the fixed-size buffers ---- */

  /** `StateHeader::to_bytes`. */
  method HeaderToBytes(h: StateHeader) returns (buffer: array<Byte>)
    ensures fresh(buffer) && buffer[..] == HeaderBytes(h)
  {
    hide ToLE, ToBE;
    buffer := new Byte[STATE_HEADER_SIZE];
    CopyInto(buffer, 0, h.magic);
    CopyInto(buffer, 4, ToLE(h.version, 2));
    CopyInto(buffer, 6, ToLE(h.entrySize, 2));
    CopyInto(buffer, 8, ToLE(h.entryCount, 8));
    CopyInto(buffer, 16, ToLE(h.blockNumber, 8));
    CopyInto(buffer, 24, ToLE(h.chainId, 8));
    CopyInto(buffer, 32, ToBE(h.blockHash, 32));
    assert buffer[..] == buffer[..64];
  }

  /** `StorageEntry::to_bytes`. */
  method EntryToBytes(e: StorageEntry) returns (buffer: array<Byte>)
    ensures fresh(buffer) && buffer[..] == EntryBytes(e)
  {
    hide ToBE;
    buffer := new Byte[STATE_ENTRY_SIZE];
    CopyInto(buffer, 0, ToBE(e.address, 20));
    CopyInto(buffer, 20, ToBE(e.treeIndex, 32));
    CopyInto(buffer, 52, ToBE(e.value, 32));
    assert buffer[..] == buffer[..84];
  }

  /** `tree_index_from_key`: 31 stem bytes, then the subindex byte. */
  method TreeIndexFromKey(key: TreeKey) returns (buffer: array<Byte>)
    ensures fresh(buffer) && buffer[..] == ToBE(TreeIndex(key), 32)
  {
    hide ToBE, TreeIndex;
    TreeIndexBytes(key);
    buffer := new Byte[32];
    CopyInto(buffer, 0, ToBE(key.stem, 31));
    buffer[31] := key.subindex as Byte;
    assert buffer[..] == buffer[..31] + [buffer[31]];
  }

  /* ---- Decoding, as a reader of the files does it ---- */

  function ParseHeader(b: seq<Byte>): StateHeader
    requires |b| == STATE_HEADER_SIZE
  {
    hide Pow256, FromLE, FromBE;
    Widths();
    StateHeader(b[..4], FromLE(b[4..6]), FromLE(b[6..8]), FromLE(b[8..16]), FromLE(b[16..24]),
                FromLE(b[24..32]), FromBE(b[32..64]))
  }

  function ParseEntry(b: seq<Byte>): StorageEntry
    requires |b| == STATE_ENTRY_SIZE
  {
    Widths();
    StorageEntry(FromBE(b[..20]), FromBE(b[20..52]), FromBE(b[52..84]))
  }

  /** The file parsed by its header's count; `None` when the length does not fit. */
  function ParseState(file: seq<Byte>): Option<(StateHeader, seq<StorageEntry>)> {
    if |file| < STATE_HEADER_SIZE then None
    else
      var h := ParseHeader(file[..STATE_HEADER_SIZE]);
      if |file| != STATE_HEADER_SIZE + STATE_ENTRY_SIZE * h.entryCount then None
      else Some((h, seq(h.entryCount, i requires 0 <= i < h.entryCount =>
                   ParseEntry(file[STATE_HEADER_SIZE + STATE_ENTRY_SIZE * i
                                   ..STATE_HEADER_SIZE + STATE_ENTRY_SIZE * i + STATE_ENTRY_SIZE]))))
  }

  function ParseRow(b: seq<Byte>): StemRow
    requires |b| == STEM_INDEX_ENTRY_SIZE
  {
    Widths();
    StemRow(FromBE(b[..31]), FromLE(b[31..39]))
  }

  function ParseStemIndex(file: seq<Byte>): Option<seq<StemRow>> {
    if |file| < 8 then None
    else
      var count := FromLE(file[..8]);
      if |file| != 8 + STEM_INDEX_ENTRY_SIZE * count then None
      else Some(seq(count, i requires 0 <= i < count =>
                  ParseRow(file[8 + STEM_INDEX_ENTRY_SIZE * i
                                ..8 + STEM_INDEX_ENTRY_SIZE * i + STEM_INDEX_ENTRY_SIZE])))
  }

  /* ---- Round trips ---- */

  lemma Cut<T>(a: seq<T>, b: seq<T>)
    ensures (a + b)[..|a|] == a && (a + b)[|a|..] == b
  {
  }

  /** Dropping `n` and then slicing is slicing further on. */
  lemma SliceShift<T>(s: seq<T>, n: nat, lo: nat, hi: nat)
    requires n <= |s| && lo <= hi <= |s| - n
    ensures s[n..][lo..hi] == s[n + lo..n + hi]
  {
  }

  lemma HeaderFields(h: StateHeader)
    ensures var b := HeaderBytes(h);
            && b[..4] == h.magic && b[4..6] == ToLE(h.version, 2) && b[6..8] == ToLE(h.entrySize, 2)
            && b[8..16] == ToLE(h.entryCount, 8) && b[16..24] == ToLE(h.blockNumber, 8)
            && b[24..32] == ToLE(h.chainId, 8) && b[32..64] == ToBE(h.blockHash, 32)
  {
    hide ToLE, ToBE;
  }

  lemma HeaderRoundTrip(h: StateHeader)
    ensures ParseHeader(HeaderBytes(h)) == h
  {
    hide ToLE, ToBE, FromLE, FromBE, HeaderBytes, Pow256;
    Widths();
    HeaderFields(h);
    LittleEndianRoundTrip(h.version, 2);
    LittleEndianRoundTrip(h.entrySize, 2);
    LittleEndianRoundTrip(h.entryCount, 8);
    LittleEndianRoundTrip(h.blockNumber, 8);
    LittleEndianRoundTrip(h.chainId, 8);
    BigEndianRoundTrip(h.blockHash, 32);
  }

  lemma EntryRoundTrip(e: StorageEntry)
    ensures ParseEntry(EntryBytes(e)) == e
  {
    hide ToBE, FromBE, Pow256;
    Widths();
    var b := EntryBytes(e);
    assert b[..20] == ToBE(e.address, 20) && b[20..52] == ToBE(e.treeIndex, 32) && b[52..84] == ToBE(e.value, 32);
    BigEndianRoundTrip(e.address, 20);
    BigEndianRoundTrip(e.treeIndex, 32);
    BigEndianRoundTrip(e.value, 32);
  }

  lemma RowRoundTrip(row: StemRow)
    requires row.offset < TWO_64
    ensures ParseRow(RowBytes(row)) == row
  {
    hide ToBE, FromBE, ToLE, FromLE, Pow256;
    Widths();
    var b := RowBytes(row);
    assert b[..31] == ToBE(row.stem, 31) && b[31..39] == ToLE(row.offset, 8);
    BigEndianRoundTrip(row.stem, 31);
    LittleEndianRoundTrip(row.offset, 8);
  }

  lemma {:induction false} EntryInPlace(entries: seq<StorageEntry>, i: nat)
    requires i < |entries|
    ensures EntriesBytes(entries)[STATE_ENTRY_SIZE * i..STATE_ENTRY_SIZE * i + STATE_ENTRY_SIZE] == EntryBytes(entries[i])
    decreases |entries|
  {
    hide EntryBytes;
    var front := entries[..|entries| - 1];
    if i < |front| {
      EntryInPlace(front, i);
      var lo, hi := STATE_ENTRY_SIZE * i, STATE_ENTRY_SIZE * i + STATE_ENTRY_SIZE;
      assert hi <= |EntriesBytes(front)|;
      assert EntriesBytes(entries)[lo..hi] == EntriesBytes(front)[lo..hi];
    }
  }

  lemma {:induction false} RowInPlace(rows: seq<StemRow>, i: nat)
    requires i < |rows|
    ensures RowsBytes(rows)[STEM_INDEX_ENTRY_SIZE * i..STEM_INDEX_ENTRY_SIZE * i + STEM_INDEX_ENTRY_SIZE] == RowBytes(rows[i])
    decreases |rows|
  {
    hide RowBytes;
    var front := rows[..|rows| - 1];
    if i < |front| {
      RowInPlace(front, i);
      var lo, hi := STEM_INDEX_ENTRY_SIZE * i, STEM_INDEX_ENTRY_SIZE * i + STEM_INDEX_ENTRY_SIZE;
      assert hi <= |RowsBytes(front)|;
      assert RowsBytes(rows)[lo..hi] == RowsBytes(front)[lo..hi];
    }
  }

  /** A state file is 64 + 84 * count bytes and parses back to its header and entries. */
  lemma StateRoundTrip(h: StateHeader, entries: seq<StorageEntry>)
    requires h.entryCount == |entries|
    ensures |StateFileBytes(h, entries)| == STATE_HEADER_SIZE + STATE_ENTRY_SIZE * |entries|
    ensures ParseState(StateFileBytes(h, entries)) == Some((h, entries))
  {
    hide HeaderBytes, EntriesBytes, ParseHeader, ParseEntry, EntryBytes;
    var file, body := StateFileBytes(h, entries), EntriesBytes(entries);
    Cut(HeaderBytes(h), body);
    HeaderRoundTrip(h);
    var parsed := ParseState(file).value.1;
    forall i | 0 <= i < |entries| ensures parsed[i] == entries[i] {
      EntryInPlace(entries, i);
      SliceShift(file, STATE_HEADER_SIZE, STATE_ENTRY_SIZE * i, STATE_ENTRY_SIZE * i + STATE_ENTRY_SIZE);
      EntryRoundTrip(entries[i]);
    }
    assert parsed == entries;
  }

  lemma StemIndexRoundTrip(rows: seq<StemRow>)
    requires |rows| < TWO_64 && forall i :: 0 <= i < |rows| ==> rows[i].offset < TWO_64
    ensures ParseStemIndex(StemIndexBytes(rows)) == Some(rows)
  {
    hide RowsBytes, ToLE, FromLE, ParseRow, RowBytes, Pow256;
    Widths();
    var file, body := StemIndexBytes(rows), RowsBytes(rows);
    Cut(ToLE(|rows|, 8), body);
    LittleEndianRoundTrip(|rows|, 8);
    var parsed := ParseStemIndex(file).value;
    forall i | 0 <= i < |rows| ensures parsed[i] == rows[i] {
      RowInPlace(rows, i);
      SliceShift(file, 8, STEM_INDEX_ENTRY_SIZE * i, STEM_INDEX_ENTRY_SIZE * i + STEM_INDEX_ENTRY_SIZE);
      RowRoundTrip(rows[i]);
    }
    assert parsed == rows;
  }
}
