/** Where each field lies in the fixed-width records, byte range by byte range. */
module Layouts {
  import opened Types
  import opened Bytes
  import opened Bitmaps
  import opened NomtStore
  import opened KeyIndexFile
  import opened StateFile
  import opened StemRows

  /** A state file begins with this header: the bytes of "PIR2", version 1, entries of 84 bytes,
      the count, the block, the chain and the block's hash. */
  ghost predicate Labelled(file: seq<Byte>, count: nat, number: u64, chainId: u64, hash: B256) {
    && |file| >= 64
    && file[..4] == [0x50, 0x49, 0x52, 0x32]
    && FromLE(file[4..6]) == 1 && FromLE(file[6..8]) == 84
    && FromLE(file[8..16]) == count % TWO_64
    && FromLE(file[16..24]) == number
    && FromLE(file[24..32]) == chainId
    && FromBE(file[32..64]) == hash
  }

  lemma HeaderLayout(count: nat, number: u64, chainId: u64, hash: B256)
    ensures Labelled(HeaderBytes(NewHeader(count % TWO_64, number, chainId, hash)), count, number, chainId, hash)
  {
    hide ToLE, ToBE, FromLE, FromBE, HeaderBytes, Pow256;
    Widths();
    HeaderFields(NewHeader(count % TWO_64, number, chainId, hash));
    LittleEndianRoundTrip(1, 2);
    LittleEndianRoundTrip(84, 2);
    LittleEndianRoundTrip(count % TWO_64, 8);
    LittleEndianRoundTrip(number, 8);
    LittleEndianRoundTrip(chainId, 8);
    BigEndianRoundTrip(hash, 32);
  }

  lemma LongerFile(header: seq<Byte>, body: seq<Byte>, count: nat, number: u64, chainId: u64, hash: B256)
    requires |header| == 64 && Labelled(header, count, number, chainId, hash)
    ensures Labelled(header + body, count, number, chainId, hash)
  {
    hide FromLE, FromBE;
    var file := header + body;
    assert file[..4] == header[..4] && file[4..6] == header[4..6] && file[6..8] == header[6..8];
    assert file[8..16] == header[8..16] && file[16..24] == header[16..24];
    assert file[24..32] == header[24..32] && file[32..64] == header[32..64];
  }

  /** Every state file is labelled with what its header was made of, and its entries follow. */
  lemma FileLayout(count: nat, number: u64, chainId: u64, hash: B256, es: seq<StorageEntry>)
    ensures var file := StateFileBytes(NewHeader(count % TWO_64, number, chainId, hash), es);
            && Labelled(file, count, number, chainId, hash)
            && file[64..] == EntriesBytes(es)
  {
    hide HeaderBytes, EntriesBytes, Labelled;
    var header := HeaderBytes(NewHeader(count % TWO_64, number, chainId, hash));
    HeaderLayout(count, number, chainId, hash);
    LongerFile(header, EntriesBytes(es), count, number, chainId, hash);
  }

  /** An entry: 20 bytes of address, 32 of tree index, 32 of value, the `i`th at 84 times `i`. */
  lemma EntryLayout(es: seq<StorageEntry>, i: nat)
    requires i < |es|
    ensures |EntriesBytes(es)| == 84 * |es|
    ensures var b := EntriesBytes(es)[84 * i..84 * i + 84];
            FromBE(b[..20]) == es[i].address && FromBE(b[20..52]) == es[i].treeIndex && FromBE(b[52..84]) == es[i].value
  {
    hide EntriesBytes, ToBE, FromBE, Pow256;
    Widths();
    EntryInPlace(es, i);
    var b := EntryBytes(es[i]);
    assert b[..20] == ToBE(es[i].address, 20) && b[20..52] == ToBE(es[i].treeIndex, 32) && b[52..84] == ToBE(es[i].value, 32);
    BigEndianRoundTrip(es[i].address, 20);
    BigEndianRoundTrip(es[i].treeIndex, 32);
    BigEndianRoundTrip(es[i].value, 32);
  }

  /** The stem index: 8 bytes of count, then rows of 31 bytes of stem and 8 of offset. */
  lemma StemIndexLayout(rows: seq<StemRow>, r: nat)
    requires |rows| < TWO_64 && r < |rows| && rows[r].offset < TWO_64
    ensures var file := StemIndexBytes(rows);
            && |file| == 8 + 39 * |rows| && FromLE(file[..8]) == |rows|
            && FromBE(file[8 + 39 * r..8 + 39 * r + 31]) == rows[r].stem
            && FromLE(file[8 + 39 * r + 31..8 + 39 * r + 39]) == rows[r].offset
  {
    hide RowsBytes, RowBytes, ToBE, FromBE, ToLE, FromLE, Pow256;
    Widths();
    var file := StemIndexBytes(rows);
    Cut(ToLE(|rows|, 8), RowsBytes(rows));
    LittleEndianRoundTrip(|rows|, 8);
    RowInPlace(rows, r);
    SliceShift(file, 8, 39 * r, 39 * r + 39);
    var b := file[8 + 39 * r..8 + 39 * r + 39];
    assert b[..31] == file[8 + 39 * r..8 + 39 * r + 31] && b[31..39] == file[8 + 39 * r + 31..8 + 39 * r + 39];
    RowLayout(rows[r]);
  }

  lemma RowLayout(row: StemRow)
    requires row.offset < TWO_64
    ensures FromBE(RowBytes(row)[..31]) == row.stem && FromLE(RowBytes(row)[31..39]) == row.offset
  {
    hide ToBE, FromBE, ToLE, FromLE, Pow256;
    Widths();
    var b := RowBytes(row);
    assert b[..31] == ToBE(row.stem, 31) && b[31..39] == ToLE(row.offset, 8);
    BigEndianRoundTrip(row.stem, 31);
    LittleEndianRoundTrip(row.offset, 8);
  }

  /** The packed head: 8 bytes of number, 32 of hash, 32 of root, 8 of stem count. */
  lemma HeadLayout(number: u64, hash: B256, root: B256, stemCount: u64)
    ensures var p := PackHead(number, hash, root, stemCount);
            && FromLE(p[..8]) == number && FromBE(p[8..40]) == hash
            && FromBE(p[40..72]) == root && FromLE(p[72..80]) == stemCount
  {
    hide ToBE, FromBE, ToLE, FromLE, Pow256;
    Widths();
    var p := PackHead(number, hash, root, stemCount);
    assert p[..8] == ToLE(number, 8) && p[8..40] == ToBE(hash, 32) && p[40..72] == ToBE(root, 32)
        && p[72..80] == ToLE(stemCount, 8);
    LittleEndianRoundTrip(number, 8);
    BigEndianRoundTrip(hash, 32);
    BigEndianRoundTrip(root, 32);
    LittleEndianRoundTrip(stemCount, 8);
  }

  /** The masks of a bitmap's bytes, lowest bit first. */
  lemma MaskTable()
    ensures Mask(0) == 0x01 && Mask(1) == 0x02 && Mask(2) == 0x04 && Mask(3) == 0x08
    ensures Mask(4) == 0x10 && Mask(5) == 0x20 && Mask(6) == 0x40 && Mask(7) == 0x80
  {
  }

  /** The packed record: 20 bytes of address, then 32 bytes in which subindex `i` is the bit of
      weight two to the `i % 8` in byte `i / 8`. */
  lemma RecordLayout(address: Address, bitmap: Bitmap, i: Subindex)
    ensures var p := PackValue(address, bitmap);
            && FromBE(p[..20]) == address
            && (i in Bits(bitmap) <==> p[20 + i / 8] & [0x01, 0x02, 0x04, 0x08, 0x10, 0x20, 0x40, 0x80][i % 8] != 0)
  {
    hide ToBE, FromBE, Pow256, Mask;
    Widths();
    MaskTable();
    BigEndianRoundTrip(address, 20);
    var p := PackValue(address, bitmap);
    assert p[..20] == ToBE(address, 20) && p[20 + i / 8] == bitmap[i / 8];
  }

  /** NOMT keeps the block number under the tree index of 32 bytes 0xff, that of the last
      subindex of the last stem. */
  lemma HeadKeyBytes(k: nat)
    requires k < 32
    ensures ToBE(HEAD_KEY, 32)[k] == 0xff
    ensures HEAD_KEY == TreeIndex(TreeKey(TWO_248 - 1, 255))
  {
    hide ToBE;
    BigEndianByte(HEAD_KEY, 32, 31 - k);
    AllOnes(32, 31 - k);
    ByteOnto(ToBE(HEAD_KEY, 32)[k]);
  }

  lemma {:induction false} AllOnes(width: nat, k: nat)
    requires k < width
    ensures ((Pow256(width) - 1) / Pow256(k)) % 256 == 255
    ensures width == 32 ==> HEAD_KEY == Pow256(32) - 1
  {
    hide Pow256;
    Widths();
    Split(width - k, k);
    Split(width - k - 1, 1);
    var p, high := Pow256(k), Pow256(width - k);
    assert Pow256(width) - 1 == p * (high - 1) + (p - 1) by {
      assert high * p == p * (high - 1) + p;
    }
    QuotientIs(Pow256(width) - 1, p, high - 1, p - 1);
    var h1 := Pow256(width - k - 1);
    assert high - 1 == (h1 - 1) * 256 + 255;
    Digits(h1 - 1, 255);
  }
}
