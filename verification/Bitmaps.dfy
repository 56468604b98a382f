/** The 32-byte subindex bitmap and the 52-byte packed record of the key index. */
module Bitmaps {
  import opened Types
  import opened Bytes

  type Bitmap = b: seq<Byte> | |b| == 32 witness seq(32, _ => 0 as Byte)
  type Packed = p: seq<Byte> | |p| == 52 witness seq(52, _ => 0 as Byte)

  const EMPTY: Bitmap := seq(32, _ => 0 as Byte)

  function Mask(bit: nat): Byte
    requires bit < 8
  {
    (1 as Byte) << bit
  }

  predicate HasBit(bitmap: Bitmap, i: Subindex) {
    bitmap[i / 8] & Mask(i % 8) != 0
  }

  /** The bitmap with one more bit set. */
  function WithBit(bitmap: Bitmap, i: Subindex): Bitmap {
    bitmap[i / 8 := bitmap[i / 8] | Mask(i % 8)]
  }

  /** `set_bit`, in place. */
  method SetBit(bitmap: array<Byte>, i: Subindex)
    requires bitmap.Length == 32
    modifies bitmap
    ensures bitmap[..] == WithBit(old(bitmap[..]), i)
  {
    var byte, bit := i / 8, i % 8;
    bitmap[byte] := bitmap[byte] | Mask(bit);
  }

  function Bits(bitmap: Bitmap): set<Subindex> {
    set i: Subindex | 0 <= i < 256 && HasBit(bitmap, i)
  }

  lemma OrSetsOneBit(b: Byte, i: nat, j: nat)
    requires i < 8 && j < 8
    ensures (b | Mask(i)) & Mask(j) != 0 <==> i == j || b & Mask(j) != 0
  {
    assert i != j ==> Mask(i) & Mask(j) == 0;
    assert Mask(i) & Mask(i) != 0;
  }

  lemma OrIsUnion(b: Byte, c: Byte, j: nat)
    requires j < 8
    ensures (b | c) & Mask(j) != 0 <==> b & Mask(j) != 0 || c & Mask(j) != 0
  {
  }

  /** Setting a bit adds that subindex and disturbs no other. */
  lemma WithBitAdds(bitmap: Bitmap, i: Subindex)
    ensures Bits(WithBit(bitmap, i)) == Bits(bitmap) + {i}
  {
    forall j: Subindex ensures HasBit(WithBit(bitmap, i), j) <==> j == i || HasBit(bitmap, j) {
      OrSetsOneBit(bitmap[i / 8], i % 8, j % 8);
    }
  }

  /** OR-ing two bitmaps byte by byte unites their subindices. */
  lemma OrUnites(a: Bitmap, b: Bitmap, c: Bitmap)
    requires forall k :: 0 <= k < 32 ==> c[k] == a[k] | b[k]
    ensures Bits(c) == Bits(a) + Bits(b)
  {
    forall j: Subindex ensures HasBit(c, j) <==> HasBit(a, j) || HasBit(b, j) {
      assert c[j / 8] == a[j / 8] | b[j / 8];
      OrIsUnion(a[j / 8], b[j / 8], j % 8);
    }
  }

  lemma EmptyHasNoBits()
    ensures Bits(EMPTY) == {}
  {
    forall j: Subindex ensures !HasBit(EMPTY, j) {
      ZeroMasks(j % 8);
    }
  }

  lemma ZeroMasks(j: nat)
    requires j < 8
    ensures (0 as Byte) & Mask(j) == 0
  {
  }

  /* ---- Packed records ---- */

  function PackValue(address: Address, bitmap: Bitmap): Packed {
    ToBE(address, 20) + bitmap
  }

  /** `pack_value`. */
  method ValueToBytes(address: Address, bitmap: Bitmap) returns (value: array<Byte>)
    ensures fresh(value) && value[..] == PackValue(address, bitmap)
  {
    hide ToBE;
    value := new Byte[52];
    CopyInto(value, 0, ToBE(address, 20));
    CopyInto(value, 20, bitmap);
    assert value[..] == value[..52];
  }

  function SplitValue(packed: Packed): (Address, Bitmap) {
    Widths();
    (FromBE(packed[..20]), packed[20..])
  }

  lemma SplitPacked(address: Address, bitmap: Bitmap)
    ensures SplitValue(PackValue(address, bitmap)) == (address, bitmap)
  {
    Widths();
    BigEndianRoundTrip(address, 20);
    assert PackValue(address, bitmap)[..20] == ToBE(address, 20);
    assert PackValue(address, bitmap)[20..] == bitmap;
  }
}
