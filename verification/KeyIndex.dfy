/** The key index file: packed stem records and a packed head, updated in place. */
module KeyIndexFile {
  import opened Types
  import opened Sorting
  import opened Bytes
  import opened Bitmaps
  import opened Index

  type PackedHead = p: seq<Byte> | |p| == 80 witness seq(80, _ => 0 as Byte)

  function PackHead(number: u64, hash: B256, root: B256, stemCount: u64): PackedHead {
    ToLE(number, 8) + ToBE(hash, 32) + ToBE(root, 32) + ToLE(stemCount, 8)
  }

  /** `pack_head`. */
  method HeadToBytes(number: u64, hash: B256, root: B256, stemCount: u64) returns (value: array<Byte>)
    ensures fresh(value) && value[..] == PackHead(number, hash, root, stemCount)
  {
    hide ToLE, ToBE;
    value := new Byte[80];
    CopyInto(value, 0, ToLE(number, 8));
    CopyInto(value, 8, ToBE(hash, 32));
    CopyInto(value, 40, ToBE(root, 32));
    CopyInto(value, 72, ToLE(stemCount, 8));
    assert value[..] == value[..80];
  }

  function UnpackHead(p: PackedHead): Head {
    Widths();
    Head(FromLE(p[..8]), FromBE(p[8..40]), FromBE(p[40..72]), FromLE(p[72..80]))
  }

  lemma CutFour<T>(a: seq<T>, b: seq<T>, c: seq<T>, d: seq<T>)
    ensures var p := a + b + c + d;
            && p[..|a|] == a
            && p[|a|..|a| + |b|] == b
            && p[|a| + |b|..|a| + |b| + |c|] == c
            && p[|a| + |b| + |c|..|a| + |b| + |c| + |d|] == d
  {
  }

  lemma HeadRoundTrip(number: u64, hash: B256, root: B256, stemCount: u64)
    ensures UnpackHead(PackHead(number, hash, root, stemCount)) == Head(number, hash, root, stemCount)
  {
    Widths();
    CutFour(ToLE(number, 8), ToBE(hash, 32), ToBE(root, 32), ToLE(stemCount, 8));
    LittleEndianRoundTrip(number, 8);
    BigEndianRoundTrip(hash, 32);
    BigEndianRoundTrip(root, 32);
    LittleEndianRoundTrip(stemCount, 8);
  }

  function Decode(packed: Packed): StemRecord {
    StemRecord(SplitValue(packed).0, Bits(SplitValue(packed).1))
  }

  lemma DecodePacked(address: Address, bitmap: Bitmap)
    ensures Decode(PackValue(address, bitmap)) == StemRecord(address, Bits(bitmap))
  {
    SplitPacked(address, bitmap);
  }

  function Decoded(table: map<Stem, Packed>): Index {
    map s | s in table :: Decode(table[s])
  }

  /** The per-stem groups of a batch, as the HashMap holds them. */
  function Grouped(groups: map<Stem, (Address, Bitmap)>): Index {
    map s | s in groups :: StemRecord(groups[s].0, Bits(groups[s].1))
  }

  /** The groups outside `rest` have been merged into `t`, giving `now`. */
  ghost predicate MergedSoFar(t: Index, group: Index, rest: set<Stem>, now: Index) {
    && (forall s :: s in now <==> s in t || (s in group && s !in rest))
    && (forall s :: s in group && s !in rest && s in t ==> t[s].address == group[s].address)
    && (forall s :: s in now ==> now[s] == if s in group && s !in rest then MergeRecord(t, group, s) else t[s])
  }

  lemma ExistingRecord(t: Index, group: Index, rest: set<Stem>, now: Index, stem: Stem)
    requires MergedSoFar(t, group, rest, now) && stem in rest
    ensures stem in now <==> stem in t
    ensures stem in t ==> now[stem] == t[stem]
  {
  }

  lemma DecodedInsert(table: map<Stem, Packed>, stem: Stem, packed: Packed)
    ensures Decoded(table[stem := packed]) == Decoded(table)[stem := Decode(packed)]
  {
  }

  lemma MergeStep(t: Index, group: Index, rest: set<Stem>, now: Index, stem: Stem)
    requires MergedSoFar(t, group, rest, now) && stem in rest && stem in group
    requires stem in t ==> t[stem].address == group[stem].address
    ensures var record := if stem in t then StemRecord(group[stem].address, group[stem].bits + t[stem].bits)
                          else group[stem];
            MergedSoFar(t, group, rest - {stem}, now[stem := record])
  {
  }

  lemma SizeAfterInsert<K, V>(m: map<K, V>, k: K, v: V)
    ensures |m[k := v]| == |m| + (if k in m then 0 else 1)
  {
    var after := m[k := v];
    assert |after| == |after.Keys| && |m| == |m.Keys|;
    if k in m {
      assert after.Keys == m.Keys;
    } else {
      assert after.Keys == m.Keys + {k};
    }
  }

  lemma MergeComplete(t: Index, group: Index, now: Index)
    requires MergedSoFar(t, group, {}, now)
    ensures Compatible(t, group) && now == Merge(t, group)
  {
  }

  lemma MergeNothing(t: Index)
    ensures Compatible(t, map[]) && Merge(t, map[]) == t
  {
  }

  lemma NothingMerged(t: Index, group: Index)
    ensures MergedSoFar(t, group, group.Keys, t)
  {
  }

  lemma MismatchIncompatible(t: Index, group: Index, stem: Stem)
    requires stem in t && stem in group && t[stem].address != group[stem].address
    ensures !Compatible(t, group)
  {
  }

  lemma DecodedAt(table: map<Stem, Packed>)
    ensures Decoded(table).Keys == table.Keys
    ensures forall s :: s in table ==> Decoded(table)[s] == Decode(table[s])
  {
  }

  lemma GroupedAt(groups: map<Stem, (Address, Bitmap)>)
    ensures Grouped(groups).Keys == groups.Keys
    ensures forall s :: s in groups ==> Grouped(groups)[s] == StemRecord(groups[s].0, Bits(groups[s].1))
  {
  }

  class KeyIndex {
    var table: map<Stem, Packed>
    var head: Option<PackedHead>

    ghost function Contents(): Index
      reads this
    {
      Decoded(table)
    }

    ghost function SavedHead(): Option<Head>
      reads this
    {
      match head
      case None => None
      case Some(p) => Some(UnpackHead(p))
    }

    constructor ()
      ensures Contents() == map[] && SavedHead() == None
    {
      table := map[];
      head := None;
    }

    /** Set a bit of a bitmap held by the HashMap. */
    static method Marked(bitmap: Bitmap, i: Subindex) returns (r: Bitmap)
      ensures r == WithBit(bitmap, i)
    {
      var bytes := new Byte[32](k requires 0 <= k < 32 => bitmap[k]);
      assert bytes[..] == bitmap;
      SetBit(bytes, i);
      r := bytes[..];
    }

    /** First loop of `apply_updates`: collect one bitmap per stem. */
    static method GroupByStem(updates: seq<Update>) returns (r: Result<map<Stem, (Address, Bitmap)>>)
      ensures match InsertAll(map[], updates)
              case None => r == Err(KeyIndexAddressMismatch)
              case Some(group) => r.Ok? && Grouped(r.value) == group
    {
      var perStem: map<Stem, (Address, Bitmap)> := map[];
      for i := 0 to |updates|
        invariant InsertAll(map[], updates[..i]) == Some(Grouped(perStem))
      {
        var u := updates[i];
        var stem := u.key.stem;
        assert updates[..i + 1][..i] == updates[..i];
        if stem in perStem && perStem[stem].0 != u.address {
          assert InsertAll(map[], updates[..i + 1]) == None;
          FailureSticks(map[], updates, i + 1);
          return Err(KeyIndexAddressMismatch);
        }
        var bitmap := if stem in perStem then perStem[stem].1 else EMPTY;
        var marked := Marked(bitmap, u.key.subindex);
        EmptyHasNoBits();
        WithBitAdds(bitmap, u.key.subindex);
        ghost var before := Grouped(perStem);
        assert {} + {u.key.subindex} == {u.key.subindex};
        perStem := perStem[stem := (u.address, marked)];
        assert Grouped(perStem) == InsertOne(before, u).value;
      }
      assert updates[..|updates|] == updates;
      return Ok(perStem);
    }

    /** Byte loop of `apply_updates`. */
    static method OrBitmaps(a: Bitmap, b: Bitmap) returns (c: Bitmap)
      ensures Bits(c) == Bits(a) + Bits(b)
    {
      c := a;
      for i := 0 to 32
        invariant forall k :: 0 <= k < i ==> c[k] == a[k] | b[k]
        invariant forall k :: i <= k < 32 ==> c[k] == a[k]
      {
        c := c[i := c[i] | b[i]];
      }
      OrUnites(a, b, c);
    }

    /** One stem's turn in the second loop: merge its group into the staged table. */
    static method MergeStem(staged: map<Stem, Packed>, stem: Stem, address: Address, bitmap: Bitmap)
      returns (r: Result<(map<Stem, Packed>, bool)>)
      ensures var now := Decoded(staged);
              if stem !in now then
                r.Ok? && r.value.1 && Decoded(r.value.0) == now[stem := StemRecord(address, Bits(bitmap))]
              else if now[stem].address != address then
                r == Err(KeyIndexAddressMismatch)
              else
                r.Ok? && !r.value.1
                && Decoded(r.value.0) == now[stem := StemRecord(address, Bits(bitmap) + now[stem].bits)]
    {
      hide Bits, SplitValue, PackValue, Decoded;
      DecodedAt(staged);
      var merged := bitmap;
      if stem in staged {
        var (existingAddress, existingBitmap) := SplitValue(staged[stem]);
        if existingAddress != address {
          return Err(KeyIndexAddressMismatch);
        }
        merged := OrBitmaps(bitmap, existingBitmap);
      }
      DecodePacked(address, merged);
      DecodedInsert(staged, stem, PackValue(address, merged));
      var value := ValueToBytes(address, merged);
      return Ok((staged[stem := value[..]], stem !in staged));
    }

    /** Second loop of `apply_updates`, over the HashMap in no particular order. */
    static method MergeGroups(table: map<Stem, Packed>, perStem: map<Stem, (Address, Bitmap)>)
      returns (r: Result<(map<Stem, Packed>, nat)>)
      ensures !Compatible(Decoded(table), Grouped(perStem)) ==> r == Err(KeyIndexAddressMismatch)
      ensures Compatible(Decoded(table), Grouped(perStem)) ==>
                && r.Ok?
                && Decoded(r.value.0) == Merge(Decoded(table), Grouped(perStem))
                && |Decoded(r.value.0)| == |Decoded(table)| + r.value.1
    {
      hide *;
      ghost var t, group := Decoded(table), Grouped(perStem);
      GroupedAt(perStem);
      NothingMerged(t, group);
      var staged: map<Stem, Packed> := table;
      var newStems: nat := 0;
      var rest := perStem.Keys;
      while rest != {}
        invariant rest <= group.Keys
        invariant MergedSoFar(t, group, rest, Decoded(staged))
        invariant |Decoded(staged)| == |t| + newStems
        decreases |rest|
      {
        ghost var _ := Inhabited(rest);
        var stem: Stem :| stem in rest;
        ghost var now := Decoded(staged);
        ExistingRecord(t, group, rest, now, stem);
        var merged := MergeStem(staged, stem, perStem[stem].0, perStem[stem].1);
        if merged.Err? {
          MismatchIncompatible(t, group, stem);
          return Err(merged.error);
        }
        if merged.value.1 {
          newStems := newStems + 1;
        }
        MergeStep(t, group, rest, now, stem);
        SizeAfterInsert(now, stem, Decoded(merged.value.0)[stem]);
        staged, rest := merged.value.0, rest - {stem};
      }
      MergeComplete(t, group, Decoded(staged));
      return Ok((staged, newStems));
    }

    /** All or nothing: the table after inserting every update, and how many stems are new. */
    method ApplyUpdates(updates: seq<Update>) returns (r: Result<nat>)
      modifies this`table
      ensures match InsertAll(old(Contents()), updates)
              case None => table == old(table) && r == Err(KeyIndexAddressMismatch)
              case Some(t) => Contents() == t && |t| >= |old(Contents())|
                              && r == Ok(|t| - |old(Contents())|)
    {
      hide Bits, SplitValue, Merge, Compatible, InsertAll, Decode;
      GroupedMergeRefines(Contents(), updates);
      var grouped := GroupByStem(updates);
      if grouped.Err? {
        return Err(grouped.error);
      }
      if grouped.value == map[] {
        MergeNothing(Contents());
        GroupedAt(grouped.value);
        assert Grouped(grouped.value) == map[];
        return Ok(0);
      }
      var merged := MergeGroups(table, grouped.value);
      if merged.Err? {
        return Err(merged.error);
      }
      table := merged.value.0;
      return Ok(merged.value.1);
    }

    method SaveHead(number: u64, hash: B256, root: B256, stemCount: u64)
      modifies this`head
      ensures SavedHead() == Some(Head(number, hash, root, stemCount))
    {
      var value := HeadToBytes(number, hash, root, stemCount);
      head := Some(value[..]);
      HeadRoundTrip(number, hash, root, stemCount);
    }

    method LoadHead() returns (r: Option<Head>)
      ensures r == SavedHead()
    {
      if head == None {
        return None;
      }
      return Some(UnpackHead(head.value));
    }
  }
}
