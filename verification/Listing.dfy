/** The content of an export: the sorted entry list of a table of values, its
    offset table, and the lookup that table is for. */
module Listing {
  import opened Types
  import opened Sorting
  import opened StemRows
  import opened Tables
  import opened StateFile

  type Values = map<TreeKey, B256>

  ghost predicate InOrder(ks: seq<TreeKey>) {
    forall i, j :: 0 <= i < j < |ks| ==> TreeIndex(ks[i]) < TreeIndex(ks[j])
  }

  function KeyIndices(ks: set<TreeKey>): set<int> {
    set k | k in ks :: TreeIndex(k)
  }

  lemma IndexedKey(ks: set<TreeKey>, x: int)
    requires x in KeyIndices(ks)
    ensures 0 <= x < TWO_256 && KeyAt(x) in ks
  {
    var k :| k in ks && TreeIndex(k) == x;
    TreeIndexInjective(k, KeyAt(x));
  }

  /** The keys in tree-index order. */
  function SortedKeys(ks: set<TreeKey>): (r: seq<TreeKey>)
    ensures InOrder(r)
    ensures forall k :: k in r <==> k in ks
  {
    var order := SortedSeq(KeyIndices(ks));
    assert forall i :: 0 <= i < |order| ==> order[i] in order;
    var r := seq(|order|, i requires 0 <= i < |order| => IndexedKey(ks, order[i]); KeyAt(order[i]));
    KeysInOrder(ks, order, r);
    r
  }

  lemma KeysInOrder(ks: set<TreeKey>, order: seq<int>, r: seq<TreeKey>)
    requires StrictlySorted(order) && forall x :: x in order <==> x in KeyIndices(ks)
    requires |r| == |order| && forall i :: 0 <= i < |r| ==> TreeIndex(r[i]) == order[i]
    ensures InOrder(r)
    ensures forall k :: k in r <==> k in ks
  {
    forall k ensures k in r <==> k in ks {
      if k in ks {
        assert TreeIndex(k) in KeyIndices(ks);
        var i :| 0 <= i < |order| && order[i] == TreeIndex(k);
        TreeIndexInjective(r[i], k);
      }
      if k in r {
        var i :| 0 <= i < |r| && r[i] == k;
        assert order[i] in order;
        IndexedKey(ks, order[i]);
        TreeIndexInjective(KeyAt(order[i]), k);
      }
    }
  }

  lemma OrderUnique(a: seq<TreeKey>, b: seq<TreeKey>)
    requires InOrder(a) && InOrder(b)
    requires forall k :: k in a <==> k in b
    ensures a == b
  {
    var ia := seq(|a|, i requires 0 <= i < |a| => TreeIndex(a[i]) as int);
    var ib := seq(|b|, i requires 0 <= i < |b| => TreeIndex(b[i]) as int);
    forall x ensures x in ia <==> x in ib {
      if x in ia {
        var i :| 0 <= i < |ia| && ia[i] == x;
        assert a[i] in b;
        var j :| 0 <= j < |b| && b[j] == a[i];
        assert ib[j] == x;
      }
      if x in ib {
        var j :| 0 <= j < |ib| && ib[j] == x;
        assert b[j] in a;
        var i :| 0 <= i < |a| && a[i] == b[j];
        assert ia[i] == x;
      }
    }
    SortedUnique(ia, ib);
    forall i | 0 <= i < |a| ensures a[i] == b[i] {
      assert ia[i] == ib[i];
      TreeIndexInjective(a[i], b[i]);
    }
  }

  /* ---- Entries ---- */

  ghost predicate Owned(values: Values, addresses: Addresses) {
    forall k :: k in values ==> k.stem in addresses
  }

  function EntriesAt(ks: seq<TreeKey>, values: Values, addresses: Addresses): (es: seq<StorageEntry>)
    requires forall k :: k in ks ==> k in values && k.stem in addresses
    ensures |es| == |ks|
    ensures forall i :: 0 <= i < |ks| ==>
              es[i] == StorageEntry(addresses[ks[i].stem], TreeIndex(ks[i]), values[ks[i]])
  {
    seq(|ks|, i requires 0 <= i < |ks| =>
      assert ks[i] in ks; StorageEntry(addresses[ks[i].stem], TreeIndex(ks[i]), values[ks[i]]))
  }

  /** The full entry list of a table: every key once, in order, with its owner. */
  function EntryList(values: Values, addresses: Addresses): seq<StorageEntry>
    requires Owned(values, addresses)
  {
    EntriesAt(SortedKeys(values.Keys), values, addresses)
  }

  /** The part of a table one account owns; all of it when no account is given. */
  function Selected(values: Values, addresses: Addresses, contract: Option<Address>): (r: Values)
    requires Owned(values, addresses)
    ensures Owned(r, addresses)
  {
    match contract
    case None => values
    case Some(c) => map k | k in values && addresses[k.stem] == c :: values[k]
  }

  ghost predicate SortedEntries(es: seq<StorageEntry>) {
    forall i, j :: 0 <= i < j < |es| ==> es[i].treeIndex < es[j].treeIndex
  }

  lemma EntryListSorted(values: Values, addresses: Addresses)
    requires Owned(values, addresses)
    ensures SortedEntries(EntryList(values, addresses))
  {
  }

  /* ---- The offset table ---- */

  function StemOf(e: StorageEntry): Stem {
    e.treeIndex / 256
  }

  /** A new row wherever the stem changes. */
  function OffsetTable(es: seq<StorageEntry>): seq<StemRow>
    decreases |es|
  {
    if es == [] then []
    else
      var front, last := es[..|es| - 1], es[|es| - 1];
      if front != [] && StemOf(front[|front| - 1]) == StemOf(last) then OffsetTable(front)
      else OffsetTable(front) + [StemRow(StemOf(last), |front|)]
  }

  /** Where the slice of row `r` ends. */
  function EndOf(rows: seq<StemRow>, es: seq<StorageEntry>, r: nat): nat
    requires r < |rows|
  {
    if r + 1 < |rows| then rows[r + 1].offset else |es|
  }

  /** Rows are strictly increasing in stem and offset, and cut the entries into
      non-empty slices, one per stem, that leave nothing out. */
  ghost predicate Partitions(rows: seq<StemRow>, es: seq<StorageEntry>) {
    && (rows == [] <==> es == [])
    && (rows != [] ==> rows[0].offset == 0)
    && (forall r, q :: 0 <= r < q < |rows| ==> rows[r].stem < rows[q].stem && rows[r].offset < rows[q].offset)
    && (forall r :: 0 <= r < |rows| ==> rows[r].offset < EndOf(rows, es, r) <= |es|)
    && (forall r, i :: 0 <= r < |rows| && rows[r].offset <= i < EndOf(rows, es, r) ==> StemOf(es[i]) == rows[r].stem)
  }

  lemma SameStemExtends(front: seq<StorageEntry>, rows: seq<StemRow>, last: StorageEntry)
    requires Partitions(rows, front) && front != [] && StemOf(front[|front| - 1]) == StemOf(last)
    ensures Partitions(rows, front + [last])
  {
    hide StemOf;
    var es, q := front + [last], |rows| - 1;
    assert EndOf(rows, front, q) == |front| && EndOf(rows, es, q) == |es|;
    assert forall r :: 0 <= r < q ==> EndOf(rows, es, r) == EndOf(rows, front, r);
    forall r, i | 0 <= r < |rows| && rows[r].offset <= i < EndOf(rows, es, r) ensures StemOf(es[i]) == rows[r].stem {
      if i < |front| {
        assert rows[r].offset <= i < EndOf(rows, front, r) && es[i] == front[i];
      } else {
        assert StemOf(front[|front| - 1]) == rows[q].stem;
      }
    }
  }

  /** Every row of a partition is below a stem above its last entry. */
  lemma RowsBelow(front: seq<StorageEntry>, rows: seq<StemRow>, stem: Stem)
    requires Partitions(rows, front) && (front != [] ==> StemOf(front[|front| - 1]) < stem)
    ensures forall r :: 0 <= r < |rows| ==> rows[r].stem < stem && rows[r].offset < |front|
  {
    hide StemOf;
    if rows != [] {
      var q := |rows| - 1;
      assert EndOf(rows, front, q) == |front|;
      assert StemOf(front[|front| - 1]) == rows[q].stem;
    }
  }

  lemma NewStemExtends(front: seq<StorageEntry>, rows: seq<StemRow>, last: StorageEntry)
    requires Partitions(rows, front) && (front != [] ==> StemOf(front[|front| - 1]) < StemOf(last))
    ensures Partitions(rows + [StemRow(StemOf(last), |front|)], front + [last])
  {
    hide StemOf;
    var es, more := front + [last], rows + [StemRow(StemOf(last), |front|)];
    RowsBelow(front, rows, StemOf(last));
    forall r, q | 0 <= r < q < |more| ensures more[r].stem < more[q].stem && more[r].offset < more[q].offset {
      assert more[r] == rows[r] && (q < |rows| ==> more[q] == rows[q]);
    }
    forall r | 0 <= r < |more| ensures more[r].offset < EndOf(more, es, r) <= |es| {
      NewStemEnds(front, rows, last, r);
    }
    forall r, i | 0 <= r < |more| && more[r].offset <= i < EndOf(more, es, r) ensures StemOf(es[i]) == more[r].stem {
      NewStemEnds(front, rows, last, r);
    }
  }

  /** The slices of the old rows stand; the new one holds the last entry. */
  lemma NewStemEnds(front: seq<StorageEntry>, rows: seq<StemRow>, last: StorageEntry, r: nat)
    requires Partitions(rows, front) && r <= |rows|
    ensures var es, more := front + [last], rows + [StemRow(StemOf(last), |front|)];
            && more[r].offset < EndOf(more, es, r) <= |es|
            && (forall i :: more[r].offset <= i < EndOf(more, es, r) ==> StemOf(es[i]) == more[r].stem)
  {
    hide StemOf;
    var es, more := front + [last], rows + [StemRow(StemOf(last), |front|)];
    if r < |rows| {
      assert EndOf(more, es, r) == EndOf(rows, front, r);
      forall i | more[r].offset <= i < EndOf(more, es, r) ensures StemOf(es[i]) == more[r].stem {
        assert es[i] == front[i];
      }
    }
  }

  lemma PartitionsExtend(front: seq<StorageEntry>, rows: seq<StemRow>, last: StorageEntry)
    requires Partitions(rows, front) && SortedEntries(front + [last])
    ensures if front != [] && StemOf(front[|front| - 1]) == StemOf(last)
            then Partitions(rows, front + [last])
            else Partitions(rows + [StemRow(StemOf(last), |front|)], front + [last])
  {
    hide Partitions;
    var es := front + [last];
    if front != [] {
      assert es[|front| - 1].treeIndex < es[|front|].treeIndex;
    }
    if front != [] && StemOf(front[|front| - 1]) == StemOf(last) {
      SameStemExtends(front, rows, last);
    } else {
      NewStemExtends(front, rows, last);
    }
  }

  lemma NothingToPartition()
    ensures Partitions(OffsetTable([]), [])
  {
  }

  /** The offset table of a sorted list partitions it by stem. */
  lemma {:induction false} OffsetTableCorrect(es: seq<StorageEntry>)
    requires SortedEntries(es)
    ensures Partitions(OffsetTable(es), es)
    decreases |es|
  {
    hide Partitions, StemOf;
    if es == [] {
      NothingToPartition();
    } else {
      var front, last := es[..|es| - 1], es[|es| - 1];
      OffsetTableCorrect(front);
      assert es == front + [last];
      PartitionsExtend(front, OffsetTable(front), last);
    }
  }

  /** Entries of one new stem add one row. */
  lemma {:induction false} OffsetTableAppend(es: seq<StorageEntry>, more: seq<StorageEntry>, stem: Stem)
    requires more != [] && forall i :: 0 <= i < |more| ==> StemOf(more[i]) == stem
    requires es != [] ==> StemOf(es[|es| - 1]) != stem
    ensures OffsetTable(es + more) == OffsetTable(es) + [StemRow(stem, |es|)]
    decreases |more|
  {
    var all := es + more;
    var front := more[..|more| - 1];
    assert all[..|all| - 1] == es + front;
    if front != [] {
      OffsetTableAppend(es, front, stem);
      assert (es + front)[|es + front| - 1] == front[|front| - 1];
    } else {
      assert es + front == es;
    }
  }

  /* ---- Lookup through the offset table ---- */

  /** Binary search for a stem's row. */
  method FindRow(rows: seq<StemRow>, stem: Stem) returns (r: Option<nat>)
    requires forall a, b :: 0 <= a < b < |rows| ==> rows[a].stem < rows[b].stem
    ensures r.Some? ==> r.value < |rows| && rows[r.value].stem == stem
    ensures r.None? ==> forall a :: 0 <= a < |rows| ==> rows[a].stem != stem
  {
    var lo, hi := 0, |rows|;
    while lo < hi
      invariant 0 <= lo <= hi <= |rows|
      invariant forall a :: 0 <= a < lo ==> rows[a].stem < stem
      invariant forall a :: hi <= a < |rows| ==> stem < rows[a].stem
    {
      var mid := (lo + hi) / 2;
      if rows[mid].stem < stem {
        lo := mid + 1;
      } else if stem < rows[mid].stem {
        hi := mid;
      } else {
        return Some(mid);
      }
    }
    return None;
  }

  /** Find a key by its stem's row and a scan of that row's slice, in any table that
      partitions the entries, such as `OffsetTable` (`OffsetTableCorrect`). */
  method FindValue(es: seq<StorageEntry>, rows: seq<StemRow>, key: TreeKey) returns (r: Option<B256>)
    requires SortedEntries(es) && Partitions(rows, es)
    ensures r.Some? <==> exists i :: 0 <= i < |es| && es[i].treeIndex == TreeIndex(key)
    ensures forall i :: 0 <= i < |es| && es[i].treeIndex == TreeIndex(key) ==> r == Some(es[i].value)
  {
    hide Partitions;
    RowsIncrease(rows, es);
    var row := FindRow(rows, key.stem);
    if row.None? {
      NoRowNoEntry(es, rows, key);
      return None;
    }
    var i := rows[row.value].offset;
    var end := if row.value + 1 < |rows| then rows[row.value + 1].offset else |es|;
    assert end == EndOf(rows, es, row.value);
    SliceHoldsStem(es, rows, row.value, key);
    while i < end
      invariant rows[row.value].offset <= i <= end
      invariant forall k :: rows[row.value].offset <= k < i ==> es[k].treeIndex != TreeIndex(key)
    {
      if es[i].treeIndex == TreeIndex(key) {
        return Some(es[i].value);
      }
      i := i + 1;
    }
    return None;
  }

  lemma RowsIncrease(rows: seq<StemRow>, es: seq<StorageEntry>)
    requires Partitions(rows, es)
    ensures forall a, b :: 0 <= a < b < |rows| ==> rows[a].stem < rows[b].stem
    ensures forall r :: 0 <= r < |rows| ==> rows[r].offset < EndOf(rows, es, r) <= |es|
  {
  }

  /** Every entry lies in the slice of some row. */
  lemma {:induction false} RowOf(es: seq<StorageEntry>, rows: seq<StemRow>, i: nat, q: nat) returns (r: nat)
    requires Partitions(rows, es) && i < |es| && q < |rows| && i < EndOf(rows, es, q)
    ensures r <= q && rows[r].offset <= i < EndOf(rows, es, r) && rows[r].stem == StemOf(es[i])
    decreases q
  {
    if rows[q].offset <= i {
      r := q;
    } else {
      r := RowOf(es, rows, i, q - 1);
    }
  }

  lemma NoRowNoEntry(es: seq<StorageEntry>, rows: seq<StemRow>, key: TreeKey)
    requires Partitions(rows, es)
    requires forall a :: 0 <= a < |rows| ==> rows[a].stem != key.stem
    ensures forall i :: 0 <= i < |es| ==> es[i].treeIndex != TreeIndex(key)
  {
    forall i | 0 <= i < |es| ensures es[i].treeIndex != TreeIndex(key) {
      var _ := RowOf(es, rows, i, |rows| - 1);
    }
  }

  lemma SliceHoldsStem(es: seq<StorageEntry>, rows: seq<StemRow>, row: nat, key: TreeKey)
    requires Partitions(rows, es) && row < |rows| && rows[row].stem == key.stem
    ensures forall i :: 0 <= i < |es| && es[i].treeIndex == TreeIndex(key) ==>
              rows[row].offset <= i < EndOf(rows, es, row)
  {
    forall i | 0 <= i < |es| && es[i].treeIndex == TreeIndex(key)
      ensures rows[row].offset <= i < EndOf(rows, es, row)
    {
      var r := RowOf(es, rows, i, |rows| - 1);
      assert rows[r].stem == key.stem;
    }
  }

  /* ---- Emitting stem by stem ---- */

  /** `ks` lists the keys of `all` whose stems are below `bound`. */
  ghost predicate EmittedBelow(ks: seq<TreeKey>, all: set<TreeKey>, bound: int) {
    && InOrder(ks)
    && (forall k :: k in ks <==> k in all && k.stem < bound)
  }

  function StemKeys(stem: Stem, subindices: seq<Subindex>): (ks: seq<TreeKey>)
    ensures |ks| == |subindices|
    ensures forall i :: 0 <= i < |ks| ==> ks[i] == TreeKey(stem, subindices[i])
  {
    seq(|subindices|, i requires 0 <= i < |subindices| => TreeKey(stem, subindices[i]))
  }

  lemma EmitStem(ks: seq<TreeKey>, all: set<TreeKey>, stem: Stem, subindices: seq<Subindex>, bound: int)
    requires EmittedBelow(ks, all, stem) && stem < bound
    requires forall i, j :: 0 <= i < j < |subindices| ==> subindices[i] < subindices[j]
    requires forall i :: i in subindices <==> TreeKey(stem, i) in all
    requires forall k :: k in all && stem < k.stem ==> bound <= k.stem
    ensures EmittedBelow(ks + StemKeys(stem, subindices), all, bound)
  {
    var more := StemKeys(stem, subindices);
    var both := ks + more;
    forall i, j | 0 <= i < j < |both| ensures TreeIndex(both[i]) < TreeIndex(both[j]) {
      if i < |ks| <= j {
        assert both[i] in ks;
      }
    }
    forall k ensures k in both <==> k in all && k.stem < bound {
      if k in both {
        if k in more {
          var i :| 0 <= i < |more| && more[i] == k;
          assert subindices[i] in subindices;
        }
      }
      if k in all && k.stem < bound && k.stem >= stem {
        assert k == TreeKey(stem, k.subindex);
        var i :| 0 <= i < |subindices| && subindices[i] == k.subindex;
        assert more[i] == k;
      }
    }
  }

  lemma EmittedAll(ks: seq<TreeKey>, all: set<TreeKey>)
    requires EmittedBelow(ks, all, TWO_248)
    ensures ks == SortedKeys(all)
  {
    OrderUnique(ks, SortedKeys(all));
  }

  lemma EntriesAtConcat(a: seq<TreeKey>, b: seq<TreeKey>, values: Values, addresses: Addresses)
    requires forall k :: k in a + b ==> k in values && k.stem in addresses
    ensures (forall k :: k in a ==> k in values && k.stem in addresses) && (forall k :: k in b ==> k in values && k.stem in addresses)
    ensures EntriesAt(a + b, values, addresses) == EntriesAt(a, values, addresses) + EntriesAt(b, values, addresses)
  {
    assert forall k :: k in a ==> k in a + b;
    assert forall k :: k in b ==> k in a + b;
  }

  lemma {:induction false} EntriesBytesConcat(a: seq<StorageEntry>, b: seq<StorageEntry>)
    ensures EntriesBytes(a + b) == EntriesBytes(a) + EntriesBytes(b)
    decreases |b|
  {
    hide EntryBytes;
    if b == [] {
      assert a + b == a;
    } else {
      var front, last := b[..|b| - 1], b[|b| - 1];
      EntriesBytesConcat(a, front);
      var all := a + b;
      assert all[..|all| - 1] == a + front && all[|all| - 1] == last;
      Associate(EntriesBytes(a), EntriesBytes(front), EntryBytes(last));
    }
  }

  lemma Associate<T>(a: seq<T>, b: seq<T>, c: seq<T>)
    ensures a + b + c == a + (b + c)
  {
  }
}
