/** Stem nodes, tables of stem nodes, and the ledger such a table stands for.

    The overlay of dirty nodes lies over the database rows node by node, so
    the effective table is the map union `stems + dirty`. */
module StemRows {
  import opened Types
  import opened Sorting
  import opened Ledger

  /** `StemNode.values`: storing zero removes the subindex, so no value is zero. */
  type StemNode = map<Subindex, NonZero>
  type Rows = map<Stem, StemNode>

  function GetValue(node: StemNode, i: Subindex): Option<B256> {
    if i in node then Some(node[i]) else None
  }

  function SetValue(node: StemNode, i: Subindex, value: B256): StemNode {
    if value == 0 then node - {i} else node[i := value]
  }

  function NodeAt(rows: Rows, stem: Stem): StemNode {
    if stem in rows then rows[stem] else map[]
  }

  /* ---- The ledger a table stands for ---- */

  function KeysOf(rows: Rows): set<TreeKey> {
    set s, i | s in rows && i in rows[s] :: TreeKey(s, i)
  }

  function Flatten(rows: Rows): Ledger {
    map k | k in KeysOf(rows) :: rows[k.stem][k.subindex]
  }

  lemma FlattenAt(rows: Rows, key: TreeKey)
    ensures key in Flatten(rows) <==> key.subindex in NodeAt(rows, key.stem)
    ensures key in Flatten(rows) ==> Flatten(rows)[key] == NodeAt(rows, key.stem)[key.subindex]
  {
    assert key == TreeKey(key.stem, key.subindex);
  }

  /** The ledger determines every node: only absent and empty are confused. */
  lemma SameLedgerSameNodes(a: Rows, b: Rows, stem: Stem)
    requires Flatten(a) == Flatten(b)
    ensures NodeAt(a, stem) == NodeAt(b, stem)
  {
    forall i: Subindex
      ensures i in NodeAt(a, stem) <==> i in NodeAt(b, stem)
      ensures i in NodeAt(a, stem) ==> NodeAt(a, stem)[i] == NodeAt(b, stem)[i]
    {
      FlattenAt(a, TreeKey(stem, i));
      FlattenAt(b, TreeKey(stem, i));
    }
  }

  /* ---- Writing through the overlay ---- */

  /** Seed the overlay node from the effective table, then set one value in it. */
  function Touch(stems: Rows, dirty: Rows, key: TreeKey, value: B256): Rows {
    dirty[key.stem := SetValue(NodeAt(stems + dirty, key.stem), key.subindex, value)]
  }

  lemma NodeAtTouch(stems: Rows, dirty: Rows, key: TreeKey, value: B256, stem: Stem)
    ensures NodeAt(stems + Touch(stems, dirty, key, value), stem)
         == if stem == key.stem then SetValue(NodeAt(stems + dirty, stem), key.subindex, value)
            else NodeAt(stems + dirty, stem)
  {
  }

  lemma TouchKeys(stems: Rows, dirty: Rows, key: TreeKey, value: B256)
    ensures (stems + Touch(stems, dirty, key, value)).Keys == (stems + dirty).Keys + {key.stem}
  {
  }

  lemma SetValueAt(node: StemNode, i: Subindex, value: B256, j: Subindex)
    ensures j in SetValue(node, i, value) <==> if j == i then value != 0 else j in node
    ensures j in SetValue(node, i, value) ==> SetValue(node, i, value)[j] == (if j == i then value else node[j])
  {
  }

  function ValueAt(rows: Rows, key: TreeKey): B256 {
    GetOrZero(NodeAt(rows, key.stem), key.subindex)
  }

  function GetOrZero(node: StemNode, i: Subindex): B256 {
    if i in node then node[i] else 0
  }

  lemma TouchAt(stems: Rows, dirty: Rows, key: TreeKey, value: B256, k: TreeKey)
    ensures ValueAt(stems + Touch(stems, dirty, key, value), k)
         == if k == key then value else ValueAt(stems + dirty, k)
  {
    NodeAtTouch(stems, dirty, key, value, k.stem);
    SetValueAt(NodeAt(stems + dirty, k.stem), key.subindex, value, k.subindex);
  }

  lemma FlattenLookup(rows: Rows, key: TreeKey)
    ensures Lookup(Flatten(rows), key) == ValueAt(rows, key)
  {
    FlattenAt(rows, key);
  }

  lemma PutAt(m: Ledger, key: TreeKey, value: B256, k: TreeKey)
    ensures Lookup(Put(m, key, value), k) == if k == key then value else Lookup(m, k)
  {
  }

  lemma TouchRefines(stems: Rows, dirty: Rows, key: TreeKey, value: B256)
    ensures Flatten(stems + Touch(stems, dirty, key, value)) == Put(Flatten(stems + dirty), key, value)
  {
    var before, after := stems + dirty, stems + Touch(stems, dirty, key, value);
    var x, y := Flatten(after), Put(Flatten(before), key, value);
    forall k ensures Lookup(x, k) == Lookup(y, k) {
      FlattenLookup(before, k);
      FlattenLookup(after, k);
      TouchAt(stems, dirty, key, value, k);
      PutAt(Flatten(before), key, value, k);
    }
    LedgersEqual(x, y);
  }

  function OverlayPut(stems: Rows, dirty: Rows, entries: seq<Entry>): Rows
    decreases |entries|
  {
    if entries == [] then dirty
    else OverlayPut(stems, Touch(stems, dirty, entries[0].key, entries[0].value), entries[1..])
  }

  function OverlayUndo(stems: Rows, dirty: Rows, deltas: seq<Delta>): Rows
    decreases |deltas|
  {
    if deltas == [] then dirty
    else Touch(stems, OverlayUndo(stems, dirty, deltas[1..]), deltas[0].key, deltas[0].old_)
  }

  function StemsOf(entries: seq<Entry>): set<Stem> {
    set e | e in entries :: e.key.stem
  }

  function DeltaStems(deltas: seq<Delta>): set<Stem> {
    set d | d in deltas :: d.key.stem
  }

  lemma {:induction false} OverlayPutRefines(stems: Rows, dirty: Rows, entries: seq<Entry>)
    ensures Flatten(stems + OverlayPut(stems, dirty, entries)) == PutAll(Flatten(stems + dirty), entries)
    decreases |entries|
  {
    if entries != [] {
      var e := entries[0];
      TouchRefines(stems, dirty, e.key, e.value);
      OverlayPutRefines(stems, Touch(stems, dirty, e.key, e.value), entries[1..]);
    }
  }

  lemma {:induction false} OverlayPutKeys(stems: Rows, dirty: Rows, entries: seq<Entry>)
    ensures (stems + OverlayPut(stems, dirty, entries)).Keys == (stems + dirty).Keys + StemsOf(entries)
    decreases |entries|
  {
    if entries != [] {
      var e := entries[0];
      TouchKeys(stems, dirty, e.key, e.value);
      OverlayPutKeys(stems, Touch(stems, dirty, e.key, e.value), entries[1..]);
      assert entries == [e] + entries[1..];
      assert StemsOf(entries) == {e.key.stem} + StemsOf(entries[1..]);
    }
  }

  lemma {:induction false} OverlayUndoRefines(stems: Rows, dirty: Rows, deltas: seq<Delta>)
    ensures Flatten(stems + OverlayUndo(stems, dirty, deltas)) == Undo(Flatten(stems + dirty), deltas)
    decreases |deltas|
  {
    if deltas != [] {
      var d := deltas[0];
      OverlayUndoRefines(stems, dirty, deltas[1..]);
      TouchRefines(stems, OverlayUndo(stems, dirty, deltas[1..]), d.key, d.old_);
    }
  }

  lemma {:induction false} OverlayUndoKeys(stems: Rows, dirty: Rows, deltas: seq<Delta>)
    ensures (stems + OverlayUndo(stems, dirty, deltas)).Keys == (stems + dirty).Keys + DeltaStems(deltas)
    decreases |deltas|
  {
    if deltas != [] {
      var d := deltas[0];
      OverlayUndoKeys(stems, dirty, deltas[1..]);
      TouchKeys(stems, OverlayUndo(stems, dirty, deltas[1..]), d.key, d.old_);
      assert deltas == [d] + deltas[1..];
      assert DeltaStems(deltas) == {d.key.stem} + DeltaStems(deltas[1..]);
    }
  }

  /** The address recorded for each stem a block brings into the effective table. */
  function NewAddresses(known: set<Stem>, entries: seq<Entry>): seq<(Stem, Address)>
    decreases |entries|
  {
    if entries == [] then []
    else
      var e := entries[0];
      var rest := NewAddresses(known + {e.key.stem}, entries[1..]);
      if e.key.stem in known then rest else [(e.key.stem, e.address)] + rest
  }

  lemma {:induction false} NewAddressesCover(known: set<Stem>, entries: seq<Entry>)
    ensures forall p :: p in NewAddresses(known, entries)
              ==> exists e :: e in entries && p == (e.key.stem, e.address)
    ensures forall e :: e in entries && e.key.stem !in known
              ==> exists p :: p in NewAddresses(known, entries) && p.0 == e.key.stem
    decreases |entries|
  {
    if entries != [] {
      var e := entries[0];
      var rest := NewAddresses(known + {e.key.stem}, entries[1..]);
      NewAddressesCover(known + {e.key.stem}, entries[1..]);
      assert entries == [e] + entries[1..];
      forall p | p in NewAddresses(known, entries)
        ensures exists e :: e in entries && p == (e.key.stem, e.address)
      {
        if p in rest {
          var e' :| e' in entries[1..] && p == (e'.key.stem, e'.address);
          assert e' in entries;
        } else {
          assert e in entries;
        }
      }
      forall f | f in entries && f.key.stem !in known
        ensures exists p :: p in NewAddresses(known, entries) && p.0 == f.key.stem
      {
        if f.key.stem == e.key.stem {
          assert NewAddresses(known, entries)[0] in NewAddresses(known, entries);
        } else {
          assert f in entries[1..];
          var p :| p in rest && p.0 == f.key.stem;
          assert p in NewAddresses(known, entries);
        }
      }
    }
  }

  /* ---- The sorted entry list the root is computed from ---- */

  type Items = seq<(TreeKey, NonZero)>

  ghost predicate SortedItems(items: Items) {
    forall i, j :: 0 <= i < j < |items| ==> TreeIndex(items[i].0) < TreeIndex(items[j].0)
  }

  /** `items` lists the ledger: sorted by tree index, nothing missing, nothing extra. */
  ghost predicate Lists(items: Items, m: Ledger) {
    && SortedItems(items)
    && (forall i :: 0 <= i < |items| ==> items[i].0 in m && m[items[i].0] == items[i].1)
    && (forall k :: k in m ==> exists i :: 0 <= i < |items| && items[i].0 == k)
  }

  lemma TreeIndexInjective(a: TreeKey, b: TreeKey)
    requires TreeIndex(a) == TreeIndex(b)
    ensures a == b
  {
  }

  function KeyAt(index: B256): (key: TreeKey)
    ensures TreeIndex(key) == index
  {
    TreeKey(index / 256, index % 256)
  }

  function Indices(m: Ledger): set<int> {
    set k | k in m :: TreeIndex(k)
  }

  lemma IndexInLedger(m: Ledger, index: int)
    requires index in Indices(m)
    ensures 0 <= index < TWO_256 && KeyAt(index) in m
  {
    var k :| k in m && TreeIndex(k) == index;
    TreeIndexInjective(k, KeyAt(index));
  }

  function ItemAt(m: Ledger, index: int): (item: (TreeKey, NonZero))
    requires index in Indices(m)
    ensures item.0 in m && m[item.0] == item.1 && TreeIndex(item.0) == index
  {
    IndexInLedger(m, index);
    (KeyAt(index), m[KeyAt(index)])
  }

  function EntriesSorted(m: Ledger): (items: Items)
    ensures Lists(items, m)
  {
    var order := SortedSeq(Indices(m));
    assert forall i :: 0 <= i < |order| ==> order[i] in order;
    var items := seq(|order|, i requires 0 <= i < |order| => ItemAt(m, order[i]));
    ListsInOrder(m, order, items);
    items
  }

  lemma ListsInOrder(m: Ledger, order: seq<int>, items: Items)
    requires StrictlySorted(order) && |items| == |order|
    requires forall x :: x in order <==> x in Indices(m)
    requires forall i :: 0 <= i < |order| ==> items[i].0 in m && m[items[i].0] == items[i].1
    requires forall i :: 0 <= i < |order| ==> TreeIndex(items[i].0) == order[i]
    ensures Lists(items, m)
  {
    forall k | k in m ensures exists i :: 0 <= i < |items| && items[i].0 == k {
      assert TreeIndex(k) in Indices(m);
      var i :| 0 <= i < |order| && order[i] == TreeIndex(k);
      TreeIndexInjective(items[i].0, k);
    }
  }

  function IndicesOf(items: Items): (r: seq<int>)
    ensures |r| == |items|
    ensures forall i :: 0 <= i < |items| ==> r[i] == TreeIndex(items[i].0)
  {
    seq(|items|, i requires 0 <= i < |items| => TreeIndex(items[i].0) as int)
  }

  lemma ListedIndices(items: Items, m: Ledger, x: int)
    requires Lists(items, m)
    ensures x in IndicesOf(items) <==> x in Indices(m)
  {
    if x in IndicesOf(items) {
      var i :| 0 <= i < |items| && IndicesOf(items)[i] == x;
      assert items[i].0 in m;
    }
    if x in Indices(m) {
      var k :| k in m && TreeIndex(k) == x;
      var i :| 0 <= i < |items| && items[i].0 == k;
      assert IndicesOf(items)[i] == x;
    }
  }

  /** The listing of a ledger is unique, so the root depends on the ledger alone. */
  lemma ListingUnique(a: Items, b: Items, m: Ledger)
    requires Lists(a, m) && Lists(b, m)
    ensures a == b
  {
    var ia, ib := IndicesOf(a), IndicesOf(b);
    forall x ensures x in ia <==> x in ib {
      ListedIndices(a, m, x);
      ListedIndices(b, m, x);
    }
    SortedUnique(ia, ib);
    forall i | 0 <= i < |a| ensures a[i] == b[i] {
      assert ia[i] == ib[i];
      TreeIndexInjective(a[i].0, b[i].0);
    }
  }
}
