/** What the batch operations of the database compute on its tables. */
module Tables {
  import opened Types
  import opened Sorting
  import opened Ledger
  import opened StemRows

  type Addresses = map<Stem, Address>
  type DeltaTable = map<u64, seq<Delta>>

  /** A missing block reads as an empty list. */
  function Slot(deltas: DeltaTable, n: u64): seq<Delta> {
    if n in deltas then deltas[n] else []
  }

  function PrunedBefore(deltas: DeltaTable, n: u64): DeltaTable {
    map b | b in deltas && n <= b :: deltas[b]
  }

  /** An address table keeps its first entry for a stem and rejects a different one. */
  function SaveAddresses(t: Addresses, mappings: seq<(Stem, Address)>): Option<Addresses>
    decreases |mappings|
  {
    if mappings == [] then Some(t)
    else
      var (stem, address) := mappings[0];
      if stem !in t then SaveAddresses(t[stem := address], mappings[1..])
      else if t[stem] != address then None
      else SaveAddresses(t, mappings[1..])
  }

  ghost predicate AddressesAgree(t: Addresses, mappings: seq<(Stem, Address)>) {
    && (forall p :: p in mappings && p.0 in t ==> t[p.0] == p.1)
    && (forall p, q :: p in mappings && q in mappings && p.0 == q.0 ==> p.1 == q.1)
  }

  function MappedStems(mappings: seq<(Stem, Address)>): set<Stem> {
    set p | p in mappings :: p.0
  }

  /** A batch is accepted exactly when it agrees with the table and with itself. */
  lemma {:induction false} SaveAddressesSucceeds(t: Addresses, mappings: seq<(Stem, Address)>)
    ensures SaveAddresses(t, mappings).Some? <==> AddressesAgree(t, mappings)
    decreases |mappings|
  {
    if mappings != [] {
      var p := mappings[0];
      var t1 := t[p.0 := p.1];
      AgreeStep(t, p, mappings[1..]);
      assert mappings == [p] + mappings[1..];
      if p.0 !in t || t[p.0] == p.1 {
        SaveAddressesSucceeds(t1, mappings[1..]);
        assert p.0 in t ==> t1 == t;
      }
    }
  }

  lemma AgreeStep(t: Addresses, p: (Stem, Address), rest: seq<(Stem, Address)>)
    ensures AddressesAgree(t, [p] + rest)
       <==> (p.0 in t ==> t[p.0] == p.1) && AddressesAgree(t[p.0 := p.1], rest)
  {
    var all, t1 := [p] + rest, t[p.0 := p.1];
    assert forall q :: q in all <==> q == p || q in rest;
    if (p.0 in t ==> t[p.0] == p.1) && AddressesAgree(t1, rest) {
      forall q | q in rest && q.0 == p.0 ensures q.1 == p.1 {
        assert q.0 in t1;
      }
      forall q | q in all && q.0 in t ensures t[q.0] == q.1 {
        if q in rest {
          assert q.0 in t1;
        }
      }
    }
    if AddressesAgree(t, all) {
      forall q | q in rest && q.0 in t1 ensures t1[q.0] == q.1 {
        assert q in all && p in all;
      }
    }
  }

  lemma {:induction false} SaveAddressesGrows(t: Addresses, mappings: seq<(Stem, Address)>)
    requires SaveAddresses(t, mappings).Some?
    ensures SaveAddresses(t, mappings).value.Keys == t.Keys + MappedStems(mappings)
    ensures forall s :: s in t ==> SaveAddresses(t, mappings).value[s] == t[s]
    ensures forall p :: p in mappings ==> SaveAddresses(t, mappings).value[p.0] == p.1
    decreases |mappings|
  {
    if mappings != [] {
      var p := mappings[0];
      var t1 := t[p.0 := p.1];
      if p.0 in t {
        assert t1 == t;
      }
      SaveAddressesGrows(t1, mappings[1..]);
      assert mappings == [p] + mappings[1..];
      assert MappedStems(mappings) == {p.0} + MappedStems(mappings[1..]);
    }
  }

  /* ---- Draining the overlay into a batch ---- */

  type Batch = seq<(Stem, StemNode)>

  function PutRows(rows: Rows, batch: Batch): Rows
    decreases |batch|
  {
    if batch == [] then rows
    else PutRows(rows, batch[..|batch| - 1])[batch[|batch| - 1].0 := batch[|batch| - 1].1]
  }

  /** `batch` holds each dirty node under its stem, in any order. */
  ghost predicate DrainOf(batch: Batch, dirty: Rows) {
    && (forall p :: p in batch ==> p.0 in dirty && dirty[p.0] == p.1)
    && (forall s :: s in dirty ==> (s, dirty[s]) in batch)
  }

  lemma {:induction false} PutRowsAt(rows: Rows, batch: Batch, dirty: Rows, s: Stem)
    requires forall p :: p in batch ==> p.0 in dirty && dirty[p.0] == p.1
    ensures s in PutRows(rows, batch) <==> s in rows || (s in dirty && (s, dirty[s]) in batch)
    ensures s in PutRows(rows, batch) ==>
              PutRows(rows, batch)[s] == if s in dirty && (s, dirty[s]) in batch then dirty[s] else rows[s]
    decreases |batch|
  {
    if batch != [] {
      var front, last := batch[..|batch| - 1], batch[|batch| - 1];
      assert batch == front + [last];
      assert forall p :: p in batch <==> p in front || p == last;
      PutRowsAt(rows, front, dirty, s);
    }
  }

  /** Whatever the drain order, the flushed rows are the overlay laid over the old rows. */
  lemma FlushIsOverlay(rows: Rows, batch: Batch, dirty: Rows)
    requires DrainOf(batch, dirty)
    ensures PutRows(rows, batch) == rows + dirty
  {
    var put, laid := PutRows(rows, batch), rows + dirty;
    forall s ensures s in put <==> s in laid {
      PutRowsAt(rows, batch, dirty, s);
    }
    forall s | s in put ensures put[s] == laid[s] {
      PutRowsAt(rows, batch, dirty, s);
    }
  }

  /* ---- Listing rows in cursor order ---- */

  /** `items` lists one node: sorted subindices, nothing missing, nothing extra. */
  ghost predicate ListsNode(items: Items, stem: Stem, node: StemNode) {
    && SortedItems(items)
    && (forall i :: 0 <= i < |items| ==>
          items[i].0.stem == stem && items[i].0.subindex in node && node[items[i].0.subindex] == items[i].1)
    && (forall j :: j in node ==> exists i :: 0 <= i < |items| && items[i].0.subindex == j)
  }

  function SortedSubindices(node: StemNode): (r: seq<Subindex>)
    ensures forall i, j :: 0 <= i < j < |r| ==> r[i] < r[j]
    ensures forall x :: x in r <==> x in node
  {
    var order := SortedSeq(node.Keys);
    assert forall i :: 0 <= i < |order| ==> order[i] in order;
    var r: seq<Subindex> := seq(|order|, i requires 0 <= i < |order| => order[i]);
    assert r == order;
    r
  }

  lemma NodeListed(items: Items, stem: Stem, node: StemNode)
    requires |items| == |SortedSubindices(node)|
    requires forall i :: 0 <= i < |items| ==> items[i].0 == TreeKey(stem, SortedSubindices(node)[i])
    requires forall i :: 0 <= i < |items| ==>
               SortedSubindices(node)[i] in node && items[i].1 == node[SortedSubindices(node)[i]]
    ensures ListsNode(items, stem, node)
  {
    var order := SortedSubindices(node);
    forall s | s in node ensures exists i :: 0 <= i < |items| && items[i].0.subindex == s {
      assert s in order;
      var i :| 0 <= i < |order| && order[i] == s;
      assert items[i].0.subindex == s;
    }
  }

  /** `items` lists the rows whose stems are below `bound`. */
  ghost predicate ListsBelow(items: Items, rows: Rows, bound: int) {
    && SortedItems(items)
    && (forall i :: 0 <= i < |items| ==>
          items[i].0.stem < bound && items[i].0 in Flatten(rows) && Flatten(rows)[items[i].0] == items[i].1)
    && (forall k :: k in Flatten(rows) && k.stem < bound ==> exists i :: 0 <= i < |items| && items[i].0 == k)
  }

  lemma AppendNode(items: Items, node: Items, rows: Rows, stem: Stem, bound: int)
    requires ListsBelow(items, rows, stem) && stem in rows && ListsNode(node, stem, rows[stem])
    requires stem < bound && forall s :: s in rows && stem < s ==> bound <= s
    ensures ListsBelow(items + node, rows, bound)
  {
    AppendSorted(items, node, stem);
    AppendStored(items, node, rows, stem, bound);
    AppendComplete(items, node, rows, stem, bound);
  }

  /** Entries of a higher stem follow in order. */
  lemma AppendSorted(items: Items, node: Items, stem: Stem)
    requires SortedItems(items) && SortedItems(node)
    requires forall i :: 0 <= i < |items| ==> items[i].0.stem < stem
    requires forall i :: 0 <= i < |node| ==> node[i].0.stem == stem
    ensures SortedItems(items + node)
  {
    var all := items + node;
    forall i, j | 0 <= i < j < |all| ensures TreeIndex(all[i].0) < TreeIndex(all[j].0) {
      if i < |items| <= j {
        assert all[i].0.stem < all[j].0.stem;
      }
    }
  }

  /** Everything listed is stored. */
  lemma AppendStored(items: Items, node: Items, rows: Rows, stem: Stem, bound: int)
    requires ListsBelow(items, rows, stem) && stem in rows && ListsNode(node, stem, rows[stem]) && stem < bound
    ensures var all := items + node;
            forall i :: 0 <= i < |all| ==>
              all[i].0.stem < bound && all[i].0 in Flatten(rows) && Flatten(rows)[all[i].0] == all[i].1
  {
    hide Flatten, SortedItems;
    var all := items + node;
    forall i | 0 <= i < |all|
      ensures all[i].0.stem < bound && all[i].0 in Flatten(rows) && Flatten(rows)[all[i].0] == all[i].1
    {
      if i < |items| {
        assert all[i] == items[i];
      } else {
        assert all[i] == node[i - |items|];
        FlattenAt(rows, all[i].0);
      }
    }
  }

  /** Everything stored below the bound is listed. */
  lemma AppendComplete(items: Items, node: Items, rows: Rows, stem: Stem, bound: int)
    requires ListsBelow(items, rows, stem) && stem in rows && ListsNode(node, stem, rows[stem])
    requires stem < bound && forall s :: s in rows && stem < s ==> bound <= s
    ensures var all := items + node;
            forall k :: k in Flatten(rows) && k.stem < bound ==> exists i :: 0 <= i < |all| && all[i].0 == k
  {
    hide Flatten, SortedItems;
    var all := items + node;
    forall k | k in Flatten(rows) && k.stem < bound ensures exists i :: 0 <= i < |all| && all[i].0 == k {
      FlattenAt(rows, k);
      if k.stem < stem {
        var i :| 0 <= i < |items| && items[i].0 == k;
        assert all[i].0 == k;
      } else {
        assert k.stem == stem;
        var i :| 0 <= i < |node| && node[i].0.subindex == k.subindex;
        assert all[|items| + i].0 == k;
      }
    }
  }

  lemma NothingListed(rows: Rows, cursor: seq<int>)
    requires StrictlySorted(cursor) && forall s :: s in cursor <==> s in rows
    ensures ListsBelow([], rows, if 0 < |cursor| then cursor[0] else TWO_248)
  {
    forall k | k in Flatten(rows) ensures k.stem in cursor {
      FlattenAt(rows, k);
    }
  }

  lemma NodeAppended(items: Items, node: Items, rows: Rows, cursor: seq<int>, i: nat, stem: Stem)
    requires StrictlySorted(cursor) && (forall s :: s in cursor <==> s in rows)
    requires i < |cursor| && cursor[i] == stem && stem in rows
    requires ListsBelow(items, rows, stem) && ListsNode(node, stem, rows[stem])
    ensures ListsBelow(items + node, rows, if i + 1 < |cursor| then cursor[i + 1] else TWO_248)
  {
    hide Flatten, ListsBelow, ListsNode;
    var bound := if i + 1 < |cursor| then cursor[i + 1] else TWO_248;
    assert bound in cursor || bound == TWO_248;
    AppendNode(items, node, rows, stem, bound);
  }

  lemma ListedBelowAll(items: Items, rows: Rows)
    requires ListsBelow(items, rows, TWO_248)
    ensures items == EntriesSorted(Flatten(rows))
  {
    ListingUnique(items, EntriesSorted(Flatten(rows)), Flatten(rows));
  }
}
