/** The MDBX database: four tables, one transaction per method.

    A write transaction stages its changes in local copies and publishes them
    when it commits; an early error return publishes nothing. A cursor visits
    the keys of a table in increasing order. */
module Persistence {
  import opened Types
  import opened Sorting
  import opened Ledger
  import opened StemRows
  import opened Tables

  class UbtDatabase {
    var stems: Rows
    var addresses: Addresses
    var deltas: DeltaTable
    var head: Option<Head>

    constructor ()
      ensures stems == map[] && addresses == map[] && deltas == map[] && head == None
    {
      stems, addresses, deltas, head := map[], map[], map[], None;
    }

    method LoadHead() returns (r: Option<Head>)
      ensures r == head
    {
      r := head;
    }

    method SaveHead(h: Head)
      modifies this`head
      ensures head == Some(h)
    {
      head := Some(h);
    }

    method LoadStem(stem: Stem) returns (r: Option<StemNode>)
      ensures r == if stem in stems then Some(stems[stem]) else None
    {
      r := if stem in stems then Some(stems[stem]) else None;
    }

    method LoadValue(key: TreeKey) returns (r: Option<B256>)
      ensures r == GetValue(NodeAt(stems, key.stem), key.subindex)
    {
      var node := LoadStem(key.stem);
      r := if node.Some? then GetValue(node.value, key.subindex) else None;
    }

    method BatchUpdateStems(updates: Batch)
      modifies this`stems
      ensures stems == PutRows(old(stems), updates)
    {
      var staged := stems;
      for i := 0 to |updates|
        invariant staged == PutRows(old(stems), updates[..i])
      {
        staged := staged[updates[i].0 := updates[i].1];
        assert updates[..i + 1][..i] == updates[..i];
      }
      assert updates[..|updates|] == updates;
      stems := staged;
    }

    /** One node's values in `sort()` order. */
    static method NodeItems(stem: Stem, node: StemNode) returns (items: Items)
      ensures ListsNode(items, stem, node)
    {
      hide *;
      var subindices := SortedSubindices(node);
      items := [];
      for j := 0 to |subindices|
        invariant |items| == j
        invariant forall i :: 0 <= i < j ==> items[i].0 == TreeKey(stem, subindices[i])
        invariant forall i :: 0 <= i < j ==> subindices[i] in node && items[i].1 == node[subindices[i]]
      {
        assert subindices[j] in subindices;
        items := items + [(TreeKey(stem, subindices[j]), node[subindices[j]])];
      }
      NodeListed(items, stem, node);
    }

    /** The sorted list of every stored value, the input of the root computation. */
    method IterEntriesSorted() returns (entries: Items)
      ensures entries == EntriesSorted(Flatten(stems))
    {
      hide Flatten, ListsBelow, ListsNode, EntriesSorted;
      var cursor := SortedSeq(stems.Keys);
      entries := [];
      NothingListed(stems, cursor);
      for i := 0 to |cursor|
        invariant ListsBelow(entries, stems, if i < |cursor| then cursor[i] else TWO_248)
      {
        assert cursor[i] in cursor;
        var stem: Stem := cursor[i];
        var items := NodeItems(stem, stems[stem]);
        NodeAppended(entries, items, stems, cursor, i, stem);
        entries := entries + items;
      }
      ListedBelowAll(entries, stems);
    }

    /** All or nothing: an address that contradicts the table aborts the transaction. */
    method BatchSaveStemAddresses(mappings: seq<(Stem, Address)>) returns (r: Result<()>)
      modifies this`addresses
      ensures match SaveAddresses(old(addresses), mappings)
              case None => addresses == old(addresses) && r == Err(StemAddressMismatch)
              case Some(t) => addresses == t && r == Ok(())
    {
      var staged := addresses;
      for i := 0 to |mappings|
        invariant SaveAddresses(old(addresses), mappings) == SaveAddresses(staged, mappings[i..])
        invariant addresses == old(addresses)
      {
        var (stem, address) := mappings[i];
        assert mappings[i..][1..] == mappings[i + 1..];
        if stem in staged {
          if staged[stem] != address {
            return Err(StemAddressMismatch);
          }
        } else {
          staged := staged[stem := address];
        }
      }
      addresses := staged;
      return Ok(());
    }

    method LoadStemAddress(stem: Stem) returns (r: Option<Address>)
      ensures r == if stem in addresses then Some(addresses[stem]) else None
    {
      r := if stem in addresses then Some(addresses[stem]) else None;
    }

    method SaveBlockDeltas(n: u64, list: seq<Delta>)
      modifies this`deltas
      ensures deltas == old(deltas)[n := list]
    {
      deltas := deltas[n := list];
    }

    method LoadBlockDeltas(n: u64) returns (list: seq<Delta>)
      ensures list == Slot(deltas, n)
    {
      list := if n in deltas then deltas[n] else [];
    }

    /** Deleting a missing block succeeds. */
    method DeleteBlockDeltas(n: u64)
      modifies this`deltas
      ensures deltas == old(deltas) - {n}
    {
      deltas := deltas - {n};
    }

    /** Deletes exactly the lists of blocks below `n` and counts them. */
    method PruneDeltasBefore(n: u64) returns (count: nat)
      modifies this`deltas
      ensures deltas == PrunedBefore(old(deltas), n)
      ensures count == |(set b | b in old(deltas) && b < n)|
    {
      var cursor := SortedSeq(deltas.Keys);
      var toDelete: seq<u64> := [];
      for i := 0 to |cursor|
        invariant forall b :: b in toDelete <==> b in cursor[..i] && b < n
        invariant forall b :: b in toDelete ==> b in deltas
        invariant forall p, q :: 0 <= p < q < |toDelete| ==> toDelete[p] != toDelete[q]
      {
        assert cursor[i] in cursor;
        assert cursor[..i + 1] == cursor[..i] + [cursor[i]];
        if cursor[i] < n {
          assert cursor[i] !in cursor[..i];
          toDelete := toDelete + [cursor[i]];
        }
      }
      assert cursor[..|cursor|] == cursor;
      assert forall b :: b in toDelete <==> b in deltas && b < n;
      count := |toDelete|;
      DistinctCount(toDelete, set b | b in deltas && b < n);
      DeleteListed(toDelete, n);
    }

    /** Deletion loop of `prune_deltas_before`. */
    method DeleteListed(toDelete: seq<u64>, ghost n: u64)
      requires forall b :: b in toDelete <==> b in deltas && b < n
      modifies this`deltas
      ensures deltas == PrunedBefore(old(deltas), n)
    {
      var staged := deltas;
      for j := 0 to |toDelete|
        invariant forall b :: b in staged <==> b in deltas && b !in toDelete[..j]
        invariant forall b :: b in staged ==> staged[b] == deltas[b]
      {
        assert toDelete[..j + 1] == toDelete[..j] + [toDelete[j]];
        staged := staged - {toDelete[j]};
      }
      assert toDelete[..|toDelete|] == toDelete;
      deltas := staged;
    }
  }
}
