/** A commit extends the live chain by its block and keeps the invariant. */
module CommitKeeps {
  import opened Types
  import opened Ledger
  import opened StemRows
  import opened Tables
  import opened Index
  import opened NomtStore
  import opened Machine
  import opened LiveChain
  import opened Invariant

  /** What a commit asks of its caller: a higher number and one address per stem. */
  ghost predicate CommitAdmissible(s: State, b: Block) {
    b.number > s.lastBlock && Consistent(s.index, UpdatesOf(b.entries))
  }

  /* ---- The address checks pass ---- */

  lemma UpdateOfEntry(entries: seq<Entry>)
    ensures forall e :: e in entries ==> Update(e.key, e.address) in UpdatesOf(entries)
    ensures forall u :: u in UpdatesOf(entries) ==> exists e :: e in entries && u == Update(e.key, e.address)
  {
    var us := UpdatesOf(entries);
    forall e | e in entries ensures Update(e.key, e.address) in us {
      var i :| 0 <= i < |entries| && entries[i] == e;
      assert us[i] == Update(e.key, e.address);
    }
    forall u | u in us ensures exists e :: e in entries && u == Update(e.key, e.address) {
      var i :| 0 <= i < |us| && us[i] == u;
      assert entries[i] in entries;
    }
  }

  /** Addresses that agree with the key index agree with the address table. */
  lemma AddressCheckPasses(index: Index, addresses: Addresses, known: set<Stem>, entries: seq<Entry>)
    requires AddressesIndexed(index, addresses)
    requires Consistent(index, UpdatesOf(entries))
    ensures SaveAddresses(addresses, NewAddresses(known, entries)).Some?
  {
    hide UpdatesOf, NewAddresses, SaveAddresses;
    var mappings := NewAddresses(known, entries);
    NewAddressesCover(known, entries);
    UpdateOfEntry(entries);
    forall p | p in mappings && p.0 in addresses ensures addresses[p.0] == p.1 {
      var e :| e in entries && p == (e.key.stem, e.address);
      assert Update(e.key, e.address) in UpdatesOf(entries);
    }
    forall p, q | p in mappings && q in mappings && p.0 == q.0 ensures p.1 == q.1 {
      var e :| e in entries && p == (e.key.stem, e.address);
      var f :| f in entries && q == (f.key.stem, f.address);
      assert Update(e.key, e.address) in UpdatesOf(entries) && Update(f.key, f.address) in UpdatesOf(entries);
    }
    SaveAddressesSucceeds(addresses, mappings);
  }

  /* ---- Undo records ---- */

  /** Slots other than the new block's did not move, so old blocks keep their lists. */
  lemma OldBlocksRetained(deltas: DeltaTable, after: DeltaTable, live: seq<Block>, b: Block, i: nat)
    requires Increasing(live + [b]) && i < |live| && Retained(deltas, live, i)
    requires forall n :: n != b.number ==> Slot(after, n) == Slot(deltas, n)
    ensures Retained(after, live + [b], i)
  {
    hide LedgerOf, DeltasOf, Slot;
    var all := live + [b];
    assert all[i] == live[i] && all[|live|] == b;
    assert all[..i] == live[..i];
  }

  lemma SavedSlots(s: State, b: Block)
    ensures forall n :: n != b.number ==> Slot(SavedDeltas(s, b), n) == Slot(s.deltas, n)
    ensures DeltasOf(Logical(s), b.entries) != [] ==>
              Slot(SavedDeltas(s, b), b.number) == DeltasOf(Logical(s), b.entries)
    ensures forall n :: n in SavedDeltas(s, b) ==> n in s.deltas || n == b.number
  {
    hide DeltasOf, Logical;
  }

  lemma SavedUndoable(s: State, r: Reference, b: Block)
    requires Tips(s, r) && Contents(s, r) && Undoable(s.deltas, r) && CommitAdmissible(s, b)
    ensures Undoable(SavedDeltas(s, b), r.(live := r.live + [b]))
  {
    hide LedgerOf, DeltasOf, Retained, Flatten, SavedDeltas, Below, Consistent;
    var after, q := SavedDeltas(s, b), r.(live := r.live + [b]);
    SavedSlots(s, b);
    forall i | 0 <= i < |q.live| && q.pruned <= q.live[i].number ensures Retained(after, q.live, i) {
      if i < |r.live| {
        assert q.live[i] == r.live[i];
        OldBlocksRetained(s.deltas, after, r.live, b, i);
      } else {
        NewBlockRetained(s, r, b);
      }
    }
  }

  lemma NewBlockRetained(s: State, r: Reference, b: Block)
    requires Contents(s, r)
    ensures Retained(SavedDeltas(s, b), r.live + [b], |r.live|)
  {
    hide LedgerOf, DeltasOf, Flatten, SavedDeltas;
    SavedSlots(s, b);
    assert (r.live + [b])[..|r.live|] == r.live;
  }

  /* ---- Coverage ---- */

  lemma KeyStaysKnown(s: State, t: State, key: TreeKey)
    requires KeyKnown(s.index, s.addresses, key)
    requires Extends(s.index, t.index) && s.addresses.Keys <= t.addresses.Keys
    ensures KeyKnown(t.index, t.addresses, key) && t.index[key.stem].address == s.index[key.stem].address
  {
  }

  /** After the two tables grew, every entry of the block is known. */
  ghost predicate BlockKnown(t: State, b: Block) {
    forall e :: e in b.entries ==> KeyKnown(t.index, t.addresses, e.key) && t.index[e.key.stem].address == e.address
  }

  lemma DeltasStayKnown(s: State, t: State, b: Block)
    requires DeltasKnown(s.index, s.addresses, s.deltas)
    requires Extends(s.index, t.index) && s.addresses.Keys <= t.addresses.Keys && BlockKnown(t, b)
    requires t.deltas == SavedDeltas(s, b)
    ensures DeltasKnown(t.index, t.addresses, t.deltas)
  {
    hide DeltasOf, Logical, KeyKnown;
    var list := DeltasOf(Logical(s), b.entries);
    forall n, d | n in t.deltas && d in t.deltas[n] ensures KeyKnown(t.index, t.addresses, d.key) {
      if n == b.number && list != [] {
        var i :| 0 <= i < |list| && list[i] == d;
        DeltaKeysAreWritten(Logical(s), b.entries, i);
        var j :| 0 <= j < |b.entries| && b.entries[j].key == d.key;
        assert b.entries[j] in b.entries;
      } else {
        KeyStaysKnown(s, t, d.key);
      }
    }
  }

  lemma {:induction false} WritesKnown(before: Snapshot, entries: seq<Entry>, x: B256)
    requires x in WriteAll(before, EntryWrites(entries)) && x !in before
    ensures exists e :: e in entries && x == TreeIndex(e.key)
    decreases |entries|
  {
    if entries != [] {
      var writes := EntryWrites(entries);
      assert writes[1..] == EntryWrites(entries[1..]);
      var e := entries[0];
      if x == TreeIndex(e.key) {
        assert e in entries;
      } else {
        WritesKnown(before[writes[0].0 := writes[0].1], entries[1..], x);
        var f :| f in entries[1..] && x == TreeIndex(f.key);
        assert f in entries;
      }
    }
  }

  lemma NomtStaysKnown(s: State, t: State, b: Block)
    requires NomtKnown(s.index, s.nomt) && Extends(s.index, t.index) && BlockKnown(t, b)
    requires t.nomt == s.nomt + [WriteAll(Top(s.nomt), BlockWrites(b))]
    ensures NomtKnown(t.index, t.nomt)
  {
    hide WriteAll, EntryWrites, BlockWrites;
    BlockSnapshot(Top(s.nomt), b);
    forall j, x | 0 <= j < |t.nomt| && x in t.nomt[j] && x != HEAD_KEY ensures Covers(t.index, KeyAt(x)) {
      if j < |s.nomt| {
        assert x in s.nomt[j];
        assert Covers(s.index, KeyAt(x));
      } else if x in Top(s.nomt) {
        assert x in s.nomt[|s.nomt| - 1];
        assert Covers(s.index, KeyAt(x));
      } else {
        assert x in WriteAll(Top(s.nomt), EntryWrites(b.entries));
        WritesKnown(Top(s.nomt), b.entries, x);
        var e :| e in b.entries && x == TreeIndex(e.key);
        TreeIndexInjective(e.key, KeyAt(x));
      }
    }
  }

  /** The block's entries are known once both tables hold it. */
  lemma BlockBecomesKnown(s: State, t: State, b: Block)
    requires AddressesIndexed(s.index, s.addresses) && Effective(s).Keys <= s.addresses.Keys
    requires InsertAll(s.index, UpdatesOf(b.entries)) == Some(t.index)
    requires SaveAddresses(s.addresses, NewAddresses(Effective(s).Keys, b.entries)) == Some(t.addresses)
    ensures Extends(s.index, t.index) && s.addresses.Keys <= t.addresses.Keys
    ensures BlockKnown(t, b)
    ensures AddressesIndexed(t.index, t.addresses)
  {
    hide UpdatesOf, NewAddresses, SaveAddresses, InsertAll, Effective;
    var mappings := NewAddresses(Effective(s).Keys, b.entries);
    NewAddressesCover(Effective(s).Keys, b.entries);
    SaveAddressesGrows(s.addresses, mappings);
    InsertAllGrows(s.index, UpdatesOf(b.entries));
    UpdateOfEntry(b.entries);
    forall e | e in b.entries
      ensures KeyKnown(t.index, t.addresses, e.key) && t.index[e.key.stem].address == e.address
    {
      assert Update(e.key, e.address) in UpdatesOf(b.entries);
      if e.key.stem !in Effective(s).Keys {
        var p :| p in mappings && p.0 == e.key.stem;
      }
    }
    forall stem | stem in t.addresses
      ensures stem in t.index && t.index[stem].address == t.addresses[stem]
    {
      if stem !in s.addresses {
        var p :| p in mappings && p.0 == stem;
        var e :| e in b.entries && p == (e.key.stem, e.address);
        assert Update(e.key, e.address) in UpdatesOf(b.entries);
      }
    }
  }

  lemma LiveStaysKnown(s: State, t: State, live: seq<Block>, b: Block)
    requires LiveKnown(s.index, s.addresses, live)
    requires Extends(s.index, t.index) && s.addresses.Keys <= t.addresses.Keys && BlockKnown(t, b)
    ensures LiveKnown(t.index, t.addresses, live + [b])
  {
    var all := live + [b];
    forall i, e | 0 <= i < |all| && e in all[i].entries
      ensures KeyKnown(t.index, t.addresses, e.key) && t.index[e.key.stem].address == e.address
    {
      if i < |live| {
        assert e in live[i].entries;
        KeyStaysKnown(s, t, e.key);
      }
    }
  }

  lemma RecordedCovered(s: State, r: Reference, b: Block, t: State)
    requires Covered(s, r)
    requires InsertAll(s.index, UpdatesOf(b.entries)) == Some(t.index)
    requires SaveAddresses(s.addresses, NewAddresses(Effective(s).Keys, b.entries)) == Some(t.addresses)
    requires t.deltas == SavedDeltas(s, b) && t.nomt == Stage(s, b).nomt
    requires t.stems == s.stems && t.dirty == Stage(s, b).dirty
    ensures Covered(t, r.(live := r.live + [b]))
  {
    hide UpdatesOf, NewAddresses, SaveAddresses, InsertAll, SavedDeltas, OverlayPut, BlockWrites, WriteAll,
      LiveKnown, DeltasKnown, NomtKnown, AddressesIndexed;
    BlockBecomesKnown(s, t, b);
    LiveStaysKnown(s, t, r.live, b);
    DeltasStayKnown(s, t, b);
    NomtStaysKnown(s, t, b);
    OverlayPutKeys(s.stems, s.dirty, b.entries);
    forall stem | stem in StemsOf(b.entries) ensures stem in t.addresses {
      var e :| e in b.entries && e.key.stem == stem;
    }
  }

  /* ---- The commit step ---- */

  /** Both checks pass and the record step does what it says. */
  lemma RecordSucceeds(s: State, r: Reference, b: Block)
    requires Covered(s, r) && Consistent(s.index, UpdatesOf(b.entries))
    ensures var (t, result) := RecordStep(s, b);
            && result == Ok(())
            && InsertAll(s.index, UpdatesOf(b.entries)) == Some(t.index)
            && SaveAddresses(s.addresses, NewAddresses(Effective(s).Keys, b.entries)) == Some(t.addresses)
            && t == s.(index := t.index, addresses := t.addresses, stemCount := t.stemCount,
                       nomt := Stage(s, b).nomt, dirty := OverlayPut(s.stems, s.dirty, b.entries),
                       deltas := SavedDeltas(s, b), lastBlock := b.number, lastHash := b.hash)
  {
    hide UpdatesOf, NewAddresses, SaveAddresses, InsertAll, SavedDeltas, OverlayPut, BlockWrites, WriteAll, Effective,
      LiveKnown, DeltasKnown, NomtKnown, Consistent;
    AddressCheckPasses(s.index, s.addresses, Effective(s).Keys, b.entries);
    InsertAllSucceeds(s.index, UpdatesOf(b.entries));
    InsertAllNeverShrinks(s.index, UpdatesOf(b.entries));
  }

  lemma RecordKeepsContents(cfg: Config, s: State, r: Reference, b: Block, t: State)
    requires Inv(cfg, s, r) && b.number > s.lastBlock
    requires t == s.(index := t.index, addresses := t.addresses, stemCount := t.stemCount, nomt := t.nomt,
                     dirty := OverlayPut(s.stems, s.dirty, b.entries), deltas := t.deltas,
                     lastBlock := b.number, lastHash := b.hash)
    ensures var q := r.(live := r.live + [b]); Tips(t, q) && Contents(t, q) && HeadMatches(cfg, t)
    ensures Logical(t) == PutAll(Logical(s), b.entries)
  {
    hide OverlayPut, Undoable, Covered, Flatten, LedgerOf, Below, PutAll, EntriesSorted;
    OverlayPutRefines(s.stems, s.dirty, b.entries);
    LedgerAppend(r.live, b);
    BelowAppend(r.live, b, s.persistedBlock + 1);
  }

  lemma RecordKeeps(cfg: Config, s: State, r: Reference, b: Block)
    requires Inv(cfg, s, r) && CommitAdmissible(s, b)
    ensures RecordStep(s, b).1 == Ok(())
    ensures Consistency(cfg, RecordStep(s, b).0, r.(live := r.live + [b]))
    ensures Logical(RecordStep(s, b).0) == PutAll(Logical(s), b.entries)
  {
    hide UpdatesOf, NewAddresses, SaveAddresses, InsertAll, SavedDeltas, OverlayPut, BlockWrites, WriteAll, RecordStep,
      Tips, Contents, HeadMatches, Undoable, Covered, Logical, Effective, PutAll, Consistent;
    var t := RecordStep(s, b).0;
    RecordSucceeds(s, r, b);
    RecordKeepsContents(cfg, s, r, b, t);
    SavedUndoable(s, r, b);
    RecordedCovered(s, r, b, t);
  }

  /** The reference after a commit: one more live block, and a higher pruning bound after a flush. */
  function CommitReference(cfg: Config, s: State, r: Reference, b: Block): Reference {
    var r1 := r.(live := r.live + [b]);
    if ShouldFlush(cfg, s, b.number) && b.number > cfg.deltaRetention && b.number - cfg.deltaRetention > r.pruned
    then r1.(pruned := b.number - cfg.deltaRetention)
    else r1
  }

  lemma CommitKeepsInvariant(cfg: Config, s: State, r: Reference, b: Block)
    requires Inv(cfg, s, r) && CommitAdmissible(s, b)
    ensures CommitStep(cfg, s, b).1.Ok?
    ensures Inv(cfg, CommitStep(cfg, s, b).0, CommitReference(cfg, s, r, b))
    ensures Logical(CommitStep(cfg, s, b).0) == PutAll(Logical(s), b.entries)
  {
    hide Consistency, PutAll, Logical, CommitAdmissible, FlushAll, SaveIndexHead, Prune;
    RecordKeeps(cfg, s, r, b);
    var t, r1 := RecordStep(s, b).0, r.(live := r.live + [b]);
    RecordedPlace(cfg, s, r, b);
    if ShouldFlush(cfg, s, b.number) {
      FlushKeepsConsistency(cfg, t, r1);
      var f := FlushAll(cfg, t);
      SaveIndexHeadKeeps(cfg, f, r1);
      FlushedPlace(cfg, t);
      PruneKeeps(cfg, SaveIndexHead(cfg, f), r1);
    }
  }

  lemma RecordedPlace(cfg: Config, s: State, r: Reference, b: Block)
    requires Inv(cfg, s, r) && CommitAdmissible(s, b) && RecordStep(s, b).1 == Ok(())
    ensures RecordStep(s, b).0.lastBlock == b.number > s.lastBlock
    ensures RecordStep(s, b).0.persistedBlock == s.persistedBlock
    ensures RecordStep(s, b).0.lastRoot == s.lastRoot
  {
  }

  lemma FlushedPlace(cfg: Config, t: State)
    ensures var h := SaveIndexHead(cfg, FlushAll(cfg, t));
            && h.lastBlock == t.lastBlock == h.persistedBlock
            && Logical(Prune(cfg, h)) == Logical(h) == Logical(FlushAll(cfg, t))
  {
    hide Flatten, RootOfRows, PrunedBefore;
    assert Effective(Prune(cfg, SaveIndexHead(cfg, FlushAll(cfg, t)))) == Effective(FlushAll(cfg, t));
  }
}
