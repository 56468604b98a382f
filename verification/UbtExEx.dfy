/** The ExEx object: its fields, its loops over the stores, and the proof that
    each method is the corresponding step of `Machine`. */
module UbtExExObject {
  import opened Types
  import opened Sorting
  import opened Ledger
  import opened StemRows
  import opened Tables
  import opened Index
  import opened KeyIndexFile
  import opened Persistence
  import opened NomtStore
  import opened Machine

  class UbtExEx {
    const db: UbtDatabase
    const nomt: Nomt
    const keyIndex: KeyIndex
    const flushInterval: u64
    const deltaRetention: u64
    const rootOf: Items -> B256
    var lastBlock: u64
    var lastHash: B256
    var lastRoot: B256
    var pendingEntries: seq<Entry>
    var dirtyStems: Rows
    var lastPersistedBlock: u64
    var lastPersistedHash: B256
    var stemCount: nat

    ghost function Cfg(): Config {
      Config(flushInterval, deltaRetention, rootOf)
    }

    ghost function State(): State
      reads this, db, nomt, keyIndex
    {
      Machine.State.State(db.stems, db.addresses, db.deltas, db.head,
                          keyIndex.Contents(), keyIndex.SavedHead(), nomt.stack,
                          dirtyStems, lastBlock, lastHash, lastRoot,
                          lastPersistedBlock, lastPersistedHash, stemCount)
    }

    /** What survives the process: the three stores, with the memory fields at their defaults. */
    static ghost function Stored(db: UbtDatabase, nomt: Nomt, keyIndex: KeyIndex): State
      reads db, nomt, keyIndex
    {
      FRESH.(stems := db.stems, addresses := db.addresses, deltas := db.deltas, head := db.head,
             index := keyIndex.Contents(), indexHead := keyIndex.SavedHead(), nomt := nomt.stack)
    }

    constructor Init(db: UbtDatabase, nomt: Nomt, keyIndex: KeyIndex,
                     flushInterval: u64, deltaRetention: u64, rootOf: Items -> B256,
                     head: Head, lastPersistedBlock: u64)
      ensures this.db == db && this.nomt == nomt && this.keyIndex == keyIndex
      ensures this.flushInterval == flushInterval && this.deltaRetention == deltaRetention && this.rootOf == rootOf
      ensures lastBlock == head.number && lastHash == head.hash && lastRoot == head.root
      ensures this.lastPersistedBlock == lastPersistedBlock && lastPersistedHash == head.hash
      ensures stemCount == head.stemCount && dirtyStems == map[] && pendingEntries == []
    {
      this.db, this.nomt, this.keyIndex := db, nomt, keyIndex;
      this.flushInterval, this.deltaRetention, this.rootOf := flushInterval, deltaRetention, rootOf;
      lastBlock, lastHash, lastRoot := head.number, head.hash, head.root;
      pendingEntries, dirtyStems := [], map[];
      this.lastPersistedBlock, lastPersistedHash, stemCount := lastPersistedBlock, head.hash, head.stemCount;
    }

    /** Resume from the stores: verify the root, then bring NOMT back to the MDBX head. */
    static method New(db: UbtDatabase, nomt: Nomt, keyIndex: KeyIndex,
                      flushInterval: u64, deltaRetention: u64, rootOf: Items -> B256) returns (r: Result<UbtExEx>)
      modifies nomt
      ensures match RestartStep(Config(flushInterval, deltaRetention, rootOf), old(Stored(db, nomt, keyIndex)))
              case Err(e) => r == Err(e) && nomt.stack == old(nomt.stack)
              case Ok(s) => r.Ok? && fresh(r.value) && r.value.State() == s && r.value.pendingEntries == []
                            && r.value.Cfg() == Config(flushInterval, deltaRetention, rootOf)
      ensures r.Ok? <==> db.head.None? || db.head.value.root == rootOf(EntriesSorted(Flatten(db.stems)))
      ensures r.Ok? ==> r.value.lastPersistedBlock <= r.value.lastBlock == if db.head.Some? then db.head.value.number else 0
    {
      hide Flatten, EntriesSorted, Decoded, UnpackHead, Lists, SyncedNomt, SyncedHead;
      var saved := db.LoadHead();
      var head := Head(0, 0, 0, 0);
      if saved.Some? {
        head := saved.value;
        var entries := db.IterEntriesSorted();
        var computed := rootOf(entries);
        if computed != head.root {
          return Err(RootVerificationFailed(head.root, computed));
        }
      }
      var lastPersisted := SyncNomt(nomt, head.number);
      var exex := new UbtExEx.Init(db, nomt, keyIndex, flushInterval, deltaRetention, rootOf, head, lastPersisted);
      assert exex.State() == ResumedAt(old(Stored(db, nomt, keyIndex)), head, nomt.stack, lastPersisted);
      return Ok(exex);
    }

    /** Roll NOMT back to the MDBX head, or fall back to the NOMT head when it is behind. */
    static method SyncNomt(nomt: Nomt, mdbxHead: u64) returns (effectiveHead: u64)
      modifies nomt
      ensures nomt.stack == SyncedNomt(old(nomt.stack), mdbxHead)
      ensures effectiveHead == SyncedHead(old(nomt.stack), mdbxHead)
      ensures effectiveHead <= mdbxHead
    {
      var stored := nomt.Read(HEAD_KEY);
      var nomtHead: u64 := if stored.Some? && stored.value.BlockNumber? then stored.value.number else 0;
      effectiveHead := mdbxHead;
      if nomtHead > mdbxHead {
        var _ := nomt.Rollback(nomtHead - mdbxHead);
      } else if nomtHead < mdbxHead {
        effectiveHead := nomtHead;
      }
    }

    /** `tree_index_from_key` for each entry, with the head record last. */
    static method NomtUpdates(b: Block) returns (updates: seq<(B256, NomtValue)>)
      ensures updates == BlockWrites(b)
    {
      updates := [];
      for i := 0 to |b.entries|
        invariant updates == EntryWrites(b.entries)[..i]
      {
        updates := updates + [(TreeIndex(b.entries[i].key), Word(b.entries[i].value))];
      }
      updates := updates + [(HEAD_KEY, BlockNumber(b.number))];
    }

    /** Seed the overlay node of `key` from MDBX on first touch. */
    method Seed(stem: Stem) returns (isNew: bool)
      modifies this`dirtyStems
      ensures isNew <==> stem !in db.stems + old(dirtyStems)
      ensures dirtyStems == old(dirtyStems)[stem := NodeAt(db.stems + old(dirtyStems), stem)]
    {
      isNew := false;
      if stem !in dirtyStems {
        var existing := db.LoadStem(stem);
        if existing.Some? {
          dirtyStems := dirtyStems[stem := existing.value];
        } else {
          dirtyStems := dirtyStems[stem := map[]];
          isNew := true;
        }
      } else {
        assert dirtyStems == dirtyStems[stem := dirtyStems[stem]];
      }
    }

    /** Write one value through the overlay, returning the value it replaces. */
    method Write(key: TreeKey, value: B256) returns (oldValue: B256, isNew: bool)
      modifies this`dirtyStems
      ensures dirtyStems == Touch(db.stems, old(dirtyStems), key, value)
      ensures oldValue == Lookup(Flatten(db.stems + old(dirtyStems)), key)
      ensures isNew <==> key.stem !in db.stems + old(dirtyStems)
    {
      hide Flatten;
      FlattenLookup(db.stems + dirtyStems, key);
      isNew := Seed(key.stem);
      var node := dirtyStems[key.stem];
      var stored := GetValue(node, key.subindex);
      oldValue := if stored.Some? then stored.value else 0;
      TouchIsSeedThenSet(db.stems, old(dirtyStems), key, value, dirtyStems);
      dirtyStems := dirtyStems[key.stem := SetValue(node, key.subindex, value)];
    }

    /** The entry loop of `commit`. */
    method ApplyEntries(entries: seq<Entry>)
      returns (deltas: seq<Delta>, newStemAddresses: seq<(Stem, Address)>)
      modifies this`dirtyStems
      ensures dirtyStems == OverlayPut(db.stems, old(dirtyStems), entries)
      ensures deltas == DeltasOf(Flatten(db.stems + old(dirtyStems)), entries)
      ensures newStemAddresses == NewAddresses((db.stems + old(dirtyStems)).Keys, entries)
    {
      hide *;
      ghost var stems, start := db.stems, dirtyStems;
      deltas, newStemAddresses := [], [];
      assert entries[0..] == entries;
      RemainingAll(stems, start, entries);
      for i := 0 to |entries|
        invariant db.stems == stems
        invariant Remaining(stems, start, entries, dirtyStems, deltas, newStemAddresses, entries[i..])
      {
        var e := entries[i];
        ghost var before := dirtyStems;
        assert entries[i..][0] == e && entries[i..][1..] == entries[i + 1..];
        RemainingStep(stems, start, entries, before, deltas, newStemAddresses, entries[i..]);
        var oldValue, isNew := Write(e.key, e.value);
        if isNew {
          newStemAddresses := newStemAddresses + [(e.key.stem, e.address)];
        }
        if oldValue != e.value {
          deltas := deltas + [Delta(e.key, oldValue)];
        }
      }
      RemainingNone(stems, start, entries, dirtyStems, deltas, newStemAddresses);
    }

    /** `dirty_stems.drain()`: the overlay's nodes in no particular order. */
    method DrainDirty() returns (batch: Batch)
      modifies this`dirtyStems
      ensures dirtyStems == map[] && DrainOf(batch, old(dirtyStems))
      ensures batch == [] <==> old(dirtyStems) == map[]
    {
      batch := [];
      var rest := dirtyStems.Keys;
      while rest != {}
        invariant rest <= dirtyStems.Keys && dirtyStems == old(dirtyStems)
        invariant forall p :: p in batch ==> p.0 in dirtyStems && dirtyStems[p.0] == p.1
        invariant forall s :: s in dirtyStems && s !in rest ==> (s, dirtyStems[s]) in batch
        decreases |rest|
      {
        ghost var _ := Inhabited(rest);
        var stem: Stem :| stem in rest;
        ghost var had := batch;
        batch := batch + [(stem, dirtyStems[stem])];
        assert batch[|had|] == (stem, dirtyStems[stem]);
        assert forall p :: p in had ==> p in batch;
        rest := rest - {stem};
      }
      if batch != [] {
        assert batch[0] in batch;
      }
      dirtyStems := map[];
    }

    /** Write the overlay out and return the streaming root of the result. */
    method FlushDirty() returns (root: B256)
      modifies this`dirtyStems, db`stems
      ensures State() == FlushRows(old(State()))
      ensures root == RootOfRows(Cfg(), db.stems)
    {
      var dirty := DrainDirty();
      FlushIsOverlay(db.stems, dirty, old(dirtyStems));
      if dirty != [] {
        db.BatchUpdateStems(dirty);
      } else {
        assert db.stems == db.stems + old(dirtyStems);
      }
      var entries := db.IterEntriesSorted();
      root := rootOf(entries);
    }

    /** Flush, save the MDBX head and make it the persisted head. */
    method FlushHead()
      modifies this, db
      ensures pendingEntries == old(pendingEntries)
      ensures State() == FlushAll(Cfg(), old(State()))
    {
      hide Flatten, EntriesSorted, Decoded, UnpackHead, Lists;
      var root := FlushDirty();
      db.SaveHead(Head(lastBlock, lastHash, root, stemCount));
      lastPersistedBlock := lastBlock;
      lastPersistedHash := lastHash;
      lastRoot := root;
    }

    static method Updates(entries: seq<Entry>) returns (updates: seq<Update>)
      ensures updates == UpdatesOf(entries)
    {
      updates := [];
      for i := 0 to |entries|
        invariant updates == UpdatesOf(entries)[..i]
      {
        updates := updates + [Update(entries[i].key, entries[i].address)];
      }
    }

    /** The NOMT session of `commit` and its entry loop. */
    method StageBlock(b: Block) returns (deltas: seq<Delta>, newStemAddresses: seq<(Stem, Address)>)
      modifies this`dirtyStems, nomt
      ensures State() == Stage(old(State()), b)
      ensures deltas == DeltasOf(Logical(old(State())), b.entries)
      ensures newStemAddresses == NewAddresses(Effective(old(State())).Keys, b.entries)
    {
      hide Decoded, UnpackHead, OverlayPut, DeltasOf, NewAddresses, WriteAll, BlockWrites, Flatten;
      var updates := NomtUpdates(b);
      nomt.CommitSession(updates);
      deltas, newStemAddresses := ApplyEntries(b.entries);
    }

    method SaveNewAddresses(newStemAddresses: seq<(Stem, Address)>) returns (r: Result<()>)
      modifies db`addresses
      ensures match SaveAddresses(old(db.addresses), newStemAddresses)
              case None => State() == old(State()) && r == Err(StemAddressMismatch)
              case Some(t) => State() == old(State()).(addresses := t) && r == Ok(())
    {
      hide Decoded, UnpackHead;
      if newStemAddresses != [] {
        r := db.BatchSaveStemAddresses(newStemAddresses);
      } else {
        r := Ok(());
      }
    }

    method UpdateIndex(entries: seq<Entry>) returns (r: Result<nat>)
      modifies keyIndex`table
      ensures match InsertAll(old(State()).index, UpdatesOf(entries))
              case None => State() == old(State()) && r == Err(KeyIndexAddressMismatch)
              case Some(t) => State() == old(State()).(index := t)
                              && |t| >= |old(State()).index| && r == Ok(|t| - |old(State()).index|)
    {
      hide Decoded, UnpackHead, UpdatesOf, InsertAll;
      var updates := Updates(entries);
      r := keyIndex.ApplyUpdates(updates);
    }

    /** Everything `commit` does before its flush decision. */
    method Record(b: Block) returns (r: Result<()>)
      modifies this, db, nomt, keyIndex
      ensures pendingEntries == old(pendingEntries)
      ensures (State(), r) == RecordStep(old(State()), b)
    {
      hide State, DeltasOf, NewAddresses, Stage, SaveAddresses, InsertAll, UpdatesOf, Logical, RecordStep;
      ghost var before := State();
      StageKeeps(before, b);
      RecordUnfolds(before, b);
      var deltas, newStemAddresses := StageBlock(b);
      StateAddresses();
      var saved := SaveNewAddresses(newStemAddresses);
      if saved.Err? {
        return saved;
      }
      var newStems := UpdateIndex(b.entries);
      if newStems.Err? {
        return Err(newStems.error);
      }
      Finish(b, deltas, newStems.value);
      return Ok(());
    }

    lemma StateAddresses()
      ensures State().addresses == db.addresses
    {
    }

    /** The counters and the undo records of a commit whose address checks passed. */
    method Finish(b: Block, deltas: seq<Delta>, newStems: nat)
      modifies this`stemCount, this`lastBlock, this`lastHash, db`deltas
      ensures State() == old(State()).(
                stemCount := old(State()).stemCount + newStems,
                deltas := if deltas == [] then old(State()).deltas else old(State()).deltas[b.number := deltas],
                lastBlock := b.number,
                lastHash := b.hash)
    {
      stemCount := stemCount + newStems;
      if deltas != [] {
        db.SaveBlockDeltas(b.number, deltas);
      }
      lastBlock := b.number;
      lastHash := b.hash;
    }

    /** Apply the pending entries as one block. On an address mismatch the error
        is returned with NOMT and the overlay already changed. */
    method Commit(number: u64, hash: B256) returns (r: Result<B256>)
      modifies this, db, nomt, keyIndex
      ensures pendingEntries == []
      ensures (State(), r) == CommitStep(Cfg(), old(State()), Block(number, hash, old(pendingEntries)))
    {
      var entries := pendingEntries;
      pendingEntries := [];
      var b := Block(number, hash, entries);
      var recorded := Record(b);
      if recorded.Err? {
        return Err(recorded.error);
      }
      var shouldFlush := number <= lastPersistedBlock || number - lastPersistedBlock >= flushInterval;
      if shouldFlush {
        r := FlushCommitted();
      } else {
        var blocksUntilFlush: u64 := flushInterval - (number - lastPersistedBlock);
        r := Ok(lastRoot);
      }
    }

    /** The flushing branch of `commit`. */
    method FlushCommitted() returns (r: Result<B256>)
      modifies this, db, keyIndex
      ensures pendingEntries == old(pendingEntries)
      ensures State() == Prune(Cfg(), SaveIndexHead(Cfg(), FlushAll(Cfg(), old(State()))))
      ensures r == Ok(FlushAll(Cfg(), old(State())).lastRoot)
    {
      hide Flatten, EntriesSorted, Decoded, UnpackHead, Lists;
      FlushHead();
      keyIndex.SaveHead(lastBlock, lastHash, lastRoot, stemCount % TWO_64);
      assert State() == SaveIndexHead(Cfg(), FlushAll(Cfg(), old(State())));
      if lastBlock > deltaRetention {
        var pruneBefore: u64 := lastBlock - deltaRetention;
        var _ := db.PruneDeltasBefore(pruneBefore);
      }
      return Ok(lastRoot);
    }

    /** Replay undo records, newest first, through the overlay. */
    method ApplyDeltasReverse(deltas: seq<Delta>)
      modifies this`dirtyStems
      ensures dirtyStems == OverlayUndo(db.stems, old(dirtyStems), deltas)
    {
      hide Flatten, Lookup;
      var i := |deltas|;
      assert deltas[i..] == [];
      while i > 0
        invariant 0 <= i <= |deltas|
        invariant dirtyStems == OverlayUndo(db.stems, old(dirtyStems), deltas[i..])
      {
        i := i - 1;
        var d := deltas[i];
        assert deltas[i..][0] == d && deltas[i..][1..] == deltas[i + 1..];
        var _, _ := Write(d.key, d.old_);
      }
      assert deltas[0..] == deltas;
    }

    /** One turn of the block loop of `revert`. */
    method RevertBlock(n: u64)
      modifies this`dirtyStems, db`deltas
      ensures State() == UndoBlock(old(State()), n)
    {
      hide OverlayUndo;
      var deltas := db.LoadBlockDeltas(n);
      ApplyDeltasReverse(deltas);
      if n > lastPersistedBlock {
        db.DeleteBlockDeltas(n);
      }
    }

    /** The block loop of `revert`: highest block first. */
    method RevertBlocks(blockNumbers: seq<u64>)
      modifies this`dirtyStems, db`deltas
      ensures State() == UndoBlocks(old(State()), blockNumbers)
    {
      hide UndoBlock, State, Decoded;
      var i := |blockNumbers|;
      assert blockNumbers[..i] == blockNumbers;
      while i > 0
        invariant 0 <= i <= |blockNumbers|
        invariant UndoBlocks(State(), blockNumbers[..i]) == UndoBlocks(old(State()), blockNumbers)
      {
        i := i - 1;
        assert blockNumbers[..i + 1][..i] == blockNumbers[..i];
        RevertBlock(blockNumbers[i]);
      }
      assert blockNumbers[..0] == [];
    }

    /** Move the head to the parent of the lowest reverted block. */
    method Rewind(blocks: map<u64, B256>)
      requires blocks != map[]
      modifies this`lastBlock, this`lastHash
      ensures State() == Rewound(old(State()), blocks)
    {
      hide Decoded, UnpackHead, Ascending;
      var first := Lowest(blocks);
      if first > 0 {
        lastBlock := first - 1;
        lastHash := blocks[first];
      } else {
        lastBlock := 0;
        lastHash := 0;
      }
    }

    method RollBackNomt(n: nat)
      modifies nomt
      ensures State() == old(State()).(nomt := RolledBack(old(State()).nomt, n))
    {
      hide Decoded, UnpackHead, RolledBack;
      var _ := nomt.Rollback(n);
    }

    /** NOMT back by one commit per number, then the lists from the highest number down. */
    method UndoRange(blockNumbers: seq<u64>)
      modifies this`dirtyStems, db`deltas, nomt
      ensures State() == UndoBlocks(old(State()).(nomt := RolledBack(old(State()).nomt, |blockNumbers|)), blockNumbers)
    {
      hide State, UndoBlocks, RolledBack;
      RollBackNomt(|blockNumbers|);
      RevertBlocks(blockNumbers);
    }

    /** Undo the blocks of `blocks` (number to parent hash) that were committed. */
    method Revert(blocks: map<u64, B256>)
      modifies this, db, nomt
      ensures pendingEntries == old(pendingEntries)
      ensures State() == RevertStep(Cfg(), old(State()), blocks)
    {
      hide State, Rewound, UndoBlocks, FlushAll, RolledBack, Ascending;
      if blocks == map[] {
        return;
      }
      StatePersisted();
      UndoRange(Ascending(blocks));
      Rewind(blocks);
      var revertedPersisted := exists b :: b in blocks && b <= lastPersistedBlock;
      if revertedPersisted {
        FlushHead();
      }
    }

    lemma StatePersisted()
      ensures State().persistedBlock == lastPersistedBlock
    {
    }

    method GetStem(stem: Stem) returns (r: Option<StemNode>)
      ensures r == StemSeen(State(), stem)
    {
      if stem in dirtyStems {
        return Some(dirtyStems[stem]);
      }
      r := db.LoadStem(stem);
    }

    method GetValueAt(key: TreeKey) returns (r: Option<B256>)
      ensures r == ValueSeen(State(), key)
    {
      if key.stem in dirtyStems {
        var value := GetValue(dirtyStems[key.stem], key.subindex);
        if value.Some? {
          return value;
        }
      }
      r := db.LoadValue(key);
    }

    method Shutdown()
      modifies this`dirtyStems, db
      ensures State() == ShutdownStep(Cfg(), old(State()))
    {
      var root := FlushDirty();
      db.SaveHead(Head(lastBlock, lastHash, root, stemCount));
    }
  }

  /** `dirty`, `deltas` and `addresses` are what the entries before `rest` produced from `start`. */
  ghost predicate Remaining(stems: Rows, start: Rows, entries: seq<Entry>,
                            dirty: Rows, deltas: seq<Delta>, addresses: seq<(Stem, Address)>, rest: seq<Entry>) {
    && OverlayPut(stems, dirty, rest) == OverlayPut(stems, start, entries)
    && deltas + DeltasOf(Flatten(stems + dirty), rest) == DeltasOf(Flatten(stems + start), entries)
    && addresses + NewAddresses((stems + dirty).Keys, rest) == NewAddresses((stems + start).Keys, entries)
  }

  lemma StageKeeps(s: State, b: Block)
    ensures Stage(s, b) == s.(nomt := Stage(s, b).nomt, dirty := Stage(s, b).dirty)
  {
  }

  /** `RecordStep`, case by case. */
  lemma RecordUnfolds(s: State, b: Block)
    ensures match SaveAddresses(s.addresses, NewAddresses(Effective(s).Keys, b.entries))
            case None => RecordStep(s, b) == (Stage(s, b), Err(StemAddressMismatch))
            case Some(addresses) =>
              match InsertAll(s.index, UpdatesOf(b.entries))
              case None => RecordStep(s, b) == (Stage(s, b).(addresses := addresses), Err(KeyIndexAddressMismatch))
              case Some(index) =>
                |s.index| <= |index| && RecordStep(s, b) == (Recorded(s, b, addresses, index), Ok(()))
  {
    hide Stage, SaveAddresses, InsertAll, NewAddresses, UpdatesOf, Recorded;
    if InsertAll(s.index, UpdatesOf(b.entries)).Some? {
      InsertAllNeverShrinks(s.index, UpdatesOf(b.entries));
    }
  }

  lemma RemainingAll(stems: Rows, start: Rows, entries: seq<Entry>)
    ensures Remaining(stems, start, entries, start, [], [], entries)
  {
  }

  lemma RemainingStep(stems: Rows, start: Rows, entries: seq<Entry>,
                      dirty: Rows, deltas: seq<Delta>, addresses: seq<(Stem, Address)>, rest: seq<Entry>)
    requires rest != [] && Remaining(stems, start, entries, dirty, deltas, addresses, rest)
    ensures var e := rest[0];
            var old_ := Lookup(Flatten(stems + dirty), e.key);
            Remaining(stems, start, entries,
                      Touch(stems, dirty, e.key, e.value),
                      if old_ != e.value then deltas + [Delta(e.key, old_)] else deltas,
                      if e.key.stem in stems + dirty then addresses else addresses + [(e.key.stem, e.address)],
                      rest[1..])
  {
    hide Flatten, Put, Lookup, OverlayPut, DeltasOf, NewAddresses, Touch;
    var e := rest[0];
    OverlayStep(stems, dirty, rest);
    DeltasStep(Flatten(stems + dirty), deltas, rest);
    AddressesStep((stems + dirty).Keys, addresses, rest);
    TouchRefines(stems, dirty, e.key, e.value);
    TouchKeys(stems, dirty, e.key, e.value);
  }

  lemma OverlayStep(stems: Rows, dirty: Rows, rest: seq<Entry>)
    requires rest != []
    ensures OverlayPut(stems, dirty, rest) == OverlayPut(stems, Touch(stems, dirty, rest[0].key, rest[0].value), rest[1..])
  {
    hide Touch;
  }

  lemma DeltasStep(m: Ledger, deltas: seq<Delta>, rest: seq<Entry>)
    requires rest != []
    ensures var e := rest[0];
            var old_ := Lookup(m, e.key);
            deltas + DeltasOf(m, rest)
            == (if old_ != e.value then deltas + [Delta(e.key, old_)] else deltas) + DeltasOf(Put(m, e.key, e.value), rest[1..])
  {
    hide Put, Lookup;
  }

  lemma AddressesStep(known: set<Stem>, addresses: seq<(Stem, Address)>, rest: seq<Entry>)
    requires rest != []
    ensures var e := rest[0];
            addresses + NewAddresses(known, rest)
            == (if e.key.stem in known then addresses else addresses + [(e.key.stem, e.address)])
               + NewAddresses(known + {e.key.stem}, rest[1..])
  {
  }

  lemma RemainingNone(stems: Rows, start: Rows, entries: seq<Entry>,
                      dirty: Rows, deltas: seq<Delta>, addresses: seq<(Stem, Address)>)
    requires Remaining(stems, start, entries, dirty, deltas, addresses, entries[|entries|..])
    ensures dirty == OverlayPut(stems, start, entries)
    ensures deltas == DeltasOf(Flatten(stems + start), entries)
    ensures addresses == NewAddresses((stems + start).Keys, entries)
  {
  }

  lemma TouchIsSeedThenSet(stems: Rows, dirty: Rows, key: TreeKey, value: B256, seeded: Rows)
    requires seeded == dirty[key.stem := NodeAt(stems + dirty, key.stem)]
    ensures seeded[key.stem := SetValue(seeded[key.stem], key.subindex, value)] == Touch(stems, dirty, key, value)
  {
  }
}
