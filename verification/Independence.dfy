/** What does not depend on the flush interval, on crashes that did not happen,
    or on the order of a block's entries. */
module Independence {
  import opened Types
  import opened Ledger
  import opened StemRows
  import opened Tables
  import opened Index
  import opened NomtStore
  import opened Machine
  import opened LiveChain
  import opened Invariant
  import opened CommitKeeps
  import opened RevertKeeps
  import opened Runs
  import opened StepFacts
  import opened AnyRuns
  import opened StemCount
  import opened UndoTheorems
  import opened NomtAgreement

  /* ---- Two flush intervals ---- */

  /** Two instances that have seen the same notifications. */
  ghost predicate Twins(s: State, r: Reference, t: State, q: Reference) {
    r.live == q.live && s.index == t.index && s.lastBlock == t.lastBlock && s.lastHash == t.lastHash
  }

  lemma CommitTwins(c1: Config, c2: Config, s: State, r: Reference, t: State, q: Reference, b: Block)
    requires Inv(c1, s, r) && Inv(c2, t, q) && Twins(s, r, t, q)
    requires CommitAdmissible(s, b) && CommitAdmissible(t, b)
    ensures Twins(CommitStep(c1, s, b).0, CommitReference(c1, s, r, b),
                  CommitStep(c2, t, b).0, CommitReference(c2, t, q, b))
  {
    hide Inv, CommitAdmissible, CommitStep, UpdatesOf, InsertAll, NewAddresses, SaveAddresses;
    CommitKeepsInvariant(c1, s, r, b);
    CommitKeepsInvariant(c2, t, q, b);
    CommitTables(c1, s, b);
    CommitTables(c2, t, b);
  }

  lemma StepTwins(c1: Config, c2: Config, s: State, r: Reference, t: State, q: Reference, op: Op)
    requires Inv(c1, s, r) && Inv(c2, t, q) && Twins(s, r, t, q)
    requires Admissible(s, r, op) && Admissible(t, q, op) && op != Crash
    ensures Twins(Step(c1, s, op), ReferenceStep(c1, s, r, op), Step(c2, t, op), ReferenceStep(c2, t, q, op))
  {
    hide Inv, CommitAdmissible, RevertAdmissible, CommitStep, RevertStep, Restarted, ShutdownStep, Below, Lowest,
      CommitReference, RolledBack, RootOfRows;
    match op
    case Commit(b) => CommitTwins(c1, c2, s, r, t, q, b);
    case Revert(blocks) =>
      OthersKeepIndex(c1, s, op);
      OthersKeepIndex(c2, t, op);
      if blocks == map[] {
        NoRevert(c1, s);
        NoRevert(c2, t);
      } else {
        RevertFields(c1, s, blocks);
        RevertFields(c2, t, blocks);
        RevertHead(c1, s, blocks);
        RevertHead(c2, t, blocks);
      }
    case Stop =>
      Stopped(c1, s);
      Stopped(c2, t);
  }

  lemma {:induction false} RunTwins(c1: Config, c2: Config, s: State, r: Reference, t: State, q: Reference, ops: seq<Op>)
    requires Inv(c1, s, r) && Inv(c2, t, q) && Twins(s, r, t, q)
    requires AdmissibleRun(c1, s, r, ops) && AdmissibleRun(c2, t, q, ops) && CrashFree(ops)
    ensures var (u, p) := Run(c1, s, r, ops); var (v, o) := Run(c2, t, q, ops); Twins(u, p, v, o)
    decreases |ops|
  {
    if ops != [] {
      hide Inv, Twins, Step, ReferenceStep, Admissible;
      var op := ops[0];
      assert op != Crash;
      StepTwins(c1, c2, s, r, t, q, op);
      StepKeepsInvariant(c1, s, r, op);
      StepKeepsInvariant(c2, t, q, op);
      assert CrashFree(ops[1..]);
      RunTwins(c1, c2, Step(c1, s, op), ReferenceStep(c1, s, r, op), Step(c2, t, op), ReferenceStep(c2, t, q, op), ops[1..]);
    }
  }

  /** Flush-interval independence: the same crash-free notifications give the same map,
      key index, stem count and last block after every step, whatever the two flush
      intervals and retentions are, as long as both instances can serve the run. */
  lemma FlushIntervalIndependence(c1: Config, c2: Config, ops: seq<Op>)
    requires ValidRun(c1, ops) && ValidRun(c2, ops) && CrashFree(ops)
    ensures var (s, t) := (Reached(c1, ops).0, Reached(c2, ops).0);
            && Logical(s) == Logical(t)
            && s.index == t.index && s.stemCount == t.stemCount
            && s.lastBlock == t.lastBlock && s.lastHash == t.lastHash
  {
    hide Run, After, OneAddressRun, AdmissibleRun, Inv, Flatten;
    FreshHolds(c1);
    FreshHolds(c2);
    RunTwins(c1, c2, FRESH, START, FRESH, START, ops);
    ReachedInv(c1, ops);
    ReachedInv(c2, ops);
    StemCountExact(c1, ops);
    StemCountExact(c2, ops);
    RunIsAfter(c1, FRESH, START, ops);
    RunIsAfter(c2, FRESH, START, ops);
    LiveFacts(c1, Reached(c1, ops).0, Reached(c1, ops).1);
    LiveFacts(c2, Reached(c2, ops).0, Reached(c2, ops).1);
  }

  /** ... and the same MDBX entries and the same saved head after a shutdown. */
  lemma SameAfterShutdown(c1: Config, c2: Config, ops: seq<Op>)
    requires ValidRun(c1, ops) && ValidRun(c2, ops) && CrashFree(ops) && c1.rootOf == c2.rootOf
    ensures var (s, t) := (ShutdownStep(c1, Reached(c1, ops).0), ShutdownStep(c2, Reached(c2, ops).0));
            && EntriesSorted(Flatten(s.stems)) == EntriesSorted(Flatten(t.stems))
            && s.head == t.head
  {
    hide Run, AdmissibleRun, Flatten, EntriesSorted;
    FlushIntervalIndependence(c1, c2, ops);
  }

  /* ---- Order of entries ---- */

  function BitsAt(t: Index, stem: Stem): set<Subindex> {
    if stem in t then t[stem].bits else {}
  }

  lemma OneBit(t: Index, u: Update, stem: Stem)
    requires InsertOne(t, u).Some?
    ensures BitsAt(InsertOne(t, u).value, stem)
         == BitsAt(t, stem) + (if u.key.stem == stem then {u.key.subindex} else {})
  {
  }

  /** The exact table a successful batch produces, read off the batch as a set. */
  lemma {:induction false} InsertAllExact(t: Index, updates: seq<Update>, stem: Stem)
    requires InsertAll(t, updates).Some?
    ensures BitsAt(InsertAll(t, updates).value, stem) == BitsAt(t, stem) + SubindicesOf(updates, stem)
    decreases |updates|
  {
    hide InsertOne, BitsAt;
    if updates == [] {
      assert SubindicesOf(updates, stem) == {};
    } else {
      var front, last := updates[..|updates| - 1], updates[|updates| - 1];
      InsertAllExact(t, front, stem);
      assert updates == front + [last];
      SubindicesSplit(front, last, stem);
      OneBit(InsertAll(t, front).value, last, stem);
    }
  }

  lemma SubindicesSplit(front: seq<Update>, last: Update, stem: Stem)
    ensures SubindicesOf(front + [last], stem)
         == SubindicesOf(front, stem) + (if last.key.stem == stem then {last.key.subindex} else {})
  {
  }

  function SubindicesOf(updates: seq<Update>, stem: Stem): set<Subindex> {
    set u | u in updates && u.key.stem == stem :: u.key.subindex
  }

  lemma InsertAllPermuted(t: Index, a: seq<Update>, b: seq<Update>)
    requires forall u :: u in a <==> u in b
    ensures InsertAll(t, a) == InsertAll(t, b)
  {
    hide InsertAll;
    InsertAllSucceeds(t, a);
    InsertAllSucceeds(t, b);
    if InsertAll(t, a).Some? {
      InsertAllGrows(t, a);
      InsertAllGrows(t, b);
      var x, y := InsertAll(t, a).value, InsertAll(t, b).value;
      assert UpdateStems(a) == UpdateStems(b);
      assert x.Keys == y.Keys;
      forall stem | stem in x ensures x[stem] == y[stem] {
        InsertAllExact(t, a, stem);
        InsertAllExact(t, b, stem);
        assert SubindicesOf(a, stem) == SubindicesOf(b, stem);
        if stem !in t {
          assert stem in UpdateStems(a);
          var u :| u in a && u.key.stem == stem;
          assert u in b;
        }
        assert x[stem].address == y[stem].address && x[stem].bits == y[stem].bits;
      }
      assert x == y;
    }
  }

  /** The new stems of a block do not depend on the order of its entries. */
  lemma {:induction false} NewStems(known: set<Stem>, entries: seq<Entry>)
    ensures MappedStems(NewAddresses(known, entries)) == StemsOf(entries) - known
    decreases |entries|
  {
    if entries != [] {
      var e := entries[0];
      NewStems(known + {e.key.stem}, entries[1..]);
      StemsSplit(entries);
      var rest := NewAddresses(known + {e.key.stem}, entries[1..]);
      MappedSplit((e.key.stem, e.address), rest);
    }
  }

  lemma StemsSplit(entries: seq<Entry>)
    requires entries != []
    ensures StemsOf(entries) == {entries[0].key.stem} + StemsOf(entries[1..])
  {
    assert entries == [entries[0]] + entries[1..];
  }

  lemma MappedSplit(p: (Stem, Address), rest: seq<(Stem, Address)>)
    ensures MappedStems([p] + rest) == {p.0} + MappedStems(rest)
  {
  }

  /** Every new mapping carries the one address the batch has for its stem. */
  lemma MappedAddress(index: Index, k1: set<Stem>, k2: set<Stem>, a: seq<Entry>, b: seq<Entry>,
                      p: (Stem, Address), q: (Stem, Address))
    requires Consistent(index, UpdatesOf(a)) && forall e :: e in a <==> e in b
    requires p in NewAddresses(k1, a) && q in NewAddresses(k2, b) && p.0 == q.0
    ensures p.1 == q.1
  {
    hide NewAddresses, UpdatesOf;
    NewAddressesCover(k1, a);
    NewAddressesCover(k2, b);
    UpdateOfEntry(a);
    var e :| e in a && p == (e.key.stem, e.address);
    var f :| f in b && q == (f.key.stem, f.address);
    assert Update(e.key, e.address) in UpdatesOf(a) && Update(f.key, f.address) in UpdatesOf(a);
  }

  /** What is saved depends neither on the order nor on which known stems are told apart. */
  lemma AddressesPermuted(index: Index, addresses: Addresses, k1: set<Stem>, k2: set<Stem>, a: seq<Entry>, b: seq<Entry>)
    requires AddressesIndexed(index, addresses) && k1 + k2 <= addresses.Keys
    requires Consistent(index, UpdatesOf(a)) && Consistent(index, UpdatesOf(b))
    requires forall e :: e in a <==> e in b
    ensures SaveAddresses(addresses, NewAddresses(k1, a)) == SaveAddresses(addresses, NewAddresses(k2, b))
  {
    hide NewAddresses, SaveAddresses, UpdatesOf, Consistent, AddressesIndexed;
    AddressCheckPasses(index, addresses, k1, a);
    AddressCheckPasses(index, addresses, k2, b);
    var ma, mb := NewAddresses(k1, a), NewAddresses(k2, b);
    SaveAddressesGrows(addresses, ma);
    SaveAddressesGrows(addresses, mb);
    NewStems(k1, a);
    NewStems(k2, b);
    assert StemsOf(a) == StemsOf(b);
    var x, y := SaveAddresses(addresses, ma).value, SaveAddresses(addresses, mb).value;
    assert x.Keys == y.Keys;
    forall stem | stem in x ensures x[stem] == y[stem] {
      if stem !in addresses {
        assert stem in MappedStems(ma) && stem in MappedStems(mb);
        var p :| p in ma && p.0 == stem;
        var q :| q in mb && q.0 == stem;
        MappedAddress(index, k1, k2, a, b, p, q);
      }
    }
    assert x == y;
  }

  lemma ElementsPermuted(a: seq<Entry>, b: seq<Entry>)
    requires multiset(a) == multiset(b)
    ensures forall e :: e in a <==> e in b
    ensures forall u :: u in UpdatesOf(a) <==> u in UpdatesOf(b)
  {
    hide UpdatesOf;
    SameElements(a, b);
    UpdateOfEntry(a);
    UpdateOfEntry(b);
  }

  /* ---- The NOMT session of a permuted block ---- */

  lemma {:induction false} IndexNotWritten(s: Snapshot, entries: seq<Entry>, x: B256)
    requires forall e :: e in entries ==> TreeIndex(e.key) != x
    ensures var t := WriteAll(s, EntryWrites(entries)); (x in t <==> x in s) && (x in s ==> t[x] == s[x])
    decreases |entries|
  {
    if entries != [] {
      var e := entries[0];
      assert e in entries && EntryWrites(entries)[1..] == EntryWrites(entries[1..]);
      IndexNotWritten(s[TreeIndex(e.key) := Word(e.value)], entries[1..], x);
    }
  }

  lemma {:induction false} IndexWritten(s: Snapshot, entries: seq<Entry>, i: nat)
    requires DistinctKeys(entries) && i < |entries|
    ensures var x := TreeIndex(entries[i].key);
            var t := WriteAll(s, EntryWrites(entries));
            x in t && t[x] == Word(entries[i].value)
    decreases |entries|
  {
    var e, rest := entries[0], entries[1..];
    var s1 := s[TreeIndex(e.key) := Word(e.value)];
    assert EntryWrites(entries)[1..] == EntryWrites(rest);
    assert forall j :: 0 <= j < |rest| ==> rest[j] == entries[j + 1];
    if i == 0 {
      forall f | f in rest ensures TreeIndex(f.key) != TreeIndex(e.key) {
        if TreeIndex(f.key) == TreeIndex(e.key) { TreeIndexInjective(f.key, e.key); }
      }
      IndexNotWritten(s1, rest, TreeIndex(e.key));
    } else {
      IndexWritten(s1, rest, i - 1);
    }
  }

  /** The snapshots of two orders hold the same value at one index. */
  lemma SnapshotsAgreeAt(s: Snapshot, a: seq<Entry>, b: seq<Entry>, x: B256)
    requires DistinctKeys(a) && DistinctKeys(b) && forall e :: e in a <==> e in b
    ensures var t, u := WriteAll(s, EntryWrites(a)), WriteAll(s, EntryWrites(b));
            (x in t <==> x in u) && (x in t ==> t[x] == u[x])
  {
    hide WriteAll, EntryWrites, DistinctKeys;
    if i :| 0 <= i < |a| && TreeIndex(a[i].key) == x {
      assert a[i] in b;
      var j :| 0 <= j < |b| && b[j] == a[i];
      IndexWritten(s, a, i);
      IndexWritten(s, b, j);
    } else {
      forall e | e in b ensures TreeIndex(e.key) != x {
        assert e in a;
      }
      IndexNotWritten(s, a, x);
      IndexNotWritten(s, b, x);
    }
  }

  /** A NOMT session with one write per key does not depend on their order, so sorting
      the session by key, as the commit does, changes nothing. */
  lemma SessionPermuted(s: Snapshot, b: Block, c: Block)
    requires b.number == c.number && DistinctKeys(b.entries) && DistinctKeys(c.entries)
    requires forall e :: e in b.entries <==> e in c.entries
    ensures WriteAll(s, BlockWrites(b)) == WriteAll(s, BlockWrites(c))
  {
    hide WriteAll, EntryWrites, BlockWrites, DistinctKeys;
    BlockSnapshot(s, b);
    BlockSnapshot(s, c);
    var t, u := WriteAll(s, EntryWrites(b.entries)), WriteAll(s, EntryWrites(c.entries));
    forall x ensures (x in t <==> x in u) && (x in t ==> t[x] == u[x]) {
      SnapshotsAgreeAt(s, b.entries, c.entries, x);
    }
    assert t == u;
  }

  /** Tables with the same stems and the same ledger are the same table. */
  lemma SameTable(a: Rows, b: Rows)
    requires a.Keys == b.Keys && Flatten(a) == Flatten(b)
    ensures a == b
  {
    hide Flatten;
    forall stem | stem in a ensures a[stem] == b[stem] {
      SameLedgerSameNodes(a, b, stem);
    }
  }

  /** Both orders pass the address checks and grow the tables alike. */
  lemma PermutedTables(cfg: Config, s: State, r: Reference, b: Block, c: Block)
    requires Inv(cfg, s, r) && CommitAdmissible(s, b) && c.number == b.number
    requires multiset(c.entries) == multiset(b.entries)
    ensures CommitStep(cfg, s, b).1.Ok? && CommitStep(cfg, s, c).1.Ok?
    ensures var (t, u) := (CommitStep(cfg, s, b).0, CommitStep(cfg, s, c).0);
            t.index == u.index && t.addresses == u.addresses
  {
    hide UpdatesOf, NewAddresses, SaveAddresses, InsertAll, Logical, CommitStep, Consistent, Consistency, Effective,
      AddressesIndexed, SavedDeltas, PutAll;
    IndexedOf(cfg, s, r);
    ElementsPermuted(b.entries, c.entries);
    ConsistentPermuted(s.index, UpdatesOf(b.entries), UpdatesOf(c.entries));
    AddressesPermuted(s.index, s.addresses, Effective(s).Keys, Effective(s).Keys, b.entries, c.entries);
    InsertAllPermuted(s.index, UpdatesOf(b.entries), UpdatesOf(c.entries));
    CommitRecords(cfg, s, r, b);
    CommitRecords(cfg, s, r, c);
    CommitTables(cfg, s, b);
    CommitTables(cfg, s, c);
  }

  /** With the same tables, map and session, the rest of the state is the same. */
  lemma PermutedFields(cfg: Config, s: State, b: Block, c: Block)
    requires c.number == b.number && c.hash == b.hash
    requires CommitStep(cfg, s, b).1.Ok? && CommitStep(cfg, s, c).1.Ok?
    requires var (t, u) := (CommitStep(cfg, s, b).0, CommitStep(cfg, s, c).0);
             t.index == u.index && t.addresses == u.addresses
    requires PutAll(Logical(s), b.entries) == PutAll(Logical(s), c.entries)
    requires WriteAll(Top(s.nomt), BlockWrites(b)) == WriteAll(Top(s.nomt), BlockWrites(c))
    ensures CommitStep(cfg, s, b).1 == CommitStep(cfg, s, c).1
    ensures var (t, u) := (CommitStep(cfg, s, b).0, CommitStep(cfg, s, c).0);
            t == u.(stems := t.stems, dirty := t.dirty, deltas := t.deltas) && Logical(t) == Logical(u)
  {
    hide Logical, PutAll, CommitStep, SavedDeltas, EntriesSorted, WriteAll, BlockWrites, Effective, StemsOf, PrunedBefore,
      ShouldFlush, Top;
    CommitOutcome(cfg, s, b);
    CommitOutcome(cfg, s, c);
    CommitFields(cfg, s, b);
    CommitFields(cfg, s, c);
    CommitNomt(cfg, s, b);
    CommitNomt(cfg, s, c);
  }

  lemma PermutedRows(cfg: Config, s: State, b: Block, c: Block)
    requires CommitStep(cfg, s, b).1.Ok? && CommitStep(cfg, s, c).1.Ok?
    requires Logical(CommitStep(cfg, s, b).0) == Logical(CommitStep(cfg, s, c).0)
    requires forall e :: e in b.entries <==> e in c.entries
    ensures Effective(CommitStep(cfg, s, b).0) == Effective(CommitStep(cfg, s, c).0)
  {
    hide Logical, PutAll, CommitStep, EntriesSorted, Effective, StemsOf, ShouldFlush;
    CommitOutcome(cfg, s, b);
    CommitOutcome(cfg, s, c);
    RowsPermuted(CommitStep(cfg, s, b).0, CommitStep(cfg, s, c).0, Effective(s).Keys, b.entries, c.entries);
  }

  /** Order independence: permuting a block's distinct-key entries changes no result, no table,
      no head, no counter and no other block's undo list; the block's own is a permutation. */
  lemma EntryOrderIndependence(cfg: Config, s: State, r: Reference, b: Block, entries: seq<Entry>)
    requires Inv(cfg, s, r) && CommitAdmissible(s, b)
    requires DistinctKeys(b.entries) && multiset(entries) == multiset(b.entries)
    ensures var (t, x) := CommitStep(cfg, s, b);
            var (u, y) := CommitStep(cfg, s, b.(entries := entries));
            && x == y && Effective(t) == Effective(u)
            && t == u.(stems := t.stems, dirty := t.dirty, deltas := t.deltas)
            && (forall n :: n != b.number ==> Slot(t.deltas, n) == Slot(u.deltas, n))
            && multiset(Slot(t.deltas, b.number)) == multiset(Slot(u.deltas, b.number))
  {
    hide Inv, CommitAdmissible, Logical, PutAll, CommitStep, SavedDeltas, WriteAll, BlockWrites, Effective, Slot, DeltasOf,
      Top, UpdatesOf, DistinctKeys;
    var c := b.(entries := entries);
    PermutedTables(cfg, s, r, b, c);
    ElementsPermuted(b.entries, entries);
    OrderIndependent(Logical(s), b.entries, entries);
    SessionPermuted(Top(s.nomt), b, c);
    PermutedFields(cfg, s, b, c);
    PermutedRows(cfg, s, b, c);
    PermutedDeltas(s, b, c);
    PermutedSlots(cfg, s, b, c);
  }

  lemma RowsPermuted(t: State, u: State, known: set<Stem>, a: seq<Entry>, b: seq<Entry>)
    requires Logical(t) == Logical(u) && forall e :: e in a <==> e in b
    requires Effective(t).Keys == known + StemsOf(a) && Effective(u).Keys == known + StemsOf(b)
    ensures Effective(t) == Effective(u)
  {
    hide Flatten, Effective;
    assert StemsOf(a) == StemsOf(b);
    SameTable(Effective(t), Effective(u));
  }

  lemma PermutedSlots(cfg: Config, s: State, b: Block, c: Block)
    requires c.number == b.number && CommitStep(cfg, s, b).1.Ok? && CommitStep(cfg, s, c).1.Ok?
    requires multiset(Slot(SavedDeltas(s, b), b.number)) == multiset(Slot(SavedDeltas(s, c), b.number))
    ensures var t, u := CommitStep(cfg, s, b).0, CommitStep(cfg, s, c).0;
            && (forall n :: n != b.number ==> Slot(t.deltas, n) == Slot(u.deltas, n))
            && multiset(Slot(t.deltas, b.number)) == multiset(Slot(u.deltas, b.number))
  {
    hide Logical, CommitStep, SavedDeltas, EntriesSorted, PutAll, ShouldFlush;
    CommitFields(cfg, s, b);
    CommitFields(cfg, s, c);
    SavedSlots(s, b);
    SavedSlots(s, c);
    PrunedSlot(SavedDeltas(s, b), b.number - cfg.deltaRetention);
    PrunedSlot(SavedDeltas(s, c), b.number - cfg.deltaRetention);
  }

  lemma PrunedSlot(deltas: DeltaTable, bound: int)
    requires bound < TWO_64
    ensures bound >= 0 ==> forall n :: Slot(PrunedBefore(deltas, bound), n) == if bound <= n then Slot(deltas, n) else []
  {
  }

  lemma ConsistentPermuted(index: Index, a: seq<Update>, b: seq<Update>)
    requires Consistent(index, a) && forall u :: u in a <==> u in b
    ensures Consistent(index, b)
  {
  }

  lemma IndexedOf(cfg: Config, s: State, r: Reference)
    requires Inv(cfg, s, r)
    ensures AddressesIndexed(s.index, s.addresses) && Effective(s).Keys <= s.addresses.Keys
  {
  }

  lemma PermutedDeltas(s: State, b: Block, c: Block)
    requires c.number == b.number
    requires multiset(DeltasOf(Logical(s), b.entries)) == multiset(DeltasOf(Logical(s), c.entries))
    ensures multiset(Slot(SavedDeltas(s, b), b.number)) == multiset(Slot(SavedDeltas(s, c), b.number))
  {
    hide DeltasOf, Logical;
    var x, y := DeltasOf(Logical(s), b.entries), DeltasOf(Logical(s), c.entries);
    assert |multiset(x)| == |x| && |multiset(y)| == |y|;
  }

  /* ---- Reads ---- */

  /** `get_stem` returns the model's node, absent and empty taken as one. */
  lemma StemReads(cfg: Config, ops: seq<Op>, stem: Stem, i: Subindex)
    requires ValidRun(cfg, ops)
    ensures var (s, r) := Reached(cfg, ops);
            var node := match StemSeen(s, stem) case None => map[] case Some(n) => n;
            GetOrZero(node, i) == Lookup(LedgerOf(r.live), TreeKey(stem, i))
  {
    hide Run, Flatten, LedgerOf, HeadMatches, Undoable, Covered;
    ReachedInv(cfg, ops);
    FlattenLookup(Effective(Reached(cfg, ops).0), TreeKey(stem, i));
  }

  /** `get_value` agrees with the model exactly when the key is not zeroed in an unflushed
      overlay node while still stored in MDBX. */
  lemma ValueReadsExactly(cfg: Config, ops: seq<Op>, key: TreeKey)
    requires ValidRun(cfg, ops)
    ensures var (s, r) := Reached(cfg, ops);
            var seen := match ValueSeen(s, key) case None => 0 case Some(v) => v;
            seen == Lookup(LedgerOf(r.live), key)
            <==> !(key.stem in s.dirty && key.subindex !in s.dirty[key.stem]
                   && key.stem in s.stems && key.subindex in s.stems[key.stem])
  {
    hide Run, Flatten, LedgerOf, HeadMatches, Undoable, Covered;
    ReachedInv(cfg, ops);
    FlattenLookup(Effective(Reached(cfg, ops).0), key);
  }

  /** What `get_stem` answers, in any state: nothing for a stem in neither the overlay nor the rows,
      and the overlay's node before the row. */
  lemma StemAnswer(s: State, stem: Stem)
    ensures StemSeen(s, stem).None? <==> stem !in s.dirty && stem !in s.stems
    ensures stem in s.dirty ==> StemSeen(s, stem) == Some(s.dirty[stem])
    ensures stem !in s.dirty && stem in s.stems ==> StemSeen(s, stem) == Some(s.stems[stem])
  {
  }

  /** What `get_value` answers, in any state: nothing for a key in neither the overlay's node nor the
      row, and the overlay's value before the row's. */
  lemma ValueAnswer(s: State, key: TreeKey)
    ensures var above := key.stem in s.dirty && key.subindex in s.dirty[key.stem];
            var below := key.stem in s.stems && key.subindex in s.stems[key.stem];
            && (ValueSeen(s, key).None? <==> !above && !below)
            && (above ==> ValueSeen(s, key) == Some(s.dirty[key.stem][key.subindex]))
            && (!above && below ==> ValueSeen(s, key) == Some(s.stems[key.stem][key.subindex]))
  {
  }

  /** Without crashes, and with one address per stem, `get_stem` answers exactly for the stems ever
      written, those in the key index: a reverted stem answers with an empty node. */
  lemma StemKnownExactly(cfg: Config, ops: seq<Op>, stem: Stem)
    requires CrashFree(ops) && OneAddressRun(cfg, FRESH, ops)
    ensures var s := After(cfg, FRESH, ops);
            StemSeen(s, stem).Some? <==> stem in s.index
  {
    hide After, OneAddressRun, StemSeen;
    StemCountExact(cfg, ops);
    StemAnswer(After(cfg, FRESH, ops), stem);
  }
}
