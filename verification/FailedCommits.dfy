/** Commits that fail an address check: when they do, with which error, what they
    have changed by then, and how the next start-up gets rid of it. */
module FailedCommits {
  import opened Types
  import opened Ledger
  import opened StemRows
  import opened Tables
  import opened Index
  import opened NomtStore
  import opened Machine
  import opened LiveChain
  import opened Invariant
  import opened CommitKeeps
  import opened Runs
  import opened StepFacts
  import opened AnyRuns
  import opened NomtAgreement

  /** Entry `i` is the block's first for its stem. */
  ghost predicate FirstOfStem(entries: seq<Entry>, i: nat)
    requires i < |entries|
  {
    forall j :: 0 <= j < i ==> entries[j].key.stem != entries[i].key.stem
  }

  /** The mappings of a block: for each stem not known before it, the address of its first entry. */
  lemma {:induction false} NewAddressesExactly(known: set<Stem>, entries: seq<Entry>, p: (Stem, Address))
    ensures p in NewAddresses(known, entries)
       <==> exists i :: 0 <= i < |entries| && FirstOfStem(entries, i) && p.0 !in known
                        && p == (entries[i].key.stem, entries[i].address)
    decreases |entries|
  {
    if entries != [] {
      hide FirstOfStem;
      var e, rest := entries[0], entries[1..];
      var mappings := NewAddresses(known + {e.key.stem}, rest);
      NewAddressesExactly(known + {e.key.stem}, rest, p);
      FirstIsFirst(entries);
      if i :| 0 <= i < |rest| && FirstOfStem(rest, i) && p.0 !in known + {e.key.stem}
              && p == (rest[i].key.stem, rest[i].address) {
        LaterFirst(entries, i + 1);
        assert FirstOfStem(entries, i + 1) && entries[i + 1] == rest[i];
      }
      if i :| 0 < i < |entries| && FirstOfStem(entries, i) && p.0 !in known
              && p == (entries[i].key.stem, entries[i].address) {
        LaterFirst(entries, i);
        assert FirstOfStem(rest, i - 1) && rest[i - 1] == entries[i];
      }
      assert NewAddresses(known, entries) == if e.key.stem in known then mappings else [(e.key.stem, e.address)] + mappings;
    }
  }

  lemma FirstIsFirst(entries: seq<Entry>)
    requires entries != []
    ensures FirstOfStem(entries, 0)
  {
  }

  lemma LaterFirst(entries: seq<Entry>, i: nat)
    requires 0 < i < |entries|
    ensures FirstOfStem(entries, i) <==> FirstOfStem(entries[1..], i - 1) && entries[i].key.stem != entries[0].key.stem
  {
    var rest := entries[1..];
    assert forall j :: 0 <= j < |rest| ==> rest[j] == entries[j + 1];
    if FirstOfStem(rest, i - 1) && entries[i].key.stem != entries[0].key.stem {
      forall j | 0 <= j < i ensures entries[j].key.stem != entries[i].key.stem {
        if j > 0 {
          assert rest[j - 1] == entries[j];
        }
      }
    }
  }

  /** A stem that is in neither the overlay nor the rows comes first with another address than the
      one saved for it. */
  ghost predicate StemClash(s: State, b: Block) {
    exists i :: 0 <= i < |b.entries| && FirstOfStem(b.entries, i)
      && b.entries[i].key.stem !in s.stems && b.entries[i].key.stem !in s.dirty
      && b.entries[i].key.stem in s.addresses && s.addresses[b.entries[i].key.stem] != b.entries[i].address
  }

  /** A stem comes with another address than the key index has, or with two. */
  ghost predicate IndexClash(s: State, b: Block) {
    || (exists e :: e in b.entries && e.key.stem in s.index && s.index[e.key.stem].address != e.address)
    || (exists e, f :: e in b.entries && f in b.entries && e.key.stem == f.key.stem && e.address != f.address)
  }

  lemma StemClashExactly(s: State, b: Block)
    ensures StemClash(s, b) <==> SaveAddresses(s.addresses, NewAddresses(Effective(s).Keys, b.entries)).None?
  {
    hide NewAddresses, SaveAddresses, FirstOfStem;
    var mappings := NewAddresses(Effective(s).Keys, b.entries);
    SaveAddressesSucceeds(s.addresses, mappings);
    if i :| 0 <= i < |b.entries| && FirstOfStem(b.entries, i)
            && b.entries[i].key.stem !in s.stems && b.entries[i].key.stem !in s.dirty
            && b.entries[i].key.stem in s.addresses && s.addresses[b.entries[i].key.stem] != b.entries[i].address {
      var p := (b.entries[i].key.stem, b.entries[i].address);
      NewAddressesExactly(Effective(s).Keys, b.entries, p);
      assert p in mappings;
    } else {
      forall p | p in mappings && p.0 in s.addresses ensures s.addresses[p.0] == p.1 {
        NewAddressesExactly(Effective(s).Keys, b.entries, p);
      }
      forall p, q | p in mappings && q in mappings && p.0 == q.0 ensures p.1 == q.1 {
        NewAddressesExactly(Effective(s).Keys, b.entries, p);
        NewAddressesExactly(Effective(s).Keys, b.entries, q);
        OneFirst(b.entries, p, q);
      }
    }
  }

  lemma OneFirst(entries: seq<Entry>, p: (Stem, Address), q: (Stem, Address))
    requires exists i :: 0 <= i < |entries| && FirstOfStem(entries, i) && p == (entries[i].key.stem, entries[i].address)
    requires exists i :: 0 <= i < |entries| && FirstOfStem(entries, i) && q == (entries[i].key.stem, entries[i].address)
    requires p.0 == q.0
    ensures p == q
  {
    var i :| 0 <= i < |entries| && FirstOfStem(entries, i) && p == (entries[i].key.stem, entries[i].address);
    var j :| 0 <= j < |entries| && FirstOfStem(entries, j) && q == (entries[j].key.stem, entries[j].address);
    assert !(i < j) && !(j < i);
  }

  lemma IndexClashExactly(s: State, b: Block)
    ensures IndexClash(s, b) <==> InsertAll(s.index, UpdatesOf(b.entries)).None?
  {
    hide UpdatesOf, InsertAll;
    var updates := UpdatesOf(b.entries);
    InsertAllSucceeds(s.index, updates);
    UpdateOfEntry(b.entries);
    if e :| e in b.entries && e.key.stem in s.index && s.index[e.key.stem].address != e.address {
      assert Update(e.key, e.address) in updates;
    } else if e, f :| e in b.entries && f in b.entries && e.key.stem == f.key.stem && e.address != f.address {
      assert Update(e.key, e.address) in updates && Update(f.key, f.address) in updates;
    } else {
      forall u | u in updates && u.key.stem in s.index ensures s.index[u.key.stem].address == u.address {
        var e :| e in b.entries && u == Update(e.key, e.address);
      }
      forall u, v | u in updates && v in updates && u.key.stem == v.key.stem ensures u.address == v.address {
        var e :| e in b.entries && u == Update(e.key, e.address);
        var f :| f in b.entries && v == Update(f.key, f.address);
      }
    }
  }

  lemma FailedRecord(s: State, b: Block)
    requires RecordStep(s, b).1.Err?
    ensures var (t, r) := RecordStep(s, b);
            && t == s.(nomt := t.nomt, dirty := OverlayPut(s.stems, s.dirty, b.entries), addresses := t.addresses)
            && (r == Err(StemAddressMismatch) ==> t.addresses == s.addresses)
            && (r == Err(KeyIndexAddressMismatch) ==>
                  SaveAddresses(s.addresses, NewAddresses(Effective(s).Keys, b.entries)) == Some(t.addresses))
  {
    hide OverlayPut, WriteAll, BlockWrites, SaveAddresses, NewAddresses, InsertAll, UpdatesOf, SavedDeltas, Effective;
  }

  lemma CommitIsRecord(cfg: Config, s: State, b: Block)
    ensures CommitStep(cfg, s, b).1.Ok? <==> RecordStep(s, b).1.Ok?
    ensures CommitStep(cfg, s, b).1.Err? ==>
              CommitStep(cfg, s, b).0 == RecordStep(s, b).0 && CommitStep(cfg, s, b).1 == Err(RecordStep(s, b).1.error)
  {
    hide RecordStep, FlushAll, SaveIndexHead, Prune, ShouldFlush;
  }

  lemma RecordAnswers(s: State, b: Block)
    ensures var stems := SaveAddresses(s.addresses, NewAddresses(Effective(s).Keys, b.entries));
            var index := InsertAll(s.index, UpdatesOf(b.entries));
            RecordStep(s, b).1 == if stems.None? then Err(StemAddressMismatch)
                                  else if index.None? then Err(KeyIndexAddressMismatch) else Ok(())
  {
    hide Stage, SaveAddresses, NewAddresses, InsertAll, UpdatesOf, Effective, SavedDeltas;
    if InsertAll(s.index, UpdatesOf(b.entries)).Some? {
      InsertAllNeverShrinks(s.index, UpdatesOf(b.entries));
    }
  }

  /** In any state: which commits fail, with which error, and what is left then. NOMT and the map
      have moved; the new addresses are saved if only the key index objected; nothing else has
      changed, not the rows, lists, index, heads or counters. */
  lemma CommitFailsExactly(cfg: Config, s: State, b: Block)
    ensures var (t, r) := CommitStep(cfg, s, b);
            && (r.Ok? <==> !StemClash(s, b) && !IndexClash(s, b))
            && (StemClash(s, b) ==> r == Err(StemAddressMismatch) && t.addresses == s.addresses)
            && (!StemClash(s, b) && IndexClash(s, b) ==>
                  r == Err(KeyIndexAddressMismatch)
                  && SaveAddresses(s.addresses, NewAddresses(Effective(s).Keys, b.entries)) == Some(t.addresses))
            && (r.Err? ==>
                  && t == s.(nomt := t.nomt, dirty := t.dirty, addresses := t.addresses)
                  && t.nomt == s.nomt + [WriteAll(Top(s.nomt), BlockWrites(b))]
                  && Logical(t) == PutAll(Logical(s), b.entries))
  {
    hide CommitStep, RecordStep, StemClash, IndexClash, SaveAddresses, NewAddresses, InsertAll, UpdatesOf, OverlayPut,
      WriteAll, BlockWrites, PutAll, Flatten;
    CommitIsRecord(cfg, s, b);
    RecordAnswers(s, b);
    StemClashExactly(s, b);
    IndexClashExactly(s, b);
    CommitNomt(cfg, s, b);
    if CommitStep(cfg, s, b).1.Err? {
      FailedRecord(s, b);
      OverlayPutRefines(s.stems, s.dirty, b.entries);
    }
  }

  /* ---- The next start-up ---- */

  lemma OneFurther(stack: Stack, n: nat, x: Snapshot)
    requires n < |stack|
    ensures RolledBack(stack + [x], n + 1) == RolledBack(stack, n)
  {
  }

  /** In single-block runs a failed commit is undone by dying: the next start-up rolls NOMT back over
      the failed block too, and resumes exactly as if it had never been tried, but for addresses
      already saved. */
  lemma FailedCommitForgotten(cfg: Config, ops: seq<Op>, b: Block)
    requires SingleRun(cfg, ops)
    requires b.number == Reached(cfg, ops).0.lastBlock + 1 && CommitStep(cfg, Reached(cfg, ops).0, b).1.Err?
    ensures var s := Reached(cfg, ops).0;
            var t := CommitStep(cfg, s, b).0;
            Restarted(cfg, t) == Restarted(cfg, s).(addresses := t.addresses)
  {
    hide Run, SingleBlockRun, Inv, NomtInv, CommitStep, WriteAll, BlockWrites, StemClash, IndexClash, Logical, PutAll,
      Restarted, NewAddresses, SaveAddresses, RolledBack;
    SingleReached(cfg, ops);
    var (s, r) := Reached(cfg, ops);
    var t := CommitStep(cfg, s, b).0;
    CommitFailsExactly(cfg, s, b);
    BlockSnapshot(Top(s.nomt), b);
    StackHeight(cfg, s, r);
    OneFurther(s.nomt, s.lastBlock - s.persistedBlock, WriteAll(Top(s.nomt), BlockWrites(b)));
    NoRollback(s.nomt);
    assert RestartStep(cfg, s).Ok? by { ReachedStarts(cfg, ops); }
    SameRestart(cfg, s, t);
  }

  lemma NoRollback(stack: Stack)
    ensures RolledBack(stack, 0) == stack
  {
  }

  lemma ReachedStarts(cfg: Config, ops: seq<Op>)
    requires ValidRun(cfg, ops)
    ensures RestartStep(cfg, Reached(cfg, ops).0).Ok?
  {
    hide Run, After, AdmissibleRun, OneAddressRun, RestartStep;
    ValidIsAfter(cfg, ops);
    StartUpVerifies(cfg, ops);
  }

  /** Heights of a single-block chain's stack. */
  lemma StackHeight(cfg: Config, s: State, r: Reference)
    requires Inv(cfg, s, r) && NomtInv(s, r)
    ensures s.persistedBlock <= s.lastBlock == ReadHead(Top(s.nomt)) && |s.nomt| == s.lastBlock + 1
    ensures DurableHead(s).number == s.persistedBlock
  {
    hide Contents, Undoable, Covered, NomtOf, EntriesSorted;
    NomtHead(r.live);
  }

  lemma SameRestart(cfg: Config, s: State, t: State)
    requires t == s.(nomt := t.nomt, dirty := t.dirty, addresses := t.addresses)
    requires DurableHead(s).number == s.persistedBlock <= s.lastBlock == ReadHead(Top(s.nomt))
    requires ReadHead(Top(t.nomt)) == s.lastBlock + 1
    requires RolledBack(t.nomt, s.lastBlock - s.persistedBlock + 1) == RolledBack(s.nomt, s.lastBlock - s.persistedBlock)
    requires s.persistedBlock == s.lastBlock ==> RolledBack(s.nomt, 0) == s.nomt
    requires RestartStep(cfg, s).Ok?
    ensures Restarted(cfg, t) == Restarted(cfg, s).(addresses := t.addresses)
  {
    hide RootOfRows, ReadHead, RolledBack;
  }
}
