/** A revert drops the live blocks it names and keeps the invariant. */
module RevertKeeps {
  import opened Types
  import opened Sorting
  import opened Ledger
  import opened StemRows
  import opened Tables
  import opened Index
  import opened NomtStore
  import opened Machine
  import opened LiveChain
  import opened Invariant

  /** The lists stored under `ns`, one after the other: what a revert of `ns` replays. */
  function AllSlots(deltas: DeltaTable, ns: seq<u64>): seq<Delta>
    decreases |ns|
  {
    if ns == [] then [] else AllSlots(deltas, ns[..|ns| - 1]) + Slot(deltas, ns[|ns| - 1])
  }

  /** The chain a revert should come back to. */
  function Beneath(r: Reference, blocks: map<u64, B256>): seq<Block>
    requires blocks != map[]
  {
    Below(r.live, Lowest(blocks))
  }

  /** What a revert asks of its caller: no gap above the last block, and stored lists that
      lead to the map of the live blocks below it. `RevertReachesExactly` says that nothing
      less will do, `RevertExactly` and `SteppedReaches` what it comes to for ranges that are
      aligned with commits. */
  ghost predicate RevertAdmissible(s: State, r: Reference, blocks: map<u64, B256>) {
    blocks != map[] ==>
      && Lowest(blocks) <= s.lastBlock + 1
      && Reaches(Logical(s), LedgerOf(Beneath(r, blocks)), AllSlots(s.deltas, Ascending(blocks)))
  }

  ghost predicate IsTip(live: seq<Block>, n: u64) {
    exists i :: 0 <= i < |live| && live[i].number == n
  }

  ghost predicate NamesTips(live: seq<Block>, blocks: map<u64, B256>)
    requires blocks != map[]
  {
    forall i :: 0 <= i < |live| && Lowest(blocks) <= live[i].number ==> live[i].number in blocks
  }

  /** No live block from `lo` up has lost its list to pruning. */
  ghost predicate Unpruned(r: Reference, lo: int) {
    forall i :: 0 <= i < |r.live| && lo <= r.live[i].number ==> r.pruned <= r.live[i].number
  }

  /* ---- What a revert replays ---- */

  lemma {:induction false} SameSlots(a: DeltaTable, b: DeltaTable, ns: seq<u64>)
    requires forall n :: n in ns ==> Slot(a, n) == Slot(b, n)
    ensures AllSlots(a, ns) == AllSlots(b, ns)
    decreases |ns|
  {
    if ns != [] {
      hide Slot;
      var front, last := ns[..|ns| - 1], ns[|ns| - 1];
      assert ns == front + [last];
      SameSlots(a, b, front);
    }
  }

  lemma {:induction false} SlotIsPart(deltas: DeltaTable, ns: seq<u64>, n: u64, key: TreeKey)
    requires n in ns && Mentions(Slot(deltas, n), key)
    ensures Mentions(AllSlots(deltas, ns), key)
    decreases |ns|
  {
    hide Slot;
    var front, last := ns[..|ns| - 1], ns[|ns| - 1];
    assert ns == front + [last];
    var before, list := AllSlots(deltas, front), Slot(deltas, last);
    if n == last {
      var i :| 0 <= i < |list| && list[i].key == key;
      assert (before + list)[|before| + i].key == key;
    } else {
      SlotIsPart(deltas, front, n, key);
      var i :| 0 <= i < |before| && before[i].key == key;
      assert (before + list)[i].key == key;
    }
  }

  /** The block loop, whatever it deletes on the way, replays the stored lists as one. */
  lemma {:induction false} BlocksReplay(s: State, ns: seq<u64>)
    requires StrictlySorted(ns)
    ensures Logical(UndoBlocks(s, ns)) == Undo(Logical(s), AllSlots(s.deltas, ns))
    decreases |ns|
  {
    if ns != [] {
      hide OverlayUndo, Flatten, Undo, Slot;
      var n, front := ns[|ns| - 1], ns[..|ns| - 1];
      var t := UndoBlock(s, n);
      OverlayUndoRefines(s.stems, s.dirty, Slot(s.deltas, n));
      BlocksReplay(t, front);
      forall k | k in front ensures Slot(t.deltas, k) == Slot(s.deltas, k) {
        OtherSlot(s, n, k);
      }
      SameSlots(t.deltas, s.deltas, front);
      UndoConcat(Logical(s), AllSlots(s.deltas, front), Slot(s.deltas, n));
    } else {
      assert Undo(Logical(s), []) == Logical(s);
    }
  }

  lemma OtherSlot(s: State, n: u64, k: u64)
    requires k != n
    ensures Slot(UndoBlock(s, n).deltas, k) == Slot(s.deltas, k)
  {
    hide OverlayUndo;
  }

  /** The state after the block loop and the head move, before any flush. */
  function Unwound(s: State, blocks: map<u64, B256>): State
    requires blocks != map[]
  {
    Rewound(UndoBlocks(s.(nomt := RolledBack(s.nomt, |blocks|)), Ascending(blocks)), blocks)
  }

  lemma RewoundEffective(s: State, blocks: map<u64, B256>)
    requires blocks != map[]
    ensures Effective(Rewound(s, blocks)) == Effective(s)
  {
    hide Lowest;
  }

  lemma UnwoundReplays(s: State, blocks: map<u64, B256>)
    requires blocks != map[]
    ensures Logical(Unwound(s, blocks)) == Undo(Logical(s), AllSlots(s.deltas, Ascending(blocks)))
  {
    hide Flatten, UndoBlocks, Undo, AllSlots, RolledBack, Rewound, Ascending;
    var start := s.(nomt := RolledBack(s.nomt, |blocks|));
    BlocksReplay(start, Ascending(blocks));
    RewoundEffective(UndoBlocks(start, Ascending(blocks)), blocks);
    assert start.stems + start.dirty == s.stems + s.dirty;
  }

  /** A revert of any numbers in any state replays their stored lists, flush or no flush. */
  lemma RevertReplays(cfg: Config, s: State, blocks: map<u64, B256>)
    requires blocks != map[]
    ensures Logical(RevertStep(cfg, s, blocks)) == Undo(Logical(s), AllSlots(s.deltas, Ascending(blocks)))
  {
    hide Logical, Undo, AllSlots, Ascending, UndoBlocks, RolledBack, Rewound, FlushAll;
    UnwoundReplays(s, blocks);
    FlushLogical(cfg, Unwound(s, blocks));
  }

  lemma FlushLogical(cfg: Config, t: State)
    ensures Logical(FlushAll(cfg, t)) == Logical(t)
  {
    hide Flatten, RootOfRows;
    assert t.stems + t.dirty + map[] == t.stems + t.dirty;
  }

  /** In any state, for any numbers and any map wanted: a revert arrives at that map exactly
      when, for each key, the oldest record it replays holds the value wanted, and no key that
      has to change lacks a record. */
  lemma RevertReachesExactly(cfg: Config, s: State, base: Ledger, blocks: map<u64, B256>)
    requires blocks != map[]
    ensures Logical(RevertStep(cfg, s, blocks)) == base
       <==> Reaches(Logical(s), base, AllSlots(s.deltas, Ascending(blocks)))
  {
    hide Logical, Undo, AllSlots, Ascending, RevertStep, Reaches;
    RevertReplays(cfg, s, blocks);
    UndoReachesExactly(Logical(s), base, AllSlots(s.deltas, Ascending(blocks)));
  }

  /** A range that names every live block from its lowest up, none of them pruned, records
      every key it has to change. */
  lemma AlignedMentions(s: State, r: Reference, blocks: map<u64, B256>, key: TreeKey)
    requires Tips(s, r) && Contents(s, r) && Undoable(s.deltas, r) && blocks != map[]
    requires NamesTips(r.live, blocks) && Unpruned(r, Lowest(blocks))
    requires Lookup(Logical(s), key) != Lookup(LedgerOf(Beneath(r, blocks)), key)
    ensures Mentions(AllSlots(s.deltas, Ascending(blocks)), key)
  {
    hide Flatten, LedgerOf, Below, AllSlots, Mentions, Retained, Slot, Lowest;
    BelowSpec(r.live, Lowest(blocks));
    var j := |Beneath(r, blocks)|;
    assert r.live[..|r.live|] == r.live;
    if forall i :: j <= i < |r.live| ==> !Mentions(Slot(s.deltas, r.live[i].number), key) {
      UnchangedAcross(s.deltas, r.live, j, |r.live|, key);
    } else {
      var i :| j <= i < |r.live| && Mentions(Slot(s.deltas, r.live[i].number), key);
      SlotIsPart(s.deltas, Ascending(blocks), r.live[i].number, key);
    }
  }

  /** A revert aligned with commits whose lists are still stored restores the map below it
      exactly when the lists it replays, leftovers included, are harmless there taken together. */
  lemma RevertExactly(cfg: Config, s: State, r: Reference, blocks: map<u64, B256>)
    requires Inv(cfg, s, r) && blocks != map[]
    requires NamesTips(r.live, blocks) && Unpruned(r, Lowest(blocks))
    ensures Logical(RevertStep(cfg, s, blocks)) == LedgerOf(Beneath(r, blocks))
       <==> Harmless(LedgerOf(Beneath(r, blocks)), AllSlots(s.deltas, Ascending(blocks)))
  {
    hide Logical, LedgerOf, Beneath, AllSlots, RevertStep, Harmless, Mentions, NamesTips, Unpruned, HeadMatches, Covered;
    var base := LedgerOf(Beneath(r, blocks));
    RevertReachesExactly(cfg, s, base, blocks);
    forall k | Lookup(Logical(s), k) != Lookup(base, k)
      ensures Mentions(AllSlots(s.deltas, Ascending(blocks)), k)
    {
      AlignedMentions(s, r, blocks, k);
    }
  }

  /* ---- One number at a time ---- */

  /** Replaying the list stored under `n` takes the chain up to `n` to the chain below it. */
  ghost predicate Restores(deltas: DeltaTable, live: seq<Block>, n: u64) {
    Undo(LedgerOf(Below(live, n + 1)), Slot(deltas, n)) == LedgerOf(Below(live, n))
  }

  /** A number that is no live tip restores exactly when its slot is harmless. */
  lemma NoTipRestores(deltas: DeltaTable, live: seq<Block>, n: u64)
    requires Increasing(live) && !IsTip(live, n)
    ensures Restores(deltas, live, n) <==> Harmless(LedgerOf(Below(live, n)), Slot(deltas, n))
  {
    hide Undo, Harmless;
    assert forall i :: 0 <= i < |live| ==> live[i].number != n;
    BelowSame(live, n, n + 1);
    HarmlessExactly(LedgerOf(Below(live, n)), Slot(deltas, n));
  }

  /** A live tip that kept its list restores exactly when it changed something or its slot
      is harmless. */
  lemma TipRestores(deltas: DeltaTable, live: seq<Block>, i: nat)
    requires Increasing(live) && i < |live| && Retained(deltas, live, i)
    ensures Restores(deltas, live, live[i].number)
       <==> DeltasOf(LedgerOf(live[..i]), live[i].entries) != [] || Harmless(LedgerOf(live[..i]), Slot(deltas, live[i].number))
  {
    hide Undo, DeltasOf, LedgerOf, Harmless, Slot, PutAll;
    var b, before := live[i], LedgerOf(live[..i]);
    BelowIs(live, b.number, i);
    BelowIs(live, b.number + 1, i + 1);
    assert live[..i + 1] == live[..i] + [b];
    LedgerAppend(live[..i], b);
    UndoRestores(before, b.entries);
    HarmlessExactly(before, Slot(deltas, b.number));
    if DeltasOf(before, b.entries) == [] {
      NoDeltasNoChange(before, b.entries);
    }
  }

  /** The block loop takes the ledger down from above the highest number to below the lowest. */
  lemma {:induction false} UndoWalk(s: State, live: seq<Block>, ns: seq<u64>)
    requires Increasing(live) && StrictlySorted(ns) && ns != []
    requires forall n :: n in ns ==> Restores(s.deltas, live, n)
    requires forall i :: 0 <= i < |live| && ns[0] <= live[i].number <= ns[|ns| - 1] ==> live[i].number in ns
    requires Logical(s) == LedgerOf(Below(live, ns[|ns| - 1] as int + 1))
    ensures Logical(UndoBlocks(s, ns)) == LedgerOf(Below(live, ns[0]))
    decreases |ns|
  {
    hide LedgerOf, Undo, Below, Flatten, OverlayUndo;
    var n, front := ns[|ns| - 1], ns[..|ns| - 1];
    var t := UndoBlock(s, n);
    assert Restores(s.deltas, live, n);
    OverlayUndoRefines(s.stems, s.dirty, Slot(s.deltas, n));
    assert Logical(t) == LedgerOf(Below(live, n));
    if front != [] {
      var m := front[|front| - 1];
      forall i | 0 <= i < |live| ensures !(m + 1 <= live[i].number < n) {
        if ns[0] <= live[i].number <= n {
          var j :| 0 <= j < |ns| && ns[j] == live[i].number;
          assert j < |front| ==> ns[j] <= m;
        }
      }
      BelowSame(live, m + 1, n);
      forall k | k in front ensures Restores(t.deltas, live, k) {
        assert k in ns && k < n;
        assert Slot(t.deltas, k) == Slot(s.deltas, k);
        assert Restores(s.deltas, live, k);
      }
      forall i | 0 <= i < |live| && front[0] <= live[i].number <= m ensures live[i].number in front {
        var j :| 0 <= j < |ns| && ns[j] == live[i].number;
        assert j < |front| && front[j] == ns[j];
      }
      UndoWalk(t, live, front);
    } else {
      assert UndoBlocks(t, front) == t;
    }
  }

  /** What the block loop leaves alone. */
  lemma {:induction false} UndoFrame(s: State, ns: seq<u64>)
    ensures var t := UndoBlocks(s, ns);
            && t == s.(dirty := t.dirty, deltas := t.deltas)
            && (forall n :: n in t.deltas ==> n in s.deltas && t.deltas[n] == s.deltas[n])
            && (forall n :: n in s.deltas && (n !in ns || n <= s.persistedBlock) ==> n in t.deltas)
    decreases |ns|
  {
    if ns != [] {
      hide OverlayUndo;
      var n, front := ns[|ns| - 1], ns[..|ns| - 1];
      UndoFrame(UndoBlock(s, n), front);
      assert ns == front + [n];
    }
  }

  /** The block loop deletes the list of every number above the persisted block. */
  lemma {:induction false} UndoDeletes(s: State, ns: seq<u64>)
    ensures forall n :: n in UndoBlocks(s, ns).deltas ==> n !in ns || n <= s.persistedBlock
    decreases |ns|
  {
    if ns != [] {
      hide OverlayUndo;
      var n, front := ns[|ns| - 1], ns[..|ns| - 1];
      UndoFrame(UndoBlock(s, n), front);
      UndoDeletes(UndoBlock(s, n), front);
      assert ns == front + [n];
    }
  }

  lemma {:induction false} UndoKeys(s: State, ns: seq<u64>)
    requires DeltasKnown(s.index, s.addresses, s.deltas) && Effective(s).Keys <= s.addresses.Keys
    ensures Effective(UndoBlocks(s, ns)).Keys <= s.addresses.Keys
    decreases |ns|
  {
    if ns != [] {
      hide OverlayUndo, KeyKnown;
      var n, front := ns[|ns| - 1], ns[..|ns| - 1];
      var t := UndoBlock(s, n);
      OverlayUndoKeys(s.stems, s.dirty, Slot(s.deltas, n));
      forall stem | stem in DeltaStems(Slot(s.deltas, n)) ensures stem in s.addresses {
        var d :| d in Slot(s.deltas, n) && d.key.stem == stem;
        KnownHasAddress(s, d.key);
      }
      UndoKeys(t, front);
    }
  }

  lemma KnownHasAddress(s: State, key: TreeKey)
    requires KeyKnown(s.index, s.addresses, key)
    ensures key.stem in s.addresses
  {
  }

  /** The blocks below `lo` stay, and a number that comes again has a list again. */
  function Cut(r: Reference, lo: nat): Reference {
    Reference(Below(r.live, lo), if lo < r.pruned then lo else r.pruned)
  }

  function RevertReference(r: Reference, blocks: map<u64, B256>): Reference {
    if blocks == map[] then r else Cut(r, Lowest(blocks))
  }

  lemma UnwoundLedger(s: State, r: Reference, blocks: map<u64, B256>)
    requires blocks != map[] && RevertAdmissible(s, r, blocks)
    ensures Logical(Unwound(s, blocks)) == LedgerOf(Beneath(r, blocks))
  {
    hide Logical, LedgerOf, Beneath, AllSlots, Undo, Unwound, Reaches;
    UnwoundReplays(s, blocks);
    UndoReachesExactly(Logical(s), LedgerOf(Beneath(r, blocks)), AllSlots(s.deltas, Ascending(blocks)));
  }

  /** A range that names every live block from its lowest up leads to the map below it when
      each number restores on its own. */
  lemma SteppedReaches(s: State, r: Reference, blocks: map<u64, B256>)
    requires Tips(s, r) && Contents(s, r) && blocks != map[] && NamesTips(r.live, blocks)
    requires forall n :: n in blocks ==> Restores(s.deltas, r.live, n)
    ensures Reaches(Logical(s), LedgerOf(Beneath(r, blocks)), AllSlots(s.deltas, Ascending(blocks)))
  {
    hide Restores, Flatten, UndoBlocks, LedgerOf, Below, NamesTips, Undo, AllSlots, Reaches;
    var ns := Ascending(blocks);
    HighestNamed(s, r, blocks);
    UndoWalk(s, r.live, ns);
    BlocksReplay(s, ns);
    UndoReachesExactly(Logical(s), LedgerOf(Beneath(r, blocks)), AllSlots(s.deltas, ns));
  }

  /** The named numbers span the live tips from the lowest of them up. */
  lemma HighestNamed(s: State, r: Reference, blocks: map<u64, B256>)
    requires Tips(s, r) && blocks != map[] && NamesTips(r.live, blocks)
    ensures var ns := Ascending(blocks);
            && ns != [] && ns[0] == Lowest(blocks)
            && Below(r.live, ns[|ns| - 1] as int + 1) == r.live
            && (forall i :: 0 <= i < |r.live| && ns[0] <= r.live[i].number ==> r.live[i].number in ns)
  {
    var ns := Ascending(blocks);
    assert Lowest(blocks) in ns && ns[0] in ns;
    var top: int := ns[|ns| - 1];
    forall i | 0 <= i < |r.live| ensures r.live[i].number < top + 1 {
      if r.live[i].number >= ns[0] {
        assert r.live[i].number in ns;
      }
    }
    BelowAll(r.live, top + 1);
  }

  lemma AdmissiblePlace(s: State, r: Reference, blocks: map<u64, B256>)
    requires blocks != map[] && RevertAdmissible(s, r, blocks)
    ensures Lowest(blocks) <= s.lastBlock + 1
  {
  }

  /** A shorter chain over slots that did not change for its blocks. */
  lemma ShorterUndoable(before: DeltaTable, after: DeltaTable, r: Reference, lo: int, pruned: nat)
    requires Increasing(r.live) && Undoable(before, r)
    requires forall n: u64 :: n < lo ==> Slot(after, n) == Slot(before, n)
    requires forall n :: n in after ==> n in before
    requires pruned <= r.pruned && (pruned < r.pruned ==> lo <= pruned)
    ensures Undoable(after, Reference(Below(r.live, lo), pruned))
  {
    hide LedgerOf, DeltasOf, Below, Slot;
    var live := Below(r.live, lo);
    BelowSpec(r.live, lo);
    forall i | 0 <= i < |live| && pruned <= live[i].number ensures Retained(after, live, i) {
      assert live[i] == r.live[i] && live[i].number < lo;
      assert Retained(before, r.live, i);
      assert live[..i] == r.live[..i];
    }
  }

  lemma UnwoundSlots(s: State, blocks: map<u64, B256>)
    requires blocks != map[]
    ensures forall n: u64 :: n < Lowest(blocks) ==> Slot(Unwound(s, blocks).deltas, n) == Slot(s.deltas, n)
    ensures forall n :: n in Unwound(s, blocks).deltas ==> n in s.deltas
  {
    hide UndoBlocks, RolledBack, Lowest, Ascending;
    UndoFrame(s.(nomt := RolledBack(s.nomt, |blocks|)), Ascending(blocks));
  }

  /** The blocks that stay live keep their slots. */
  lemma UnwoundUndoable(s: State, r: Reference, blocks: map<u64, B256>)
    requires Increasing(r.live) && Undoable(s.deltas, r) && blocks != map[]
    ensures Undoable(Unwound(s, blocks).deltas, RevertReference(r, blocks))
  {
    hide Unwound, Undoable, Below, Slot, Lowest;
    UnwoundSlots(s, blocks);
    ShorterUndoable(s.deltas, Unwound(s, blocks).deltas, r, Lowest(blocks), RevertReference(r, blocks).pruned);
  }

  lemma UnwoundCovered(s: State, r: Reference, blocks: map<u64, B256>)
    requires Covered(s, r) && blocks != map[]
    ensures Covered(Unwound(s, blocks), RevertReference(r, blocks))
  {
    hide UndoBlocks, Below, KeyKnown, Ascending, RolledBack, NomtKnown, LiveKnown, AddressesIndexed, Unwound;
    var start := s.(nomt := RolledBack(s.nomt, |blocks|));
    UnwoundFrame(s, blocks);
    UndoKeys(start, Ascending(blocks));
    RolledBackKnown(s.index, s.nomt, |blocks|);
    PrefixKnown(s.index, s.addresses, r.live, RevertReference(r, blocks).live);
  }

  lemma UnwoundFrame(s: State, blocks: map<u64, B256>)
    requires blocks != map[]
    ensures var t, lo := Unwound(s, blocks), Lowest(blocks);
            && t == s.(nomt := RolledBack(s.nomt, |blocks|), dirty := t.dirty, deltas := t.deltas,
                       lastBlock := if lo > 0 then lo - 1 else 0, lastHash := if lo > 0 then blocks[lo] else 0)
            && (forall n :: n in t.deltas ==> n in s.deltas && t.deltas[n] == s.deltas[n])
            && Effective(t) == Effective(UndoBlocks(s.(nomt := RolledBack(s.nomt, |blocks|)), Ascending(blocks)))
  {
    hide UndoBlocks, Ascending, RolledBack, Lowest;
    var start := s.(nomt := RolledBack(s.nomt, |blocks|));
    UndoFrame(start, Ascending(blocks));
    RewoundEffective(UndoBlocks(start, Ascending(blocks)), blocks);
  }

  lemma RolledBackKnown(index: Index, nomt: Stack, n: nat)
    requires NomtKnown(index, nomt)
    ensures NomtKnown(index, RolledBack(nomt, n))
  {
    var after := RolledBack(nomt, n);
    forall j, x | 0 <= j < |after| && x in after[j] && x != HEAD_KEY ensures Covers(index, KeyAt(x)) {
      assert after[j] == nomt[j];
    }
  }

  lemma PrefixKnown(index: Index, addresses: Addresses, live: seq<Block>, prefix: seq<Block>)
    requires LiveKnown(index, addresses, live)
    requires |prefix| <= |live| && prefix == live[..|prefix|]
    ensures LiveKnown(index, addresses, prefix)
  {
    assert forall i :: 0 <= i < |prefix| ==> prefix[i] == live[i];
  }

  /** Where the counters end up, and that unpersisted blocks leave the rows alone. */
  lemma UnwoundPlace(cfg: Config, s: State, blocks: map<u64, B256>)
    requires blocks != map[]
    ensures var t, lo := Unwound(s, blocks), Lowest(blocks);
            && t == s.(nomt := t.nomt, dirty := t.dirty, deltas := t.deltas, lastBlock := t.lastBlock, lastHash := t.lastHash)
            && t.lastBlock == (if lo > 0 then lo - 1 else 0)
            && ((exists b :: b in blocks && b <= s.persistedBlock) <==> lo <= s.persistedBlock)
            && RevertStep(cfg, s, blocks) == if lo <= s.persistedBlock then FlushAll(cfg, t) else t
  {
    hide UndoBlocks, FlushAll, Ascending, RolledBack, Lowest;
    UnwoundFrame(s, blocks);
    if lo :| lo in blocks && lo <= s.persistedBlock {
      assert Lowest(blocks) <= lo;
    }
  }

  lemma ShorterTips(s: State, r: Reference, lo: int)
    requires Tips(s, r)
    ensures Increasing(Below(r.live, lo))
    ensures forall i :: 0 <= i < |Below(r.live, lo)| ==> 0 < Below(r.live, lo)[i].number < lo
  {
    BelowSpec(r.live, lo);
    var live := Below(r.live, lo);
    assert forall i :: 0 <= i < |live| ==> live[i] == r.live[i];
  }

  lemma RevertKeepsInvariant(cfg: Config, s: State, r: Reference, blocks: map<u64, B256>)
    requires Inv(cfg, s, r) && RevertAdmissible(s, r, blocks)
    ensures Inv(cfg, RevertStep(cfg, s, blocks), RevertReference(r, blocks))
  {
    hide Inv, RevertAdmissible, Lowest, UndoBlocks, Ascending, FlushAll, Rewound, Below, RolledBack;
    if blocks != map[] {
      NonEmptyRevertKeeps(cfg, s, r, blocks);
    }
  }

  lemma NonEmptyRevertKeeps(cfg: Config, s: State, r: Reference, blocks: map<u64, B256>)
    requires Inv(cfg, s, r) && RevertAdmissible(s, r, blocks) && blocks != map[]
    ensures Inv(cfg, RevertStep(cfg, s, blocks), RevertReference(r, blocks))
  {
    hide LedgerOf, Undoable, Covered, RevertAdmissible, Unwound, RevertStep, FlushAll, Below, Contents, HeadMatches,
      Lowest, Effective, Logical;
    var t, lo := Unwound(s, blocks), Lowest(blocks);
    AdmissiblePlace(s, r, blocks);
    UnwoundPlace(cfg, s, blocks);
    UnwoundLedger(s, r, blocks);
    UnwoundUndoable(s, r, blocks);
    UnwoundCovered(s, r, blocks);
    ShorterTips(s, r, lo);
    if lo <= s.persistedBlock {
      FlushUnwound(cfg, s, t, RevertReference(r, blocks));
    } else {
      KeepUnwound(cfg, s, r, t, lo);
    }
  }

  /** When only unpersisted blocks were reverted the rows and the head stand. */
  lemma KeepUnwound(cfg: Config, s: State, r: Reference, t: State, lo: nat)
    requires Inv(cfg, s, r) && s.persistedBlock < lo <= s.lastBlock + 1 && t.lastBlock == lo - 1
    requires t == s.(nomt := t.nomt, dirty := t.dirty, deltas := t.deltas, lastBlock := t.lastBlock, lastHash := t.lastHash)
    requires Undoable(t.deltas, Cut(r, lo)) && Covered(t, Cut(r, lo))
    requires Logical(t) == LedgerOf(Below(r.live, lo))
    ensures Inv(cfg, t, Cut(r, lo))
  {
    hide Flatten, RootOfRows, LedgerOf, Below, Undoable, Covered;
    ShorterTips(s, r, lo);
    BelowBelow(r.live, s.persistedBlock + 1, lo);
  }

  /** When persisted blocks were reverted the whole overlay is flushed, whatever the rows held. */
  lemma FlushUnwound(cfg: Config, s: State, t: State, q: Reference)
    requires Logical(t) == LedgerOf(q.live) && Undoable(t.deltas, q) && Covered(t, q)
    requires Increasing(q.live) && q.pruned <= t.lastBlock + 1
    requires forall i :: 0 <= i < |q.live| ==> 0 < q.live[i].number <= t.lastBlock
    ensures Inv(cfg, FlushAll(cfg, t), q)
  {
    hide Flatten, RootOfRows, LedgerOf, Below, Undoable, LiveKnown, DeltasKnown, NomtKnown, AddressesIndexed;
    var f := FlushAll(cfg, t);
    assert f.stems + f.dirty == t.stems + t.dirty;
    BelowAll(q.live, t.lastBlock + 1);
  }
}
