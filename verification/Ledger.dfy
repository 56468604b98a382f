/** The reference model: one map from keys to non-zero values, the undo
    records a block leaves behind, and what replaying them restores. */
module Ledger {
  import opened Types

  type Ledger = map<TreeKey, NonZero>

  /** A missing key reads as zero. */
  function Lookup(m: Ledger, key: TreeKey): B256 {
    if key in m then m[key] else 0
  }

  /** Writing zero removes the key. */
  function Put(m: Ledger, key: TreeKey, value: B256): Ledger {
    if value == 0 then m - {key} else m[key := value]
  }

  function PutAll(m: Ledger, entries: seq<Entry>): Ledger
    decreases |entries|
  {
    if entries == [] then m
    else PutAll(Put(m, entries[0].key, entries[0].value), entries[1..])
  }

  /** The undo records of a block: the old value at each entry that changes one. */
  function DeltasOf(m: Ledger, entries: seq<Entry>): seq<Delta>
    decreases |entries|
  {
    if entries == [] then []
    else
      var e := entries[0];
      var rest := DeltasOf(Put(m, e.key, e.value), entries[1..]);
      if Lookup(m, e.key) != e.value then [Delta(e.key, Lookup(m, e.key))] + rest else rest
  }

  /** Replay undo records, newest (last) first. */
  function Undo(m: Ledger, deltas: seq<Delta>): Ledger
    decreases |deltas|
  {
    if deltas == [] then m
    else Put(Undo(m, deltas[1..]), deltas[0].key, deltas[0].old_)
  }

  lemma LedgersEqual(a: Ledger, b: Ledger)
    requires forall k :: Lookup(a, k) == Lookup(b, k)
    ensures a == b
  {
    forall k ensures k in a <==> k in b {
      assert Lookup(a, k) == Lookup(b, k);
    }
    forall k | k in a ensures a[k] == b[k] {
      assert Lookup(a, k) == Lookup(b, k);
    }
  }

  /** Undo records restore the ledger they were taken from, repeated keys included. */
  lemma {:induction false} UndoRestores(m: Ledger, entries: seq<Entry>)
    ensures Undo(PutAll(m, entries), DeltasOf(m, entries)) == m
    decreases |entries|
  {
    if entries != [] {
      var e := entries[0];
      var m1 := Put(m, e.key, e.value);
      UndoRestores(m1, entries[1..]);
      var rest := DeltasOf(m1, entries[1..]);
      if Lookup(m, e.key) != e.value {
        var all := [Delta(e.key, Lookup(m, e.key))] + rest;
        assert all[1..] == rest;
        assert DeltasOf(m, entries) == all;
        assert Undo(PutAll(m, entries), all) == Put(m1, e.key, Lookup(m, e.key));
        LedgersEqual(Put(m1, e.key, Lookup(m, e.key)), m);
      } else {
        LedgersEqual(m1, m);
      }
    }
  }

  lemma NoDeltasNoChange(m: Ledger, entries: seq<Entry>)
    requires DeltasOf(m, entries) == []
    ensures PutAll(m, entries) == m
  {
    UndoRestores(m, entries);
  }

  /** No record, read oldest first, disagrees with `m` at the first mention of its key. */
  ghost predicate Harmless(m: Ledger, deltas: seq<Delta>) {
    forall i :: 0 <= i < |deltas| && (forall j :: 0 <= j < i ==> deltas[j].key != deltas[i].key)
      ==> deltas[i].old_ == Lookup(m, deltas[i].key)
  }

  /** Undo at one key is decided by the first record that mentions it. */
  lemma {:induction false} UndoAt(m: Ledger, deltas: seq<Delta>, key: TreeKey)
    ensures (forall j :: 0 <= j < |deltas| ==> deltas[j].key != key)
              ==> Lookup(Undo(m, deltas), key) == Lookup(m, key)
    ensures forall i :: 0 <= i < |deltas| && deltas[i].key == key
                        && (forall j :: 0 <= j < i ==> deltas[j].key != key)
              ==> Lookup(Undo(m, deltas), key) == deltas[i].old_
    decreases |deltas|
  {
    if deltas != [] {
      var rest := deltas[1..];
      UndoAt(m, rest, key);
      if deltas[0].key != key {
        assert Lookup(Undo(m, deltas), key) == Lookup(Undo(m, rest), key);
        if forall j :: 0 <= j < |deltas| ==> deltas[j].key != key {
          assert forall j :: 0 <= j < |rest| ==> rest[j].key == deltas[j + 1].key;
        }
        forall i | 0 <= i < |deltas| && deltas[i].key == key
                   && (forall j :: 0 <= j < i ==> deltas[j].key != key)
          ensures Lookup(Undo(m, deltas), key) == deltas[i].old_
        {
          assert rest[i - 1] == deltas[i];
          assert forall j :: 0 <= j < i - 1 ==> rest[j] == deltas[j + 1];
        }
      }
    }
  }

  ghost predicate Mentions(deltas: seq<Delta>, key: TreeKey) {
    exists i :: 0 <= i < |deltas| && deltas[i].key == key
  }

  /** `deltas` holds `base`'s value for each key it mentions, and mentions each key at which `m` differs. */
  ghost predicate Reaches(m: Ledger, base: Ledger, deltas: seq<Delta>) {
    Harmless(base, deltas) && forall k :: Lookup(m, k) != Lookup(base, k) ==> Mentions(deltas, k)
  }

  /** The value replay leaves at a key that is mentioned, or not. */
  lemma UndoLookup(m: Ledger, deltas: seq<Delta>, key: TreeKey)
    ensures !Mentions(deltas, key) ==> Lookup(Undo(m, deltas), key) == Lookup(m, key)
    ensures Mentions(deltas, key) ==> exists f ::
              && 0 <= f < |deltas| && deltas[f].key == key && (forall j :: 0 <= j < f ==> deltas[j].key != key)
              && Lookup(Undo(m, deltas), key) == deltas[f].old_
  {
    hide Undo, Lookup;
    UndoAt(m, deltas, key);
    if Mentions(deltas, key) {
      var i :| 0 <= i < |deltas| && deltas[i].key == key;
      var f := FirstMention(deltas, i);
    }
  }

  /** Replay takes one map to another exactly when, for each key, the oldest record holds the
      value wanted, and no key that differs lacks a record. */
  lemma UndoReachesExactly(m: Ledger, base: Ledger, deltas: seq<Delta>)
    ensures Undo(m, deltas) == base <==> Reaches(m, base, deltas)
  {
    hide Undo, Lookup, Mentions;
    if Undo(m, deltas) == base {
      forall i | 0 <= i < |deltas| && (forall j :: 0 <= j < i ==> deltas[j].key != deltas[i].key)
        ensures deltas[i].old_ == Lookup(base, deltas[i].key)
      {
        UndoAt(m, deltas, deltas[i].key);
      }
      forall k | Lookup(m, k) != Lookup(base, k) ensures Mentions(deltas, k) {
        UndoLookup(m, deltas, k);
      }
    }
    if Reaches(m, base, deltas) {
      forall k ensures Lookup(Undo(m, deltas), k) == Lookup(base, k) {
        UndoLookup(m, deltas, k);
      }
      LedgersEqual(Undo(m, deltas), base);
    }
  }

  /** A leftover list does no damage exactly when it is harmless. */
  lemma HarmlessExactly(m: Ledger, deltas: seq<Delta>)
    ensures Undo(m, deltas) == m <==> Harmless(m, deltas)
  {
    hide Undo, Lookup, Harmless;
    UndoReachesExactly(m, m, deltas);
  }

  /** Replaying two lists one after the other is replaying their concatenation. */
  lemma {:induction false} UndoConcat(m: Ledger, a: seq<Delta>, b: seq<Delta>)
    ensures Undo(m, a + b) == Undo(Undo(m, b), a)
    decreases |a|
  {
    if a == [] {
      assert a + b == b;
    } else {
      assert (a + b)[1..] == a[1..] + b;
      UndoConcat(m, a[1..], b);
    }
  }

  lemma {:induction false} FirstMention(deltas: seq<Delta>, i: nat) returns (f: nat)
    requires i < |deltas|
    ensures f <= i && deltas[f].key == deltas[i].key
    ensures forall j :: 0 <= j < f ==> deltas[j].key != deltas[i].key
  {
    f := i;
    if j :| 0 <= j < i && deltas[j].key == deltas[i].key {
      f := FirstMention(deltas, j);
    }
  }

  lemma {:induction false} PutAllMisses(m: Ledger, entries: seq<Entry>, key: TreeKey)
    requires forall j :: 0 <= j < |entries| ==> entries[j].key != key
    ensures Lookup(PutAll(m, entries), key) == Lookup(m, key)
    decreases |entries|
  {
    if entries != [] {
      var rest := entries[1..];
      assert forall j :: 0 <= j < |rest| ==> rest[j] == entries[j + 1];
      PutAllMisses(Put(m, entries[0].key, entries[0].value), rest, key);
    }
  }

  lemma {:induction false} PutAllHits(m: Ledger, entries: seq<Entry>, key: TreeKey, i: nat)
    requires i < |entries| && entries[i].key == key
    requires forall j :: i < j < |entries| ==> entries[j].key != key
    ensures Lookup(PutAll(m, entries), key) == entries[i].value
    decreases |entries|
  {
    var rest := entries[1..];
    var m1 := Put(m, entries[0].key, entries[0].value);
    assert forall j :: 0 <= j < |rest| ==> rest[j] == entries[j + 1];
    if i == 0 {
      PutAllMisses(m1, rest, key);
    } else {
      PutAllHits(m1, rest, key, i - 1);
    }
  }

  /** A key's value after a block is the last one the block writes, or the old one. */
  lemma PutAllAt(m: Ledger, entries: seq<Entry>, key: TreeKey)
    ensures (forall j :: 0 <= j < |entries| ==> entries[j].key != key)
              ==> Lookup(PutAll(m, entries), key) == Lookup(m, key)
    ensures forall i :: 0 <= i < |entries| && entries[i].key == key
                        && (forall j :: i < j < |entries| ==> entries[j].key != key)
              ==> Lookup(PutAll(m, entries), key) == entries[i].value
  {
    hide PutAll, Lookup;
    if forall j :: 0 <= j < |entries| ==> entries[j].key != key {
      PutAllMisses(m, entries, key);
    }
    forall i | 0 <= i < |entries| && entries[i].key == key && (forall j :: i < j < |entries| ==> entries[j].key != key)
      ensures Lookup(PutAll(m, entries), key) == entries[i].value
    {
      PutAllHits(m, entries, key, i);
    }
  }

  /** Every key whose value a block changes is mentioned by its undo records. */
  lemma {:induction false} DeltasCoverChanges(m: Ledger, entries: seq<Entry>, key: TreeKey)
    requires Lookup(PutAll(m, entries), key) != Lookup(m, key)
    ensures exists i :: 0 <= i < |DeltasOf(m, entries)| && DeltasOf(m, entries)[i].key == key
    decreases |entries|
  {
    var e := entries[0];
    var m1 := Put(m, e.key, e.value);
    var rest := DeltasOf(m1, entries[1..]);
    if Lookup(m, e.key) != e.value && e.key == key {
      assert DeltasOf(m, entries)[0].key == key;
    } else {
      DeltasCoverChanges(m1, entries[1..], key);
      var i :| 0 <= i < |rest| && rest[i].key == key;
      var i' := if Lookup(m, e.key) != e.value then i + 1 else i;
      assert DeltasOf(m, entries)[i'] == rest[i];
    }
  }

  /** Undo records mention only keys the block writes. */
  lemma {:induction false} DeltaKeysAreWritten(m: Ledger, entries: seq<Entry>, i: nat)
    requires i < |DeltasOf(m, entries)|
    ensures exists j :: 0 <= j < |entries| && entries[j].key == DeltasOf(m, entries)[i].key
    decreases |entries|
  {
    var e := entries[0];
    var m1 := Put(m, e.key, e.value);
    var changed := Lookup(m, e.key) != e.value;
    if changed && i == 0 {
      assert entries[0].key == DeltasOf(m, entries)[0].key;
    } else {
      var i' := if changed then i - 1 else i;
      DeltaKeysAreWritten(m1, entries[1..], i');
      var j :| 0 <= j < |entries[1..]| && entries[1..][j].key == DeltasOf(m1, entries[1..])[i'].key;
      assert entries[j + 1].key == DeltasOf(m, entries)[i].key;
    }
  }

  /* ---- Order of the entries within a block ---- */

  ghost predicate DistinctKeys(entries: seq<Entry>) {
    forall i, j :: 0 <= i < j < |entries| ==> entries[i].key != entries[j].key
  }

  function RecordCount(m: Ledger, entries: seq<Entry>, d: Delta): nat
    decreases |entries|
  {
    if entries == [] then 0
    else
      var e := entries[0];
      (if Lookup(m, e.key) != e.value && d == Delta(e.key, Lookup(m, e.key)) then 1 else 0)
      + RecordCount(m, entries[1..], d)
  }

  /** With distinct keys no entry sees another's write. */
  lemma {:induction false} DistinctRecords(m: Ledger, now: Ledger, entries: seq<Entry>, d: Delta)
    requires forall i :: 0 <= i < |entries| ==> Lookup(m, entries[i].key) == Lookup(now, entries[i].key)
    requires DistinctKeys(entries)
    ensures multiset(DeltasOf(now, entries))[d] == RecordCount(m, entries, d)
    decreases |entries|
  {
    if entries != [] {
      var e := entries[0];
      var rest := entries[1..];
      assert Lookup(m, e.key) == Lookup(now, e.key);
      assert forall i :: 0 <= i < |rest| ==> rest[i] == entries[i + 1];
      DistinctRecords(m, Put(now, e.key, e.value), rest, d);
    }
  }

  lemma {:induction false} RecordCountConcat(m: Ledger, a: seq<Entry>, b: seq<Entry>, d: Delta)
    ensures RecordCount(m, a + b, d) == RecordCount(m, a, d) + RecordCount(m, b, d)
    decreases |a|
  {
    if a == [] {
      assert a + b == b;
    } else {
      RecordCountConcat(m, a[1..], b, d);
      assert (a + b)[1..] == a[1..] + b;
    }
  }

  lemma {:induction false} RecordCountPermuted(m: Ledger, a: seq<Entry>, b: seq<Entry>, d: Delta)
    requires multiset(a) == multiset(b)
    ensures RecordCount(m, a, d) == RecordCount(m, b, d)
    decreases |a|
  {
    if a != [] {
      var i := TakeOut(a, b);
      RecordCountPermuted(m, a[1..], b[..i] + b[i + 1..], d);
      RecordCountConcat(m, b[..i], b[i + 1..], d);
      RecordCountConcat(m, b[..i], b[i..], d);
      assert b == b[..i] + b[i..];
    } else {
      assert |multiset(b)| == 0;
    }
  }

  /** Permuting a block with distinct keys permutes its undo records and nothing else. */
  lemma {:induction false} OrderIndependent(m: Ledger, a: seq<Entry>, b: seq<Entry>)
    requires multiset(a) == multiset(b) && DistinctKeys(a)
    ensures DistinctKeys(b)
    ensures PutAll(m, a) == PutAll(m, b)
    ensures multiset(DeltasOf(m, a)) == multiset(DeltasOf(m, b))
  {
    DistinctByPermutation(a, b);
    SameElements(a, b);
    forall k ensures Lookup(PutAll(m, a), k) == Lookup(PutAll(m, b), k) {
      PutAllAt(m, a, k);
      PutAllAt(m, b, k);
      if i :| 0 <= i < |a| && a[i].key == k {
        assert a[i] in b;
        var j :| 0 <= j < |b| && b[j] == a[i];
      } else {
        forall j | 0 <= j < |b| ensures b[j].key != k {
          assert b[j] in a;
        }
      }
    }
    LedgersEqual(PutAll(m, a), PutAll(m, b));
    forall d ensures multiset(DeltasOf(m, a))[d] == multiset(DeltasOf(m, b))[d] {
      DistinctRecords(m, m, a, d);
      DistinctRecords(m, m, b, d);
      RecordCountPermuted(m, a, b, d);
    }
  }

  lemma SameElements(a: seq<Entry>, b: seq<Entry>)
    requires multiset(a) == multiset(b)
    ensures |a| == |b|
    ensures forall e :: e in a <==> e in b
  {
    assert |multiset(a)| == |multiset(b)|;
    forall e ensures e in a <==> e in b {
      assert e in a <==> e in multiset(a);
      assert e in b <==> e in multiset(b);
    }
  }

  /** Take the first entry of `a` out of both lists. */
  lemma TakeOut(a: seq<Entry>, b: seq<Entry>) returns (i: nat)
    requires multiset(a) == multiset(b) && a != []
    ensures i < |b| && b[i] == a[0]
    ensures multiset(a[1..]) == multiset(b[..i] + b[i + 1..])
    ensures |a| == |b|
  {
    i := FirstIn(a, b);
    WithoutFirst(a);
    Without(b, i);
  }

  lemma FirstIn(a: seq<Entry>, b: seq<Entry>) returns (i: nat)
    requires multiset(a) == multiset(b) && a != []
    ensures i < |b| && b[i] == a[0] && |a| == |b|
  {
    SameElements(a, b);
    assert a[0] in a;
    i :| 0 <= i < |b| && b[i] == a[0];
  }

  lemma WithoutFirst(a: seq<Entry>)
    requires a != []
    ensures multiset(a[1..]) == multiset(a) - multiset{a[0]}
  {
    assert a == [a[0]] + a[1..];
  }

  lemma Without(a: seq<Entry>, i: nat)
    requires i < |a|
    ensures multiset(a[..i] + a[i + 1..]) == multiset(a) - multiset{a[i]}
  {
    assert a == a[..i] + [a[i]] + a[i + 1..];
  }

  lemma {:induction false} DistinctByPermutation(a: seq<Entry>, b: seq<Entry>)
    requires multiset(a) == multiset(b) && DistinctKeys(a)
    ensures DistinctKeys(b)
    decreases |a|
  {
    if a != [] {
      var i := TakeOut(a, b);
      var b' := b[..i] + b[i + 1..];
      SameElements(a[1..], b');
      assert DistinctKeys(a[1..]);
      DistinctByPermutation(a[1..], b');
      forall j | 0 <= j < |b'| ensures b'[j].key != b[i].key {
        assert b'[j] in a[1..];
      }
      forall p, q | 0 <= p < q < |b| ensures b[p].key != b[q].key {
        var p' := if p < i then p else p - 1;
        var q' := if q < i then q else q - 1;
        if p != i { assert b'[p'] == b[p]; }
        if q != i { assert b'[q'] == b[q]; }
      }
    } else {
      assert |multiset(b)| == 0;
    }
  }
}
