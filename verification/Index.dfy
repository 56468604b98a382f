/** What the key index means: the account of each stem ever written and the
    subindices ever written under it, grown one entry at a time. */
module Index {
  import opened Types

  datatype StemRecord = StemRecord(address: Address, bits: set<Subindex>)
  type Index = map<Stem, StemRecord>

  datatype Update = Update(key: TreeKey, address: Address)

  function UpdatesOf(entries: seq<Entry>): seq<Update> {
    seq(|entries|, i requires 0 <= i < |entries| => Update(entries[i].key, entries[i].address))
  }

  function InsertOne(t: Index, u: Update): Option<Index> {
    var stem := u.key.stem;
    if stem !in t then Some(t[stem := StemRecord(u.address, {u.key.subindex})])
    else if t[stem].address != u.address then None
    else Some(t[stem := StemRecord(u.address, t[stem].bits + {u.key.subindex})])
  }

  /** Insert updates one at a time; one address mismatch fails the whole batch. */
  function InsertAll(t: Index, updates: seq<Update>): Option<Index>
    decreases |updates|
  {
    if updates == [] then Some(t)
    else
      match InsertAll(t, updates[..|updates| - 1])
      case None => None
      case Some(t') => InsertOne(t', updates[|updates| - 1])
  }

  predicate Covers(t: Index, key: TreeKey) {
    key.stem in t && key.subindex in t[key.stem].bits
  }

  /** `b` keeps every record of `a`: same address, no bit cleared. */
  ghost predicate Extends(a: Index, b: Index) {
    forall s :: s in a ==> s in b && b[s].address == a[s].address && a[s].bits <= b[s].bits
  }

  lemma ExtendsTransitive(a: Index, b: Index, c: Index)
    requires Extends(a, b) && Extends(b, c)
    ensures Extends(a, c)
  {
    forall s | s in a ensures s in c && c[s].address == a[s].address && a[s].bits <= c[s].bits {
      assert s in b;
    }
  }

  lemma {:induction false} FailureSticks(t: Index, updates: seq<Update>, i: nat)
    requires i <= |updates| && InsertAll(t, updates[..i]) == None
    ensures InsertAll(t, updates) == None
    decreases |updates|
  {
    if i < |updates| {
      var front := updates[..|updates| - 1];
      assert front[..i] == updates[..i];
      FailureSticks(t, front, i);
    } else {
      assert updates[..i] == updates;
    }
  }

  function UpdateStems(updates: seq<Update>): set<Stem> {
    set u | u in updates :: u.key.stem
  }

  lemma OneGrows(t: Index, u: Update)
    requires InsertOne(t, u).Some?
    ensures var t' := InsertOne(t, u).value;
            && Extends(t, t') && Covers(t', u.key) && t'[u.key.stem].address == u.address
            && t'.Keys == t.Keys + {u.key.stem}
  {
  }

  lemma ExtendsCovers(a: Index, b: Index, key: TreeKey)
    requires Extends(a, b) && Covers(a, key)
    ensures Covers(b, key) && b[key.stem].address == a[key.stem].address
  {
  }

  /** A successful batch covers its keys, keeps every old record and adds only its own stems. */
  lemma {:induction false} InsertAllGrows(t: Index, updates: seq<Update>)
    requires InsertAll(t, updates).Some?
    ensures Extends(t, InsertAll(t, updates).value)
    ensures forall u :: u in updates ==>
              && Covers(InsertAll(t, updates).value, u.key)
              && InsertAll(t, updates).value[u.key.stem].address == u.address
    ensures InsertAll(t, updates).value.Keys == t.Keys + UpdateStems(updates)
    decreases |updates|
  {
    if updates != [] {
      var front, last := updates[..|updates| - 1], updates[|updates| - 1];
      InsertAllGrows(t, front);
      var t1, t2 := InsertAll(t, front).value, InsertAll(t, updates).value;
      assert updates == front + [last];
      assert t2 == InsertOne(t1, last).value;
      OneGrows(t1, last);
      ExtendsTransitive(t, t1, t2);
      assert UpdateStems(updates) == UpdateStems(front) + {last.key.stem};
      forall u | u in updates ensures Covers(t2, u.key) && t2[u.key.stem].address == u.address {
        if u in front {
          ExtendsCovers(t1, t2, u.key);
        }
      }
    }
  }

  /** Every record was made by some key. */
  ghost predicate NoEmptyRecord(t: Index) {
    forall s :: s in t ==> t[s].bits != {}
  }

  lemma {:induction false} InsertAllNoEmptyRecord(t: Index, updates: seq<Update>)
    requires NoEmptyRecord(t) && InsertAll(t, updates).Some?
    ensures NoEmptyRecord(InsertAll(t, updates).value)
    decreases |updates|
  {
    if updates != [] {
      var front, last := updates[..|updates| - 1], updates[|updates| - 1];
      InsertAllNoEmptyRecord(t, front);
      var t1 := InsertAll(t, front).value;
      assert InsertOne(t1, last).Some?;
    }
  }

  ghost predicate Consistent(t: Index, updates: seq<Update>) {
    && (forall u :: u in updates && u.key.stem in t ==> t[u.key.stem].address == u.address)
    && (forall u, v :: u in updates && v in updates && u.key.stem == v.key.stem ==> u.address == v.address)
  }

  /** A batch succeeds exactly when each stem it mentions has one address, in the batch and in the table. */
  lemma {:induction false} InsertAllSucceeds(t: Index, updates: seq<Update>)
    ensures InsertAll(t, updates).Some? <==> Consistent(t, updates)
    decreases |updates|
  {
    if InsertAll(t, updates).Some? {
      InsertAllGrows(t, updates);
    }
    if updates != [] && Consistent(t, updates) {
      var front, last := updates[..|updates| - 1], updates[|updates| - 1];
      InsertAllSucceeds(t, front);
      assert forall u :: u in front ==> u in updates;
      assert Consistent(t, front);
      InsertAllGrows(t, front);
      var t1 := InsertAll(t, front).value;
      assert last in updates;
      if last.key.stem in UpdateStems(front) {
        var u :| u in front && u.key.stem == last.key.stem;
      }
      assert InsertOne(t1, last).Some?;
    }
  }

  /** Inserting a covered batch again changes nothing. */
  lemma {:induction false} InsertAgain(t: Index, updates: seq<Update>)
    requires forall u :: u in updates ==> Covers(t, u.key) && t[u.key.stem].address == u.address
    ensures InsertAll(t, updates) == Some(t)
    decreases |updates|
  {
    if updates != [] {
      var front, last := updates[..|updates| - 1], updates[|updates| - 1];
      assert forall u :: u in front ==> u in updates;
      InsertAgain(t, front);
      assert last in updates;
      var bits := t[last.key.stem].bits;
      assert bits + {last.key.subindex} == bits;
      assert t[last.key.stem := t[last.key.stem]] == t;
      assert StemRecord(last.address, bits + {last.key.subindex}) == t[last.key.stem];
    }
  }

  /* ---- The grouped merge ---- */

  ghost predicate Compatible(t: Index, group: Index) {
    forall s :: s in t && s in group ==> t[s].address == group[s].address
  }

  function MergeRecord(t: Index, group: Index, s: Stem): StemRecord
    requires s in t.Keys + group.Keys
  {
    if s !in group then t[s]
    else if s !in t then group[s]
    else StemRecord(group[s].address, group[s].bits + t[s].bits)
  }

  function Merge(t: Index, group: Index): Index {
    map s | s in t.Keys + group.Keys :: MergeRecord(t, group, s)
  }

  lemma MergeInsert(t: Index, group: Index, u: Update)
    requires Compatible(t, group)
    requires InsertOne(group, u).Some?
    ensures Compatible(t, InsertOne(group, u).value) <==> InsertOne(Merge(t, group), u).Some?
    ensures Compatible(t, InsertOne(group, u).value) ==>
              InsertOne(Merge(t, group), u) == Some(Merge(t, InsertOne(group, u).value))
  {
    var stem := u.key.stem;
    var group' := InsertOne(group, u).value;
    if stem in t && t[stem].address != u.address {
      assert stem in group';
    } else {
      assert Compatible(t, group');
      var m, m' := InsertOne(Merge(t, group), u).value, Merge(t, group');
      assert m.Keys == m'.Keys;
      forall s | s in m ensures m[s] == m'[s] {
        if s == stem {
          assert m[s].bits == m'[s].bits;
        }
      }
      assert m == m';
    }
  }

  /** Grouping a batch by stem and OR-ing the groups in is inserting it one update at a time. */
  lemma {:induction false} GroupedMergeRefines(t: Index, updates: seq<Update>)
    ensures InsertAll(map[], updates) == None ==> InsertAll(t, updates) == None
    ensures InsertAll(map[], updates).Some? ==>
              InsertAll(t, updates) == (if Compatible(t, InsertAll(map[], updates).value)
                                        then Some(Merge(t, InsertAll(map[], updates).value)) else None)
    decreases |updates|
  {
    if updates == [] {
      assert Merge(t, map[]) == t;
    } else {
      var front, last := updates[..|updates| - 1], updates[|updates| - 1];
      GroupedMergeRefines(t, front);
      if InsertAll(map[], front).Some? {
        var group := InsertAll(map[], front).value;
        if InsertOne(group, last).Some? {
          var group' := InsertOne(group, last).value;
          if Compatible(t, group) {
            MergeInsert(t, group, last);
          } else {
            var s :| s in t && s in group && t[s].address != group[s].address;
            assert s in group' && group'[s].address == group[s].address;
          }
        } else if Compatible(t, group) {
          assert last.key.stem in Merge(t, group);
        }
      }
    }
  }
}
