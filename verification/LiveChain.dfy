/** The reference history: the list of blocks whose commits are still in force. */
module LiveChain {
  import opened Types
  import opened Ledger

  ghost predicate Increasing(live: seq<Block>) {
    forall i, j :: 0 <= i < j < |live| ==> live[i].number < live[j].number
  }

  /** The ledger a list of blocks builds up from nothing. */
  function LedgerOf(live: seq<Block>): Ledger
    decreases |live|
  {
    if live == [] then map[]
    else PutAll(LedgerOf(live[..|live| - 1]), live[|live| - 1].entries)
  }

  /** Drop the blocks numbered `n` or higher from the end. */
  function Below(live: seq<Block>, n: int): (r: seq<Block>)
    ensures |r| <= |live| && r == live[..|r|]
    decreases |live|
  {
    if live == [] || live[|live| - 1].number < n then live
    else Below(live[..|live| - 1], n)
  }

  lemma {:induction false} BelowSpec(live: seq<Block>, n: int)
    requires Increasing(live)
    ensures forall i :: 0 <= i < |live| ==> (i < |Below(live, n)| <==> live[i].number < n)
    decreases |live|
  {
    if live != [] && live[|live| - 1].number >= n {
      BelowSpec(live[..|live| - 1], n);
    }
  }

  /** A list cut at a point that separates the numbers below `n` from the rest. */
  lemma BelowIs(live: seq<Block>, n: int, k: nat)
    requires Increasing(live) && k <= |live|
    requires forall i :: 0 <= i < k ==> live[i].number < n
    requires forall i :: k <= i < |live| ==> n <= live[i].number
    ensures Below(live, n) == live[..k]
  {
    BelowSpec(live, n);
    var r := |Below(live, n)|;
    assert r < |live| ==> !(live[r].number < n);
    assert k < |live| ==> (k < r <==> live[k].number < n);
  }

  lemma BelowSame(live: seq<Block>, a: int, b: int)
    requires Increasing(live) && a <= b
    requires forall i :: 0 <= i < |live| ==> !(a <= live[i].number < b)
    ensures Below(live, a) == Below(live, b)
  {
    BelowSpec(live, a);
    BelowIs(live, b, |Below(live, a)|);
  }

  lemma BelowBelow(live: seq<Block>, a: int, b: int)
    requires Increasing(live) && a <= b
    ensures Increasing(Below(live, b))
    ensures Below(Below(live, b), a) == Below(live, a)
  {
    BelowSpec(live, a);
    BelowSpec(live, b);
    var cut := Below(live, b);
    var k := |Below(live, a)|;
    assert |cut| < |live| ==> !(live[|cut|].number < b);
    BelowIs(cut, a, k);
    assert cut[..k] == live[..k];
  }

  lemma BelowAll(live: seq<Block>, n: int)
    requires Increasing(live) && forall i :: 0 <= i < |live| ==> live[i].number < n
    ensures Below(live, n) == live
  {
    BelowIs(live, n, |live|);
  }

  lemma BelowAppend(live: seq<Block>, b: Block, n: int)
    requires Increasing(live + [b]) && n <= b.number
    ensures Increasing(live)
    ensures Below(live + [b], n) == Below(live, n)
  {
    assert (live + [b])[..|live|] == live;
    assert forall i :: 0 <= i < |live| ==> live[i] == (live + [b])[i];
  }

  lemma LedgerAppend(live: seq<Block>, b: Block)
    ensures LedgerOf(live + [b]) == PutAll(LedgerOf(live), b.entries)
  {
    assert (live + [b])[..|live|] == live;
  }
}
