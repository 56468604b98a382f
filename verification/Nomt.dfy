/** NOMT as the ExEx uses it: a key-value store with count-based rollback. */
module NomtStore {
  import opened Types
  import opened StemRows

  /** The two kinds of byte vector ever written: 32-byte values and the 8-byte head. */
  datatype NomtValue = Word(word: B256) | BlockNumber(number: u64)

  type Snapshot = map<B256, NomtValue>

  /** Committed states, oldest first; the last one is current. */
  type Stack = s: seq<Snapshot> | |s| > 0 witness [map[]]

  const HEAD_KEY: B256 := TWO_256 - 1

  function Top(stack: Stack): Snapshot {
    stack[|stack| - 1]
  }

  function WriteAll(s: Snapshot, writes: seq<(B256, NomtValue)>): Snapshot
    decreases |writes|
  {
    if writes == [] then s else WriteAll(s[writes[0].0 := writes[0].1], writes[1..])
  }

  function EntryWrites(entries: seq<Entry>): seq<(B256, NomtValue)> {
    seq(|entries|, i requires 0 <= i < |entries| => (TreeIndex(entries[i].key), Word(entries[i].value)))
  }

  /** The session a commit finishes: one write per entry, then the block number. */
  function BlockWrites(b: Block): seq<(B256, NomtValue)> {
    EntryWrites(b.entries) + [(HEAD_KEY, BlockNumber(b.number))]
  }

  /** The stored block number, or 0 when it is missing or not 8 bytes long. */
  function ReadHead(s: Snapshot): u64 {
    if HEAD_KEY in s && s[HEAD_KEY].BlockNumber? then s[HEAD_KEY].number else 0
  }

  /** `read_nomt_value`: a missing key reads as zero, a value of another length is an error. */
  function ReadValue(s: Snapshot, index: B256): Result<B256> {
    if index !in s then Ok(0)
    else match s[index]
      case Word(w) => Ok(w)
      case BlockNumber(_) => Err(InvalidNomtValueLength)
  }

  function RolledBack(stack: Stack, n: nat): Stack {
    if n < |stack| then stack[..|stack| - n] else stack
  }

  class Nomt {
    var stack: Stack

    constructor ()
      ensures stack == [map[]]
    {
      stack := [map[]];
    }

    method Read(index: B256) returns (r: Option<NomtValue>)
      ensures r == if index in Top(stack) then Some(Top(stack)[index]) else None
    {
      r := if index in Top(stack) then Some(Top(stack)[index]) else None;
    }

    method CommitSession(writes: seq<(B256, NomtValue)>)
      modifies this`stack
      ensures stack == old(stack) + [WriteAll(Top(old(stack)), writes)]
    {
      var current: Snapshot := Top(stack);
      for i := 0 to |writes|
        invariant WriteAll(current, writes[i..]) == WriteAll(Top(old(stack)), writes)
        invariant stack == old(stack)
      {
        assert writes[i..][1..] == writes[i + 1..];
        current := current[writes[i].0 := writes[i].1];
      }
      stack := stack + [current];
    }

    /** Undo the last `n` commits; fails, changing nothing, when there are fewer. */
    method Rollback(n: nat) returns (ok: bool)
      modifies this`stack
      ensures ok <==> n < |old(stack)|
      ensures stack == RolledBack(old(stack), n)
    {
      ok := n < |stack|;
      if ok {
        stack := stack[..|stack| - n];
      }
    }
  }

  lemma {:induction false} WriteAllConcat(s: Snapshot, a: seq<(B256, NomtValue)>, b: seq<(B256, NomtValue)>)
    ensures WriteAll(s, a + b) == WriteAll(WriteAll(s, a), b)
    decreases |a|
  {
    if a == [] {
      assert a + b == b;
    } else {
      assert (a + b)[1..] == a[1..] + b;
      WriteAllConcat(s[a[0].0 := a[0].1], a[1..], b);
    }
  }

  /** A committed block's snapshot ends with its number stored under the head key. */
  lemma BlockSnapshot(s: Snapshot, b: Block)
    ensures WriteAll(s, BlockWrites(b)) == WriteAll(s, EntryWrites(b.entries))[HEAD_KEY := BlockNumber(b.number)]
    ensures ReadHead(WriteAll(s, BlockWrites(b))) == b.number
  {
    WriteAllConcat(s, EntryWrites(b.entries), [(HEAD_KEY, BlockNumber(b.number))]);
  }
}
