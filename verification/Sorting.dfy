/** Ordered traversal of a finite set: database cursors and `sort()` calls. */
module Sorting {
  ghost predicate StrictlySorted(s: seq<int>) {
    forall i, j :: 0 <= i < j < |s| ==> s[i] < s[j]
  }

  lemma Inhabited<T>(s: set<T>) returns (x: T)
    requires s != {}
    ensures x in s
  {
    x :| x in s;
  }

  lemma {:induction false} MinExists(s: set<int>)
    requires s != {}
    ensures exists x :: x in s && forall y :: y in s ==> x <= y
    decreases |s|
  {
    var x := Inhabited(s);
    var rest := s - {x};
    assert s == rest + {x};
    if rest == {} {
      assert forall y :: y in s ==> x <= y;
    } else {
      MinExists(rest);
      var z :| z in rest && forall y :: y in rest ==> z <= y;
      var least := if x < z then x else z;
      assert least in s && forall y :: y in s ==> least <= y;
    }
  }

  /** The elements of `s` in increasing order. */
  function SortedSeq(s: set<int>): (r: seq<int>)
    ensures StrictlySorted(r)
    ensures forall x :: x in r <==> x in s
    decreases |s|
  {
    if s == {} then []
    else
      MinExists(s);
      var x :| x in s && forall y :: y in s ==> x <= y;
      var rest := SortedSeq(s - {x});
      LeastFirst(x, rest);
      [x] + rest
  }

  lemma LeastFirst(x: int, rest: seq<int>)
    requires StrictlySorted(rest) && forall y :: y in rest ==> x < y
    ensures StrictlySorted([x] + rest)
    ensures forall y :: y in [x] + rest <==> y == x || y in rest
  {
    assert forall i :: 0 <= i < |rest| ==> rest[i] in rest;
  }

  /** A strictly sorted sequence is determined by its set of elements. */
  lemma {:induction false} SortedUnique(a: seq<int>, b: seq<int>)
    requires StrictlySorted(a) && StrictlySorted(b)
    requires forall x :: x in a <==> x in b
    ensures a == b
    decreases |a|
  {
    if a == [] {
      assert forall i :: 0 <= i < |b| ==> b[i] in b;
    } else {
      assert a[0] in b && b[0] in a;
      assert a[0] == b[0];
      forall x ensures x in a[1..] <==> x in b[1..] {
        if x in a[1..] {
          assert x in b && x != a[0];
          assert x in b[1..];
        }
        if x in b[1..] {
          assert x in a && x != b[0];
          assert x in a[1..];
        }
      }
      SortedUnique(a[1..], b[1..]);
      assert a == [a[0]] + a[1..] && b == [b[0]] + b[1..];
    }
  }

  /** A list without repetitions is as long as its set of elements is large. */
  lemma {:induction false} DistinctCount<T>(s: seq<T>, elements: set<T>)
    requires forall p, q :: 0 <= p < q < |s| ==> s[p] != s[q]
    requires forall x :: x in elements <==> x in s
    ensures |elements| == |s|
    decreases |s|
  {
    if s == [] {
      assert elements == {};
    } else {
      var last := s[|s| - 1];
      var front := s[..|s| - 1];
      assert s == front + [last];
      assert last !in front;
      DistinctCount(front, elements - {last});
    }
  }
}
