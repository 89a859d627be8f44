/** Small facts about sequences and finite sets. */
module Sequences {
  ghost predicate Distinct<T>(s: seq<T>) {
    forall i, j :: 0 <= i < j < |s| ==> s[i] != s[j]
  }

  function Elements<T>(s: seq<T>): set<T> {
    set x | x in s
  }

  lemma Associative<T>(a: seq<T>, b: seq<T>, c: seq<T>)
    ensures a + b + c == a + (b + c)
  {
  }

  lemma HeadTail<T>(s: seq<T>)
    requires s != []
    ensures s == [s[0]] + s[1..]
  {
  }

  lemma WholePart<T>(s: seq<T>)
    ensures s[..|s|] == s
  {
  }

  lemma LastOfPart<T>(s: seq<T>, n: nat)
    requires n < |s|
    ensures s[..n + 1] == s[..n] + [s[n]]
  {
  }

  function Below(n: nat): set<nat> {
    if n == 0 then {} else Below(n - 1) + {n - 1}
  }

  lemma {:induction false} BelowIsInitialSegment(n: nat)
    ensures |Below(n)| == n
    ensures forall i: nat :: i in Below(n) <==> i < n
  {
    if n > 0 {
      BelowIsInitialSegment(n - 1);
    }
  }

  lemma {:induction false} SizeOfDistinct<T>(s: seq<T>)
    requires Distinct(s)
    ensures |Elements(s)| == |s|
  {
    if s != [] {
      var front, last := s[..|s| - 1], s[|s| - 1];
      SizeOfDistinct(front);
      assert last !in front;
      assert Elements(s) == Elements(front) + {last};
    } else {
      assert Elements(s) == {};
    }
  }

  lemma {:induction false} SubsetSize<T>(a: set<T>, b: set<T>)
    requires a <= b
    ensures |a| <= |b|
    ensures |a| == |b| ==> a == b
  {
    if a != {} {
      var x :| x in a;
      SubsetSize(a - {x}, b - {x});
    }
  }

  /** Pigeonhole: `n` distinct numbers below `n` are all the numbers below `n`. */
  lemma FullDistinctCoversAll(s: seq<nat>, n: nat)
    requires Distinct(s) && (forall i :: 0 <= i < |s| ==> s[i] < n)
    ensures |s| <= n
    ensures |s| == n ==> forall r: nat :: r < n ==> r in s
  {
    SizeOfDistinct(s);
    BelowIsInitialSegment(n);
    assert Elements(s) <= Below(n);
    SubsetSize(Elements(s), Below(n));
    if |s| == n {
      forall r: nat | r < n ensures r in s {
        assert r in Elements(s);
      }
    }
  }
}
