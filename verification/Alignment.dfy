/**
  Responses of an embedding provider joined in request order (`rebuild_embedding_generation`,
  src/main.rs): which request and which place in its response every joined element comes from.
  */
module Alignment {
  function Flatten<T>(lists: seq<seq<T>>): seq<T> {
    if lists == [] then [] else Flatten(lists[..|lists| - 1]) + lists[|lists| - 1]
  }

  function Counts<T>(lists: seq<seq<T>>): (r: seq<nat>)
    ensures |r| == |lists|
  {
    seq(|lists|, i requires 0 <= i < |lists| => |lists[i]|)
  }

  /** The places of one response of request `n`. */
  function Run(n: nat, count: nat): seq<(nat, nat)> {
    if count == 0 then [] else Run(n, count - 1) + [(n, count - 1)]
  }

  /** Where each joined element comes from: (request, place in its response). */
  function Origins(counts: seq<nat>): seq<(nat, nat)> {
    if counts == [] then []
    else
      var n := |counts| - 1;
      Origins(counts[..n]) + Run(n, counts[n])
  }

  lemma {:induction false} RunPlaces(n: nat, count: nat)
    ensures |Run(n, count)| == count
    ensures forall j :: 0 <= j < count ==> Run(n, count)[j] == (n, j)
  {
    if count > 0 {
      RunPlaces(n, count - 1);
    }
  }

  /** The origins are the true ones: the joined list has at each position the element of its origin. */
  lemma {:induction false} FlattenFollowsOrigins<T>(lists: seq<seq<T>>)
    ensures |Flatten(lists)| == |Origins(Counts(lists))|
    ensures forall p :: 0 <= p < |Flatten(lists)| ==> ComesFrom(lists, p, Origins(Counts(lists))[p])
  {
    if lists != [] {
      var n := |lists| - 1;
      FlattenFollowsOrigins(lists[..n]);
      assert Counts(lists)[..n] == Counts(lists[..n]);
      RunPlaces(n, |lists[n]|);
      var front := Flatten(lists[..n]);
      forall p | 0 <= p < |Flatten(lists)| ensures ComesFrom(lists, p, Origins(Counts(lists))[p]) {
        if p < |front| {
          assert ComesFrom(lists[..n], p, Origins(Counts(lists[..n]))[p]);
        } else {
          assert Origins(Counts(lists))[p] == (n, p - |front|);
        }
      }
    }
  }

  ghost predicate ComesFrom<T>(lists: seq<seq<T>>, p: nat, origin: (nat, nat)) {
    && p < |Flatten(lists)| && origin.0 < |lists| && origin.1 < |lists[origin.0]|
    && Flatten(lists)[p] == lists[origin.0][origin.1]
  }

  /** How many joined elements come from request `r`. */
  function FromRequest(origins: seq<(nat, nat)>, r: nat): nat {
    if origins == [] then 0
    else FromRequest(origins[..|origins| - 1], r) + (if origins[|origins| - 1].0 == r then 1 else 0)
  }

  lemma {:induction false} FromRequestConcat(a: seq<(nat, nat)>, b: seq<(nat, nat)>, r: nat)
    ensures FromRequest(a + b, r) == FromRequest(a, r) + FromRequest(b, r)
  {
    if b == [] {
      assert a + b == a;
    } else {
      assert (a + b)[..|a + b| - 1] == a + b[..|b| - 1];
      FromRequestConcat(a, b[..|b| - 1], r);
    }
  }

  lemma {:induction false} FromOneRequest(n: nat, count: nat, r: nat)
    ensures FromRequest(Run(n, count), r) == if r == n then count else 0
  {
    if count > 0 {
      FromOneRequest(n, count - 1, r);
      assert Run(n, count)[..|Run(n, count)| - 1] == Run(n, count - 1);
    }
  }

  lemma {:induction false} OriginsCount(counts: seq<nat>, r: nat)
    ensures FromRequest(Origins(counts), r) == if r < |counts| then counts[r] else 0
  {
    if counts != [] {
      var n := |counts| - 1;
      OriginsCount(counts[..n], r);
      FromRequestConcat(Origins(counts[..n]), Run(n, counts[n]), r);
      FromOneRequest(n, counts[n], r);
    }
  }

  /** Two lists of lists have the same origins throughout if and only if they have the same counts. */
  lemma AlignedIffExactCounts(requests: seq<nat>, responses: seq<nat>)
    requires |requests| == |responses|
    ensures Origins(requests) == Origins(responses) <==> requests == responses
  {
    if Origins(requests) == Origins(responses) {
      forall r | 0 <= r < |requests| ensures requests[r] == responses[r] {
        OriginsCount(requests, r);
        OriginsCount(responses, r);
      }
    }
  }

  // ---------------------------------------------------------------------------------------
  // Requests of a bounded size
  // ---------------------------------------------------------------------------------------

  /** The list cut into requests of `size`, the last of them possibly shorter. */
  function Requests<T>(size: nat, items: seq<T>): (r: seq<seq<T>>)
    requires size > 0
    ensures items == [] ==> r == []
    decreases |items|
  {
    if items == [] then []
    else if |items| <= size then [items]
    else [items[..size]] + Requests(size, items[size..])
  }

  lemma FlattenConcat<T>(a: seq<seq<T>>, b: seq<seq<T>>)
    ensures Flatten(a + b) == Flatten(a) + Flatten(b)
    decreases |b|
  {
    if b == [] {
      assert a + b == a;
    } else {
      var n := |b| - 1;
      assert (a + b)[..|a + b| - 1] == a + b[..n];
      FlattenConcat(a, b[..n]);
    }
  }

  lemma FlattenOne<T>(list: seq<T>)
    ensures Flatten([list]) == list
  {
    assert [list][..0] == [];
  }

  /** Cutting loses nothing. */
  lemma {:induction false} RequestsCover<T>(size: nat, items: seq<T>)
    requires size > 0
    ensures Flatten(Requests(size, items)) == items
    decreases |items|
  {
    if items != [] {
      if |items| <= size {
        FlattenOne(items);
      } else {
        RequestsCover(size, items[size..]);
        FlattenConcat([items[..size]], Requests(size, items[size..]));
        FlattenOne(items[..size]);
      }
    }
  }

  /** The answers to all requests, in order. */
  function Responses<T, U>(size: nat, answer: seq<T> -> seq<U>, items: seq<T>): (r: seq<seq<U>>)
    requires size > 0
    ensures |r| == |Requests(size, items)|
  {
    var requests := Requests(size, items);
    seq(|requests|, q requires 0 <= q < |requests| => answer(requests[q]))
  }

  /** The joined answers. */
  function Joined<T, U>(size: nat, answer: seq<T> -> seq<U>, items: seq<T>): seq<U>
    requires size > 0
  {
    Flatten(Responses(size, answer, items))
  }

  /** What the next request adds. */
  lemma JoinedStep<T, U>(size: nat, answer: seq<T> -> seq<U>, items: seq<T>)
    requires size > 0 && items != []
    ensures var k := if |items| <= size then |items| else size;
      Joined(size, answer, items) == answer(items[..k]) + Joined(size, answer, items[k..])
  {
    var k := if |items| <= size then |items| else size;
    var rest := Responses(size, answer, items[k..]);
    assert items[..|items|] == items;
    assert Responses(size, answer, items) == [answer(items[..k])] + rest;
    FlattenConcat([answer(items[..k])], rest);
    FlattenOne(answer(items[..k]));
  }

  /** The joined element at `p` was answered to the item at `p`. */
  ghost predicate OwnAnswer<T, U>(size: nat, answer: seq<T> -> seq<U>, items: seq<T>, p: nat)
    requires size > 0
  {
    var asked, got := Origins(Counts(Requests(size, items))), Origins(Counts(Responses(size, answer, items)));
    p < |asked| && p < |got| && asked[p] == got[p]
  }

  /** Its own answer: the same place of the response to the request that held it. */
  lemma OwnAnswerIsToItem<T, U>(size: nat, answer: seq<T> -> seq<U>, items: seq<T>, p: nat) returns (q: nat, j: nat)
    requires size > 0 && p < |items| && OwnAnswer(size, answer, items, p)
    ensures p < |Joined(size, answer, items)| && q < |Requests(size, items)|
    ensures j < |Requests(size, items)[q]| && Requests(size, items)[q][j] == items[p]
    ensures j < |answer(Requests(size, items)[q])|
    ensures Joined(size, answer, items)[p] == answer(Requests(size, items)[q])[j]
  {
    var requests, responses := Requests(size, items), Responses(size, answer, items);
    RequestsCover(size, items);
    FlattenFollowsOrigins(requests);
    FlattenFollowsOrigins(responses);
    var origin := Origins(Counts(requests))[p];
    assert ComesFrom(requests, p, origin) && ComesFrom(responses, p, origin);
    q, j := origin.0, origin.1;
  }

  ghost predicate ExactCounts<T, U>(size: nat, answer: seq<T> -> seq<U>, items: seq<T>)
    requires size > 0
  {
    forall q :: 0 <= q < |Requests(size, items)| ==>
      |Responses(size, answer, items)[q]| == |Requests(size, items)[q]|
  }

  /**
    When the total is right, every item has its own answer if and only if every single response
    has the length of its request.
    */
  lemma OwnAnswersIff<T, U>(size: nat, answer: seq<T> -> seq<U>, items: seq<T>)
    requires size > 0 && |Joined(size, answer, items)| == |items|
    ensures (forall p :: 0 <= p < |items| ==> OwnAnswer(size, answer, items, p)) <==> ExactCounts(size, answer, items)
  {
    var requests, responses := Requests(size, items), Responses(size, answer, items);
    var asked, got := Origins(Counts(requests)), Origins(Counts(responses));
    RequestsCover(size, items);
    FlattenFollowsOrigins(requests);
    FlattenFollowsOrigins(responses);
    AlignedIffExactCounts(Counts(requests), Counts(responses));
    if forall p :: 0 <= p < |items| ==> OwnAnswer(size, answer, items, p) {
      assert forall p :: 0 <= p < |asked| ==> asked[p] == got[p] by {
        forall p | 0 <= p < |asked| ensures asked[p] == got[p] {
          assert OwnAnswer(size, answer, items, p);
        }
      }
      assert asked == got;
      forall q | 0 <= q < |requests| ensures |responses[q]| == |requests[q]| {
        assert Counts(requests)[q] == Counts(responses)[q];
      }
    }
    if ExactCounts(size, answer, items) {
      assert Counts(requests) == Counts(responses);
    }
  }

  /** Under an answer of one element per item, the joined answers are the elements of the items. */
  lemma {:induction false} JoinedExactly<T, U>(size: nat, answer: seq<T> -> seq<U>, each: T -> U, items: seq<T>)
    requires size > 0
    requires forall s: seq<T> :: answer(s) == Each(each, s)
    ensures Joined(size, answer, items) == Each(each, items)
    decreases |items|
  {
    if items != [] {
      var k := if |items| <= size then |items| else size;
      JoinedStep(size, answer, items);
      JoinedExactly(size, answer, each, items[k..]);
      assert items == items[..k] + items[k..];
      assert Each(each, items) == Each(each, items[..k]) + Each(each, items[k..]);
    }
  }

  function Each<T, U>(each: T -> U, items: seq<T>): (r: seq<U>)
    ensures |r| == |items|
  {
    seq(|items|, i requires 0 <= i < |items| => each(items[i]))
  }
}
