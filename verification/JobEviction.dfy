/**
  Which jobs the bounded snapshot list still holds (apps/web/src/sourceJobs.ts): a listed job stays
  listed exactly while fewer than eight distinct others are put above it. Everything that depends on
  a job being listed follows: reactivation, what a merge keeps, the rollback of a cancellation.
  */
module JobEviction {
  import opened Sequences
  import opened Wrappers
  import opened SourceJobs

  // ---------------------------------------------------------------------------------------
  // The jobs above a job
  // ---------------------------------------------------------------------------------------

  /** The ids listed before `id`. */
  function Above(jobs: seq<Job>, id: string): set<string> {
    if jobs == [] || jobs[0].id == id then {} else {jobs[0].id} + Above(jobs[1..], id)
  }

  lemma IdsCons(job: Job, rest: seq<Job>)
    ensures Ids([job] + rest) == {job.id} + Ids(rest)
  {
    assert forall j :: j in [job] + rest <==> j == job || j in rest;
  }

  lemma {:induction false} AboveIsListed(jobs: seq<Job>, id: string)
    ensures Above(jobs, id) <= Ids(jobs) && id !in Above(jobs, id)
  {
    if jobs != [] {
      AboveIsListed(jobs[1..], id);
      assert jobs == [jobs[0]] + jobs[1..];
      IdsCons(jobs[0], jobs[1..]);
    }
  }

  lemma UniqueRest(jobs: seq<Job>)
    requires UniqueIds(jobs) && jobs != []
    ensures UniqueIds(jobs[1..]) && jobs[0].id !in Ids(jobs[1..])
  {
  }

  /** What is above the id, if it is listed. */
  function Standing(jobs: seq<Job>, id: string): Option<set<string>> {
    if jobs == [] then None
    else if jobs[0].id == id then Some({})
    else
      var below := Standing(jobs[1..], id);
      if below.Some? then Some({jobs[0].id} + below.value) else None
  }

  lemma {:induction false} StandingMeans(jobs: seq<Job>, id: string)
    ensures Standing(jobs, id).Some? <==> id in Ids(jobs)
    ensures Standing(jobs, id).Some? ==> Standing(jobs, id).value == Above(jobs, id)
  {
    if jobs != [] {
      HeadTail(jobs);
      IdsCons(jobs[0], jobs[1..]);
      StandingMeans(jobs[1..], id);
    }
  }

  /** Cutting the list after `n` keeps what has fewer than `n` above it. */
  lemma {:induction false} StandingCut(jobs: seq<Job>, n: nat, id: string)
    requires UniqueIds(jobs) && n <= |jobs|
    ensures Standing(jobs[..n], id)
      == if Standing(jobs, id).Some? && |Standing(jobs, id).value| < n then Standing(jobs, id) else None
  {
    if n > 0 {
      assert jobs[..n][1..] == jobs[1..][..n - 1];
      UniqueRest(jobs);
      StandingCut(jobs[1..], n - 1, id);
      FirstIsNotBelow(jobs[0].id, jobs[1..], id);
    }
  }

  lemma FirstIsNotBelow(first: string, rest: seq<Job>, id: string)
    requires first !in Ids(rest)
    ensures Standing(rest, id).Some? ==> |{first} + Standing(rest, id).value| == 1 + |Standing(rest, id).value|
  {
    StandingMeans(rest, id);
    AboveIsListed(rest, id);
    if Standing(rest, id).Some? {
      OneMore(first, Standing(rest, id).value);
    }
  }

  lemma OneMore(first: string, above: set<string>)
    requires first !in above
    ensures |{first} + above| == 1 + |above|
  {
  }

  /** The first `n` jobs keep `id` exactly when fewer than `n` are above it, and what is above it. */
  lemma CutKeepsIff(jobs: seq<Job>, n: nat, id: string)
    requires UniqueIds(jobs) && n <= |jobs|
    ensures id in Ids(jobs[..n]) <==> id in Ids(jobs) && |Above(jobs, id)| < n
    ensures id in Ids(jobs[..n]) ==> Above(jobs[..n], id) == Above(jobs, id)
  {
    StandingCut(jobs, n, id);
    StandingMeans(jobs, id);
    StandingMeans(jobs[..n], id);
  }

  lemma {:induction false} AboveWithout(jobs: seq<Job>, other: string, id: string)
    requires UniqueIds(jobs) && other != id
    ensures Above(Drop(jobs, other), id) == Above(jobs, id) - {other}
  {
    if jobs != [] {
      AboveWithout(jobs[1..], other, id);
      if jobs[0].id == other {
        AboveIsListed(jobs[1..], id);
        assert jobs == [jobs[0]] + jobs[1..];
        assert other !in Ids(jobs[1..]);
      }
    }
  }

  predicate Refused(jobs: seq<Job>, next: Job) {
    Find(jobs, next.id).Some? && Regresses(Find(jobs, next.id).value, next)
  }

  /** A snapshot of another job that is taken goes above `id`, which stays if there is room for that. */
  lemma OtherOnTop(jobs: seq<Job>, next: Job, id: string)
    requires UniqueIds(jobs) && |jobs| <= MAX_SNAPSHOTS && !Refused(jobs, next) && next.id != id
    ensures id in Ids(Upsert(jobs, next)) <==> id in Ids(jobs) && |Above(jobs, id) + {next.id}| < MAX_SNAPSHOTS
    ensures id in Ids(Upsert(jobs, next)) ==> Above(Upsert(jobs, next), id) == Above(jobs, id) + {next.id}
  {
    var full := [next] + Drop(jobs, next.id);
    IdsOnTop(jobs, next);
    AboveWithout(jobs, next.id, id);
    assert full[1..] == Drop(jobs, next.id);
    assert Above(full, id) == {next.id} + (Above(jobs, id) - {next.id}) == Above(jobs, id) + {next.id};
    if |full| > MAX_SNAPSHOTS {
      CutKeepsIff(full, MAX_SNAPSHOTS, id);
    } else {
      CutKeepsIff(full, |full|, id);
      assert full[..|full|] == full;
    }
  }

  /** A snapshot that is taken goes to the top. */
  lemma OwnOnTop(jobs: seq<Job>, next: Job)
    requires !Refused(jobs, next)
    ensures Upsert(jobs, next) != [] && Upsert(jobs, next)[0] == next
    ensures next.id in Ids(Upsert(jobs, next)) && Above(Upsert(jobs, next), next.id) == {}
  {
    assert Upsert(jobs, next)[0] in Upsert(jobs, next);
  }

  // ---------------------------------------------------------------------------------------
  // Which jobs are listed after any deliveries
  // ---------------------------------------------------------------------------------------

  /**
    The ids put above `id` since it was last put on top, counting those above it at the start;
    `None` as long as it was never listed. Refused snapshots move nothing.
    */
  function PutAbove(jobs: seq<Job>, snapshots: seq<Job>, id: string): Option<set<string>> {
    if snapshots == [] then (if Find(jobs, id).Some? then Some(Above(jobs, id)) else None)
    else
      var front, next := snapshots[..|snapshots| - 1], snapshots[|snapshots| - 1];
      var before := PutAbove(jobs, front, id);
      if Refused(Deliver(jobs, front), next) then before
      else if next.id == id then Some({})
      else if before.Some? then Some(before.value + {next.id})
      else None
  }

  predicate FewAbove(jobs: seq<Job>, snapshots: seq<Job>, id: string) {
    PutAbove(jobs, snapshots, id).Some? && |PutAbove(jobs, snapshots, id).value| < MAX_SNAPSHOTS
  }

  /** After any deliveries an id is listed exactly when fewer than eight others were put above it. */
  lemma {:induction false} ListedIff(jobs: seq<Job>, snapshots: seq<Job>, id: string)
    requires UniqueIds(jobs) && |jobs| <= MAX_SNAPSHOTS
    ensures id in Ids(Deliver(jobs, snapshots)) <==> FewAbove(jobs, snapshots, id)
    ensures id in Ids(Deliver(jobs, snapshots)) ==>
      PutAbove(jobs, snapshots, id) == Some(Above(Deliver(jobs, snapshots), id))
  {
    if snapshots == [] {
      FindFinds(jobs, id);
      CutKeepsIff(jobs, |jobs|, id);
      assert jobs[..|jobs|] == jobs;
    } else {
      var front, next := snapshots[..|snapshots| - 1], snapshots[|snapshots| - 1];
      ListedIff(jobs, front, id);
      DeliverKeepsShape(jobs, front);
      ListedStep(jobs, front, next, id);
      assert snapshots == front + [next];
    }
  }

  lemma ListedStep(jobs: seq<Job>, front: seq<Job>, next: Job, id: string)
    requires var list := Deliver(jobs, front); UniqueIds(list) && |list| <= MAX_SNAPSHOTS
    requires id in Ids(Deliver(jobs, front)) <==> FewAbove(jobs, front, id)
    requires id in Ids(Deliver(jobs, front)) ==> PutAbove(jobs, front, id) == Some(Above(Deliver(jobs, front), id))
    ensures var snapshots := front + [next];
      && (id in Ids(Deliver(jobs, snapshots)) <==> FewAbove(jobs, snapshots, id))
      && (id in Ids(Deliver(jobs, snapshots)) ==>
          PutAbove(jobs, snapshots, id) == Some(Above(Deliver(jobs, snapshots), id)))
  {
    var list, snapshots := Deliver(jobs, front), front + [next];
    assert snapshots[..|snapshots| - 1] == front;
    if !Refused(list, next) {
      if next.id == id {
        OwnOnTop(list, next);
      } else {
        OtherOnTop(list, next, id);
        var before := PutAbove(jobs, front, id);
        if before.Some? {
          SubsetSize(before.value, before.value + {next.id});
        }
      }
    }
  }

  lemma {:induction false} PutAboveIsOnceListed(jobs: seq<Job>, snapshots: seq<Job>, id: string)
    requires UniqueIds(jobs) && |jobs| <= MAX_SNAPSHOTS
    ensures PutAbove(jobs, snapshots, id).Some? <==> id in Ids(jobs) + Ids(snapshots)
  {
    if snapshots == [] {
      FindFinds(jobs, id);
    } else {
      var front, next := snapshots[..|snapshots| - 1], snapshots[|snapshots| - 1];
      PutAboveIsOnceListed(jobs, front, id);
      assert snapshots == front + [next];
      IdsOfLast(front, next);
      if next.id == id && Refused(Deliver(jobs, front), next) {
        FindFinds(Deliver(jobs, front), id);
        DeliverKeepsShape(jobs, front);
      }
    }
  }

  /** A job is never evicted exactly when at no time eight others had been put above it. */
  lemma NeverEvictedIff(jobs: seq<Job>, snapshots: seq<Job>, id: string)
    requires UniqueIds(jobs) && |jobs| <= MAX_SNAPSHOTS
    ensures NeverEvicted(jobs, snapshots, id) <==>
      forall n :: 0 <= n <= |snapshots| && PutAbove(jobs, snapshots[..n], id).Some? ==> FewAbove(jobs, snapshots[..n], id)
  {
    forall n | 0 <= n <= |snapshots|
      ensures PutAbove(jobs, snapshots[..n], id).Some? <==> id in Ids(jobs) + Ids(snapshots[..n])
      ensures id in Ids(Deliver(jobs, snapshots[..n])) <==> FewAbove(jobs, snapshots[..n], id)
    {
      PutAboveIsOnceListed(jobs, snapshots[..n], id);
      ListedIff(jobs, snapshots[..n], id);
    }
  }

  // ---------------------------------------------------------------------------------------
  // The same from the input alone, when no snapshot is stale
  // ---------------------------------------------------------------------------------------

  /** No snapshot regresses against the list at the start or an earlier snapshot of its job. */
  ghost predicate NoneStale(jobs: seq<Job>, snapshots: seq<Job>) {
    && (forall j, i :: j in jobs && 0 <= i < |snapshots| && j.id == snapshots[i].id ==> !Regresses(j, snapshots[i]))
    && (forall i, k :: 0 <= i < k < |snapshots| && snapshots[i].id == snapshots[k].id ==>
          !Regresses(snapshots[i], snapshots[k]))
  }

  /** The ids delivered since the last snapshot of `id`, or since the start with those above it. */
  function Since(jobs: seq<Job>, snapshots: seq<Job>, id: string): Option<set<string>> {
    if snapshots == [] then (if Find(jobs, id).Some? then Some(Above(jobs, id)) else None)
    else
      var front, next := snapshots[..|snapshots| - 1], snapshots[|snapshots| - 1];
      var before := Since(jobs, front, id);
      if next.id == id then Some({})
      else if before.Some? then Some(before.value + {next.id})
      else None
  }

  lemma {:induction false} ListedWasGiven(jobs: seq<Job>, snapshots: seq<Job>)
    ensures forall k :: k in Deliver(jobs, snapshots) ==> k in jobs || k in snapshots
  {
    if snapshots != [] {
      var front, next := snapshots[..|snapshots| - 1], snapshots[|snapshots| - 1];
      ListedWasGiven(jobs, front);
      assert snapshots == front + [next];
      DropDrops(Deliver(jobs, front), next.id);
      var full := [next] + Drop(Deliver(jobs, front), next.id);
      assert forall k :: k in Bounded(full) ==> k in full;
    }
  }

  lemma FreshIsNotRefused(jobs: seq<Job>, snapshots: seq<Job>)
    requires snapshots != [] && NoneStale(jobs, snapshots)
    ensures !Refused(Deliver(jobs, snapshots[..|snapshots| - 1]), snapshots[|snapshots| - 1])
    ensures NoneStale(jobs, snapshots[..|snapshots| - 1])
  {
    var n := |snapshots| - 1;
    var front, next := snapshots[..n], snapshots[n];
    ListedWasGiven(jobs, front);
    FindFinds(Deliver(jobs, front), next.id);
    forall held | held in Deliver(jobs, front) && held.id == next.id ensures !Regresses(held, next) {
      if held !in jobs {
        var i :| 0 <= i < n && front[i] == held;
        assert snapshots[i] == held;
      }
    }
    assert forall i :: 0 <= i < n ==> front[i] == snapshots[i];
  }

  lemma {:induction false} SinceIsPutAbove(jobs: seq<Job>, snapshots: seq<Job>, id: string)
    requires NoneStale(jobs, snapshots)
    ensures PutAbove(jobs, snapshots, id) == Since(jobs, snapshots, id)
  {
    if snapshots != [] {
      FreshIsNotRefused(jobs, snapshots);
      SinceIsPutAbove(jobs, snapshots[..|snapshots| - 1], id);
    }
  }

  lemma {:induction false} SinceStart(jobs: seq<Job>, snapshots: seq<Job>, id: string)
    requires id !in Ids(snapshots)
    ensures Since(jobs, snapshots, id)
      == if Find(jobs, id).Some? then Some(Above(jobs, id) + Ids(snapshots)) else None
  {
    if snapshots == [] {
      assert Ids(snapshots) == {} && Above(jobs, id) + {} == Above(jobs, id);
    } else {
      var front, next := snapshots[..|snapshots| - 1], snapshots[|snapshots| - 1];
      assert snapshots == front + [next] && next in snapshots;
      IdsOfLast(front, next);
      SinceStart(jobs, front, id);
      assert (Above(jobs, id) + Ids(front)) + {next.id} == Above(jobs, id) + Ids(snapshots);
    }
  }

  /** Without stale snapshots, a listed job that gets none itself stays listed exactly with fewer than eight others. */
  lemma FreshListedIff(jobs: seq<Job>, snapshots: seq<Job>, id: string)
    requires UniqueIds(jobs) && |jobs| <= MAX_SNAPSHOTS && NoneStale(jobs, snapshots)
    ensures id in Ids(Deliver(jobs, snapshots)) <==>
      Since(jobs, snapshots, id).Some? && |Since(jobs, snapshots, id).value| < MAX_SNAPSHOTS
    ensures id in Ids(jobs) && id !in Ids(snapshots) ==>
      (id in Ids(Deliver(jobs, snapshots)) <==> |Above(jobs, id) + Ids(snapshots)| < MAX_SNAPSHOTS)
  {
    ListedIff(jobs, snapshots, id);
    SinceIsPutAbove(jobs, snapshots, id);
    FindFinds(jobs, id);
    if id !in Ids(snapshots) {
      SinceStart(jobs, snapshots, id);
    }
  }

  // ---------------------------------------------------------------------------------------
  // Reactivation
  // ---------------------------------------------------------------------------------------

  /** At no time the list shows the job without its end. */
  ghost predicate NeverReactivated(jobs: seq<Job>, snapshots: seq<Job>, id: string) {
    forall n :: 0 <= n <= |snapshots| ==> EndedIfListed(Deliver(jobs, snapshots[..n]), id)
  }

  predicate EndedIfListed(jobs: seq<Job>, id: string) {
    Find(jobs, id).Some? ==> Find(jobs, id).value.status.Ended?
  }

  /** Snapshot `n` shows the job unfinished and arrives when eight others had been put above it. */
  ghost predicate Reactivates(jobs: seq<Job>, snapshots: seq<Job>, id: string, n: nat)
    requires n < |snapshots|
  {
    snapshots[n].id == id && !snapshots[n].status.Ended? && !FewAbove(jobs, snapshots[..n], id)
  }

  lemma EndedStep(list: seq<Job>, next: Job, id: string)
    requires UniqueIds(list) && |list| <= MAX_SNAPSHOTS && EndedIfListed(list, id)
    requires AllWellFormed(list) && WellFormed(next)
    ensures EndedIfListed(Upsert(list, next), id) <==>
      !(next.id == id && !next.status.Ended? && id !in Ids(list))
  {
    FindFinds(list, id);
    UpsertOne(list, next, id);
    if next.id == id && Find(list, id).Some? {
      assert WellFormed(Find(list, id).value);
    }
  }

  lemma {:induction false} ListStaysWellFormed(jobs: seq<Job>, snapshots: seq<Job>)
    requires AllWellFormed(jobs) && AllWellFormed(snapshots)
    ensures AllWellFormed(Deliver(jobs, snapshots))
  {
    ListedWasGiven(jobs, snapshots);
  }

  /**
    A finished, listed job is never shown unfinished again if and only if no unfinished snapshot of
    it arrives when eight others had been put above it.
    */
  lemma NeverReactivatedIff(jobs: seq<Job>, snapshots: seq<Job>, id: string)
    requires UniqueIds(jobs) && |jobs| <= MAX_SNAPSHOTS && AllWellFormed(jobs) && AllWellFormed(snapshots)
    requires Find(jobs, id).Some? && Find(jobs, id).value.status.Ended?
    ensures NeverReactivated(jobs, snapshots, id) <==>
      forall n :: 0 <= n < |snapshots| ==> !Reactivates(jobs, snapshots, id, n)
  {
    if forall n :: 0 <= n < |snapshots| ==> !Reactivates(jobs, snapshots, id, n) {
      forall n | 0 <= n <= |snapshots| ensures EndedIfListed(Deliver(jobs, snapshots[..n]), id) {
        EndedUpTo(jobs, snapshots, id, n);
      }
    } else {
      var n :| 0 <= n < |snapshots| && Reactivates(jobs, snapshots, id, n);
      if EndedIfListed(Deliver(jobs, snapshots[..n]), id) {
        PrefixStep(jobs, snapshots, id, n);
        assert !EndedIfListed(Deliver(jobs, snapshots[..n + 1]), id);
      }
    }
  }

  /** One more delivery of a list that shows the job finished. */
  lemma PrefixStep(jobs: seq<Job>, snapshots: seq<Job>, id: string, n: nat)
    requires UniqueIds(jobs) && |jobs| <= MAX_SNAPSHOTS && AllWellFormed(jobs) && AllWellFormed(snapshots)
    requires n < |snapshots| && EndedIfListed(Deliver(jobs, snapshots[..n]), id)
    ensures EndedIfListed(Deliver(jobs, snapshots[..n + 1]), id) <==> !Reactivates(jobs, snapshots, id, n)
  {
    LastOfPart(snapshots, n);
    PartIsWellFormed(snapshots, n);
    NextDelivery(jobs, snapshots[..n], snapshots[n], id);
  }

  lemma PartIsWellFormed(snapshots: seq<Job>, n: nat)
    requires n < |snapshots| && AllWellFormed(snapshots)
    ensures AllWellFormed(snapshots[..n]) && WellFormed(snapshots[n])
  {
    assert snapshots[n] in snapshots;
    assert forall j :: j in snapshots[..n] ==> j in snapshots;
  }

  lemma NextDelivery(jobs: seq<Job>, front: seq<Job>, next: Job, id: string)
    requires UniqueIds(jobs) && |jobs| <= MAX_SNAPSHOTS && AllWellFormed(jobs)
    requires AllWellFormed(front) && WellFormed(next) && EndedIfListed(Deliver(jobs, front), id)
    ensures EndedIfListed(Deliver(jobs, front + [next]), id)
      <==> !(next.id == id && !next.status.Ended? && !FewAbove(jobs, front, id))
  {
    assert (front + [next])[..|front|] == front;
    DeliverKeepsShape(jobs, front);
    ListStaysWellFormed(jobs, front);
    ListedIff(jobs, front, id);
    EndedStep(Deliver(jobs, front), next, id);
  }

  lemma {:induction false} EndedUpTo(jobs: seq<Job>, snapshots: seq<Job>, id: string, n: nat)
    requires UniqueIds(jobs) && |jobs| <= MAX_SNAPSHOTS && AllWellFormed(jobs) && AllWellFormed(snapshots)
    requires Find(jobs, id).Some? && Find(jobs, id).value.status.Ended? && n <= |snapshots|
    requires forall m :: 0 <= m < |snapshots| ==> !Reactivates(jobs, snapshots, id, m)
    ensures EndedIfListed(Deliver(jobs, snapshots[..n]), id)
    decreases n
  {
    if n > 0 {
      EndedUpTo(jobs, snapshots, id, n - 1);
      PrefixStep(jobs, snapshots, id, n - 1);
    } else {
      assert snapshots[..0] == [];
    }
  }

  /**
    One stale poll of a finished job after snapshots of other jobs, none of them stale: the job is
    shown as the poll has it exactly when eight distinct others were above it by then.
    */
  lemma StalePollReactivatesIff(jobs: seq<Job>, others: seq<Job>, stale: Job)
    requires UniqueIds(jobs) && |jobs| <= MAX_SNAPSHOTS && AllWellFormed(jobs)
    requires NoneStale(jobs, others) && stale.id !in Ids(others)
    requires Find(jobs, stale.id).Some? && Find(jobs, stale.id).value.status.Ended?
    requires WellFormed(stale) && !stale.status.Ended?
    ensures Find(Deliver(jobs, others + [stale]), stale.id) == Some(stale)
      <==> |Above(jobs, stale.id) + Ids(others)| >= MAX_SNAPSHOTS
  {
    var id, all := stale.id, others + [stale];
    assert all[..|others|] == others;
    FindFinds(jobs, id);
    FreshListedIff(jobs, others, id);
    DeliverKeepsShape(jobs, others);
    ListedWasGiven(jobs, others);
    var list := Deliver(jobs, others);
    FindFinds(list, id);
    UpsertOne(list, stale, id);
    if id in Ids(list) {
      var held := Find(list, id).value;
      assert held in jobs;
    }
  }

  // ---------------------------------------------------------------------------------------
  // What a merge keeps
  // ---------------------------------------------------------------------------------------

  lemma MergedIds(jobs: seq<Job>, recovered: seq<Job>, out: seq<Job>)
    requires UniqueIds(jobs) && |jobs| <= MAX_SNAPSHOTS && MergedTo(jobs, recovered, out)
    ensures Ids(out) == Ids(Deliver(jobs, Reversed(recovered)))
  {
    var folded := Deliver(jobs, Reversed(recovered));
    var sorted :| SortOf(folded, sorted) && out == Bounded(sorted);
    DeliverKeepsShape(jobs, Reversed(recovered));
    PermutationKeepsShape(folded, sorted);
  }

  /** A merge keeps an id exactly when fewer than eight others were put above it, oldest recovered snapshot first. */
  lemma MergeKeepsIff(jobs: seq<Job>, recovered: seq<Job>, out: seq<Job>, id: string)
    requires UniqueIds(jobs) && |jobs| <= MAX_SNAPSHOTS && MergedTo(jobs, recovered, out)
    ensures id in Ids(out) <==> FewAbove(jobs, Reversed(recovered), id)
  {
    MergedIds(jobs, recovered, out);
    ListedIff(jobs, Reversed(recovered), id);
  }

  lemma {:induction false} ReversedSplit(s: seq<Job>, i: nat)
    requires i < |s|
    ensures Reversed(s) == Reversed(s[i + 1..]) + [s[i]] + Reversed(s[..i])
    decreases i
  {
    if i == 0 {
      assert s[..0] == [] && s[1..] == s[0 + 1..];
    } else {
      ReversedSplit(s[1..], i - 1);
      assert s[1..][i..] == s[i + 1..] && s[1..][..i - 1] == s[..i][1..];
      assert Reversed(s[..i]) == Reversed(s[1..][..i - 1]) + [s[0]];
    }
  }

  /** What follows the last snapshot of a job counts from there. */
  lemma {:induction false} SinceOwn(jobs: seq<Job>, before: seq<Job>, own: Job, after: seq<Job>)
    requires own.id !in Ids(after)
    ensures Since(jobs, before + [own] + after, own.id) == Some(Ids(after))
    decreases |after|
  {
    var all := before + [own] + after;
    if after == [] {
      assert all == before + [own] && all[..|all| - 1] == before;
      assert Ids(after) == {};
    } else {
      var front, next := after[..|after| - 1], after[|after| - 1];
      assert after == front + [next] && all[..|all| - 1] == before + [own] + front;
      IdsOfLast(front, next);
      SinceOwn(jobs, before, own, front);
    }
  }

  /**
    Without stale snapshots a merge keeps the first eight of the recovery, and of the other jobs
    exactly those with fewer than eight recovered or listed above them.
    */
  lemma MergeKeepsFirstEight(jobs: seq<Job>, recovered: seq<Job>, out: seq<Job>)
    requires UniqueIds(jobs) && |jobs| <= MAX_SNAPSHOTS && UniqueIds(recovered)
    requires NoneStale(jobs, Reversed(recovered)) && MergedTo(jobs, recovered, out)
    ensures forall i :: 0 <= i < |recovered| ==> (recovered[i].id in Ids(out) <==> i < 8)
    ensures forall id :: id in Ids(jobs) && id !in Ids(recovered) ==>
      (id in Ids(out) <==> |Above(jobs, id) + Ids(recovered)| < 8)
  {
    var snapshots := Reversed(recovered);
    MergedIds(jobs, recovered, out);
    ReversedIds(recovered);
    forall i | 0 <= i < |recovered| ensures recovered[i].id in Ids(out) <==> i < MAX_SNAPSHOTS {
      FreshListedIff(jobs, snapshots, recovered[i].id);
      RecoveredSince(jobs, recovered, i);
    }
    forall id | id in Ids(jobs) && id !in Ids(recovered)
      ensures id in Ids(out) <==> |Above(jobs, id) + Ids(recovered)| < MAX_SNAPSHOTS
    {
      FreshListedIff(jobs, snapshots, id);
    }
  }

  lemma RecoveredSince(jobs: seq<Job>, recovered: seq<Job>, i: nat)
    requires UniqueIds(recovered) && i < |recovered|
    ensures Since(jobs, Reversed(recovered), recovered[i].id).Some?
    ensures |Since(jobs, Reversed(recovered), recovered[i].id).value| == i
  {
    var newer := recovered[..i];
    ReversedSplit(recovered, i);
    ReversedIds(newer);
    SizeOfUnique(newer);
    forall j | j in newer ensures j.id != recovered[i].id {
      var k :| 0 <= k < i && newer[k] == j;
      assert recovered[k] == j;
    }
    SinceOwn(jobs, Reversed(recovered[i + 1..]), recovered[i], Reversed(newer));
  }

  // ---------------------------------------------------------------------------------------
  // The rollback of a cancellation
  // ---------------------------------------------------------------------------------------

  /** What may happen to the list while a native call is awaited; a merge is polls and a sort. */
  datatype Event = Poll(job: Job) | Forget(id: string) | Sort(sorted: seq<Job>)

  function Happen(jobs: seq<Job>, e: Event): seq<Job> {
    match e
    case Poll(job) => Upsert(jobs, job)
    case Forget(id) => Drop(jobs, id)
    case Sort(sorted) => if multiset(sorted) == multiset(jobs) then sorted else jobs
  }

  function Play(jobs: seq<Job>, events: seq<Event>): seq<Job> {
    if events == [] then jobs else Happen(Play(jobs, events[..|events| - 1]), events[|events| - 1])
  }

  ghost predicate Proper(jobs: seq<Job>) {
    UniqueIds(jobs) && |jobs| <= MAX_SNAPSHOTS && AllWellFormed(jobs)
  }

  ghost predicate ProperEvents(events: seq<Event>) {
    forall e :: e in events && e.Poll? ==> WellFormed(e.job)
  }

  lemma {:induction false} DropIsShorter(jobs: seq<Job>, id: string)
    ensures |Drop(jobs, id)| <= |jobs|
  {
    if jobs != [] {
      DropIsShorter(jobs[1..], id);
    }
  }

  lemma HappenStaysProper(jobs: seq<Job>, e: Event)
    requires Proper(jobs) && (e.Poll? ==> WellFormed(e.job))
    ensures Proper(Happen(jobs, e))
  {
    match e
    case Poll(job) =>
      UpsertKeepsShape(jobs, job);
      DropDrops(jobs, job.id);
      var full := [job] + Drop(jobs, job.id);
      assert forall k :: k in Bounded(full) ==> k in full;
    case Forget(id) =>
      DropDrops(jobs, id);
      DropIsShorter(jobs, id);
    case Sort(sorted) =>
      if multiset(sorted) == multiset(jobs) {
        PermutationKeepsShape(jobs, sorted);
        assert forall j :: j in sorted ==> j in multiset(jobs);
      }
  }

  lemma {:induction false} PlayStaysProper(jobs: seq<Job>, events: seq<Event>)
    requires Proper(jobs) && ProperEvents(events)
    ensures Proper(Play(jobs, events))
  {
    if events != [] {
      var front, last := events[..|events| - 1], events[|events| - 1];
      assert last in events && forall e :: e in front ==> e in events;
      PlayStaysProper(jobs, front);
      HappenStaysProper(Play(jobs, front), last);
    }
  }

  /** The list shows the job as running. */
  predicate ShowsRunning(jobs: seq<Job>, id: string) {
    Find(jobs, id).Some? && Find(jobs, id).value.status == Running
  }

  /** Remembering a running snapshot changes a list exactly when it lacks the job, or shows it running but not just so on top. */
  lemma RunningChangesIff(jobs: seq<Job>, current: Job)
    requires Proper(jobs) && WellFormed(current) && current.status == Running
    ensures Upsert(jobs, current) != jobs <==>
      current.id !in Ids(jobs) || (ShowsRunning(jobs, current.id) && jobs[0] != current)
  {
    var id := current.id;
    FindFinds(jobs, id);
    if id !in Ids(jobs) {
      OwnOnTop(jobs, current);
      assert Upsert(jobs, current) == jobs ==> current in jobs;
    } else if Find(jobs, id).value.status == Running {
      OwnOnTop(jobs, current);
      if jobs[0] == current {
        assert jobs == [current] + jobs[1..];
        assert current.id !in Ids(jobs[1..]);
        NothingToDrop(jobs[1..], id);
      }
    }
  }

  /** An unfinished job that is listed as cancelling or ended, or not at all. */
  predicate NotRunning(jobs: seq<Job>, id: string) {
    Find(jobs, id).Some? ==> Find(jobs, id).value.status != Running
  }

  lemma HappenStaysNotRunning(jobs: seq<Job>, e: Event, id: string)
    requires Proper(jobs) && (e.Poll? ==> WellFormed(e.job)) && NotRunning(jobs, id)
    requires id in Ids(jobs) || !(e.Poll? && e.job.id == id && e.job.status == Running)
    ensures NotRunning(Happen(jobs, e), id)
  {
    FindFinds(jobs, id);
    match e
    case Poll(job) => UpsertOne(jobs, job, id);
    case Forget(other) =>
      DropDrops(jobs, other);
      FindFinds(Drop(jobs, other), id);
    case Sort(sorted) =>
      if multiset(sorted) == multiset(jobs) {
        PermutationKeepsShape(jobs, sorted);
      }
  }

  function Polls(snapshots: seq<Job>): seq<Event> {
    if snapshots == [] then [] else Polls(snapshots[..|snapshots| - 1]) + [Poll(snapshots[|snapshots| - 1])]
  }

  lemma {:induction false} PollsDeliver(jobs: seq<Job>, snapshots: seq<Job>)
    ensures Play(jobs, Polls(snapshots)) == Deliver(jobs, snapshots)
  {
    if snapshots != [] {
      var front, next := snapshots[..|snapshots| - 1], snapshots[|snapshots| - 1];
      PollsDeliver(jobs, front);
      assert Polls(snapshots)[..|Polls(snapshots)| - 1] == Polls(front);
    }
  }

  /** A merge is the polls of what was recovered, oldest first, and one sort. */
  lemma MergeIsEvents(jobs: seq<Job>, recovered: seq<Job>, out: seq<Job>)
    requires UniqueIds(jobs) && |jobs| <= MAX_SNAPSHOTS && MergedTo(jobs, recovered, out)
    ensures out == Play(jobs, Polls(Reversed(recovered)) + [Sort(out)])
  {
    var snapshots := Reversed(recovered);
    var folded := Deliver(jobs, snapshots);
    var sorted :| SortOf(folded, sorted) && out == Bounded(sorted);
    DeliverKeepsShape(jobs, snapshots);
    PermutationKeepsShape(folded, sorted);
    PollsDeliver(jobs, snapshots);
    var events := Polls(snapshots) + [Sort(out)];
    assert events[..|events| - 1] == Polls(snapshots);
  }

  /** No running snapshot of the job is remembered at a time when the job is not listed. */
  ghost predicate NoRestart(jobs: seq<Job>, events: seq<Event>, id: string) {
    forall n :: 0 <= n < |events| && events[n].Poll? && events[n].job.id == id && events[n].job.status == Running ==>
      id in Ids(Play(jobs, events[..n]))
  }

  lemma EarlierEvents(jobs: seq<Job>, events: seq<Event>, id: string)
    requires events != [] && ProperEvents(events) && NoRestart(jobs, events, id)
    ensures var front, last := events[..|events| - 1], events[|events| - 1];
      && ProperEvents(front) && (last.Poll? ==> WellFormed(last.job)) && NoRestart(jobs, front, id)
  {
    var n := |events| - 1;
    var front := events[..n];
    assert events[n] in events && forall e :: e in front ==> e in events;
    assert forall m :: 0 <= m < n ==> front[m] == events[m] && front[..m] == events[..m];
  }

  lemma {:induction false} PlayStaysNotRunning(jobs: seq<Job>, events: seq<Event>, id: string)
    requires Proper(jobs) && ProperEvents(events) && NotRunning(jobs, id) && NoRestart(jobs, events, id)
    ensures NotRunning(Play(jobs, events), id)
  {
    if events != [] {
      var n := |events| - 1;
      var front, last := events[..n], events[n];
      EarlierEvents(jobs, events, id);
      PlayStaysNotRunning(jobs, front, id);
      PlayStaysProper(jobs, front);
      HappenStaysNotRunning(Play(jobs, front), last, id);
    }
  }

  /**
    Cancelling a running job is remembered before the native call; when the call fails, the running
    snapshot is remembered again. Whatever polls, removals and merges come in between, that changes the list
    exactly when the job is no longer listed, or is shown running again. It is never shown running
    unless a running snapshot of it came while it was not listed; so without one, the rollback has an
    effect exactly when the job is no longer listed.
    */
  lemma CancelRollbackIff(jobs: seq<Job>, current: Job, events: seq<Event>)
    requires Proper(jobs) && ProperEvents(events)
    requires Find(jobs, current.id) == Some(current) && current.status == Running
    ensures var start := Upsert(jobs, current.(status := Cancelling));
      var list := Play(start, events);
      && (Upsert(list, current) != list <==>
          current.id !in Ids(list) || (ShowsRunning(list, current.id) && list[0] != current))
      && (NoRestart(start, events, current.id) ==> (Upsert(list, current) != list <==> current.id !in Ids(list)))
  {
    var id, cancelling := current.id, current.(status := Cancelling);
    FindFinds(jobs, id);
    var start := Upsert(jobs, cancelling);
    HappenStaysProper(jobs, Poll(cancelling));
    PlayStaysProper(start, events);
    RunningChangesIff(Play(start, events), current);
    UpsertOne(jobs, cancelling, id);
    if NoRestart(start, events, id) {
      PlayStaysNotRunning(start, events, id);
    }
  }
}
