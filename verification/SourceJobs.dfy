/**
  The bounded list of source-job snapshots in the desktop shell (apps/web/src/sourceJobs.ts):
  snapshots of a job arrive from actions, polls and recovery reads in any order.
  */
module SourceJobs {
  import opened Sequences
  import opened Wrappers

  const MAX_SNAPSHOTS: nat := 8

  datatype Status = Running | Cancelling | Ended(outcome: string)

  datatype Job = Job(id: string, status: Status, startedAt: int, completedAt: Option<int>, summary: string)

  // ---------------------------------------------------------------------------------------
  // The operations
  // ---------------------------------------------------------------------------------------

  function Find(jobs: seq<Job>, id: string): Option<Job> {
    if jobs == [] then None
    else if jobs[0].id == id then Some(jobs[0])
    else Find(jobs[1..], id)
  }

  /** `dropJob`, and the filter of `upsertJob` */
  function Drop(jobs: seq<Job>, id: string): seq<Job> {
    if jobs == [] then []
    else if jobs[0].id == id then Drop(jobs[1..], id)
    else [jobs[0]] + Drop(jobs[1..], id)
  }

  /** `slice(0, MAX_SOURCE_JOB_SNAPSHOTS)` */
  function Bounded(jobs: seq<Job>): seq<Job> {
    if |jobs| <= MAX_SNAPSHOTS then jobs else jobs[..MAX_SNAPSHOTS]
  }

  /** `snapshotRegresses` */
  predicate Regresses(existing: Job, next: Job) {
    || (existing.completedAt.Some?
        && (next.completedAt.None? || next.completedAt.value < existing.completedAt.value))
    || (existing.status == Cancelling && next.status == Running)
  }

  /** `upsertJob` */
  function Upsert(jobs: seq<Job>, next: Job): seq<Job> {
    var existing := Find(jobs, next.id);
    if existing.Some? && Regresses(existing.value, next) then jobs
    else Bounded([next] + Drop(jobs, next.id))
  }

  /** Snapshots delivered one after the other. */
  function Deliver(jobs: seq<Job>, snapshots: seq<Job>): seq<Job> {
    if snapshots == [] then jobs
    else Upsert(Deliver(jobs, snapshots[..|snapshots| - 1]), snapshots[|snapshots| - 1])
  }

  function Reversed(s: seq<Job>): seq<Job> {
    if s == [] then [] else Reversed(s[1..]) + [s[0]]
  }

  // ---------------------------------------------------------------------------------------
  // Lists with unique ids
  // ---------------------------------------------------------------------------------------

  function Ids(jobs: seq<Job>): set<string> {
    set j | j in jobs :: j.id
  }

  ghost predicate UniqueIds(jobs: seq<Job>) {
    forall i, j :: 0 <= i < j < |jobs| ==> jobs[i].id != jobs[j].id
  }

  lemma {:induction false} FindFinds(jobs: seq<Job>, id: string)
    ensures Find(jobs, id).Some? <==> id in Ids(jobs)
    ensures Find(jobs, id).Some? ==> Find(jobs, id).value in jobs && Find(jobs, id).value.id == id
    ensures UniqueIds(jobs) ==> forall j :: j in jobs && j.id == id ==> Find(jobs, id) == Some(j)
  {
    if jobs != [] {
      FindFinds(jobs[1..], id);
      assert jobs == [jobs[0]] + jobs[1..];
      if jobs[0].id == id {
        assert jobs[0] in jobs;
      }
    }
  }

  lemma {:induction false} DropDrops(jobs: seq<Job>, id: string)
    ensures forall j :: j in Drop(jobs, id) <==> j in jobs && j.id != id
    ensures UniqueIds(jobs) ==> UniqueIds(Drop(jobs, id))
    ensures forall other :: other != id ==> Find(Drop(jobs, id), other) == Find(jobs, other)
  {
    if jobs != [] {
      DropDrops(jobs[1..], id);
      assert jobs == [jobs[0]] + jobs[1..];
    }
  }

  lemma {:induction false} SizeOfUnique(jobs: seq<Job>)
    requires UniqueIds(jobs)
    ensures |Ids(jobs)| == |jobs|
  {
    if jobs == [] {
      assert Ids(jobs) == {};
    } else {
      SizeOfUnique(jobs[1..]);
      assert jobs == [jobs[0]] + jobs[1..];
      assert Ids(jobs) == {jobs[0].id} + Ids(jobs[1..]);
      assert jobs[0].id !in Ids(jobs[1..]);
    }
  }

  /** Every upsert keeps ids unique and the list bounded. */
  lemma UpsertKeepsShape(jobs: seq<Job>, next: Job)
    requires UniqueIds(jobs) && |jobs| <= MAX_SNAPSHOTS
    ensures UniqueIds(Upsert(jobs, next)) && |Upsert(jobs, next)| <= MAX_SNAPSHOTS
    ensures next.id in Ids(Upsert(jobs, next))
    ensures Ids(Upsert(jobs, next)) <= Ids(jobs) + {next.id}
  {
    DropDrops(jobs, next.id);
    FindFinds(jobs, next.id);
    var full := [next] + Drop(jobs, next.id);
    assert full[0] in full;
    assert forall j :: j in full ==> j == next || j in jobs;
    assert Upsert(jobs, next) == jobs || Upsert(jobs, next)[0] == next;
  }

  lemma {:induction false} DeliverKeepsShape(jobs: seq<Job>, snapshots: seq<Job>)
    requires UniqueIds(jobs) && |jobs| <= MAX_SNAPSHOTS
    ensures UniqueIds(Deliver(jobs, snapshots)) && |Deliver(jobs, snapshots)| <= MAX_SNAPSHOTS
    ensures Ids(Deliver(jobs, snapshots)) <= Ids(jobs) + Ids(snapshots)
  {
    if snapshots != [] {
      var front, last := snapshots[..|snapshots| - 1], snapshots[|snapshots| - 1];
      DeliverKeepsShape(jobs, front);
      UpsertKeepsShape(Deliver(jobs, front), last);
      assert snapshots == front + [last];
    }
  }

  // ---------------------------------------------------------------------------------------
  // Ranks
  // ---------------------------------------------------------------------------------------

  /** A snapshot has a completion time exactly when its job has ended. */
  predicate WellFormed(j: Job) {
    j.completedAt.Some? <==> j.status.Ended?
  }

  function Phase(s: Status): nat {
    match s
    case Running => 0
    case Cancelling => 1
    case Ended(_) => 2
  }

  /** Phase first, completion time among ended snapshots. */
  predicate RankLeq(a: Job, b: Job) {
    || Phase(a.status) < Phase(b.status)
    || (Phase(a.status) == Phase(b.status)
        && (a.completedAt.Some? && b.completedAt.Some? ==> a.completedAt.value <= b.completedAt.value))
  }

  predicate SameRank(a: Job, b: Job) {
    Phase(a.status) == Phase(b.status) && a.completedAt == b.completedAt
  }

  /** Among well-formed snapshots, exactly those of a lower rank are refused. */
  lemma RegressesIsLowerRank(existing: Job, next: Job)
    requires WellFormed(existing) && WellFormed(next)
    ensures Regresses(existing, next) <==> !RankLeq(existing, next)
  {
  }

  /** What the list holds for one id, as if there were no bound. */
  function Track(held: Option<Job>, snapshots: seq<Job>, id: string): Option<Job> {
    if snapshots == [] then held
    else
      var before := Track(held, snapshots[..|snapshots| - 1], id);
      var next := snapshots[|snapshots| - 1];
      if next.id != id || (before.Some? && Regresses(before.value, next)) then before else Some(next)
  }

  /** The id stays listed from its first snapshot on. */
  ghost predicate NeverEvicted(jobs: seq<Job>, snapshots: seq<Job>, id: string) {
    forall n :: 0 <= n <= |snapshots| && id in Ids(jobs) + Ids(snapshots[..n]) ==>
      id in Ids(Deliver(jobs, snapshots[..n]))
  }

  lemma {:induction false} DeliverTracks(jobs: seq<Job>, snapshots: seq<Job>, id: string)
    requires UniqueIds(jobs) && |jobs| <= MAX_SNAPSHOTS
    requires NeverEvicted(jobs, snapshots, id)
    ensures Find(Deliver(jobs, snapshots), id) == Track(Find(jobs, id), snapshots, id)
  {
    if snapshots != [] {
      var n := |snapshots| - 1;
      var front, next := snapshots[..n], snapshots[n];
      NeverEvictedPrefix(jobs, snapshots, id);
      DeliverTracks(jobs, front, id);
      DeliverKeepsShape(jobs, front);
      assert snapshots[..n + 1] == snapshots == front + [next];
      UpsertOne(Deliver(jobs, front), next, id);
      FindFinds(Deliver(jobs, snapshots), id);
      if Find(Deliver(jobs, front), id).Some? {
        FindFinds(Deliver(jobs, front), id);
        DeliverKeepsShape(jobs, front);
        assert id in Ids(jobs) + Ids(snapshots);
      }
    }
  }

  lemma NeverEvictedPrefix(jobs: seq<Job>, snapshots: seq<Job>, id: string)
    requires snapshots != [] && NeverEvicted(jobs, snapshots, id)
    ensures NeverEvicted(jobs, snapshots[..|snapshots| - 1], id)
  {
    var front := snapshots[..|snapshots| - 1];
    assert forall n :: 0 <= n <= |front| ==> front[..n] == snapshots[..n];
  }

  /** One upsert, seen from one id that stays listed. */
  lemma UpsertOne(jobs: seq<Job>, next: Job, id: string)
    requires UniqueIds(jobs) && |jobs| <= MAX_SNAPSHOTS
    ensures next.id == id ==>
      Find(Upsert(jobs, next), id)
        == if Find(jobs, id).Some? && Regresses(Find(jobs, id).value, next) then Find(jobs, id) else Some(next)
    ensures next.id != id && (Find(Upsert(jobs, next), id).Some? || Find(jobs, id).None?) ==>
      Find(Upsert(jobs, next), id) == Find(jobs, id)
  {
    DropDrops(jobs, next.id);
    var full := [next] + Drop(jobs, next.id);
    var out := Upsert(jobs, next);
    UpsertKeepsShape(jobs, next);
    FindFinds(out, id);
    FindFinds(full, id);
    FindFinds(jobs, id);
    if out != jobs {
      assert out <= full && out[0] == next;
      assert full[1..] == Drop(jobs, next.id);
    }
  }

  // ---------------------------------------------------------------------------------------
  // Convergence
  // ---------------------------------------------------------------------------------------

  ghost predicate AllWellFormed(snapshots: seq<Job>) {
    forall j :: j in snapshots ==> WellFormed(j)
  }

  /** A tracked job ends at a delivered snapshot of the highest rank. */
  lemma {:induction false} TrackIsHighest(held: Option<Job>, snapshots: seq<Job>, id: string)
    requires AllWellFormed(snapshots) && (held.Some? ==> WellFormed(held.value) && held.value.id == id)
    ensures var end := Track(held, snapshots, id);
      && (end.Some? ==> WellFormed(end.value) && end.value.id == id && (end == held || end.value in snapshots))
      && (held.Some? ==> end.Some? && RankLeq(held.value, end.value))
      && (forall j :: j in snapshots && j.id == id ==> end.Some? && RankLeq(j, end.value))
  {
    if snapshots != [] {
      var front, next := snapshots[..|snapshots| - 1], snapshots[|snapshots| - 1];
      assert snapshots == front + [next] && next in snapshots;
      TrackIsHighest(held, front, id);
    }
  }

  /** The final snapshot of a job that is never evicted has the highest rank of all that were delivered. */
  lemma DeliveredIsHighest(jobs: seq<Job>, snapshots: seq<Job>, id: string)
    requires UniqueIds(jobs) && |jobs| <= MAX_SNAPSHOTS && AllWellFormed(jobs) && AllWellFormed(snapshots)
    requires NeverEvicted(jobs, snapshots, id)
    ensures var end := Find(Deliver(jobs, snapshots), id);
      && (end.Some? ==> end.value in jobs || end.value in snapshots)
      && (forall j :: (j in jobs || j in snapshots) && j.id == id ==> end.Some? && RankLeq(j, end.value))
  {
    DeliverTracks(jobs, snapshots, id);
    FindFinds(jobs, id);
    TrackIsHighest(Find(jobs, id), snapshots, id);
  }

  /**
    Convergence: two deliveries of the same snapshots in different orders leave a never-evicted
    job in the same phase with the same completion time.
    */
  lemma Convergence(jobs: seq<Job>, first: seq<Job>, second: seq<Job>, id: string)
    requires UniqueIds(jobs) && |jobs| <= MAX_SNAPSHOTS && AllWellFormed(jobs)
    requires AllWellFormed(first) && multiset(first) == multiset(second)
    requires NeverEvicted(jobs, first, id) && NeverEvicted(jobs, second, id)
    ensures var a, b := Find(Deliver(jobs, first), id), Find(Deliver(jobs, second), id);
      (a.None? && b.None?) || (a.Some? && b.Some? && SameRank(a.value, b.value))
  {
    forall j ensures j in first <==> j in second {
      assert j in first <==> j in multiset(first);
      assert j in second <==> j in multiset(second);
    }
    DeliveredIsHighest(jobs, first, id);
    DeliveredIsHighest(jobs, second, id);
    FindFinds(Deliver(jobs, first), id);
    FindFinds(Deliver(jobs, second), id);
  }

  /** A late poll never reactivates a finished job that is still listed. */
  lemma FinishedStaysFinished(jobs: seq<Job>, snapshots: seq<Job>, id: string)
    requires UniqueIds(jobs) && |jobs| <= MAX_SNAPSHOTS && AllWellFormed(jobs) && AllWellFormed(snapshots)
    requires NeverEvicted(jobs, snapshots, id)
    requires exists j :: (j in jobs || j in snapshots) && j.id == id && j.status.Ended?
    ensures var end := Find(Deliver(jobs, snapshots), id); end.Some? && end.value.status.Ended?
  {
    DeliveredIsHighest(jobs, snapshots, id);
  }

  lemma {:induction false} ReversedStep(s: seq<Job>, x: Job)
    ensures Reversed(s + [x]) == [x] + Reversed(s)
  {
    if s != [] {
      assert (s + [x])[1..] == s[1..] + [x];
      ReversedStep(s[1..], x);
    } else {
      assert ([] + [x])[1..] == [];
    }
  }

  lemma {:induction false} ReversedMembers(s: seq<Job>)
    ensures |Reversed(s)| == |s| && forall j :: j in Reversed(s) <==> j in s
  {
    if s != [] {
      ReversedMembers(s[1..]);
      assert s == [s[0]] + s[1..];
    }
  }

  lemma {:induction false} NothingToDrop(jobs: seq<Job>, id: string)
    requires id !in Ids(jobs)
    ensures Drop(jobs, id) == jobs
  {
    if jobs != [] {
      assert jobs[0] in jobs;
      assert jobs == [jobs[0]] + jobs[1..];
      NothingToDrop(jobs[1..], id);
    }
  }

  /** An unlisted id is put on top. */
  lemma UpsertNew(jobs: seq<Job>, next: Job)
    requires next.id !in Ids(jobs)
    ensures Upsert(jobs, next) == Bounded([next] + jobs)
  {
    FindFinds(jobs, next.id);
    NothingToDrop(jobs, next.id);
  }

  /** Eight snapshots of other jobs push a job out of the list, finished or not. */
  lemma EightOthersEvict(job: Job, others: seq<Job>)
    requires UniqueIds(others) && |others| == MAX_SNAPSHOTS
    requires forall j :: j in others ==> j.id != job.id
    ensures Deliver([job], others) == Reversed(others)
  {
    OthersOnTop(job, others, |others|);
    assert others[..|others|] == others;
    ReversedMembers(others);
  }

  lemma {:induction false} OthersOnTop(job: Job, others: seq<Job>, n: nat)
    requires UniqueIds(others) && n <= |others| == MAX_SNAPSHOTS
    requires forall j :: j in others ==> j.id != job.id
    ensures Deliver([job], others[..n]) == Bounded(Reversed(others[..n]) + [job])
  {
    if n > 0 {
      OthersOnTop(job, others, n - 1);
      ReversedMembers(others[..n - 1]);
      DeliverOther(job, others, n - 1);
    }
  }

  lemma DeliverOther(job: Job, others: seq<Job>, n: nat)
    requires UniqueIds(others) && n < |others| <= MAX_SNAPSHOTS
    requires forall j :: j in others ==> j.id != job.id
    requires Deliver([job], others[..n]) == Reversed(others[..n]) + [job]
    ensures Deliver([job], others[..n + 1]) == Bounded(Reversed(others[..n + 1]) + [job])
  {
    var next := others[n];
    assert others[..n + 1] == others[..n] + [next] && others[..n + 1][..n] == others[..n];
    ReversedStep(others[..n], next);
    ReversedMembers(others[..n]);
    assert next in others;
    UpsertNew(Reversed(others[..n]) + [job], next);
    assert [next] + (Reversed(others[..n]) + [job]) == Reversed(others[..n + 1]) + [job];
  }

  /**
    Once evicted, a finished job is forgotten: a stale poll lists it as running again. So the
    condition above cannot be dropped.
    */
  lemma EvictionForgets(finished: Job, others: seq<Job>, stale: Job)
    requires finished.status.Ended? && stale.status.Running? && stale.id == finished.id
    requires UniqueIds(others) && |others| == MAX_SNAPSHOTS
    requires forall j :: j in others ==> j.id != finished.id
    ensures Find(Deliver([finished], others + [stale]), finished.id) == Some(stale)
  {
    EightOthersEvict(finished, others);
    assert (others + [stale])[..8] == others;
    ReversedMembers(others);
    UpsertNew(Reversed(others), stale);
  }

  /**
    Cancelling is remembered before the native call. When that call fails with nothing in between,
    remembering the running snapshot again has no effect: it is refused.
    */
  lemma CancelRollbackHasNoEffect(jobs: seq<Job>, current: Job)
    requires UniqueIds(jobs) && |jobs| <= MAX_SNAPSHOTS
    requires Find(jobs, current.id) == Some(current) && current.status == Running
    ensures var cancelling := Upsert(jobs, current.(status := Cancelling));
      Upsert(cancelling, current) == cancelling
        && (current.completedAt.None? ==> Find(cancelling, current.id).value.status == Cancelling)
  {
    UpsertOne(jobs, current.(status := Cancelling), current.id);
  }

  // ---------------------------------------------------------------------------------------
  // Recency
  // ---------------------------------------------------------------------------------------

  function AfterLastDash(id: string): string {
    if id == "" then ""
    else if id[|id| - 1] == '-' then ""
    else AfterLastDash(id[..|id| - 1]) + [id[|id| - 1]]
  }

  predicate IsDigit(c: char) {
    '0' <= c <= '9'
  }

  function ValueOf(digits: string): nat
    requires forall i :: 0 <= i < |digits| ==> IsDigit(digits[i])
  {
    if digits == "" then 0
    else
      assert IsDigit(digits[|digits| - 1]);
      10 * ValueOf(digits[..|digits| - 1]) + (digits[|digits| - 1] as int - '0' as int)
  }

  /** `jobSequence`: the number at the end of the id, if it ends in one. */
  function Sequence(id: string): Option<nat> {
    var value := AfterLastDash(id);
    if value != "" && forall i :: 0 <= i < |value| ==> IsDigit(value[i]) then Some(ValueOf(value)) else None
  }

  /** `compareJobRecency`: negative when `left` is more recent. */
  function Compare(left: Job, right: Job): int {
    if left.startedAt != right.startedAt then right.startedAt - left.startedAt
    else if Sequence(left.id).Some? && Sequence(right.id).Some? then
      Sequence(right.id).value - Sequence(left.id).value
    else 0
  }

  // What the number of an id is, without the functions above.

  function Digit(d: nat): char
    requires d < 10
  {
    ("0123456789")[d]
  }

  /** The decimal digits of a number. */
  function Decimal(n: nat): string {
    if n < 10 then [Digit(n)] else Decimal(n / 10) + [Digit(n % 10)]
  }

  predicate AllDigits(s: string) {
    forall i :: 0 <= i < |s| ==> IsDigit(s[i])
  }

  lemma DigitsAreDigits(d: nat)
    requires d < 10
    ensures IsDigit(Digit(d)) && Digit(d) as int - '0' as int == d && Digit(d) != '-'
  {
  }

  lemma AppendDigit(front: string, d: nat)
    requires AllDigits(front) && '-' !in front && d < 10
    ensures AllDigits(front + [Digit(d)]) && '-' !in front + [Digit(d)]
    ensures ValueOf(front + [Digit(d)]) == 10 * ValueOf(front) + d
  {
    DigitsAreDigits(d);
    assert (front + [Digit(d)])[..|front|] == front;
  }

  lemma {:induction false} DecimalIsValue(n: nat)
    ensures Decimal(n) != "" && AllDigits(Decimal(n)) && '-' !in Decimal(n) && ValueOf(Decimal(n)) == n
  {
    if n >= 10 {
      DecimalIsValue(n / 10);
      AppendDigit(Decimal(n / 10), n % 10);
    } else {
      AppendDigit("", n);
      assert "" + [Digit(n)] == [Digit(n)];
    }
  }

  lemma {:induction false} LeadingZero(digits: string)
    requires AllDigits(digits)
    ensures AllDigits("0" + digits) && ValueOf("0" + digits) == ValueOf(digits)
  {
    var all := "0" + digits;
    if digits == "" {
      assert all[..0] == "";
    } else {
      LeadingZero(digits[..|digits| - 1]);
      assert all[..|all| - 1] == "0" + digits[..|digits| - 1];
    }
  }

  lemma {:induction false} TailAfterDash(prefix: string, tail: string)
    requires '-' !in tail
    ensures AfterLastDash(prefix + "-" + tail) == tail && AfterLastDash(tail) == tail
  {
    var id := prefix + "-" + tail;
    if tail != "" {
      var front := tail[..|tail| - 1];
      assert tail[|tail| - 1] in tail && id[|id| - 1] == tail[|tail| - 1];
      assert id[..|id| - 1] == prefix + "-" + front;
      TailAfterDash(prefix, front);
    }
  }

  /**
    An id that is a number, or ends in a dash and a number, has that number, leading zeros or not; any
    other text after the last dash is no number.
    */
  lemma SequenceIsNumber(prefix: string, tail: string, n: nat)
    requires '-' !in tail
    ensures Sequence(prefix + "-" + Decimal(n)) == Some(n) == Sequence(Decimal(n))
    ensures Sequence(prefix + "-" + tail) == Sequence(tail)
    ensures Sequence(tail).Some? <==> tail != "" && AllDigits(tail)
    ensures tail != "" && AllDigits(tail) ==> Sequence("0" + tail) == Sequence(tail)
  {
    DecimalIsValue(n);
    TailAfterDash(prefix, Decimal(n));
    TailAfterDash(prefix, tail);
    TailAfterDash(prefix, "0" + tail);
    if AllDigits(tail) {
      LeadingZero(tail);
    }
  }

  /** Later starts come first, and among equal starts larger numbers. */
  ghost predicate RecentFirst(jobs: seq<Job>) {
    forall i, j :: 0 <= i < j < |jobs| ==>
      && jobs[i].startedAt >= jobs[j].startedAt
      && (jobs[i].startedAt == jobs[j].startedAt && Sequence(jobs[i].id).Some? && Sequence(jobs[j].id).Some? ==>
            Sequence(jobs[i].id).value >= Sequence(jobs[j].id).value)
  }

  lemma OrderedIsRecentFirst(jobs: seq<Job>)
    ensures Ordered(jobs) <==> RecentFirst(jobs)
  {
    forall i, j | 0 <= i < j < |jobs| && Ordered(jobs)
      ensures jobs[i].startedAt >= jobs[j].startedAt
    {
      assert Compare(jobs[i], jobs[j]) <= 0;
    }
    forall i, j | 0 <= i < j < |jobs| && RecentFirst(jobs) ensures Compare(jobs[i], jobs[j]) <= 0 {
    }
  }

  ghost predicate Consistent(jobs: seq<Job>) {
    forall a, b, c :: a in jobs && b in jobs && c in jobs && Compare(a, b) <= 0 && Compare(b, c) <= 0 ==>
      Compare(a, c) <= 0
  }

  /** An id without a number between two jobs of the same start that only their numbers order. */
  ghost predicate Unordered(jobs: seq<Job>) {
    exists a, b, c :: a in jobs && b in jobs && c in jobs && Between(a, b, c)
  }

  ghost predicate Between(a: Job, b: Job, c: Job) {
    && a.startedAt == b.startedAt == c.startedAt
    && Sequence(a.id).Some? && Sequence(b.id).None? && Sequence(c.id).Some?
    && Sequence(a.id).value < Sequence(c.id).value
  }

  /** The comparator orders a list consistently exactly when no such triple occurs in it. */
  lemma ConsistentIff(jobs: seq<Job>)
    ensures Consistent(jobs) <==> !Unordered(jobs)
  {
    if a, b, c :| a in jobs && b in jobs && c in jobs && Between(a, b, c) {
      assert Compare(a, b) <= 0 && Compare(b, c) <= 0 && Compare(a, c) > 0;
    }
    if a, b, c :| a in jobs && b in jobs && c in jobs && Compare(a, b) <= 0 && Compare(b, c) <= 0 && Compare(a, c) > 0 {
      assert Between(a, b, c);
    }
  }

  ghost predicate Ordered(jobs: seq<Job>) {
    forall i, j :: 0 <= i < j < |jobs| ==> Compare(jobs[i], jobs[j]) <= 0
  }

  /** What the language promises of `sort`: a permutation, ordered when the comparator is consistent. */
  ghost predicate SortOf(input: seq<Job>, output: seq<Job>) {
    multiset(output) == multiset(input) && (Consistent(input) ==> Ordered(output))
  }

  function InsertByRecency(x: Job, s: seq<Job>): seq<Job> {
    if s == [] || Compare(x, s[0]) <= 0 then [x] + s else [s[0]] + InsertByRecency(x, s[1..])
  }

  /** A stable insertion sort, one sort an engine may use. */
  function SortedByRecency(s: seq<Job>): seq<Job> {
    if s == [] then [] else InsertByRecency(s[0], SortedByRecency(s[1..]))
  }

  lemma {:induction false} InsertPermutes(x: Job, s: seq<Job>)
    ensures multiset(InsertByRecency(x, s)) == multiset{x} + multiset(s)
  {
    if s != [] && Compare(x, s[0]) > 0 {
      InsertPermutes(x, s[1..]);
      assert s == [s[0]] + s[1..];
    }
  }

  lemma BeforeFirst(all: seq<Job>, x: Job, s: seq<Job>)
    requires Consistent(all) && x in all && (forall j :: j in s ==> j in all) && Ordered(s)
    requires s != [] && Compare(x, s[0]) <= 0
    ensures forall j :: j in s ==> Compare(x, j) <= 0
  {
    forall j | j in s ensures Compare(x, j) <= 0 {
      var i :| 0 <= i < |s| && s[i] == j;
      if i > 0 {
        Transitive(all, x, s[0], j);
      }
    }
  }

  lemma BeforeInserted(x: Job, s: seq<Job>)
    requires s != [] && Ordered(s) && Compare(s[0], x) <= 0
    ensures forall j :: j in InsertByRecency(x, s[1..]) ==> Compare(s[0], j) <= 0
  {
    var tail := s[1..];
    InsertPermutes(x, tail);
    forall j | j in InsertByRecency(x, tail) ensures Compare(s[0], j) <= 0 {
      assert j in multiset(InsertByRecency(x, tail));
      if j in tail {
        var k :| 0 <= k < |tail| && tail[k] == j;
        assert s[k + 1] == j;
      }
    }
  }

  lemma {:induction false} InsertOrders(all: seq<Job>, x: Job, s: seq<Job>)
    requires Consistent(all) && x in all && (forall j :: j in s ==> j in all) && Ordered(s)
    ensures Ordered(InsertByRecency(x, s))
  {
    if s == [] {
    } else if Compare(x, s[0]) <= 0 {
      BeforeFirst(all, x, s);
      OrderedCons(x, s);
    } else {
      var tail := s[1..];
      assert Ordered(tail) && forall j :: j in tail ==> j in s;
      InsertOrders(all, x, tail);
      CompareFlips(x, s[0]);
      BeforeInserted(x, s);
      OrderedCons(s[0], InsertByRecency(x, tail));
    }
  }

  lemma Transitive(all: seq<Job>, a: Job, b: Job, c: Job)
    requires Consistent(all) && a in all && b in all && c in all
    requires Compare(a, b) <= 0 && Compare(b, c) <= 0
    ensures Compare(a, c) <= 0
  {
  }

  lemma CompareFlips(a: Job, b: Job)
    ensures Compare(a, b) == -Compare(b, a)
  {
  }

  lemma OrderedCons(x: Job, s: seq<Job>)
    requires Ordered(s) && forall j :: j in s ==> Compare(x, j) <= 0
    ensures Ordered([x] + s)
  {
    var out := [x] + s;
    forall i, j | 0 <= i < j < |out| ensures Compare(out[i], out[j]) <= 0 {
      assert out[j] == s[j - 1] && s[j - 1] in s;
    }
  }

  lemma {:induction false} SortedPermutes(s: seq<Job>)
    ensures multiset(SortedByRecency(s)) == multiset(s)
  {
    if s != [] {
      SortedPermutes(s[1..]);
      InsertPermutes(s[0], SortedByRecency(s[1..]));
      assert s == [s[0]] + s[1..];
    }
  }

  lemma {:induction false} SortedOrders(all: seq<Job>, s: seq<Job>)
    requires Consistent(all) && forall j :: j in s ==> j in all
    ensures Ordered(SortedByRecency(s))
  {
    if s != [] {
      SortedOrders(all, s[1..]);
      SortedPermutes(s[1..]);
      forall j | j in SortedByRecency(s[1..]) ensures j in all {
        assert j in multiset(SortedByRecency(s[1..]));
      }
      InsertOrders(all, s[0], SortedByRecency(s[1..]));
    }
  }

  /** Such a sort meets what the language promises. */
  lemma SortMeetsPromise(s: seq<Job>)
    ensures SortOf(s, SortedByRecency(s))
  {
    SortedPermutes(s);
    if Consistent(s) {
      SortedOrders(s, s);
    }
  }

  /** `mergeJobSnapshots` with that sort; the laws below hold for every sort. */
  function MergeSnapshots(jobs: seq<Job>, recovered: seq<Job>): (out: seq<Job>)
    ensures MergedTo(jobs, recovered, out)
  {
    var folded := Deliver(jobs, Reversed(recovered));
    SortMeetsPromise(folded);
    Bounded(SortedByRecency(folded))
  }

  /** `mergeJobSnapshots`, for any sort the engine may use. */
  ghost predicate MergedTo(jobs: seq<Job>, recovered: seq<Job>, out: seq<Job>) {
    exists sorted :: SortOf(Deliver(jobs, Reversed(recovered)), sorted) && out == Bounded(sorted)
  }

  lemma PermutationKeepsShape(a: seq<Job>, b: seq<Job>)
    requires multiset(a) == multiset(b) && UniqueIds(a)
    ensures |a| == |b| && UniqueIds(b) && Ids(a) == Ids(b) && forall id :: Find(a, id) == Find(b, id)
  {
    assert |multiset(a)| == |multiset(b)|;
    forall j ensures j in a <==> j in b {
      assert j in a <==> j in multiset(a);
      assert j in b <==> j in multiset(b);
    }
    IdsByCount(a, b);
    forall id ensures Find(a, id) == Find(b, id) {
      FindFinds(a, id);
      FindFinds(b, id);
    }
  }

  lemma IdsByCount(a: seq<Job>, b: seq<Job>)
    requires multiset(a) == multiset(b) && UniqueIds(a) && |a| == |b|
    ensures UniqueIds(b)
  {
    forall i, j | 0 <= i < j < |b| ensures b[i].id != b[j].id {
      assert b[i] in multiset(b) && b[j] in multiset(b);
      assert b[i] in a && b[j] in a;
      if b[i].id == b[j].id {
        assert b[i] == b[j];
        assert b == b[..i] + [b[i]] + b[i + 1..j] + [b[j]] + b[j + 1..];
        assert multiset(b)[b[i]] >= 2;
        CountOfUnique(a, b[i]);
      }
    }
  }

  lemma {:induction false} CountOfUnique(a: seq<Job>, x: Job)
    requires UniqueIds(a)
    ensures multiset(a)[x] <= 1
  {
    if a != [] {
      CountOfUnique(a[1..], x);
      assert a == [a[0]] + a[1..];
      if a[0] == x {
        assert x !in a[1..];
        assert x !in multiset(a[1..]);
      }
    }
  }

  /** While the ids of jobs and snapshots fit in the list nothing is ever evicted. */
  lemma SmallUnionNeverEvicts(jobs: seq<Job>, snapshots: seq<Job>, id: string)
    requires UniqueIds(jobs) && |Ids(jobs) + Ids(snapshots)| <= MAX_SNAPSHOTS
    ensures |jobs| <= MAX_SNAPSHOTS && NeverEvicted(jobs, snapshots, id)
  {
    SizeOfUnique(jobs);
    SubsetSize(Ids(jobs), Ids(jobs) + Ids(snapshots));
    forall n | 0 <= n <= |snapshots| ensures Ids(Deliver(jobs, snapshots[..n])) == Ids(jobs) + Ids(snapshots[..n]) {
      IdsOfPrefix(snapshots, n);
      SubsetSize(Ids(jobs) + Ids(snapshots[..n]), Ids(jobs) + Ids(snapshots));
      SmallUnionKeepsAll(jobs, snapshots[..n]);
    }
  }

  lemma IdsOfPrefix(snapshots: seq<Job>, n: nat)
    requires n <= |snapshots|
    ensures Ids(snapshots[..n]) <= Ids(snapshots)
  {
    assert forall j :: j in snapshots[..n] ==> j in snapshots;
  }

  lemma IdsOfLast(front: seq<Job>, last: Job)
    ensures Ids(front + [last]) == Ids(front) + {last.id}
  {
    assert forall j :: j in front + [last] <==> j in front || j == last;
  }

  lemma {:induction false} SmallUnionKeepsAll(jobs: seq<Job>, snapshots: seq<Job>)
    requires UniqueIds(jobs) && |jobs| <= MAX_SNAPSHOTS && |Ids(jobs) + Ids(snapshots)| <= MAX_SNAPSHOTS
    ensures Ids(Deliver(jobs, snapshots)) == Ids(jobs) + Ids(snapshots)
  {
    if snapshots != [] {
      var front, last := snapshots[..|snapshots| - 1], snapshots[|snapshots| - 1];
      assert snapshots == front + [last];
      IdsOfLast(front, last);
      SubsetSize(Ids(jobs) + Ids(front), Ids(jobs) + Ids(snapshots));
      SmallUnionKeepsAll(jobs, front);
      DeliverKeepsShape(jobs, front);
      assert Ids(Deliver(jobs, front)) + {last.id} == Ids(jobs) + Ids(snapshots);
      RoomForOne(Deliver(jobs, front), last);
    }
  }

  lemma IdsOnTop(jobs: seq<Job>, next: Job)
    requires UniqueIds(jobs)
    ensures UniqueIds([next] + Drop(jobs, next.id))
    ensures Ids([next] + Drop(jobs, next.id)) == Ids(jobs) + {next.id}
  {
    DropDrops(jobs, next.id);
    var rest := Drop(jobs, next.id);
    assert Ids([next] + rest) == {next.id} + Ids(rest) by {
      assert forall j :: j in [next] + rest <==> j == next || j in rest;
    }
    assert Ids(rest) == Ids(jobs) - {next.id};
  }

  /** With room for its id an upsert evicts nothing. */
  lemma RoomForOne(jobs: seq<Job>, next: Job)
    requires UniqueIds(jobs) && |Ids(jobs) + {next.id}| <= MAX_SNAPSHOTS
    ensures Ids(Upsert(jobs, next)) == Ids(jobs) + {next.id}
  {
    IdsOnTop(jobs, next);
    SizeOfUnique([next] + Drop(jobs, next.id));
    FindFinds(jobs, next.id);
  }

  lemma ReversedIds(s: seq<Job>)
    ensures Ids(Reversed(s)) == Ids(s)
  {
    ReversedMembers(s);
  }

  /** A merge keeps ids unique and the list bounded. */
  lemma MergeKeepsShape(jobs: seq<Job>, recovered: seq<Job>, out: seq<Job>)
    requires UniqueIds(jobs) && |jobs| <= MAX_SNAPSHOTS && MergedTo(jobs, recovered, out)
    ensures UniqueIds(out) && |out| <= MAX_SNAPSHOTS && Ids(out) <= Ids(jobs) + Ids(recovered)
  {
    var folded := Deliver(jobs, Reversed(recovered));
    var sorted :| SortOf(folded, sorted) && out == Bounded(sorted);
    DeliverKeepsShape(jobs, Reversed(recovered));
    PermutationKeepsShape(folded, sorted);
    ReversedIds(recovered);
  }

  /** However many jobs there are: what a merge keeps comes with the most recent first. */
  lemma MergeIsRecentFirst(jobs: seq<Job>, recovered: seq<Job>, out: seq<Job>)
    requires UniqueIds(jobs) && |jobs| <= MAX_SNAPSHOTS && MergedTo(jobs, recovered, out)
    requires !Unordered(out)
    ensures RecentFirst(out)
  {
    var folded := Deliver(jobs, Reversed(recovered));
    var sorted :| SortOf(folded, sorted) && out == Bounded(sorted);
    DeliverKeepsShape(jobs, Reversed(recovered));
    PermutationKeepsShape(folded, sorted);
    ConsistentIff(folded);
    forall j | j in folded ensures j in out {
      assert j in multiset(folded);
    }
    OrderedIsRecentFirst(out);
  }

  /** `k` was given for its id, by the list or the recovery, and nothing higher was. */
  ghost predicate HighestOf(jobs: seq<Job>, recovered: seq<Job>, k: Job) {
    (k in jobs || k in recovered)
    && forall j :: (j in jobs || j in recovered) && j.id == k.id ==> RankLeq(j, k)
  }

  /**
    When jobs and recovery have at most eight ids together the merge keeps every one of them, with
    a snapshot of the highest rank given for it, and orders them by recency whenever the
    comparator is consistent on the merged list.
    */
  lemma MergeKeepsAll(jobs: seq<Job>, recovered: seq<Job>, out: seq<Job>)
    requires UniqueIds(jobs) && |Ids(jobs) + Ids(recovered)| <= MAX_SNAPSHOTS
    requires AllWellFormed(jobs) && AllWellFormed(recovered) && MergedTo(jobs, recovered, out)
    ensures Ids(out) == Ids(jobs) + Ids(recovered) && UniqueIds(out)
    ensures forall k :: k in out ==> HighestOf(jobs, recovered, k)
    ensures !Unordered(out) ==> RecentFirst(out)
  {
    var snapshots := Reversed(recovered);
    var folded := Deliver(jobs, snapshots);
    ReversedMembers(recovered);
    ReversedIds(recovered);
    var sorted :| SortOf(folded, sorted) && out == Bounded(sorted);
    SmallUnionNeverEvicts(jobs, snapshots, "");
    SmallUnionKeepsAll(jobs, snapshots);
    assert snapshots[..|snapshots|] == snapshots;
    DeliverKeepsShape(jobs, snapshots);
    PermutationKeepsShape(folded, sorted);
    assert out == sorted;
    forall k | k in out
      ensures HighestOf(jobs, recovered, k)
    {
      SmallUnionNeverEvicts(jobs, snapshots, k.id);
      DeliveredIsHighest(jobs, snapshots, k.id);
      FindFinds(out, k.id);
    }
    if !Unordered(out) {
      MergeIsRecentFirst(jobs, recovered, out);
    }
  }

  /** Tracking the same snapshots twice changes nothing. */
  lemma {:induction false} TrackAgain(held: Option<Job>, snapshots: seq<Job>, id: string)
    requires AllWellFormed(snapshots) && (held.Some? ==> WellFormed(held.value) && held.value.id == id)
    ensures Track(Track(held, snapshots, id), snapshots, id) == Track(held, snapshots, id)
  {
    TrackIsHighest(held, snapshots, id);
    TrackFromTop(held, Track(held, snapshots, id), snapshots, id);
  }

  /** From a snapshot of the highest rank, tracking follows the same accepted snapshots or stays. */
  lemma {:induction false} TrackFromTop(held: Option<Job>, top: Option<Job>, snapshots: seq<Job>, id: string)
    requires AllWellFormed(snapshots) && (held.Some? ==> WellFormed(held.value) && held.value.id == id)
    requires top.Some? ==> WellFormed(top.value) && top.value.id == id
    requires held.Some? ==> top.Some? && RankLeq(held.value, top.value)
    requires forall j :: j in snapshots && j.id == id ==> top.Some? && RankLeq(j, top.value)
    ensures Track(top, snapshots, id) == top || Track(top, snapshots, id) == Track(held, snapshots, id)
  {
    if snapshots != [] {
      var front, next := snapshots[..|snapshots| - 1], snapshots[|snapshots| - 1];
      assert snapshots == front + [next] && next in snapshots;
      TrackFromTop(held, top, front, id);
      TrackIsHighest(held, front, id);
    }
  }

  /** Merging the same recovery again changes no snapshot. */
  lemma MergeAgainChangesNothing(jobs: seq<Job>, recovered: seq<Job>, once: seq<Job>, twice: seq<Job>)
    requires UniqueIds(jobs) && |Ids(jobs) + Ids(recovered)| <= MAX_SNAPSHOTS
    requires AllWellFormed(jobs) && AllWellFormed(recovered)
    requires MergedTo(jobs, recovered, once) && MergedTo(once, recovered, twice)
    ensures forall id :: Find(twice, id) == Find(once, id)
  {
    MergeKeepsAll(jobs, recovered, once);
    assert Ids(once) + Ids(recovered) == Ids(jobs) + Ids(recovered);
    forall id ensures Find(twice, id) == Find(once, id) {
      MergeTracks(jobs, recovered, once, id);
      MergeTracks(once, recovered, twice, id);
      FindFinds(jobs, id);
      ReversedMembers(recovered);
      TrackAgain(Find(jobs, id), Reversed(recovered), id);
    }
  }

  /** Seen from one id, a merge of few ids is plain tracking. */
  lemma MergeTracks(jobs: seq<Job>, recovered: seq<Job>, out: seq<Job>, id: string)
    requires UniqueIds(jobs) && |Ids(jobs) + Ids(recovered)| <= MAX_SNAPSHOTS && MergedTo(jobs, recovered, out)
    ensures Find(out, id) == Track(Find(jobs, id), Reversed(recovered), id)
  {
    var snapshots := Reversed(recovered);
    var folded := Deliver(jobs, snapshots);
    ReversedIds(recovered);
    var sorted :| SortOf(folded, sorted) && out == Bounded(sorted);
    SmallUnionNeverEvicts(jobs, snapshots, id);
    DeliverKeepsShape(jobs, snapshots);
    PermutationKeepsShape(folded, sorted);
    DeliverTracks(jobs, snapshots, id);
  }

  /** With more ids a merge need not keep the most recent jobs: each upsert truncates by arrival. */
  lemma MergeMayDropNewest(newest: Job, recovered: seq<Job>, out: seq<Job>)
    requires UniqueIds(recovered) && |recovered| == MAX_SNAPSHOTS
    requires forall j :: j in recovered ==> j.id != newest.id && j.startedAt < newest.startedAt
    requires MergedTo([newest], recovered, out)
    ensures newest.id !in Ids(out)
  {
    var snapshots := Reversed(recovered);
    var folded := Deliver([newest], snapshots);
    ReversedMembers(recovered);
    ReversedUnique(recovered);
    EightOthersEvict(newest, snapshots);
    ReversedMembers(snapshots);
    var sorted :| SortOf(folded, sorted) && out == Bounded(sorted);
    ReversedUnique(snapshots);
    PermutationKeepsShape(folded, sorted);
    assert newest.id !in Ids(folded);
  }

  lemma {:induction false} ReversedUnique(s: seq<Job>)
    requires UniqueIds(s)
    ensures UniqueIds(Reversed(s))
  {
    if s != [] {
      ReversedUnique(s[1..]);
      ReversedMembers(s[1..]);
      var rest := Reversed(s[1..]);
      forall i | 0 <= i < |rest| ensures rest[i].id != s[0].id {
        assert rest[i] in rest;
      }
    }
  }
}
