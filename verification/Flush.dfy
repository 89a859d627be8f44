/**
  One ingestion batch (`flush_ingest_batch`, src/main.rs): the chunks of the pending
  documents are embedded by concurrent requests that complete in any order, and the
  documents are committed strictly in batch order, each as soon as all its vectors are there.
  */
module Flush {
  import opened Wrappers
  import opened Documents
  import opened Store
  import opened Sequences

  const REQUEST_SIZE := 8

  /** A document waiting for its vectors, with its chunks. */
  datatype Pending = Pending(document: Document, specs: seq<ChunkSpec>)

  // ---------------------------------------------------------------------------------------
  // The layout of a batch as one flat list of embedding inputs
  // ---------------------------------------------------------------------------------------

  /** Position in the flat input of the first chunk of document `k`. */
  function Offset(batch: seq<Pending>, k: nat): nat
    requires k <= |batch|
  {
    if k == 0 then 0 else Offset(batch, k - 1) + |batch[k - 1].specs|
  }

  function Contents(specs: seq<ChunkSpec>): (r: seq<string>)
    ensures |r| == |specs|
  {
    seq(|specs|, i requires 0 <= i < |specs| => specs[i].content)
  }

  /** The texts sent to the embedding provider, in order. */
  function Input(batch: seq<Pending>): seq<string> {
    if batch == [] then []
    else Input(batch[..|batch| - 1]) + Contents(batch[|batch| - 1].specs)
  }

  lemma {:induction false} OffsetMonotone(batch: seq<Pending>, j: nat, k: nat)
    requires j <= k <= |batch|
    ensures Offset(batch, j) <= Offset(batch, k)
    decreases k
  {
    if j < k {
      OffsetMonotone(batch, j, k - 1);
    }
  }

  lemma {:induction false} OffsetOfPrefix(batch: seq<Pending>, n: nat, k: nat)
    requires k <= n <= |batch|
    ensures Offset(batch[..n], k) == Offset(batch, k)
  {
    if k > 0 {
      OffsetOfPrefix(batch, n, k - 1);
    }
  }

  lemma {:induction false} InputLength(batch: seq<Pending>)
    ensures |Input(batch)| == Offset(batch, |batch|)
  {
    if batch != [] {
      var n := |batch| - 1;
      InputLength(batch[..n]);
      OffsetOfPrefix(batch, n, n);
    }
  }

  /** The flat input holds the chunks of document `k` at its offset, in order. */
  lemma {:induction false} InputLayout(batch: seq<Pending>, k: nat)
    requires k < |batch|
    ensures Offset(batch, k) <= Offset(batch, k + 1) <= |Input(batch)|
    ensures Input(batch)[Offset(batch, k)..Offset(batch, k + 1)] == Contents(batch[k].specs)
  {
    var n := |batch| - 1;
    var front := batch[..n];
    InputLength(batch);
    InputLength(front);
    OffsetMonotone(batch, k + 1, |batch|);
    OffsetOfPrefix(batch, n, n);
    if k < n {
      InputLayout(front, k);
      OffsetOfPrefix(batch, n, k);
      OffsetOfPrefix(batch, n, k + 1);
    }
  }

  /** Number of embedding requests for `n` inputs. */
  function RequestCount(n: nat): nat {
    (n + REQUEST_SIZE - 1) / REQUEST_SIZE
  }

  // ---------------------------------------------------------------------------------------
  // Readiness and commits
  // ---------------------------------------------------------------------------------------

  /** All vectors of document `k` belong to requests that have completed. */
  ghost predicate DocumentReady(batch: seq<Pending>, arrived: seq<nat>, k: nat)
    requires k < |batch|
  {
    forall p :: Offset(batch, k) <= p < Offset(batch, k + 1) ==> p / REQUEST_SIZE in arrived
  }

  ghost predicate AllReady(batch: seq<Pending>, arrived: seq<nat>, c: nat)
    requires c <= |batch|
  {
    forall k :: 0 <= k < c ==> DocumentReady(batch, arrived, k)
  }

  /** `c` is the length of the longest prefix of documents that are all ready. */
  ghost predicate LongestReadyPrefix(batch: seq<Pending>, arrived: seq<nat>, c: nat) {
    && c <= |batch|
    && AllReady(batch, arrived, c)
    && (c < |batch| ==> !DocumentReady(batch, arrived, c))
  }

  function Attach(specs: seq<ChunkSpec>, vectors: seq<Vector>): (r: seq<StoredChunk>)
    requires |specs| == |vectors|
    ensures |r| == |specs|
  {
    seq(|specs|, i requires 0 <= i < |specs| => StoredChunk(Some(specs[i].key), specs[i].content, vectors[i], true))
  }

  /** The chunks of document `k` with the vectors the provider gave for exactly those chunks. */
  function Embedded(batch: seq<Pending>, answers: seq<Vector>, k: nat): seq<StoredChunk>
    requires |answers| == |Input(batch)| && k < |batch|
  {
    InputLayout(batch, k);
    Attach(batch[k].specs, answers[Offset(batch, k)..Offset(batch, k + 1)])
  }

  /** The first `c` documents of the batch upserted in order. */
  function CommitPrefix(t: Table, batch: seq<Pending>, answers: seq<Vector>, c: nat): Table
    requires |answers| == |Input(batch)| && c <= |batch|
  {
    if c == 0 then t
    else UpsertStructured(CommitPrefix(t, batch, answers, c - 1),
                          batch[c - 1].document, Embedded(batch, answers, c - 1))
  }

  /** How many of those upserts write a row. */
  function Writes(t: Table, batch: seq<Pending>, answers: seq<Vector>, c: nat): nat
    requires |answers| == |Input(batch)| && c <= |batch|
  {
    if c == 0 then 0
    else
      var before := CommitPrefix(t, batch, answers, c - 1);
      Writes(t, batch, answers, c - 1) + (if NeedsStructuredUpdate(before, batch[c - 1].document) then 1 else 0)
  }

  // ---------------------------------------------------------------------------------------
  // The environment of one flush
  // ---------------------------------------------------------------------------------------

  datatype IngestError =
    | Stopped           // a cancellation or deadline check between awaits
    | Interrupted       // cancellation or timeout while awaiting a response
    | ProviderFailed    // a request failed or returned a wrong number of vectors
    | StoreFault

  datatype Outcome = Done | Failed(error: IngestError)

  /**
    What the outside world does during one flush. `started` is false when the cancellation
    branch wins before the embedding branch is polled once. `arrivals` lists the requests
    that complete, in completion order; `answers` holds the vector given for every input
    position. When the list ends before all requests have completed, `fate` ends the wait.
    */
  datatype Schedule = Schedule(started: bool, answers: seq<Vector>, arrivals: seq<nat>, fate: IngestError)

  predicate EndsWait(e: IngestError) {
    e == Interrupted || e == ProviderFailed
  }

  ghost predicate Fits(s: Schedule, n: nat) {
    && |s.answers| == n
    && Distinct(s.arrivals)
    && (forall i :: 0 <= i < |s.arrivals| ==> s.arrivals[i] < RequestCount(n))
    && EndsWait(s.fate)
  }

  predicate Drains(s: Schedule) {
    s.started && |s.arrivals| == RequestCount(|s.answers|)
  }

  /**
    The stop signal of a run: cancellation or the duration budget. `stopAt` is the number of
    checks that still succeed; it is arbitrary, and once a check fails all later ones fail.
    */
  class Control {
    const stopAt: Option<nat>
    var checks: nat

    constructor (stopAt: Option<nat>)
      ensures this.stopAt == stopAt && checks == 0
    {
      this.stopAt := stopAt;
      checks := 0;
    }

    /** The answer of the `n`-th check from now. */
    predicate Alive(n: nat)
      reads this
    {
      stopAt.None? || checks + n < stopAt.value
    }

    method Check() returns (alive: bool)
      modifies this
      ensures alive == old(Alive(0)) && checks == old(checks) + 1
    {
      alive := Alive(0);
      checks := checks + 1;
    }
  }

  /** The slot buffer holds exactly what has arrived and is not yet committed. */
  ghost predicate Slots(vectors: seq<Option<Vector>>, answers: seq<Vector>, arrived: seq<nat>, offset: nat) {
    && |vectors| == |answers|
    && forall p :: offset <= p < |vectors| ==>
      vectors[p] == if p / REQUEST_SIZE in arrived then Some(answers[p]) else None
  }

  /** The slots of a document show whether its requests have all arrived. */
  lemma SlotsShowReady(batch: seq<Pending>, answers: seq<Vector>, arrived: seq<nat>, slots: seq<Option<Vector>>, k: nat)
    requires k < |batch| && |answers| == |Input(batch)| && Slots(slots, answers, arrived, Offset(batch, k))
    ensures Offset(batch, k) + |batch[k].specs| == Offset(batch, k + 1) <= |slots|
    ensures DocumentReady(batch, arrived, k)
      <==> forall p :: Offset(batch, k) <= p < Offset(batch, k + 1) ==> slots[p].Some?
  {
    InputLayout(batch, k);
    forall p | Offset(batch, k) <= p < Offset(batch, k + 1) ensures slots[p].Some? <==> p / REQUEST_SIZE in arrived {
    }
  }

  /** Leading documents without chunks are ready before any response, and no others are. */
  lemma BlockedWithoutArrivals(batch: seq<Pending>, c: nat)
    requires c <= |batch|
    requires AllReady(batch, [], c)
    requires c < |batch| ==> batch[c].specs != []
    ensures LongestReadyPrefix(batch, [], c)
  {
    if c < |batch| {
      var p := Offset(batch, c);
      assert p < Offset(batch, c + 1) && p / REQUEST_SIZE !in [];
    }
  }

  /** Once every request has completed every document is ready. */
  lemma DrainedCommitsAll(batch: seq<Pending>, s: Schedule, c: nat)
    requires Fits(s, |Input(batch)|) && Drains(s)
    requires LongestReadyPrefix(batch, s.arrivals, c)
    ensures c == |batch|
  {
    FullDistinctCoversAll(s.arrivals, RequestCount(|s.answers|));
    if c < |batch| {
      InputLayout(batch, c);
      forall p | Offset(batch, c) <= p < Offset(batch, c + 1) ensures p / REQUEST_SIZE in s.arrivals {
        assert 0 <= p / REQUEST_SIZE < RequestCount(|s.answers|);
      }
    }
  }

  /** A later response never makes a ready document unready. */
  lemma ReadyStaysReady(batch: seq<Pending>, arrived: seq<nat>, r: nat, c: nat)
    requires c <= |batch|
    requires AllReady(batch, arrived, c)
    ensures AllReady(batch, arrived + [r], c)
  {
    forall k | 0 <= k < c ensures DocumentReady(batch, arrived + [r], k) {
      assert DocumentReady(batch, arrived, k);
    }
  }

  // ---------------------------------------------------------------------------------------
  // The flush itself
  // ---------------------------------------------------------------------------------------

  /** The table and counts before a flush. */
  datatype Base = Base(rows: Table, changedCount: int, total: int)

  /** The mutable state an ingestion run shares with its flushes. */
  class IngestRun {
    const store: DocumentStore
    const control: Control
    var pending: seq<Pending>
    var changedCount: nat
    var unchangedCount: nat

    constructor (store: DocumentStore, control: Control)
      ensures this.store == store && this.control == control
      ensures pending == [] && changedCount == 0 && unchangedCount == 0
    {
      this.store := store;
      this.control := control;
      pending, changedCount, unchangedCount := [], 0, 0;
    }

    /** Upsert the next document and count it. */
    method Commit(document: Document, chunks: seq<StoredChunk>) returns (ok: bool)
      modifies this`changedCount, this`unchangedCount, store
      ensures !ok ==> store.faulted && store.rows == old(store.rows)
      ensures !ok ==> changedCount == old(changedCount) && unchangedCount == old(unchangedCount)
      ensures ok ==> store.faulted == old(store.faulted)
      ensures ok ==> store.rows == UpsertStructured(old(store.rows), document, chunks)
      ensures ok ==> changedCount == old(changedCount) + (if NeedsStructuredUpdate(old(store.rows), document) then 1 else 0)
      ensures ok ==> changedCount + unchangedCount == old(changedCount + unchangedCount) + 1
    {
      var r := store.UpsertStructured(document, chunks);
      if r.Err? {
        return false;
      }
      if r.value {
        changedCount := changedCount + 1;
      } else {
        unchangedCount := unchangedCount + 1;
      }
      return true;
    }

    /** Move the vectors of one document out of their slots. */
    method TakeChunks(vectors: array<Option<Vector>>, specs: seq<ChunkSpec>, offset: nat)
      returns (chunks: seq<StoredChunk>)
      requires offset + |specs| <= vectors.Length
      requires forall p :: offset <= p < offset + |specs| ==> vectors[p].Some?
      modifies vectors
      ensures forall p :: 0 <= p < vectors.Length && !(offset <= p < offset + |specs|) ==>
        vectors[p] == old(vectors[p])
      ensures |chunks| == |specs|
      ensures forall i :: 0 <= i < |specs| ==>
        chunks[i] == StoredChunk(Some(specs[i].key), specs[i].content, old(vectors[offset + i]).value, true)
    {
      chunks := [];
      for i := 0 to |specs|
        invariant |chunks| == i
        invariant forall p :: 0 <= p < vectors.Length && !(offset <= p < offset + i) ==>
          vectors[p] == old(vectors[p])
        invariant forall j :: 0 <= j < i ==>
          chunks[j] == StoredChunk(Some(specs[j].key), specs[j].content, old(vectors[offset + j]).value, true)
      {
        chunks := chunks + [StoredChunk(Some(specs[i].key), specs[i].content, vectors[offset + i].value, true)];
        vectors[offset + i] := None;
      }
    }

    /** Store the vectors of one completed request in their slots. */
    method FillSlots(vectors: array<Option<Vector>>, answers: seq<Vector>, request: nat,
                     ghost arrived: seq<nat>, ghost offset: nat)
      requires vectors.Length == |answers| && request < RequestCount(|answers|)
      requires Slots(vectors[..], answers, arrived, offset)
      modifies vectors
      ensures forall q :: 0 <= q < vectors.Length ==>
        vectors[q] == if q / 8 == request then Some(answers[q]) else old(vectors[q])
      ensures Slots(vectors[..], answers, arrived + [request], offset)
    {
      var start := request * REQUEST_SIZE;
      var end := if start + REQUEST_SIZE <= |answers| then start + REQUEST_SIZE else |answers|;
      for p := start to end
        invariant forall q :: 0 <= q < vectors.Length ==>
          vectors[q] == if start <= q < p then Some(answers[q]) else old(vectors[q])
      {
        vectors[p] := Some(answers[p]);
      }
      forall q | offset <= q < |answers|
        ensures vectors[q] == if q / REQUEST_SIZE in arrived + [request] then Some(answers[q]) else None
      {
        assert old(vectors[..])[q] == if q / REQUEST_SIZE in arrived then Some(answers[q]) else None;
        assert q / REQUEST_SIZE == request <==> start <= q < start + REQUEST_SIZE;
      }
    }

    /** The first `c` documents of the batch are committed and counted. */
    ghost predicate CommittedUpTo(base: Base, batch: seq<Pending>, answers: seq<Vector>, c: nat)
      requires |answers| == |Input(batch)| && c <= |batch|
      reads this, store
    {
      && store.rows == CommitPrefix(base.rows, batch, answers, c)
      && changedCount == base.changedCount + Writes(base.rows, batch, answers, c)
      && changedCount + unchangedCount == base.total + c
    }

    /** Commit document `k`, whose vectors are all in their slots. */
    method CommitNext(batch: seq<Pending>, answers: seq<Vector>, ghost arrived: seq<nat>,
                      vectors: array<Option<Vector>>, k: nat, offset: nat, ghost base: Base)
      returns (ok: bool)
      requires |answers| == |Input(batch)| && k < |batch|
      requires offset == Offset(batch, k)
      requires Slots(vectors[..], answers, arrived, offset)
      requires DocumentReady(batch, arrived, k)
      requires CommittedUpTo(base, batch, answers, k)
      modifies this`changedCount, this`unchangedCount, store, vectors
      ensures Slots(vectors[..], answers, arrived, Offset(batch, k + 1))
      ensures !ok ==> store.faulted && CommittedUpTo(base, batch, answers, k)
      ensures ok ==> store.faulted == old(store.faulted) && CommittedUpTo(base, batch, answers, k + 1)
    {
      InputLayout(batch, k);
      var specs := batch[k].specs;
      assert forall p :: offset <= p < offset + |specs| ==> vectors[..][p] == Some(answers[p]);
      var chunks := TakeChunks(vectors, specs, offset);
      assert chunks == Embedded(batch, answers, k);
      assert forall p :: Offset(batch, k + 1) <= p < vectors.Length ==> vectors[p] == old(vectors[..])[p];
      ok := Commit(batch[k].document, chunks);
    }

    /** Commit document `k` if its vectors are all there. */
    method CommitIfReady(batch: seq<Pending>, answers: seq<Vector>, ghost arrived: seq<nat>,
                         vectors: array<Option<Vector>>, k: nat, offset: nat, ghost base: Base)
      returns (ok: bool, ready: bool)
      requires |answers| == |Input(batch)| && k < |batch|
      requires offset == Offset(batch, k)
      requires Slots(vectors[..], answers, arrived, offset)
      requires CommittedUpTo(base, batch, answers, k)
      modifies this`changedCount, this`unchangedCount, store, vectors
      ensures offset + |batch[k].specs| == Offset(batch, k + 1)
      ensures ready <==> DocumentReady(batch, arrived, k)
      ensures ok ==> store.faulted == old(store.faulted)
      ensures ok && ready ==> Slots(vectors[..], answers, arrived, Offset(batch, k + 1))
      ensures ok && ready ==> CommittedUpTo(base, batch, answers, k + 1)
      ensures !(ok && ready) ==> CommittedUpTo(base, batch, answers, k)
      ensures !ready ==> ok && Slots(vectors[..], answers, arrived, offset)
      ensures !ok ==> store.faulted
    {
      var end := offset + |batch[k].specs|;
      // So the guard "vectors outside the input range" never fails.
      SlotsShowReady(batch, answers, arrived, vectors[..], k);
      assert end <= vectors.Length;
      if exists p :: offset <= p < end && vectors[p].None? {
        return true, false;
      }
      ok := CommitNext(batch, answers, arrived, vectors, k, offset, base);
      return ok, true;
    }

    /** Commit every further document whose vectors are all there. */
    method CommitReady(batch: seq<Pending>, answers: seq<Vector>, ghost arrived: seq<nat>,
                       vectors: array<Option<Vector>>, start: nat, startOffset: nat, ghost base: Base)
      returns (ok: bool, committed: nat, offset: nat)
      requires |answers| == |Input(batch)| && start <= |batch|
      requires startOffset == Offset(batch, start)
      requires Slots(vectors[..], answers, arrived, startOffset)
      requires AllReady(batch, arrived, start)
      requires CommittedUpTo(base, batch, answers, start)
      modifies this`changedCount, this`unchangedCount, store, vectors
      ensures start <= committed <= |batch|
      ensures CommittedUpTo(base, batch, answers, committed)
      ensures !ok ==> store.faulted
      ensures ok ==> store.faulted == old(store.faulted)
      ensures ok ==> LongestReadyPrefix(batch, arrived, committed)
      ensures ok ==> offset == Offset(batch, committed) && Slots(vectors[..], answers, arrived, offset)
    {
      committed, offset := start, startOffset;
      while committed < |batch|
        invariant start <= committed <= |batch|
        invariant offset == Offset(batch, committed)
        invariant Slots(vectors[..], answers, arrived, offset)
        invariant AllReady(batch, arrived, committed)
        invariant CommittedUpTo(base, batch, answers, committed)
        invariant store.faulted == old(store.faulted)
        decreases |batch| - committed
      {
        var ready: bool;
        ok, ready := CommitIfReady(batch, answers, arrived, vectors, committed, offset, base);
        if !ok || !ready {
          return ok, committed, offset;
        }
        offset := offset + |batch[committed].specs|;
        committed := committed + 1;
      }
      return true, committed, offset;
    }

    /** Commit the leading documents without chunks, before any request completes. */
    method CommitLeading(batch: seq<Pending>, answers: seq<Vector>, ghost base: Base) returns (ok: bool, committed: nat)
      requires |answers| == |Input(batch)| && CommittedUpTo(base, batch, answers, 0)
      modifies this`changedCount, this`unchangedCount, store
      ensures committed <= |batch|
      ensures CommittedUpTo(base, batch, answers, committed)
      ensures !ok ==> store.faulted
      ensures ok ==> store.faulted == old(store.faulted)
      ensures ok ==> Offset(batch, committed) == 0 && LongestReadyPrefix(batch, [], committed)
    {
      committed := 0;
      while committed < |batch| && batch[committed].specs == []
        invariant committed <= |batch| && Offset(batch, committed) == 0
        invariant AllReady(batch, [], committed)
        invariant CommittedUpTo(base, batch, answers, committed)
        invariant store.faulted == old(store.faulted)
      {
        InputLayout(batch, committed);
        ok := Commit(batch[committed].document, []);
        if !ok {
          return false, committed;
        }
        assert Embedded(batch, answers, committed) == [];
        committed := committed + 1;
      }
      BlockedWithoutArrivals(batch, committed);
      return true, committed;
    }

    /** Take the responses in the order in which they arrive, committing what becomes ready. */
    method CommitResponses(batch: seq<Pending>, schedule: Schedule, vectors: array<Option<Vector>>, start: nat,
                           ghost base: Base)
      returns (ok: bool, committed: nat)
      requires Fits(schedule, |Input(batch)|)
      requires LongestReadyPrefix(batch, [], start) && Offset(batch, start) == 0
      requires Slots(vectors[..], schedule.answers, [], 0)
      requires CommittedUpTo(base, batch, schedule.answers, start)
      modifies this`changedCount, this`unchangedCount, store, vectors
      ensures committed <= |batch|
      ensures CommittedUpTo(base, batch, schedule.answers, committed)
      ensures !ok ==> store.faulted
      ensures ok ==> store.faulted == old(store.faulted) && LongestReadyPrefix(batch, schedule.arrivals, committed)
    {
      var answers, arrivals := schedule.answers, schedule.arrivals;
      var offset := 0;
      committed := start;
      for i := 0 to |arrivals|
        invariant LongestReadyPrefix(batch, arrivals[..i], committed)
        invariant offset == Offset(batch, committed)
        invariant Slots(vectors[..], answers, arrivals[..i], offset)
        invariant CommittedUpTo(base, batch, answers, committed)
        invariant store.faulted == old(store.faulted)
      {
        assert arrivals[..i + 1] == arrivals[..i] + [arrivals[i]];
        FillSlots(vectors, answers, arrivals[i], arrivals[..i], offset);
        ReadyStaysReady(batch, arrivals[..i], arrivals[i], committed);
        ok, committed, offset := CommitReady(batch, answers, arrivals[..i + 1], vectors, committed, offset, base);
        if !ok {
          return false, committed;
        }
      }
      assert arrivals[..|arrivals|] == arrivals;
      return true, committed;
    }

    /** The `embed_and_commit` future, run until it finishes or `fate` ends the wait. */
    method EmbedAndCommit(batch: seq<Pending>, schedule: Schedule) returns (outcome: Outcome, committed: nat)
      requires Fits(schedule, |Input(batch)|)
      modifies this`changedCount, this`unchangedCount, store
      ensures committed <= |batch|
      ensures store.rows == CommitPrefix(old(store.rows), batch, schedule.answers, committed)
      ensures changedCount == old(changedCount) + Writes(old(store.rows), batch, schedule.answers, committed)
      ensures changedCount + unchangedCount == old(changedCount + unchangedCount) + committed
      ensures outcome == Failed(StoreFault) ==> store.faulted
      ensures outcome != Failed(StoreFault) ==> store.faulted == old(store.faulted)
      ensures outcome != Failed(StoreFault) ==>
        if schedule.started then LongestReadyPrefix(batch, schedule.arrivals, committed) else committed == 0
      ensures outcome == Done ==> committed == |batch|
      ensures outcome != Failed(StoreFault) ==> (outcome == Done <==> Drains(schedule))
      ensures outcome in {Done, Failed(StoreFault), Failed(Interrupted), Failed(ProviderFailed)}
    {
      ghost var base := Base(store.rows, changedCount, changedCount + unchangedCount);
      committed := 0;
      if !schedule.started {
        return Failed(Interrupted), 0;
      }
      var answers := schedule.answers;
      var vectors := new Option<Vector>[|answers|](_ => None);
      var ok: bool;
      ok, committed := CommitLeading(batch, answers, base);
      if !ok {
        return Failed(StoreFault), committed;
      }
      ok, committed := CommitResponses(batch, schedule, vectors, committed, base);
      if !ok {
        return Failed(StoreFault), committed;
      }
      FullDistinctCoversAll(schedule.arrivals, RequestCount(|answers|));
      if |schedule.arrivals| < RequestCount(|answers|) {
        return Failed(schedule.fate), committed;
      }
      // So the guard "without enough vectors for every document" never fails.
      assert committed == |batch| by {
        DrainedCommitsAll(batch, schedule, committed);
      }
      return Done, committed;
    }

    /**
      One flush of `pending`. The committed documents are a prefix of the batch, each with the
      vectors of its own chunks; the rest goes back to `pending`, on every exit but one: when the
      check in `control.remaining` fails after `pending` has been emptied, the batch is dropped.
      */
    method FlushIngestBatch(schedule: Schedule) returns (outcome: Outcome, ghost committed: nat)
      requires Fits(schedule, |Input(pending)|)
      modifies this, store, control
      ensures committed <= |old(pending)|
      ensures store.rows == CommitPrefix(old(store.rows), old(pending), schedule.answers, committed)
      ensures changedCount == old(changedCount) + Writes(old(store.rows), old(pending), schedule.answers, committed)
      ensures changedCount + unchangedCount == old(changedCount + unchangedCount) + committed
      ensures pending == old(pending)[committed..]
        <==> old(pending == [] || !control.Alive(0) || control.Alive(1))
      ensures old(pending != [] && control.Alive(0) && !control.Alive(1)) ==> pending == [] && committed == 0
      ensures outcome == Done ==> pending == [] && committed == |old(pending)|
      ensures outcome == Failed(StoreFault) ==> store.faulted
      ensures outcome != Failed(StoreFault) ==> store.faulted == old(store.faulted)
      ensures outcome != Failed(StoreFault) ==>
        if old(control.Alive(1)) && schedule.started
        then LongestReadyPrefix(old(pending), schedule.arrivals, committed)
        else committed == 0
      ensures outcome != Failed(StoreFault) ==>
        (outcome == Done <==> old(pending == [] || (control.Alive(2) && Drains(schedule))))
      ensures control.checks >= old(control.checks)
    {
      committed := 0;
      if pending == [] {
        assert LongestReadyPrefix(pending, schedule.arrivals, 0);
        return Done, 0;
      }
      var alive := control.Check();
      if !alive {
        return Failed(Stopped), 0;
      }
      var documents := pending;
      pending := [];
      alive := control.Check();
      if !alive {
        return Failed(Stopped), 0;
      }
      var done: nat;
      outcome, done := EmbedAndCommit(documents, schedule);
      committed := done;
      if outcome.Failed? {
        pending := pending + documents[done..];
        return outcome, committed;
      }
      alive := control.Check();
      if !alive {
        return Failed(Stopped), committed;
      }
      return Done, committed;
    }
  }
}
