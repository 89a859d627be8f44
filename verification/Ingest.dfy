/**
  Batched ingestion (`ingest_documents_controlled`, src/main.rs) against the plain
  document-by-document upsert loop, and what a rerun after an interruption does.
  */
module IngestSpec {
  import opened Wrappers
  import opened Documents

  /**
    The two functions ingestion relies on: the deterministic chunker, which reads the key and
    the hashed body of a document, and the embedding of one text.
    */
  datatype Engine = Engine(chunk: (Key, Body) -> seq<ChunkSpec>, embed: string -> Vector)

  function Specs(e: Engine, d: Document): seq<ChunkSpec> {
    e.chunk(KeyOf(d), d.body)
  }

  /** The chunks a row should have, each with the vector of its own content. */
  function ChunksFor(e: Engine, k: Key, body: Body): (r: seq<StoredChunk>)
    ensures |r| == |e.chunk(k, body)|
  {
    var specs := e.chunk(k, body);
    seq(|specs|, i requires 0 <= i < |specs| =>
      StoredChunk(Some(specs[i].key), specs[i].content, e.embed(specs[i].content), true))
  }

  function FreshChunks(e: Engine, d: Document): (r: seq<StoredChunk>)
    ensures |r| == |Specs(e, d)|
  {
    ChunksFor(e, KeyOf(d), d.body)
  }

  function Fresh(e: Engine, d: Document): Row {
    StoredRow(d, FreshChunks(e, d))
  }

  /** A row of this document will be recognised as current. */
  predicate Recognisable(e: Engine, d: Document) {
    d.body.content != "" && Specs(e, d) != []
  }

  /** What ingesting `d` alone makes of the row it finds. */
  function Settle(e: Engine, found: Option<Row>, d: Document): Row {
    if found.Some? && Current(found.value, d) then found.value.(updatedAt := d.updatedAt)
    else Fresh(e, d)
  }

  // ---------------------------------------------------------------------------------------
  // The reference: one document after the other
  // ---------------------------------------------------------------------------------------

  function IngestOne(e: Engine, t: Table, d: Document): Table {
    if NeedsStructuredUpdate(t, d) then UpsertStructured(t, d, FreshChunks(e, d))
    else RefreshTimestamp(t, d)
  }

  function Sequential(e: Engine, t: Table, docs: seq<Document>): Table {
    if docs == [] then t
    else IngestOne(e, Sequential(e, t, docs[..|docs| - 1]), docs[|docs| - 1])
  }

  // ---------------------------------------------------------------------------------------
  // The batched loop
  // ---------------------------------------------------------------------------------------

  /** Loop state: the table, the documents waiting for vectors with their number of chunks, and the rows written. */
  datatype State = State(table: Table, pending: seq<Document>, chunks: nat, written: nat)

  /** Upsert documents in order with fresh chunks. */
  function CommitFresh(e: Engine, t: Table, docs: seq<Document>): Table {
    if docs == [] then t
    else UpsertStructured(CommitFresh(e, t, docs[..|docs| - 1]), docs[|docs| - 1],
                          FreshChunks(e, docs[|docs| - 1]))
  }

  /** How many of those upserts write a row. */
  function Written(e: Engine, t: Table, docs: seq<Document>): nat {
    if docs == [] then 0
    else
      var front, d := docs[..|docs| - 1], docs[|docs| - 1];
      Written(e, t, front) + (if NeedsStructuredUpdate(CommitFresh(e, t, front), d) then 1 else 0)
  }

  /** The first half of one iteration: refresh a current document, queue any other. */
  function Take(e: Engine, s: State, d: Document): State {
    if !NeedsStructuredUpdate(s.table, d) then s.(table := RefreshTimestamp(s.table, d))
    else s.(pending := s.pending + [d], chunks := s.chunks + |Specs(e, d)|)
  }

  function FlushAll(e: Engine, s: State): State {
    State(CommitFresh(e, s.table, s.pending), [], 0, s.written + Written(e, s.table, s.pending))
  }

  /** One whole iteration: a document that was queued may trigger a flush. */
  function Absorb(e: Engine, limit: nat, s: State, d: Document): State {
    var s' := Take(e, s, d);
    if NeedsStructuredUpdate(s.table, d) && s'.chunks >= limit then FlushAll(e, s') else s'
  }

  function Absorbed(e: Engine, limit: nat, t: Table, docs: seq<Document>): State {
    if docs == [] then State(t, [], 0, 0)
    else Absorb(e, limit, Absorbed(e, limit, t, docs[..|docs| - 1]), docs[|docs| - 1])
  }

  /** The state after a run that completes; `limit` is the flush threshold in chunks. */
  function Finished(e: Engine, limit: nat, t: Table, docs: seq<Document>): State {
    FlushAll(e, Absorbed(e, limit, t, docs))
  }

  function Batched(e: Engine, limit: nat, t: Table, docs: seq<Document>): Table {
    Finished(e, limit, t, docs).table
  }

  /**
    Where a run can stop early: after `n` documents, or in the flush their successor
    triggers (`taken`), with the first `c` queued documents already committed.
    */
  function Stage(e: Engine, limit: nat, t: Table, docs: seq<Document>, n: nat, taken: bool): State
    requires n <= |docs|
  {
    var s := Absorbed(e, limit, t, docs[..n]);
    if taken && n < |docs| then Take(e, s, docs[n]) else s
  }

  ghost predicate StoppedAt(e: Engine, limit: nat, t: Table, docs: seq<Document>,
                            n: nat, taken: bool, c: nat, t': Table) {
    n <= |docs|
    && var s := Stage(e, limit, t, docs, n, taken);
       c <= |s.pending| && t' == CommitFresh(e, s.table, s.pending[..c])
  }

  /** `t'` is a table that an interrupted run over `docs` from `t` can leave behind. */
  ghost predicate Interrupted(e: Engine, limit: nat, t: Table, docs: seq<Document>, t': Table) {
    exists n: nat, taken: bool, c: nat :: StoppedAt(e, limit, t, docs, n, taken, c, t')
  }

  // ---------------------------------------------------------------------------------------
  // A pointwise reading of tables between start and end of a run
  // ---------------------------------------------------------------------------------------

  /** Every row outside `docs` is untouched; every row of `docs` is untouched or settled. */
  ghost predicate Between(e: Engine, t: Table, t': Table, docs: seq<Document>) {
    && (forall k :: k !in Keys(docs) ==> Lookup(t', k) == Lookup(t, k))
    && (forall d :: d in docs ==>
          Lookup(t', KeyOf(d)) == Lookup(t, KeyOf(d))
          || Lookup(t', KeyOf(d)) == Some(Settle(e, Lookup(t, KeyOf(d)), d)))
  }

  /** Every document is settled, everything else untouched. */
  ghost predicate AllSettled(e: Engine, t: Table, t': Table, docs: seq<Document>) {
    && (forall k :: k !in Keys(docs) ==> Lookup(t', k) == Lookup(t, k))
    && (forall d :: d in docs ==> Lookup(t', KeyOf(d)) == Some(Settle(e, Lookup(t, KeyOf(d)), d)))
  }

  lemma TablesEqual(t: Table, t': Table)
    requires forall k :: Lookup(t, k) == Lookup(t', k)
    ensures t == t'
  {
    forall k ensures k in t <==> k in t' {
      assert Lookup(t, k) == Lookup(t', k);
    }
    forall k | k in t ensures t[k] == t'[k] {
      assert Lookup(t, k) == Lookup(t', k);
    }
  }

  lemma AllSettledIsUnique(e: Engine, t: Table, t1: Table, t2: Table, docs: seq<Document>)
    requires AllSettled(e, t, t1, docs) && AllSettled(e, t, t2, docs)
    ensures t1 == t2
  {
    forall k ensures Lookup(t1, k) == Lookup(t2, k) {
      if k in Keys(docs) {
        var d :| d in docs && KeyOf(d) == k;
      }
    }
    TablesEqual(t1, t2);
  }

  /** Settling twice is settling once. */
  lemma SettleIdempotent(e: Engine, found: Option<Row>, d: Document)
    ensures Settle(e, Some(Settle(e, found, d)), d) == Settle(e, found, d)
  {
  }

  lemma {:induction false} SequentialSettles(e: Engine, t: Table, docs: seq<Document>)
    requires DistinctKeys(docs)
    ensures AllSettled(e, t, Sequential(e, t, docs), docs)
  {
    if docs != [] {
      var front, d := docs[..|docs| - 1], docs[|docs| - 1];
      SequentialSettles(e, t, front);
      assert docs == front + [d];
      assert KeyOf(d) !in Keys(front);
      IngestSettles(e, t, Sequential(e, t, front), front, d);
    }
  }

  /** Ingesting one more document. */
  lemma IngestSettles(e: Engine, t: Table, t1: Table, front: seq<Document>, d: Document)
    requires AllSettled(e, t, t1, front) && KeyOf(d) !in Keys(front)
    ensures AllSettled(e, t, IngestOne(e, t1, d), front + [d])
  {
    assert Keys(front + [d]) == Keys(front) + {KeyOf(d)};
    assert Lookup(t1, KeyOf(d)) == Lookup(t, KeyOf(d));
  }

  /** An invariant of the loop: queued documents are untouched and stale, the others settled. */
  ghost predicate Progress(e: Engine, t: Table, docs: seq<Document>, s: State) {
    && (forall k :: k !in Keys(docs) ==> Lookup(s.table, k) == Lookup(t, k))
    && DistinctKeys(s.pending)
    && (forall d :: d in s.pending ==> d in docs && NeedsStructuredUpdate(t, d))
    && (forall d :: d in docs ==>
          Lookup(s.table, KeyOf(d))
          == if d in s.pending then Lookup(t, KeyOf(d)) else Some(Settle(e, Lookup(t, KeyOf(d)), d)))
  }

  lemma {:induction false} CommitFreshSettles(e: Engine, t: Table, queue: seq<Document>)
    requires DistinctKeys(queue)
    requires forall d :: d in queue ==> NeedsStructuredUpdate(t, d)
    ensures AllSettled(e, t, CommitFresh(e, t, queue), queue)
  {
    if queue != [] {
      var front, d := queue[..|queue| - 1], queue[|queue| - 1];
      CommitFreshSettles(e, t, front);
      assert queue == front + [d];
      assert KeyOf(d) !in Keys(front);
      UpsertSettles(e, t, CommitFresh(e, t, front), front, d);
    }
  }

  /** A fresh upsert of one more, stale document. */
  lemma UpsertSettles(e: Engine, t: Table, t1: Table, front: seq<Document>, d: Document)
    requires AllSettled(e, t, t1, front) && KeyOf(d) !in Keys(front) && NeedsStructuredUpdate(t, d)
    ensures AllSettled(e, t, UpsertStructured(t1, d, FreshChunks(e, d)), front + [d])
  {
    assert Keys(front + [d]) == Keys(front) + {KeyOf(d)};
    assert Lookup(t1, KeyOf(d)) == Lookup(t, KeyOf(d));
  }

  lemma TakeKeepsProgress(e: Engine, t: Table, docs: seq<Document>, s: State, d: Document)
    requires Progress(e, t, docs, s) && KeyOf(d) !in Keys(docs)
    ensures Progress(e, t, docs + [d], Take(e, s, d))
  {
    assert Keys(docs + [d]) == Keys(docs) + {KeyOf(d)};
    assert Lookup(s.table, KeyOf(d)) == Lookup(t, KeyOf(d));
    assert d !in s.pending;
    forall x | x in s.pending ensures KeyOf(x) in Keys(docs) {
    }
  }

  lemma OtherKeys(docs: seq<Document>, part: seq<Document>, d: Document)
    requires DistinctKeys(docs) && d in docs && d !in part
    requires forall x :: x in part ==> x in docs
    ensures KeyOf(d) !in Keys(part)
  {
  }

  /** Committing any prefix of the queue keeps the invariant; the rest stays queued. */
  lemma CommitKeepsProgress(e: Engine, t: Table, docs: seq<Document>, s: State, c: nat, chunks: nat, written: nat)
    requires Progress(e, t, docs, s) && DistinctKeys(docs) && c <= |s.pending|
    ensures Progress(e, t, docs, State(CommitFresh(e, s.table, s.pending[..c]), s.pending[c..], chunks, written))
  {
    var head, tail := s.pending[..c], s.pending[c..];
    assert s.pending == head + tail;
    CommitFreshSettles(e, s.table, head);
    var table := CommitFresh(e, s.table, head);
    forall d | d in docs
      ensures Lookup(table, KeyOf(d))
        == if d in tail then Lookup(t, KeyOf(d)) else Some(Settle(e, Lookup(t, KeyOf(d)), d))
    {
      CommitOne(e, t, docs, s, c, d);
    }
    forall k | k !in Keys(docs) ensures Lookup(table, k) == Lookup(t, k) {
      assert k !in Keys(head);
    }
  }

  lemma CommitOne(e: Engine, t: Table, docs: seq<Document>, s: State, c: nat, d: Document)
    requires Progress(e, t, docs, s) && DistinctKeys(docs) && c <= |s.pending| && d in docs
    requires AllSettled(e, s.table, CommitFresh(e, s.table, s.pending[..c]), s.pending[..c])
    ensures Lookup(CommitFresh(e, s.table, s.pending[..c]), KeyOf(d))
      == if d in s.pending[c..] then Lookup(t, KeyOf(d)) else Some(Settle(e, Lookup(t, KeyOf(d)), d))
  {
    var head, tail := s.pending[..c], s.pending[c..];
    assert s.pending == head + tail;
    if d in head {
      assert d !in tail;
      assert Lookup(s.table, KeyOf(d)) == Lookup(t, KeyOf(d));
    } else {
      OtherKeys(docs, head, d);
    }
  }

  lemma {:induction false} AbsorbedKeepsProgress(e: Engine, limit: nat, t: Table, docs: seq<Document>)
    requires DistinctKeys(docs)
    ensures Progress(e, t, docs, Absorbed(e, limit, t, docs))
  {
    if docs != [] {
      var front, d := docs[..|docs| - 1], docs[|docs| - 1];
      AbsorbedKeepsProgress(e, limit, t, front);
      assert docs == front + [d];
      var s := Absorbed(e, limit, t, front);
      TakeKeepsProgress(e, t, front, s, d);
      FlushKeepsProgress(e, t, docs, Take(e, s, d));
    }
  }

  lemma FlushKeepsProgress(e: Engine, t: Table, docs: seq<Document>, s: State)
    requires Progress(e, t, docs, s) && DistinctKeys(docs)
    ensures Progress(e, t, docs, FlushAll(e, s))
  {
    CommitKeepsProgress(e, t, docs, s, |s.pending|, 0, s.written + Written(e, s.table, s.pending));
    assert s.pending[..|s.pending|] == s.pending;
    assert s.pending[|s.pending|..] == [];
  }

  /** A completed batched run settles every document, whatever the flush threshold. */
  lemma BatchedSettles(e: Engine, limit: nat, t: Table, docs: seq<Document>)
    requires DistinctKeys(docs)
    ensures AllSettled(e, t, Batched(e, limit, t, docs), docs)
  {
    AbsorbedKeepsProgress(e, limit, t, docs);
    var s := Absorbed(e, limit, t, docs);
    CommitKeepsProgress(e, t, docs, s, |s.pending|, 0, 0);
    assert s.pending[..|s.pending|] == s.pending;
    assert s.pending[|s.pending|..] == [];
  }

  /** The documents that need an update before the run, in order. */
  function StaleDocs(t: Table, docs: seq<Document>): seq<Document> {
    if docs == [] then []
    else
      var front, d := StaleDocs(t, docs[..|docs| - 1]), docs[|docs| - 1];
      if NeedsStructuredUpdate(t, d) then front + [d] else front
  }

  function Stale(t: Table, docs: seq<Document>): nat {
    |StaleDocs(t, docs)|
  }

  lemma {:induction false} QueueIsAllWritten(e: Engine, t: Table, queue: seq<Document>)
    requires DistinctKeys(queue)
    requires forall d :: d in queue ==> NeedsStructuredUpdate(t, d)
    ensures Written(e, t, queue) == |queue|
  {
    if queue != [] {
      var front, d := queue[..|queue| - 1], queue[|queue| - 1];
      QueueIsAllWritten(e, t, front);
      CommitFreshSettles(e, t, front);
      assert queue == front + [d] && KeyOf(d) !in Keys(front);
      assert Lookup(CommitFresh(e, t, front), KeyOf(d)) == Lookup(t, KeyOf(d));
      assert NeedsStructuredUpdate(t, d);
    }
  }

  /** A flush of a queue that is stale in `t` writes every queued document. */
  lemma FlushWritesQueue(e: Engine, t: Table, docs: seq<Document>, s: State)
    requires Progress(e, t, docs, s)
    ensures Written(e, s.table, s.pending) == |s.pending|
  {
    forall d | d in s.pending ensures NeedsStructuredUpdate(s.table, d) {
      assert Lookup(s.table, KeyOf(d)) == Lookup(t, KeyOf(d));
    }
    QueueIsAllWritten(e, s.table, s.pending);
  }

  lemma {:induction false} AbsorbedCounts(e: Engine, limit: nat, t: Table, docs: seq<Document>)
    requires DistinctKeys(docs)
    ensures var s := Absorbed(e, limit, t, docs); s.written + |s.pending| == Stale(t, docs)
  {
    if docs != [] {
      var front, d := docs[..|docs| - 1], docs[|docs| - 1];
      AbsorbedCounts(e, limit, t, front);
      AbsorbedKeepsProgress(e, limit, t, front);
      assert docs == front + [d] && KeyOf(d) !in Keys(front);
      var s := Absorbed(e, limit, t, front);
      assert Lookup(s.table, KeyOf(d)) == Lookup(t, KeyOf(d));
      TakeKeepsProgress(e, t, front, s, d);
      FlushWritesQueue(e, t, docs, Take(e, s, d));
    }
  }

  /** A completed run reports as changed exactly the documents that were stale before it. */
  lemma ChangedCountsStale(e: Engine, limit: nat, t: Table, docs: seq<Document>)
    requires DistinctKeys(docs)
    ensures Finished(e, limit, t, docs).written == Stale(t, docs)
  {
    AbsorbedCounts(e, limit, t, docs);
    AbsorbedKeepsProgress(e, limit, t, docs);
    FlushWritesQueue(e, t, docs, Absorbed(e, limit, t, docs));
  }

  /** Batching refines the plain loop when the keys of the documents are distinct. */
  lemma BatchedIsSequential(e: Engine, limit: nat, t: Table, docs: seq<Document>)
    requires DistinctKeys(docs)
    ensures Batched(e, limit, t, docs) == Sequential(e, t, docs)
  {
    BatchedSettles(e, limit, t, docs);
    SequentialSettles(e, t, docs);
    AllSettledIsUnique(e, t, Batched(e, limit, t, docs), Sequential(e, t, docs), docs);
  }

  /** The documents that a run stopped at `n` has looked at. */
  function ReachedDocs(docs: seq<Document>, n: nat, taken: bool): seq<Document>
    requires n <= |docs|
  {
    if taken && n < |docs| then docs[..n + 1] else docs[..n]
  }

  /** The document was reached, and it is not among those queued and not yet committed. */
  ghost predicate SettledAt(e: Engine, limit: nat, t: Table, docs: seq<Document>, n: nat, taken: bool, c: nat, d: Document)
    requires n <= |docs| && c <= |Stage(e, limit, t, docs, n, taken).pending|
  {
    d in ReachedDocs(docs, n, taken) && d !in Stage(e, limit, t, docs, n, taken).pending[c..]
  }

  lemma StageKeepsProgress(e: Engine, limit: nat, t: Table, docs: seq<Document>, n: nat, taken: bool)
    requires DistinctKeys(docs) && n <= |docs|
    ensures Progress(e, t, ReachedDocs(docs, n, taken), Stage(e, limit, t, docs, n, taken))
  {
    AbsorbedKeepsProgress(e, limit, t, docs[..n]);
    if taken && n < |docs| {
      assert docs[..n + 1] == docs[..n] + [docs[n]];
      TakeKeepsProgress(e, t, docs[..n], Absorbed(e, limit, t, docs[..n]), docs[n]);
    }
  }

  /**
    Where a run stops decides its table: every document it reached is settled, except those still
    queued beyond the committed prefix; every other row is as it was.
    */
  lemma StoppedSettles(e: Engine, limit: nat, t: Table, docs: seq<Document>, n: nat, taken: bool, c: nat, t': Table)
    requires DistinctKeys(docs) && StoppedAt(e, limit, t, docs, n, taken, c, t')
    ensures forall k :: k !in Keys(docs) ==> Lookup(t', k) == Lookup(t, k)
    ensures forall d :: d in docs ==>
      if SettledAt(e, limit, t, docs, n, taken, c, d)
      then Lookup(t', KeyOf(d)) == Some(Settle(e, Lookup(t, KeyOf(d)), d))
      else Lookup(t', KeyOf(d)) == Lookup(t, KeyOf(d))
  {
    var s, reached := Stage(e, limit, t, docs, n, taken), ReachedDocs(docs, n, taken);
    StageKeepsProgress(e, limit, t, docs, n, taken);
    assert reached <= docs;
    CommitKeepsProgress(e, t, reached, s, c, 0, 0);
    forall d | d in docs && d !in reached ensures Lookup(t', KeyOf(d)) == Lookup(t, KeyOf(d)) {
      OtherKeys(docs, reached, d);
    }
  }

  /** An interrupted run leaves a table in which every document is untouched or settled. */
  lemma InterruptedIsBetween(e: Engine, limit: nat, t: Table, docs: seq<Document>, t': Table)
    requires DistinctKeys(docs) && Interrupted(e, limit, t, docs, t')
    ensures Between(e, t, t', docs)
  {
    var n: nat, taken: bool, c: nat :| StoppedAt(e, limit, t, docs, n, taken, c, t');
    StoppedSettles(e, limit, t, docs, n, taken, c, t');
  }

  /** The documents that a run queues, and so chunks and embeds, in order. */
  function Queued(e: Engine, limit: nat, t: Table, docs: seq<Document>): seq<Document> {
    if docs == [] then []
    else
      var front, d := docs[..|docs| - 1], docs[|docs| - 1];
      Queued(e, limit, t, front) + if NeedsStructuredUpdate(Absorbed(e, limit, t, front).table, d) then [d] else []
  }

  /** For distinct keys a run queues exactly the documents that were stale before it. */
  lemma {:induction false} QueuedAreStale(e: Engine, limit: nat, t: Table, docs: seq<Document>)
    requires DistinctKeys(docs)
    ensures Queued(e, limit, t, docs) == StaleDocs(t, docs)
  {
    if docs != [] {
      var front, d := docs[..|docs| - 1], docs[|docs| - 1];
      QueuedAreStale(e, limit, t, front);
      AbsorbedKeepsProgress(e, limit, t, front);
      assert docs == front + [d] && KeyOf(d) !in Keys(front);
      assert Lookup(Absorbed(e, limit, t, front).table, KeyOf(d)) == Lookup(t, KeyOf(d));
    }
  }

  lemma {:induction false} StaleMembers(t: Table, docs: seq<Document>)
    ensures forall d :: d in StaleDocs(t, docs) <==> d in docs && NeedsStructuredUpdate(t, d)
  {
    if docs != [] {
      var front, d := docs[..|docs| - 1], docs[|docs| - 1];
      StaleMembers(t, front);
      assert docs == front + [d];
    }
  }

  /**
    The rerun after an interruption queues a document exactly when it was stale before the first
    run and was either not settled by it or is not recognisable. So no recognisable document of the
    committed prefix is embedded again.
    */
  lemma RerunSkipsCommitted(e: Engine, limit: nat, limit': nat, t: Table, docs: seq<Document>,
                            n: nat, taken: bool, c: nat, t': Table)
    requires DistinctKeys(docs) && StoppedAt(e, limit, t, docs, n, taken, c, t')
    ensures forall d :: d in Queued(e, limit', t', docs) <==>
      (d in docs && NeedsStructuredUpdate(t, d) && !(SettledAt(e, limit, t, docs, n, taken, c, d) && Recognisable(e, d)))
    ensures forall d :: d in Stage(e, limit, t, docs, n, taken).pending[..c] && Recognisable(e, d) ==>
      d !in Queued(e, limit', t', docs)
  {
    QueuedAreStale(e, limit', t', docs);
    StaleMembers(t', docs);
    StoppedSettles(e, limit, t, docs, n, taken, c, t');
    forall d | d in docs
      ensures NeedsStructuredUpdate(t', d) <==>
        (NeedsStructuredUpdate(t, d) && !(SettledAt(e, limit, t, docs, n, taken, c, d) && Recognisable(e, d)))
    {
      if SettledAt(e, limit, t, docs, n, taken, c, d) {
        SettledIsSkipped(e, t, t', d);
      }
    }
    CommittedIsSettled(e, limit, t, docs, n, taken, c);
  }

  lemma CommittedIsSettled(e: Engine, limit: nat, t: Table, docs: seq<Document>, n: nat, taken: bool, c: nat)
    requires DistinctKeys(docs) && n <= |docs| && c <= |Stage(e, limit, t, docs, n, taken).pending|
    ensures forall d :: d in Stage(e, limit, t, docs, n, taken).pending[..c] ==>
      SettledAt(e, limit, t, docs, n, taken, c, d)
  {
    StageKeepsProgress(e, limit, t, docs, n, taken);
    var queue := Stage(e, limit, t, docs, n, taken).pending;
    forall d | d in queue[..c] ensures d !in queue[c..] && d in queue {
      var i :| 0 <= i < c && queue[i] == d;
      forall j | 0 <= j < |queue[c..]| ensures queue[c..][j] != d {
        assert queue[c..][j] == queue[c + j];
      }
    }
  }

  /** From any such table, running the documents again ends where one uninterrupted run ends. */
  lemma BetweenSettlesAlike(e: Engine, t: Table, t': Table, docs: seq<Document>)
    requires DistinctKeys(docs) && Between(e, t, t', docs)
    ensures Sequential(e, t', docs) == Sequential(e, t, docs)
  {
    SequentialSettles(e, t', docs);
    SequentialSettles(e, t, docs);
    var end := Sequential(e, t', docs);
    forall d | d in docs ensures Lookup(end, KeyOf(d)) == Some(Settle(e, Lookup(t, KeyOf(d)), d)) {
      SettleIdempotent(e, Lookup(t, KeyOf(d)), d);
    }
    AllSettledIsUnique(e, t, end, Sequential(e, t, docs), docs);
  }

  /**
    Resume: interrupt a run anywhere and run the same documents again, with any flush
    thresholds; the table is the one a single uninterrupted run leaves.
    */
  lemma Resume(e: Engine, limit: nat, limit': nat, t: Table, t': Table, docs: seq<Document>)
    requires DistinctKeys(docs) && Interrupted(e, limit, t, docs, t')
    ensures Batched(e, limit', t', docs) == Batched(e, limit, t, docs)
  {
    InterruptedIsBetween(e, limit, t, docs, t');
    BetweenSettlesAlike(e, t, t', docs);
    BatchedIsSequential(e, limit', t', docs);
    BatchedIsSequential(e, limit, t, docs);
  }

  /** A document just settled is skipped by a rerun exactly when its row is recognisable. */
  lemma SettledIsSkipped(e: Engine, t: Table, t': Table, d: Document)
    requires Lookup(t', KeyOf(d)) == Some(Settle(e, Lookup(t, KeyOf(d)), d))
    ensures NeedsStructuredUpdate(t', d) <==> NeedsStructuredUpdate(t, d) && !Recognisable(e, d)
  {
    assert KeyOf(d) in t';
    assert t'[KeyOf(d)] == Settle(e, Lookup(t, KeyOf(d)), d);
    if NeedsStructuredUpdate(t, d) && Recognisable(e, d) {
      assert FreshChunks(e, d)[0].structured;
    }
  }
}

/** The ingestion loop as the program runs it. */
module Ingest {
  import opened Wrappers
  import opened Documents
  import opened Store
  import opened Sequences
  import opened Flush
  import opened IngestSpec

  function Chunked(e: Engine, docs: seq<Document>): (r: seq<Pending>)
    ensures |r| == |docs|
  {
    seq(|docs|, i requires 0 <= i < |docs| => Pending(docs[i], Specs(e, docs[i])))
  }

  ghost predicate Honest(e: Engine, answers: seq<Vector>, input: seq<string>) {
    |answers| == |input| && forall p :: 0 <= p < |input| ==> answers[p] == e.embed(input[p])
  }

  /** Alignment: each document gets the vectors of its own chunks. */
  lemma EmbeddedIsFresh(e: Engine, docs: seq<Document>, answers: seq<Vector>, k: nat)
    requires Honest(e, answers, Input(Chunked(e, docs))) && k < |docs|
    ensures Embedded(Chunked(e, docs), answers, k) == FreshChunks(e, docs[k])
  {
    var batch := Chunked(e, docs);
    InputLayout(batch, k);
    var lo, hi := Offset(batch, k), Offset(batch, k + 1);
    forall i | 0 <= i < hi - lo ensures answers[lo..hi][i] == e.embed(batch[k].specs[i].content) {
      assert Input(batch)[lo + i] == Input(batch)[lo..hi][i] == Contents(batch[k].specs)[i];
    }
  }

  /** With an honest provider a flush commits each document as a plain upsert would. */
  lemma CommitPrefixIsFresh(e: Engine, t: Table, docs: seq<Document>, answers: seq<Vector>, c: nat)
    requires Honest(e, answers, Input(Chunked(e, docs))) && c <= |docs|
    ensures CommitPrefix(t, Chunked(e, docs), answers, c) == CommitFresh(e, t, docs[..c])
    ensures Writes(t, Chunked(e, docs), answers, c) == Written(e, t, docs[..c])
  {
    HonestIsAligned(e, docs, answers, c);
    AlignedIsFresh(e, t, docs, Chunked(e, docs), answers, c);
  }

  /** The first `c` documents of the batch are these, each with the vectors of its own chunks. */
  ghost predicate Aligned(e: Engine, docs: seq<Document>, batch: seq<Pending>, answers: seq<Vector>, c: nat)
    requires c <= |docs| == |batch| && |answers| == |Input(batch)|
    decreases c
  {
    c == 0 || (Aligned(e, docs, batch, answers, c - 1)
               && batch[c - 1].document == docs[c - 1]
               && Embedded(batch, answers, c - 1) == FreshChunks(e, docs[c - 1]))
  }

  lemma {:induction false} HonestIsAligned(e: Engine, docs: seq<Document>, answers: seq<Vector>, c: nat)
    requires Honest(e, answers, Input(Chunked(e, docs))) && c <= |docs|
    ensures Aligned(e, docs, Chunked(e, docs), answers, c)
    decreases c
  {
    if c > 0 {
      HonestIsAligned(e, docs, answers, c - 1);
      EmbeddedIsFresh(e, docs, answers, c - 1);
    }
  }

  lemma {:induction false} AlignedIsFresh(e: Engine, t: Table, docs: seq<Document>, batch: seq<Pending>,
                                          answers: seq<Vector>, c: nat)
    requires c <= |docs| == |batch| && |answers| == |Input(batch)| && Aligned(e, docs, batch, answers, c)
    ensures CommitPrefix(t, batch, answers, c) == CommitFresh(e, t, docs[..c])
    ensures Writes(t, batch, answers, c) == Written(e, t, docs[..c])
    decreases c
  {
    if c > 0 {
      AlignedIsFresh(e, t, docs, batch, answers, c - 1);
      CommitFreshStep(e, t, docs, c);
      CommitPrefixStep(t, batch, answers, c);
    }
  }

  lemma CommitPrefixStep(t: Table, batch: seq<Pending>, answers: seq<Vector>, c: nat)
    requires 0 < c <= |batch| && |answers| == |Input(batch)|
    ensures var before, d := CommitPrefix(t, batch, answers, c - 1), batch[c - 1].document;
      && CommitPrefix(t, batch, answers, c) == UpsertStructured(before, d, Embedded(batch, answers, c - 1))
      && Writes(t, batch, answers, c)
        == Writes(t, batch, answers, c - 1) + if NeedsStructuredUpdate(before, d) then 1 else 0
  {
  }

  lemma CommitFreshStep(e: Engine, t: Table, docs: seq<Document>, c: nat)
    requires 0 < c <= |docs|
    ensures var front, d := docs[..c - 1], docs[c - 1];
      && CommitFresh(e, t, docs[..c]) == UpsertStructured(CommitFresh(e, t, front), d, FreshChunks(e, d))
      && Written(e, t, docs[..c])
        == Written(e, t, front) + if NeedsStructuredUpdate(CommitFresh(e, t, front), d) then 1 else 0
  {
    assert docs[..c][..c - 1] == docs[..c - 1];
  }

  /** An embedding provider that answers honestly, in any order, and may fail or stall. */
  class Provider {
    const engine: Engine
    /** Every request of a reliable provider completes. */
    const reliable: bool

    constructor (engine: Engine, reliable: bool)
      ensures this.engine == engine && this.reliable == reliable
    {
      this.engine := engine;
      this.reliable := reliable;
    }

    method Answer(input: seq<string>) returns (s: Schedule)
      ensures Fits(s, |input|) && Honest(engine, s.answers, input)
      ensures reliable ==> Drains(s)
    {
      var answers := seq(|input|, p requires 0 <= p < |input| => engine.embed(input[p]));
      var started: bool := *;
      var arrivals: seq<nat> := *;
      var failure: bool := *;
      var distinct := forall i, j :: 0 <= i < j < |arrivals| ==> arrivals[i] != arrivals[j];
      var bounded := forall i :: 0 <= i < |arrivals| ==> arrivals[i] < RequestCount(|input|);
      s := Schedule(started, answers, arrivals, if failure then ProviderFailed else Interrupted);
      if !distinct || !bounded || (reliable && !Drains(s)) {
        s := Schedule(true, answers, seq(RequestCount(|input|), r => r), Interrupted);
      }
    }
  }

  lemma AbsorbedStep(e: Engine, limit: nat, t: Table, docs: seq<Document>, i: nat)
    requires i < |docs|
    ensures Absorbed(e, limit, t, docs[..i + 1]) == Absorb(e, limit, Absorbed(e, limit, t, docs[..i]), docs[i])
  {
    assert docs[..i + 1][..i] == docs[..i];
  }

  /** The tables an iteration can fail with are stopping points of the run. */
  lemma StoppedInIteration(e: Engine, limit: nat, t: Table, docs: seq<Document>, i: nat, c: nat, t': Table)
    requires i < |docs|
    requires var s := Absorbed(e, limit, t, docs[..i]);
      || t' == s.table
      || t' == Absorbed(e, limit, t, docs[..i + 1]).table
      || (var q := Take(e, s, docs[i]); c <= |q.pending| && t' == CommitFresh(e, q.table, q.pending[..c]))
    ensures IngestSpec.Interrupted(e, limit, t, docs, t')
  {
    var s := Absorbed(e, limit, t, docs[..i]);
    if t' == s.table {
      assert StoppedAt(e, limit, t, docs, i, false, 0, t');
    } else if t' == Absorbed(e, limit, t, docs[..i + 1]).table {
      assert StoppedAt(e, limit, t, docs, i + 1, false, 0, t');
    } else {
      assert StoppedAt(e, limit, t, docs, i, true, c, t');
    }
  }

  /** Where a run sits between two documents: the object state mirrors the loop state. */
  ghost predicate Mirrors(run: IngestRun, e: Engine, s: State, chunks: nat)
    reads run, run.store
  {
    && run.store.rows == s.table && run.pending == Chunked(e, s.pending)
    && chunks == s.chunks && run.changedCount == s.written
  }

  /** Flush the queue with whatever the provider answers. */
  method FlushQueue(run: IngestRun, provider: Provider, ghost s: State, ghost chunks: nat)
    returns (outcome: Outcome, ghost committed: nat)
    requires Mirrors(run, provider.engine, s, chunks)
    modifies run, run.store, run.control
    ensures committed <= |s.pending|
    ensures run.store.rows == CommitFresh(provider.engine, s.table, s.pending[..committed])
    ensures run.changedCount == s.written + Written(provider.engine, s.table, s.pending[..committed])
    ensures run.changedCount + run.unchangedCount == old(run.changedCount + run.unchangedCount) + committed
    ensures outcome == Done ==> run.pending == [] && committed == |s.pending|
    ensures outcome == Failed(StoreFault) ==> run.store.faulted
    ensures outcome != Failed(StoreFault) ==> run.store.faulted == old(run.store.faulted)
    ensures provider.reliable && run.control.stopAt.None? ==> outcome in {Done, Failed(StoreFault)}
    ensures run.control.checks >= old(run.control.checks)
  {
    ghost var e := provider.engine;
    var schedule := provider.Answer(Input(run.pending));
    outcome, committed := run.FlushIngestBatch(schedule);
    CommitPrefixIsFresh(e, s.table, s.pending, schedule.answers, committed);
  }

  /**
    One iteration of the loop. It either moves the loop state from `s` to the absorbed state, or
    fails with the table of `s` or with some queued documents of the taken state committed.
    */
  method IngestDocument(run: IngestRun, provider: Provider, limit: nat, document: Document,
                        processed: nat, chunks: nat, ghost s: State)
    returns (outcome: Outcome, chunks': nat, ghost committed: nat)
    requires Mirrors(run, provider.engine, s, chunks)
    modifies run, run.store, run.control
    ensures outcome == Done ==> Mirrors(run, provider.engine, Absorb(provider.engine, limit, s, document), chunks')
    ensures outcome == Done ==>
      run.changedCount + run.unchangedCount + |run.pending|
        == old(run.changedCount + run.unchangedCount + |run.pending|) + 1
    ensures outcome != Done ==>
      || run.store.rows == s.table
      || run.store.rows == Absorb(provider.engine, limit, s, document).table
      || (var q := Take(provider.engine, s, document);
          committed <= |q.pending| && run.store.rows == CommitFresh(provider.engine, q.table, q.pending[..committed]))
    ensures outcome == Failed(StoreFault) ==> run.store.faulted
    ensures outcome != Failed(StoreFault) ==> run.store.faulted == old(run.store.faulted)
    ensures provider.reliable && run.control.stopAt.None? ==> outcome in {Done, Failed(StoreFault)}
    ensures run.control.checks >= old(run.control.checks)
  {
    var e := provider.engine;
    chunks', committed := chunks, 0;
    var alive := run.control.Check();
    if !alive {
      return Failed(Stopped), chunks, 0;
    }
    var needed := run.store.NeedsStructuredUpdate(document);
    if needed.Err? {
      return Failed(StoreFault), chunks, 0;
    }
    if !needed.value {
      var refreshed := run.store.RefreshTimestamp(document);
      if refreshed.Err? {
        return Failed(StoreFault), chunks, 0;
      }
      run.unchangedCount := run.unchangedCount + 1;
      if processed % 64 == 0 {
        var recorded := run.store.Touch();
        return if recorded.Err? then Failed(StoreFault) else Done, chunks, 0;
      }
      return Done, chunks, 0;
    }
    var specs := Specs(e, document);
    chunks' := chunks + |specs|;
    run.pending := run.pending + [Pending(document, specs)];
    ghost var q := Take(e, s, document);
    assert Chunked(e, q.pending) == Chunked(e, s.pending) + [Pending(document, specs)];
    if chunks' < limit {
      return Done, chunks', 0;
    }
    outcome, committed := FlushQueue(run, provider, q, chunks');
    if outcome != Done {
      return outcome, chunks', committed;
    }
    assert q.pending[..committed] == q.pending;
    chunks' := 0;
    var recorded := run.store.Touch();
    return if recorded.Err? then Failed(StoreFault) else Done, 0, committed;
  }

  /**
    Ingest `documents`. A completed run leaves the batched table and counts every document
    once; any other run leaves a table in which it was interrupted.
    */
  method IngestDocumentsControlled(store: DocumentStore, control: Control, provider: Provider,
                                   concurrency: nat, documents: seq<Document>)
    returns (outcome: Outcome, changedCount: nat, unchangedCount: nat)
    modifies store, control
    ensures outcome == Done ==>
      store.rows == Batched(provider.engine, REQUEST_SIZE * concurrency, old(store.rows), documents)
    ensures outcome == Done ==>
      changedCount == Finished(provider.engine, REQUEST_SIZE * concurrency, old(store.rows), documents).written
    ensures outcome == Done ==> changedCount + unchangedCount == |documents|
    ensures outcome != Done ==>
      IngestSpec.Interrupted(provider.engine, REQUEST_SIZE * concurrency, old(store.rows), documents, store.rows)
    ensures outcome == Failed(StoreFault) ==> store.faulted
    ensures outcome != Failed(StoreFault) ==> store.faulted == old(store.faulted)
    ensures provider.reliable && control.stopAt.None? ==> outcome in {Done, Failed(StoreFault)}
    ensures control.checks >= old(control.checks)
  {
    var limit := REQUEST_SIZE * concurrency;
    ghost var e, t := provider.engine, store.rows;
    ghost var s := State(t, [], 0, 0);
    ghost var committed: nat;
    var run := new IngestRun(store, control);
    var chunks: nat := 0;
    for i := 0 to |documents|
      invariant run.store == store && run.control == control && fresh(run)
      invariant s == Absorbed(e, limit, t, documents[..i]) && Mirrors(run, e, s, chunks)
      invariant run.changedCount + run.unchangedCount + |run.pending| == i
      invariant store.faulted == old(store.faulted)
      invariant control.checks >= old(control.checks)
    {
      outcome, chunks, committed := IngestDocument(run, provider, limit, documents[i], i + 1, chunks, s);
      AbsorbedStep(e, limit, t, documents, i);
      if outcome != Done {
        StoppedInIteration(e, limit, t, documents, i, committed, store.rows);
        return outcome, run.changedCount, run.unchangedCount;
      }
      s := Absorb(e, limit, s, documents[i]);
    }
    assert documents[..|documents|] == documents;
    outcome, committed := FlushQueue(run, provider, s, chunks);
    assert StoppedAt(e, limit, t, documents, |documents|, false, committed, store.rows);
    changedCount, unchangedCount := run.changedCount, run.unchangedCount;
    if outcome != Done {
      return outcome, changedCount, unchangedCount;
    }
    assert s.pending[..committed] == s.pending;
    var recorded := store.Touch();
    if recorded.Err? {
      return Failed(StoreFault), changedCount, unchangedCount;
    }
    return Done, changedCount, unchangedCount;
  }
}
