/**
  Further laws of batched ingestion: what the index holds after a run, what a run leaves
  alone, and why distinct keys are needed.
  */
module IngestLaws {
  import opened Sequences
  import opened Wrappers
  import opened Documents
  import opened IngestSpec

  // ---------------------------------------------------------------------------------------
  // What the index holds
  // ---------------------------------------------------------------------------------------

  /** One chunk for each that the chunker makes of the body, in order, each with the vector of its own content. */
  ghost predicate OwnChunks(e: Engine, k: Key, body: Body, chunks: seq<StoredChunk>) {
    && |chunks| == |e.chunk(k, body)|
    && forall i :: 0 <= i < |chunks| ==>
      && chunks[i].key == Some(e.chunk(k, body)[i].key) && chunks[i].content == e.chunk(k, body)[i].content
      && chunks[i].vector == e.embed(chunks[i].content) && chunks[i].structured
  }

  lemma OwnChunksOnly(e: Engine, k: Key, body: Body, chunks: seq<StoredChunk>)
    ensures OwnChunks(e, k, body, chunks) <==> chunks == ChunksFor(e, k, body)
  {
  }

  /** Every row that passes for current has exactly the chunks and vectors of its body. */
  ghost predicate Coherent(e: Engine, t: Table) {
    forall k :: k in t && t[k].parserCurrent && t[k].chunks != [] && t[k].chunks[0].structured ==>
      OwnChunks(e, k, t[k].body, t[k].chunks)
  }

  /** The document is stored with its own body and time and its own chunks and vectors. */
  ghost predicate HoldsDocument(e: Engine, t: Table, d: Document) {
    && KeyOf(d) in t
    && t[KeyOf(d)].body == d.body
    && t[KeyOf(d)].updatedAt == d.updatedAt
    && t[KeyOf(d)].parserCurrent && (d.body.content != "" ==> t[KeyOf(d)].hasContent)
    && OwnChunks(e, KeyOf(d), d.body, t[KeyOf(d)].chunks)
  }

  /** The row already is the document's: same body, content, current parse and structured chunks. */
  predicate IsCurrent(r: Row, d: Document) {
    r.body == d.body && r.hasContent && r.parserCurrent && r.chunks != [] && r.chunks[0].structured
  }

  /** A row written for the document. */
  ghost predicate IsWritten(e: Engine, r: Row, d: Document) {
    && r.body == d.body && r.hasContent == (d.body.content != "") && r.parserCurrent
    && r.observedAt == d.observedAt && r.updatedAt == d.updatedAt
    && OwnChunks(e, KeyOf(d), d.body, r.chunks)
  }

  /** A current row only gets the time of the document; any other, or none, is replaced by the document's own. */
  ghost predicate IsSettled(e: Engine, found: Option<Row>, r: Row, d: Document) {
    if found.Some? && IsCurrent(found.value, d) then
      && r.updatedAt == d.updatedAt && r.body == found.value.body && r.hasContent && r.parserCurrent
      && r.observedAt == found.value.observedAt && r.chunks == found.value.chunks
    else IsWritten(e, r, d)
  }

  /** That is what settling a document means. */
  lemma SettleMeans(e: Engine, found: Option<Row>, d: Document)
    ensures forall r :: IsSettled(e, found, r, d) <==> r == Settle(e, found, d)
  {
    forall r ensures IsSettled(e, found, r, d) <==> r == Settle(e, found, d) {
      OwnChunksOnly(e, KeyOf(d), d.body, r.chunks);
    }
  }

  /** What a completed run makes of every row, from what it was before. */
  lemma CompletedRunRows(e: Engine, limit: nat, t: Table, docs: seq<Document>)
    requires DistinctKeys(docs)
    ensures var t' := Batched(e, limit, t, docs);
      && (forall d :: d in docs ==> KeyOf(d) in t' && IsSettled(e, Lookup(t, KeyOf(d)), t'[KeyOf(d)], d))
      && (forall k :: k !in Keys(docs) ==> Lookup(t', k) == Lookup(t, k))
  {
    BatchedSettles(e, limit, t, docs);
    var t' := Batched(e, limit, t, docs);
    forall d | d in docs ensures KeyOf(d) in t' && IsSettled(e, Lookup(t, KeyOf(d)), t'[KeyOf(d)], d) {
      assert Lookup(t', KeyOf(d)) == Some(Settle(e, Lookup(t, KeyOf(d)), d));
      SettleMeans(e, Lookup(t, KeyOf(d)), d);
    }
  }

  /**
    After a completed run over a coherent index every document is stored with its own body,
    time and chunks, each chunk with the vector of its own content, and the index is coherent.
    */
  lemma CompletedRunHoldsDocuments(e: Engine, limit: nat, t: Table, docs: seq<Document>)
    requires DistinctKeys(docs) && Coherent(e, t)
    ensures var t' := Batched(e, limit, t, docs);
      && Coherent(e, t')
      && (forall d :: d in docs ==> HoldsDocument(e, t', d))
  {
    BatchedSettles(e, limit, t, docs);
    var t' := Batched(e, limit, t, docs);
    forall d | d in docs
      ensures HoldsDocument(e, t', d)
    {
      assert Lookup(t', KeyOf(d)) == Some(Settle(e, Lookup(t, KeyOf(d)), d));
      SettleMeans(e, Lookup(t, KeyOf(d)), d);
    }
    BetweenStaysCoherent(e, t, t', docs);
  }

  /** Neither does an interruption break coherence. */
  lemma BetweenStaysCoherent(e: Engine, t: Table, t': Table, docs: seq<Document>)
    requires Coherent(e, t) && Between(e, t, t', docs)
    ensures Coherent(e, t')
  {
    forall k | k in t' && t'[k].parserCurrent && t'[k].chunks != [] && t'[k].chunks[0].structured
      ensures OwnChunks(e, k, t'[k].body, t'[k].chunks)
    {
      assert Lookup(t', k) == Some(t'[k]);
      if k in Keys(docs) {
        var d :| d in docs && KeyOf(d) == k;
        SettleMeans(e, Lookup(t, KeyOf(d)), d);
        assert Lookup(t', KeyOf(d)) == Lookup(t, KeyOf(d))
            || Lookup(t', KeyOf(d)) == Some(Settle(e, Lookup(t, KeyOf(d)), d));
      } else {
        assert Lookup(t', k) == Lookup(t, k);
      }
    }
  }

  // ---------------------------------------------------------------------------------------
  // What a run leaves alone, and what it certainly stores; keys may repeat here
  // ---------------------------------------------------------------------------------------

  /** No row disappears, rows outside `docs` are untouched, and a touched row is in the project. */
  ghost predicate Kept(t: Table, t': Table, docs: seq<Document>, project: string) {
    && t.Keys <= t'.Keys
    && (forall k :: k !in Keys(docs) ==> Lookup(t', k) == Lookup(t, k))
    && (forall k :: k in t' ==> Lookup(t', k) == Lookup(t, k) || t'[k].body.project == project)
  }

  ghost predicate OfProject(docs: seq<Document>, project: string) {
    forall d :: d in docs ==> d.body.project == project
  }

  ghost predicate StoredIn(t: Table, d: Document, project: string) {
    KeyOf(d) in t && t[KeyOf(d)].body.project == project
  }

  /** Moreover every document is stored, in its project. */
  ghost predicate Loaded(t: Table, t': Table, docs: seq<Document>, project: string) {
    Kept(t, t', docs, project) && forall d :: d in docs ==> StoredIn(t', d, project)
  }

  ghost predicate StateLoaded(t: Table, s: State, docs: seq<Document>, project: string) {
    && Kept(t, s.table, docs, project)
    && (forall d :: d in s.pending ==> d in docs)
    && (forall d :: d in docs ==> d in s.pending || StoredIn(s.table, d, project))
  }

  lemma UpsertLoads(t: Table, t1: Table, front: seq<Document>, d: Document, chunks: seq<StoredChunk>, project: string)
    requires Loaded(t, t1, front, project) && d.body.project == project
    ensures Loaded(t, UpsertStructured(t1, d, chunks), front + [d], project)
    ensures forall x: Document :: StoredIn(t1, x, project) ==> StoredIn(UpsertStructured(t1, d, chunks), x, project)
  {
    var t2 := UpsertStructured(t1, d, chunks);
    assert Keys(front + [d]) == Keys(front) + {KeyOf(d)};
    forall k ensures k == KeyOf(d) || Lookup(t2, k) == Lookup(t1, k) {
    }
  }

  lemma {:induction false} CommitFreshLoads(e: Engine, t: Table, queue: seq<Document>, project: string)
    requires OfProject(queue, project)
    ensures Loaded(t, CommitFresh(e, t, queue), queue, project)
    ensures forall d: Document :: StoredIn(t, d, project) ==>
      StoredIn(CommitFresh(e, t, queue), d, project)
  {
    if queue != [] {
      var front, d := queue[..|queue| - 1], queue[|queue| - 1];
      assert queue == front + [d];
      CommitFreshLoads(e, t, front, project);
      assert d in queue;
      UpsertLoads(t, CommitFresh(e, t, front), front, d, FreshChunks(e, d), project);
    }
  }

  /** Refreshing the time of a current row keeps what is stored. */
  lemma RefreshLoads(t: Table, t1: Table, docs: seq<Document>, d: Document, project: string)
    requires Kept(t, t1, docs, project) && d.body.project == project && !NeedsStructuredUpdate(t1, d)
    ensures StoredIn(RefreshTimestamp(t1, d), d, project)
    ensures Kept(t, RefreshTimestamp(t1, d), docs + [d], project)
    ensures forall x :: StoredIn(t1, x, project) ==> StoredIn(RefreshTimestamp(t1, d), x, project)
  {
    assert Keys(docs + [d]) == Keys(docs) + {KeyOf(d)};
  }

  lemma KeptFurther(t: Table, t1: Table, docs: seq<Document>, d: Document, project: string)
    requires Kept(t, t1, docs, project)
    ensures Kept(t, t1, docs + [d], project)
  {
    assert Keys(docs + [d]) == Keys(docs) + {KeyOf(d)};
  }

  lemma TakeLoads(e: Engine, t: Table, s: State, docs: seq<Document>, d: Document, project: string)
    requires StateLoaded(t, s, docs, project) && OfProject(docs + [d], project)
    ensures StateLoaded(t, Take(e, s, d), docs + [d], project)
  {
    var s' := Take(e, s, d);
    assert d in docs + [d];
    if NeedsStructuredUpdate(s.table, d) {
      KeptFurther(t, s.table, docs, d, project);
    } else {
      RefreshLoads(t, s.table, docs, d, project);
    }
    forall x | x in docs + [d] ensures x in s'.pending || StoredIn(s'.table, x, project) {
      if x in docs {
        assert x in s.pending || StoredIn(s.table, x, project);
      }
    }
  }

  /** Committing any part of the queue keeps the table between start and end. */
  lemma CommitLoads(e: Engine, t: Table, s: State, docs: seq<Document>, c: nat, project: string)
    requires StateLoaded(t, s, docs, project) && OfProject(docs, project) && c <= |s.pending|
    ensures Kept(t, CommitFresh(e, s.table, s.pending[..c]), docs, project)
    ensures c == |s.pending| ==> Loaded(t, CommitFresh(e, s.table, s.pending[..c]), docs, project)
  {
    var head := s.pending[..c];
    assert OfProject(head, project) by {
      forall d | d in head ensures d.body.project == project {
        assert d in s.pending;
      }
    }
    CommitFreshLoads(e, s.table, head, project);
    var t' := CommitFresh(e, s.table, head);
    forall k | k !in Keys(docs) ensures Lookup(t', k) == Lookup(t, k) {
      assert k !in Keys(head);
    }
    if c == |s.pending| {
      assert head == s.pending;
      forall d | d in docs ensures StoredIn(t', d, project) {
        assert d in s.pending || StoredIn(s.table, d, project);
      }
    }
  }

  lemma {:induction false} AbsorbedLoads(e: Engine, limit: nat, t: Table, docs: seq<Document>, project: string)
    requires OfProject(docs, project)
    ensures StateLoaded(t, Absorbed(e, limit, t, docs), docs, project)
  {
    if docs != [] {
      var front, d := docs[..|docs| - 1], docs[|docs| - 1];
      assert docs == front + [d];
      assert OfProject(front, project);
      AbsorbedLoads(e, limit, t, front, project);
      var s := Absorbed(e, limit, t, front);
      TakeLoads(e, t, s, front, d, project);
      var s' := Take(e, s, d);
      CommitLoads(e, t, s', docs, |s'.pending|, project);
      assert s'.pending[..|s'.pending|] == s'.pending;
    }
  }

  /** A completed run stores every document and touches nothing else. */
  lemma BatchedLoads(e: Engine, limit: nat, t: Table, docs: seq<Document>, project: string)
    requires OfProject(docs, project)
    ensures Loaded(t, Batched(e, limit, t, docs), docs, project)
  {
    AbsorbedLoads(e, limit, t, docs, project);
    var s := Absorbed(e, limit, t, docs);
    CommitLoads(e, t, s, docs, |s.pending|, project);
    assert s.pending[..|s.pending|] == s.pending;
  }

  /** An interrupted run deletes nothing and touches only rows of its own documents. */
  lemma InterruptedKeeps(e: Engine, limit: nat, t: Table, docs: seq<Document>, t': Table, project: string)
    requires OfProject(docs, project) && Interrupted(e, limit, t, docs, t')
    ensures Kept(t, t', docs, project)
  {
    var n: nat, taken: bool, c: nat :| StoppedAt(e, limit, t, docs, n, taken, c, t');
    var s := Stage(e, limit, t, docs, n, taken);
    var m := if taken && n < |docs| then n + 1 else n;
    assert OfProject(docs[..m], project) && OfProject(docs[..n], project) by {
      assert forall d :: d in docs[..m] ==> d in docs;
    }
    AbsorbedLoads(e, limit, t, docs[..n], project);
    if m > n {
      assert docs[..m] == docs[..n] + [docs[n]];
      TakeLoads(e, t, Absorbed(e, limit, t, docs[..n]), docs[..n], docs[n], project);
    }
    CommitLoads(e, t, s, docs[..m], c, project);
    assert Keys(docs[..m]) <= Keys(docs);
  }

  // ---------------------------------------------------------------------------------------
  // Why keys must be distinct
  // ---------------------------------------------------------------------------------------

  function KeySeq(docs: seq<Document>): (r: seq<Key>)
    ensures |r| == |docs|
  {
    seq(|docs|, i requires 0 <= i < |docs| => KeyOf(docs[i]))
  }

  ghost predicate AlwaysRefines(e: Engine, keys: seq<Key>) {
    forall limit: nat, t: Table, docs: seq<Document> :: KeySeq(docs) == keys ==>
      Batched(e, limit, t, docs) == Sequential(e, t, docs)
  }

  function TotalChunks(e: Engine, docs: seq<Document>): nat {
    if docs == [] then 0 else TotalChunks(e, docs[..|docs| - 1]) + |Specs(e, docs[|docs| - 1])|
  }

  /** The version of key `x` in a list of documents in which only position `last` is newer. */
  function Versions(keys: seq<Key>, older: Body, newer: Body, last: nat): (r: seq<Document>)
    ensures |r| == |keys|
    ensures forall x :: 0 <= x < |keys| ==> KeyOf(r[x]) == keys[x]
    ensures forall x :: 0 <= x < |keys| ==> r[x].body == if x == last then newer else older
  {
    seq(|keys|, x requires 0 <= x < |keys| =>
      Document(keys[x].source, keys[x].sourceId, if x == last then newer else older, None, 0))
  }

  /** All but position `last` of the first `m` documents. */
  function AllBut(docs: seq<Document>, last: nat, m: nat): seq<Document>
    requires m <= |docs|
  {
    if m == 0 then []
    else if m - 1 == last then AllBut(docs, last, m - 1)
    else AllBut(docs, last, m - 1) + [docs[m - 1]]
  }

  lemma {:induction false} AllButContains(docs: seq<Document>, last: nat, m: nat)
    requires m <= |docs|
    ensures forall i :: 0 <= i < m && i != last ==> docs[i] in AllBut(docs, last, m)
    ensures forall d :: d in AllBut(docs, last, m) ==> exists i :: 0 <= i < m && i != last && docs[i] == d
  {
    if m > 0 {
      AllButContains(docs, last, m - 1);
    }
  }

  /** With the newer version already stored and no flush, everything but that version is queued. */
  lemma {:induction false} QueueWithoutFlush(e: Engine, limit: nat, t: Table, docs: seq<Document>, last: nat, m: nat)
    requires m <= |docs| && last < |docs| && limit > TotalChunks(e, docs)
    requires t == map[KeyOf(docs[last]) := Fresh(e, docs[last])]
    requires Recognisable(e, docs[last])
    requires forall x :: 0 <= x < |docs| && x != last ==> docs[x].body != docs[last].body
    ensures var s := Absorbed(e, limit, t, docs[..m]);
      s.table == t && s.pending == AllBut(docs, last, m) && s.chunks <= TotalChunks(e, docs[..m])
  {
    if m > 0 {
      QueueWithoutFlush(e, limit, t, docs, last, m - 1);
      TotalOfPrefix(e, docs, m);
      PrefixStep(e, limit, t, docs, m);
      AbsorbWithoutFlush(e, limit, Absorbed(e, limit, t, docs[..m - 1]), docs[m - 1]);
      if m - 1 == last {
        LastIsSkipped(e, t, docs[last]);
      }
    }
  }

  lemma PrefixStep(e: Engine, limit: nat, t: Table, docs: seq<Document>, m: nat)
    requires 0 < m <= |docs|
    ensures Absorbed(e, limit, t, docs[..m]) == Absorb(e, limit, Absorbed(e, limit, t, docs[..m - 1]), docs[m - 1])
    ensures TotalChunks(e, docs[..m]) == TotalChunks(e, docs[..m - 1]) + |Specs(e, docs[m - 1])|
  {
    assert docs[..m][..m - 1] == docs[..m - 1];
  }

  lemma AbsorbWithoutFlush(e: Engine, limit: nat, s: State, d: Document)
    requires s.chunks + |Specs(e, d)| < limit
    ensures Absorb(e, limit, s, d) == Take(e, s, d)
  {
  }

  /** A row just written for a recognisable document is not written again. */
  lemma LastIsSkipped(e: Engine, t: Table, d: Document)
    requires t == map[KeyOf(d) := Fresh(e, d)] && Recognisable(e, d)
    ensures !NeedsStructuredUpdate(t, d) && RefreshTimestamp(t, d) == t
  {
    assert FreshChunks(e, d)[0].structured;
  }

  /** One iteration queues a stale document, or flushes when the chunks reach the threshold. */
  lemma AbsorbAtThreshold(e: Engine, limit: nat, s: State, d: Document)
    requires s.chunks == TotalChunks(e, s.pending) < limit
    ensures var s' := Absorb(e, limit, s, d);
      && s'.chunks == TotalChunks(e, s'.pending) < limit
      && (NeedsStructuredUpdate(s.table, d) ==>
            if TotalChunks(e, s.pending + [d]) < limit then s'.pending == s.pending + [d] && s'.table == s.table
            else s'.pending == [])
  {
    assert (s.pending + [d])[..|s.pending|] == s.pending;
  }

  lemma {:induction false} QueueIsCounted(e: Engine, limit: nat, t: Table, docs: seq<Document>)
    requires limit > 0
    ensures var s := Absorbed(e, limit, t, docs); s.chunks == TotalChunks(e, s.pending) < limit
  {
    if docs != [] {
      QueueIsCounted(e, limit, t, docs[..|docs| - 1]);
      AbsorbAtThreshold(e, limit, Absorbed(e, limit, t, docs[..|docs| - 1]), docs[|docs| - 1]);
    }
  }

  /**
    The queue is flushed when its chunks reach the threshold, and not before: fewer than that many
    chunks ever wait between two documents.
    */
  lemma QueueStaysBelow(e: Engine, limit: nat, t: Table, docs: seq<Document>, d: Document)
    requires limit > 0
    ensures var s, s' := Absorbed(e, limit, t, docs), Absorbed(e, limit, t, docs + [d]);
      && TotalChunks(e, s.pending) < limit
      && (NeedsStructuredUpdate(s.table, d) ==>
            if TotalChunks(e, s.pending + [d]) < limit then s'.pending == s.pending + [d] && s'.table == s.table
            else s'.pending == [])
  {
    assert (docs + [d])[..|docs|] == docs;
    QueueIsCounted(e, limit, t, docs);
    AbsorbAtThreshold(e, limit, Absorbed(e, limit, t, docs), d);
  }

  lemma {:induction false} TotalOfPrefix(e: Engine, docs: seq<Document>, m: nat)
    requires m <= |docs|
    ensures TotalChunks(e, docs[..m]) <= TotalChunks(e, docs)
    decreases |docs|
  {
    if m < |docs| {
      var front := docs[..|docs| - 1];
      TotalOfPrefix(e, front, m);
      assert front[..m] == docs[..m];
    } else {
      assert docs[..m] == docs;
    }
  }

  lemma {:induction false} CommittedBody(e: Engine, t: Table, queue: seq<Document>, k: Key, body: Body, d: Document)
    requires d in queue && KeyOf(d) == k
    requires forall x :: x in queue && KeyOf(x) == k ==> x.body == body
    ensures k in CommitFresh(e, t, queue) && CommitFresh(e, t, queue)[k].body == body
  {
    var front, z := queue[..|queue| - 1], queue[|queue| - 1];
    assert queue == front + [z];
    if KeyOf(z) == k {
      assert z in queue;
    } else {
      assert d in front;
      CommittedBody(e, t, front, k, body, d);
    }
  }

  lemma {:induction false} SequentialBody(e: Engine, t: Table, docs: seq<Document>, last: nat)
    requires last < |docs|
    requires forall x :: last < x < |docs| ==> KeyOf(docs[x]) != KeyOf(docs[last])
    ensures var t' := Sequential(e, t, docs); KeyOf(docs[last]) in t' && t'[KeyOf(docs[last])].body == docs[last].body
    decreases |docs|
  {
    if last < |docs| - 1 {
      SequentialBody(e, t, docs[..|docs| - 1], last);
    }
  }

  lemma LastOccurrence(keys: seq<Key>, j: nat) returns (last: nat)
    requires j < |keys|
    ensures j <= last < |keys| && keys[last] == keys[j]
    ensures forall x :: last < x < |keys| ==> keys[x] != keys[j]
  {
    last := j;
    for x := j + 1 to |keys|
      invariant j <= last < x && keys[last] == keys[j]
      invariant forall y :: last < y < x ==> keys[y] != keys[j]
    {
      if keys[x] == keys[j] {
        last := x;
      }
    }
  }

  /** A repeated key, the newer version already stored: batching ends with the older one. */
  lemma RepeatDiverges(e: Engine, keys: seq<Key>, i: nat, j: nat, older: Body, newer: Body)
    requires i < j < |keys| && keys[i] == keys[j]
    requires older != newer && newer.content != ""
    requires forall k :: e.chunk(k, newer) != []
    ensures !AlwaysRefines(e, keys)
  {
    var last := LastOccurrence(keys, j);
    var k := keys[last];
    var docs := Versions(keys, older, newer, last);
    var t := map[k := Fresh(e, docs[last])];
    var limit := TotalChunks(e, docs) + 1;
    QueueWithoutFlush(e, limit, t, docs, last, |docs|);
    assert docs[..|docs|] == docs;
    AllButContains(docs, last, |docs|);
    var queue := AllBut(docs, last, |docs|);
    CommittedBody(e, t, queue, k, older, docs[i]);
    assert Batched(e, limit, t, docs)[k].body == older;
    SequentialBody(e, t, docs, last);
    assert Sequential(e, t, docs)[k].body == newer;
    assert KeySeq(docs) == keys;
  }

  /**
    Exactly when batching may be trusted: every run over documents with these keys refines the
    plain loop if and only if no key repeats. (`newer` is any text that yields chunks.)
    */
  lemma RefinesIffNoRepeats(e: Engine, keys: seq<Key>, older: Body, newer: Body)
    requires older != newer && newer.content != ""
    requires forall k :: e.chunk(k, newer) != []
    ensures AlwaysRefines(e, keys) <==> Distinct(keys)
  {
    if Distinct(keys) {
      forall limit: nat, t: Table, docs: seq<Document> | KeySeq(docs) == keys
        ensures Batched(e, limit, t, docs) == Sequential(e, t, docs)
      {
        assert forall x :: 0 <= x < |docs| ==> KeyOf(docs[x]) == keys[x];
        BatchedIsSequential(e, limit, t, docs);
      }
    } else {
      var i, j :| 0 <= i < j < |keys| && keys[i] == keys[j];
      RepeatDiverges(e, keys, i, j, older, newer);
    }
  }
}
