/**
  What one source sync takes from its snapshot, in which batches it ingests it, and what
  several syncs do to each other's records (`sync_source_documents`,
  `sync_configured_sources`, src/main.rs).
  */
module SyncSpec {
  import opened Wrappers
  import opened Documents
  import opened IngestSpec
  import opened IngestLaws

  const U64_MAX: nat := 0xFFFF_FFFF_FFFF_FFFF

  function SaturatingAdd(a: nat, b: nat): nat {
    if a + b <= U64_MAX then a + b else U64_MAX
  }

  /**
    The budget test on a saturating sum agrees with the test on the exact sum, for all u64
    operands, exactly when the budget is below the largest u64.
    */
  lemma SaturatingTestIsExact(max: nat)
    requires max <= U64_MAX
    ensures (forall a: nat, b: nat :: a <= U64_MAX && b <= U64_MAX ==>
               (SaturatingAdd(a, b) > max <==> a + b > max))
      <==> max < U64_MAX
  {
    if max == U64_MAX {
      assert SaturatingAdd(U64_MAX, 1) == U64_MAX;
    }
  }

  datatype SourceConfig = SourceConfig(
    name: string,
    source: Option<string>,
    project: string,
    acl: seq<string>)

  function CanonicalSource(c: SourceConfig): string {
    match c.source
    case Some(s) => s
    case None => c.name
  }

  function WithDefault(m: map<string, string>, key: string, value: string): map<string, string> {
    if key in m then m else m[key := value]
  }

  /** `normalize_documents`, for one document. */
  function Normalize(c: SourceConfig, d: Document): Document {
    var entries := if d.body.metadata.Object? then d.body.metadata.entries else map[];
    var entries := WithDefault(entries, "connector_kind", d.source);
    var entries := WithDefault(entries, "configured_source", c.name);
    d.(source := CanonicalSource(c),
       body := d.body.(project := c.project,
                       acl := if d.body.acl == [] then c.acl else d.body.acl,
                       metadata := Object(entries)))
  }

  /** Normalizing is idempotent: the kind the connector reported is never overwritten. */
  lemma NormalizeIdempotent(c: SourceConfig, d: Document)
    ensures Normalize(c, Normalize(c, d)) == Normalize(c, d)
    ensures KeyOf(Normalize(c, d)) == Key(CanonicalSource(c), d.sourceId)
    ensures Normalize(c, d).body.content == d.body.content
  {
    var n := Normalize(c, d);
    assert "connector_kind" in n.body.metadata.entries;
    assert "configured_source" in n.body.metadata.entries;
  }

  /** Under an object the entry is what was there, or the value given if nothing was. */
  predicate EntryOf(before: Metadata, after: map<string, string>, key: string, value: string) {
    key in after && after[key] == if before.Object? && key in before.entries then before.entries[key] else value
  }

  /**
    What normalizing does to each field: source and project are the configured ones, an own access
    list survives and only an empty one gets the default, the two origin entries are added where they
    are missing, every other entry is kept, and nothing else changes.
    */
  lemma NormalizedFields(c: SourceConfig, d: Document)
    ensures var n := Normalize(c, d);
      && n.source == (if c.source.Some? then c.source.value else c.name) && n.body.project == c.project
      && (d.body.acl != [] ==> n.body.acl == d.body.acl) && (d.body.acl == [] ==> n.body.acl == c.acl)
      && n.body.metadata.Object?
      && EntryOf(d.body.metadata, n.body.metadata.entries, "connector_kind", d.source)
      && EntryOf(d.body.metadata, n.body.metadata.entries, "configured_source", c.name)
      && (forall key :: key !in {"connector_kind", "configured_source"} ==>
            (key in n.body.metadata.entries <==> d.body.metadata.Object? && key in d.body.metadata.entries)
            && (key in n.body.metadata.entries ==> n.body.metadata.entries[key] == d.body.metadata.entries[key]))
      && n.sourceId == d.sourceId && n.observedAt == d.observedAt && n.updatedAt == d.updatedAt
      && n.body.title == d.body.title && n.body.content == d.body.content && n.body.uri == d.body.uri
  {
    assert "connector_kind" != "configured_source" by {
      assert |"connector_kind"| != |"configured_source"|;
    }
  }

  function NormalizeAll(c: SourceConfig, docs: seq<Document>): (r: seq<Document>)
    ensures |r| == |docs|
  {
    seq(|docs|, i requires 0 <= i < |docs| => Normalize(c, docs[i]))
  }

  function SourceIds(docs: seq<Document>): (r: seq<string>)
    ensures |r| == |docs|
  {
    seq(|docs|, i requires 0 <= i < |docs| => docs[i].sourceId)
  }

  function IdSet(docs: seq<Document>): set<string> {
    set d | d in docs :: d.sourceId
  }

  lemma NormalizedScope(c: SourceConfig, docs: seq<Document>)
    ensures OfProject(NormalizeAll(c, docs), c.project)
    ensures IdSet(NormalizeAll(c, docs)) == IdSet(docs)
    ensures (set id | id in SourceIds(docs)) == IdSet(docs)
    ensures Keys(NormalizeAll(c, docs)) == set id | id in IdSet(docs) :: Key(CanonicalSource(c), id)
  {
    var all := NormalizeAll(c, docs);
    forall d | d in docs ensures Normalize(c, d) in all {
      var i :| 0 <= i < |docs| && docs[i] == d;
      assert all[i] == Normalize(c, d);
    }
    forall n | n in all ensures exists d :: d in docs && n == Normalize(c, d) {
      var i :| 0 <= i < |all| && all[i] == n;
      assert docs[i] in docs;
    }
    forall id | id in IdSet(docs) ensures id in IdSet(all) && Key(CanonicalSource(c), id) in Keys(all) {
      var d :| d in docs && d.sourceId == id;
      assert Normalize(c, d) in all;
    }
    forall id | id in IdSet(docs) ensures id in SourceIds(docs) {
      var d :| d in docs && d.sourceId == id;
      var i :| 0 <= i < |docs| && docs[i] == d;
      assert SourceIds(docs)[i] == id;
    }
  }

  // ---------------------------------------------------------------------------------------
  // Budgets
  // ---------------------------------------------------------------------------------------

  datatype Limits = Limits(maxDocuments: nat, maxBytes: nat, batchSize: nat, concurrency: nat)

  /** What `SourceLimits::resolve` accepts. */
  predicate Positive(l: Limits) {
    l.maxDocuments > 0 && 0 < l.maxBytes <= U64_MAX && l.batchSize > 0 && l.concurrency > 0
  }

  function ByteLength(d: Document): nat {
    if |d.body.content| <= U64_MAX then |d.body.content| else U64_MAX
  }

  /** The exact content size of a list of documents. */
  function TotalBytes(docs: seq<Document>): nat {
    if docs == [] then 0 else TotalBytes(docs[..|docs| - 1]) + ByteLength(docs[|docs| - 1])
  }

  /** The largest u64 stands for no byte budget. */
  predicate BytesFit(total: nat, l: Limits) {
    l.maxBytes == U64_MAX || total <= l.maxBytes
  }

  predicate WithinBudgets(docs: seq<Document>, l: Limits) {
    |docs| <= l.maxDocuments && BytesFit(TotalBytes(docs), l)
  }

  function Saturated(total: nat): nat {
    if total <= U64_MAX then total else U64_MAX
  }

  datatype Item = Entry(document: Document) | Unreadable

  function Entries(items: seq<Item>): seq<Document> {
    if items == [] then []
    else
      var front := Entries(items[..|items| - 1]);
      var last := items[|items| - 1];
      if last.Entry? then front + [last.document] else front
  }

  ghost predicate AllReadable(items: seq<Item>) {
    forall i :: 0 <= i < |items| ==> items[i].Entry?
  }

  /** A reconciling run takes all items or fails. */
  ghost predicate TakesWhole(items: seq<Item>, l: Limits, taken: seq<Document>) {
    AllReadable(items) && taken == Entries(items) && WithinBudgets(taken, l)
  }

  /** A bounded run takes the longest prefix that fits; the item that ends it must be readable. */
  ghost predicate TakesLongestPrefix(items: seq<Item>, l: Limits, taken: seq<Document>) {
    && |taken| <= |items|
    && AllReadable(items[..|taken|])
    && taken == Entries(items[..|taken|])
    && WithinBudgets(taken, l)
    && (|taken| < |items| ==> items[|taken|].Entry? && !WithinBudgets(taken + [items[|taken|].document], l))
  }

  lemma {:induction false} EntriesOfReadable(items: seq<Item>)
    requires AllReadable(items)
    ensures |Entries(items)| == |items|
    ensures forall i :: 0 <= i < |items| ==> Entries(items)[i] == items[i].document
  {
    if items != [] {
      EntriesOfReadable(items[..|items| - 1]);
    }
  }

  // ---------------------------------------------------------------------------------------
  // Ingesting a snapshot in batches
  // ---------------------------------------------------------------------------------------

  datatype Blocks = Blocks(table: Table, batch: seq<Document>)

  function PushBlock(e: Engine, limit: nat, size: nat, s: Blocks, d: Document): Blocks {
    var batch := s.batch + [d];
    if |batch| >= size then Blocks(Batched(e, limit, s.table, batch), []) else Blocks(s.table, batch)
  }

  function Pushed(e: Engine, limit: nat, size: nat, t: Table, docs: seq<Document>): Blocks {
    if docs == [] then Blocks(t, [])
    else PushBlock(e, limit, size, Pushed(e, limit, size, t, docs[..|docs| - 1]), docs[|docs| - 1])
  }

  /** The table after all batches; an empty last batch is not ingested. */
  function InBatches(e: Engine, limit: nat, size: nat, t: Table, docs: seq<Document>): Table {
    var s := Pushed(e, limit, size, t, docs);
    if s.batch == [] then s.table else Batched(e, limit, s.table, s.batch)
  }

  /** A batch is ingested when it is full, and not before; so no batch is longer than its size. */
  lemma {:induction false} BatchesAreFull(e: Engine, limit: nat, size: nat, t: Table, docs: seq<Document>, d: Document)
    requires size > 0
    ensures var s, s' := Pushed(e, limit, size, t, docs), Pushed(e, limit, size, t, docs + [d]);
      && |s.batch| < size
      && (|s.batch| + 1 < size ==> s' == Blocks(s.table, s.batch + [d]))
      && (|s.batch| + 1 == size ==> s' == Blocks(Batched(e, limit, s.table, s.batch + [d]), []))
    decreases |docs|
  {
    assert (docs + [d])[..|docs|] == docs;
    if docs != [] {
      var front, last := docs[..|docs| - 1], docs[|docs| - 1];
      BatchesAreFull(e, limit, size, t, front, last);
      assert docs == front + [last];
    }
  }

  lemma {:induction false} SequentialConcat(e: Engine, t: Table, a: seq<Document>, b: seq<Document>)
    ensures Sequential(e, t, a + b) == Sequential(e, Sequential(e, t, a), b)
  {
    if b == [] {
      assert a + b == a;
    } else {
      var front := b[..|b| - 1];
      SequentialConcat(e, t, a, front);
      assert (a + b)[..|a + b| - 1] == a + front;
    }
  }

  /** The batch is the unfinished end of the documents; the rest is ingested. */
  ghost predicate Split(s: Blocks, docs: seq<Document>, done: seq<Document>) {
    docs == done + s.batch
  }

  lemma {:induction false} PushedIsSequential(e: Engine, limit: nat, size: nat, t: Table, docs: seq<Document>)
    returns (done: seq<Document>)
    requires DistinctKeys(docs)
    ensures var s := Pushed(e, limit, size, t, docs); Split(s, docs, done) && s.table == Sequential(e, t, done)
  {
    done := [];
    if docs != [] {
      var front, d := docs[..|docs| - 1], docs[|docs| - 1];
      assert docs == front + [d];
      SuffixDistinct(front, [d]);
      var before := PushedIsSequential(e, limit, size, t, front);
      var s := Pushed(e, limit, size, t, front);
      LastOfSplit(docs, front, before, s.batch, d);
      done := PushStep(e, limit, size, t, s, before, d);
    }
  }

  lemma LastOfSplit(docs: seq<Document>, front: seq<Document>, before: seq<Document>, batch: seq<Document>, d: Document)
    requires docs == front + [d] && front == before + batch
    ensures docs == before + (batch + [d])
  {
  }

  lemma PushStep(e: Engine, limit: nat, size: nat, t: Table, s: Blocks, before: seq<Document>, d: Document)
    returns (done: seq<Document>)
    requires s.table == Sequential(e, t, before) && DistinctKeys(before + (s.batch + [d]))
    ensures var s' := PushBlock(e, limit, size, s, d);
      Split(s', before + (s.batch + [d]), done) && s'.table == Sequential(e, t, done)
  {
    var batch := s.batch + [d];
    done := before;
    if |batch| >= size {
      FlushIsSequential(e, limit, t, before, batch);
      done := before + batch;
    }
  }

  /** Ingesting one more batch after a sequential run. */
  lemma FlushIsSequential(e: Engine, limit: nat, t: Table, done: seq<Document>, batch: seq<Document>)
    requires DistinctKeys(done + batch)
    ensures Batched(e, limit, Sequential(e, t, done), batch) == Sequential(e, t, done + batch)
  {
    SuffixDistinct(done, batch);
    BatchedIsSequential(e, limit, Sequential(e, t, done), batch);
    SequentialConcat(e, t, done, batch);
  }

  lemma SuffixDistinct(a: seq<Document>, b: seq<Document>)
    requires DistinctKeys(a + b)
    ensures DistinctKeys(a) && DistinctKeys(b)
  {
    assert forall i :: 0 <= i < |b| ==> b[i] == (a + b)[|a| + i];
    assert forall i :: 0 <= i < |a| ==> a[i] == (a + b)[i];
  }

  /** For distinct keys, neither the batch size nor the flush threshold can be observed. */
  lemma InBatchesIsSequential(e: Engine, limit: nat, size: nat, t: Table, docs: seq<Document>)
    requires DistinctKeys(docs)
    ensures InBatches(e, limit, size, t, docs) == Sequential(e, t, docs)
  {
    var done := PushedIsSequential(e, limit, size, t, docs);
    FlushIsSequential(e, limit, t, done, Pushed(e, limit, size, t, docs).batch);
  }

  // ---------------------------------------------------------------------------------------
  // What a snapshot run leaves behind, complete or not
  // ---------------------------------------------------------------------------------------

  lemma KeptThenKept(t: Table, t1: Table, t2: Table, a: seq<Document>, b: seq<Document>, project: string)
    requires Kept(t, t1, a, project) && Kept(t1, t2, b, project)
    ensures Kept(t, t2, a + b, project)
  {
    assert Keys(a + b) == Keys(a) + Keys(b);
    forall k | k in t2 ensures Lookup(t2, k) == Lookup(t, k) || t2[k].body.project == project {
      if Lookup(t2, k) == Lookup(t1, k) {
        assert k in t1 && Lookup(t1, k) == Some(t1[k]) && Lookup(t2, k) == Some(t2[k]);
      }
    }
  }

  lemma LoadedThenLoaded(t: Table, t1: Table, t2: Table, a: seq<Document>, b: seq<Document>, project: string)
    requires Loaded(t, t1, a, project) && Loaded(t1, t2, b, project)
    ensures Loaded(t, t2, a + b, project)
  {
    KeptThenKept(t, t1, t2, a, b, project);
    forall d | d in a + b ensures StoredIn(t2, d, project) {
      if d in a {
        assert StoredIn(t1, d, project) && KeyOf(d) in t2;
        assert Lookup(t2, KeyOf(d)) == Some(t2[KeyOf(d)]) && Lookup(t1, KeyOf(d)) == Some(t1[KeyOf(d)]);
      }
    }
  }

  lemma {:induction false} PushedLoads(e: Engine, limit: nat, size: nat, t: Table, docs: seq<Document>, project: string)
    returns (done: seq<Document>)
    requires OfProject(docs, project)
    ensures var s := Pushed(e, limit, size, t, docs); Split(s, docs, done) && Loaded(t, s.table, done, project)
  {
    done := [];
    if docs != [] {
      var front, d := docs[..|docs| - 1], docs[|docs| - 1];
      assert docs == front + [d];
      assert OfProject(front, project);
      done := PushedLoads(e, limit, size, t, front, project);
      var s := Pushed(e, limit, size, t, front);
      var batch := s.batch + [d];
      assert docs == done + batch;
      if |batch| >= size {
        assert OfProject(batch, project) by {
          assert forall x :: x in batch ==> x in docs;
        }
        BatchedLoads(e, limit, s.table, batch, project);
        LoadedThenLoaded(t, s.table, Batched(e, limit, s.table, batch), done, batch, project);
        done := docs;
      }
    }
  }

  /** A complete snapshot run stores every document, repeated keys or not, and deletes nothing. */
  lemma InBatchesLoads(e: Engine, limit: nat, size: nat, t: Table, docs: seq<Document>, project: string)
    requires OfProject(docs, project)
    ensures Loaded(t, InBatches(e, limit, size, t, docs), docs, project)
  {
    var done := PushedLoads(e, limit, size, t, docs, project);
    var s := Pushed(e, limit, size, t, docs);
    if s.batch == [] {
      assert docs == done;
    } else {
      assert OfProject(s.batch, project) by {
        assert forall x :: x in s.batch ==> x in docs;
      }
      BatchedLoads(e, limit, s.table, s.batch, project);
      LoadedThenLoaded(t, s.table, InBatches(e, limit, size, t, docs), done, s.batch, project);
    }
  }

  /** The batch being ingested or collected after `n` documents, with their successor if `more`. */
  function CutBatch(s: Blocks, docs: seq<Document>, n: nat, more: bool): seq<Document>
    requires n <= |docs|
  {
    if more && n < |docs| then s.batch + [docs[n]] else s.batch
  }

  /** `t'` is what a snapshot run can leave that stopped in or before that batch. */
  ghost predicate CutShort(e: Engine, limit: nat, size: nat, t: Table, docs: seq<Document>,
                           n: nat, more: bool, t': Table) {
    n <= |docs|
    && var s := Pushed(e, limit, size, t, docs[..n]);
       Interrupted(e, limit, s.table, CutBatch(s, docs, n, more), t')
  }

  /** A run stopped before its first document has changed nothing. */
  lemma NothingDone(e: Engine, limit: nat, t: Table, docs: seq<Document>)
    ensures Interrupted(e, limit, t, docs, t)
  {
    assert StoppedAt(e, limit, t, docs, 0, false, 0, t);
  }

  /** Length of the prefix of documents a cut-short run may have touched. */
  function Reached(docs: seq<Document>, n: nat, more: bool): nat {
    if more && n < |docs| then n + 1 else n
  }

  lemma CutLayout(s: Blocks, docs: seq<Document>, n: nat, more: bool, done: seq<Document>)
    requires n <= |docs| && Split(s, docs[..n], done)
    ensures done + CutBatch(s, docs, n, more) == docs[..Reached(docs, n, more)]
  {
  }

  lemma CutShortKeeps(e: Engine, limit: nat, size: nat, t: Table, docs: seq<Document>,
                      n: nat, more: bool, t': Table, project: string)
    requires OfProject(docs, project) && CutShort(e, limit, size, t, docs, n, more, t')
    ensures Kept(t, t', docs, project)
  {
    assert OfProject(docs[..n], project);
    var done := PushedLoads(e, limit, size, t, docs[..n], project);
    var s := Pushed(e, limit, size, t, docs[..n]);
    var batch := CutBatch(s, docs, n, more);
    CutLayout(s, docs, n, more, done);
    var reached := docs[..Reached(docs, n, more)];
    assert OfProject(batch, project) by {
      forall x | x in batch ensures x.body.project == project {
        assert x in done + batch && x in docs;
      }
    }
    InterruptedKeeps(e, limit, s.table, batch, t', project);
    KeptThenKept(t, s.table, t', done, batch, project);
    assert Keys(reached) <= Keys(docs);
  }

  /** Resume across batches: a cut-short snapshot run, run again, ends like an uninterrupted one. */
  lemma ResumeSnapshot(e: Engine, limit: nat, size: nat, limit': nat, size': nat,
                       t: Table, docs: seq<Document>, n: nat, more: bool, t': Table)
    requires DistinctKeys(docs) && CutShort(e, limit, size, t, docs, n, more, t')
    ensures InBatches(e, limit', size', t', docs) == InBatches(e, limit, size, t, docs)
  {
    CutShortIsBetween(e, limit, size, t, docs, n, more, t');
    BetweenSettlesAlike(e, t, t', docs);
    InBatchesIsSequential(e, limit', size', t', docs);
    InBatchesIsSequential(e, limit, size, t, docs);
  }

  lemma CutShortIsBetween(e: Engine, limit: nat, size: nat, t: Table, docs: seq<Document>,
                          n: nat, more: bool, t': Table)
    requires DistinctKeys(docs) && CutShort(e, limit, size, t, docs, n, more, t')
    ensures Between(e, t, t', docs)
  {
    var done := PushedIsSequential(e, limit, size, t, docs[..n]);
    var s := Pushed(e, limit, size, t, docs[..n]);
    var batch := CutBatch(s, docs, n, more);
    CutLayout(s, docs, n, more, done);
    SuffixDistinct(done, batch);
    SequentialSettles(e, t, done);
    InterruptedIsBetween(e, limit, s.table, batch, t');
    ComposeBetween(e, t, s.table, t', done, batch);
    WidenBetween(e, t, t', done + batch, docs);
  }

  lemma ComposeBetween(e: Engine, t: Table, t1: Table, t2: Table, done: seq<Document>, batch: seq<Document>)
    requires AllSettled(e, t, t1, done) && Between(e, t1, t2, batch) && DistinctKeys(done + batch)
    ensures Between(e, t, t2, done + batch)
  {
    assert Keys(done + batch) == Keys(done) + Keys(batch);
    forall x, y | x in done && y in batch ensures KeyOf(x) != KeyOf(y) {
      var i :| 0 <= i < |done| && done[i] == x;
      var j :| 0 <= j < |batch| && batch[j] == y;
      assert (done + batch)[i] == x && (done + batch)[|done| + j] == y;
    }
    assert Keys(done) !! Keys(batch);
  }

  lemma WidenBetween(e: Engine, t: Table, t': Table, part: seq<Document>, docs: seq<Document>)
    requires DistinctKeys(docs) && part <= docs && Between(e, t, t', part)
    ensures Between(e, t, t', docs)
  {
    assert forall x :: x in part ==> x in docs;
    assert Keys(part) <= Keys(docs);
    forall d | d in docs && d !in part ensures KeyOf(d) !in Keys(part) {
      OtherKeys(docs, part, d);
    }
  }

  /** `t'` is a table a snapshot run over `docs` may leave when it fails. */
  ghost predicate SnapshotCut(e: Engine, limit: nat, size: nat, t: Table, docs: seq<Document>, t': Table) {
    exists n: nat, more: bool :: CutShort(e, limit, size, t, docs, n, more, t')
  }

  // ---------------------------------------------------------------------------------------
  // Mirrors, and what later syncs do to them
  // ---------------------------------------------------------------------------------------

  /** Only rows of source `c` change: offered ids, and rows that were in the project. What is written is in the project. */
  ghost predicate Confined(t: Table, t': Table, c: string, p: string, ids: set<string>) {
    forall k :: Lookup(t', k) != Lookup(t, k) ==>
      && k.source == c
      && (k.sourceId in ids || (k in t && t[k].body.project == p))
      && (k in t' ==> t'[k].body.project == p && k.sourceId in ids)
  }

  /** The effect of one successful reconciling sync: an exact mirror of the snapshot. */
  ghost predicate Mirrored(t: Table, t': Table, c: string, p: string, ids: set<string>) {
    Confined(t, t', c, p, ids) && Ids(t', c, p) == ids
  }

  lemma KeptIsConfined(t: Table, t': Table, cfg: SourceConfig, docs: seq<Document>)
    requires Kept(t, t', NormalizeAll(cfg, docs), cfg.project)
    ensures Confined(t, t', CanonicalSource(cfg), cfg.project, IdSet(docs))
  {
    NormalizedScope(cfg, docs);
    forall k | Lookup(t', k) != Lookup(t, k)
      ensures k.source == CanonicalSource(cfg) && k.sourceId in IdSet(docs)
      ensures k in t' && t'[k].body.project == cfg.project
    {
      assert k in Keys(NormalizeAll(cfg, docs));
    }
  }

  /** Reconciling after a completed snapshot run gives an exact mirror. */
  lemma ReconcileMirrors(t: Table, t': Table, cfg: SourceConfig, docs: seq<Document>)
    requires Loaded(t, t', NormalizeAll(cfg, docs), cfg.project)
    ensures Mirrored(t, Reconcile(t', CanonicalSource(cfg), cfg.project, IdSet(docs)),
                     CanonicalSource(cfg), cfg.project, IdSet(docs))
  {
    var c, p, ids := CanonicalSource(cfg), cfg.project, IdSet(docs);
    var t'' := Reconcile(t', c, p, ids);
    KeptIsConfined(t, t', cfg, docs);
    NormalizedScope(cfg, docs);
    forall k | Lookup(t'', k) != Lookup(t, k)
      ensures k.source == c && (k.sourceId in ids || (k in t && t[k].body.project == p))
      ensures k in t'' ==> t''[k].body.project == p && k.sourceId in ids
    {
      if Lookup(t', k) == Lookup(t, k) {
        assert k in t' && k in t && t[k] == t'[k];
      }
    }
    forall id | id in ids ensures id in Ids(t'', c, p) {
      assert Key(c, id) in Keys(NormalizeAll(cfg, docs));
      var d :| d in NormalizeAll(cfg, docs) && KeyOf(d) == Key(c, id);
      assert StoredIn(t', d, p);
      assert Key(c, id) in t'' && InScope(t'', Key(c, id), c, p);
    }
    forall id | id in Ids(t'', c, p) ensures id in ids {
      var k :| k in t'' && InScope(t'', k, c, p) && k.sourceId == id;
    }
  }

  /** The index after a successful reconciling sync of a whole snapshot. */
  function AfterReconcile(e: Engine, limit: nat, size: nat, t: Table, cfg: SourceConfig, docs: seq<Document>): Table {
    Reconcile(InBatches(e, limit, size, t, NormalizeAll(cfg, docs)), CanonicalSource(cfg), cfg.project, IdSet(docs))
  }

  ghost predicate DistinctIds(docs: seq<Document>) {
    forall i, j :: 0 <= i < j < |docs| ==> docs[i].sourceId != docs[j].sourceId
  }

  /**
    For distinct ids and a coherent index, such a sync leaves in its scope exactly the normalized
    documents of the snapshot, each with its own chunks and vectors.
    */
  lemma MirrorHoldsDocuments(e: Engine, limit: nat, size: nat, t: Table, cfg: SourceConfig, docs: seq<Document>)
    requires DistinctIds(docs) && Coherent(e, t)
    ensures var t' := AfterReconcile(e, limit, size, t, cfg, docs);
      && Coherent(e, t')
      && (forall d :: d in docs ==> HoldsDocument(e, t', Normalize(cfg, d)))
      && (forall k :: k in t' && InScope(t', k, CanonicalSource(cfg), cfg.project) ==>
            exists d :: d in docs && k == KeyOf(Normalize(cfg, d)))
  {
    var all, c := NormalizeAll(cfg, docs), CanonicalSource(cfg);
    assert DistinctKeys(all);
    InBatchesIsSequential(e, limit, size, t, all);
    BatchedIsSequential(e, limit, t, all);
    CompletedRunHoldsDocuments(e, limit, t, all);
    var t1 := InBatches(e, limit, size, t, all);
    var t' := AfterReconcile(e, limit, size, t, cfg, docs);
    forall d | d in docs ensures HoldsDocument(e, t', Normalize(cfg, d)) {
      var i :| 0 <= i < |docs| && docs[i] == d;
      assert all[i] == Normalize(cfg, d) && all[i] in all;
      assert d.sourceId in IdSet(docs);
    }
    forall k | k in t' && InScope(t', k, c, cfg.project) ensures exists d :: d in docs && k == KeyOf(Normalize(cfg, d)) {
      assert k.sourceId in IdSet(docs);
      var d :| d in docs && d.sourceId == k.sourceId;
      assert k == KeyOf(Normalize(cfg, d));
    }
  }

  /** A sync of another source, or of another project with other ids, keeps a mirror intact. */
  ghost predicate Apart(c1: string, p1: string, ids1: set<string>, c2: string, p2: string, ids2: set<string>) {
    c1 != c2 || (p1 != p2 && ids1 !! ids2)
  }

  lemma ConfinedKeepsMirror(t: Table, t': Table, c1: string, p1: string, c2: string, p2: string, ids2: set<string>)
    requires Confined(t, t', c2, p2, ids2)
    requires Apart(c1, p1, Ids(t, c1, p1), c2, p2, ids2)
    ensures Ids(t', c1, p1) == Ids(t, c1, p1)
  {
    forall id | id in Ids(t, c1, p1) ensures id in Ids(t', c1, p1) {
      var k :| k in t && InScope(t, k, c1, p1) && k.sourceId == id;
      assert Lookup(t', k) == Lookup(t, k);
      assert k in t' && InScope(t', k, c1, p1);
    }
    forall id | id in Ids(t', c1, p1) ensures id in Ids(t, c1, p1) {
      var k :| k in t' && InScope(t', k, c1, p1) && k.sourceId == id;
      assert Lookup(t', k) == Lookup(t, k);
      assert k in t && InScope(t, k, c1, p1);
    }
  }

  /**
    Rows are keyed by source and id alone, so distinct (source, project) pairs are not enough:
    a mirror survives a second successful sync exactly when the source differs, or the project
    differs and no id is shared, or the very same scope is synced with the same ids.
    */
  lemma MirrorSurvivesIff(t0: Table, t1: Table, t2: Table,
                          c1: string, p1: string, ids1: set<string>, c2: string, p2: string, ids2: set<string>)
    requires Mirrored(t0, t1, c1, p1, ids1) && Mirrored(t1, t2, c2, p2, ids2)
    ensures Ids(t2, c1, p1) == ids1
      <==> Apart(c1, p1, ids1, c2, p2, ids2) || (c1 == c2 && p1 == p2 && ids1 == ids2)
  {
    if Apart(c1, p1, ids1, c2, p2, ids2) {
      ConfinedKeepsMirror(t1, t2, c1, p1, c2, p2, ids2);
    } else if p1 != p2 {
      var id :| id in ids1 && id in ids2;
      assert id in Ids(t2, c2, p2);
      var k :| k in t2 && InScope(t2, k, c2, p2) && k.sourceId == id;
      assert id !in Ids(t2, c1, p1) by {
        forall k' | k' in t2 && k'.sourceId == id && k'.source == c1 ensures k' == k {
        }
      }
    }
  }
}
