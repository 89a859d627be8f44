/** Source syncs as the program runs them (src/main.rs). */
module Sync {
  import opened Wrappers
  import opened Documents
  import opened Store
  import opened Flush
  import opened IngestSpec
  import opened IngestLaws
  import opened SyncSpec
  import Ingest

  datatype SyncError =
    | Ingestion(error: IngestError)
    | SourceUnreadable
    | PlanRejected
    | OverDocuments
    | OverBytes
    | InvalidRecord
    | SpoolTooLarge
    | ConnectorFailed

  datatype Scope = Scope(seen: seq<string>, documents: nat, bytes: nat)

  function Threshold(l: Limits): nat {
    REQUEST_SIZE * l.concurrency
  }

  /** The budget decision for the next document. */
  datatype Decision = Accept(bytes: nat) | Enough | Refuse(error: SyncError)

  /** `seen` documents with saturated size `bytes` are taken; the next has `length` bytes. */
  function Decide(seen: nat, bytes: nat, length: nat, l: Limits, reconcile: bool): Decision {
    var total := SaturatingAdd(bytes, length);
    if reconcile then
      if seen >= l.maxDocuments then Refuse(OverDocuments)
      else if total > l.maxBytes then Refuse(OverBytes)
      else Accept(total)
    else if seen >= l.maxDocuments || total > l.maxBytes then Enough
    else Accept(total)
  }

  /** A document is accepted exactly when it still fits; only a reconciling run fails otherwise. */
  lemma DecisionIsExact(taken: seq<Document>, d: Document, l: Limits, reconcile: bool)
    requires Positive(l) && WithinBudgets(taken, l)
    ensures var decision := Decide(|taken|, Saturated(TotalBytes(taken)), ByteLength(d), l, reconcile);
      && (decision.Accept? <==> WithinBudgets(taken + [d], l))
      && (decision.Accept? ==> decision.bytes == Saturated(TotalBytes(taken + [d])))
      && (decision.Refuse? ==> reconcile)
      && (decision.Enough? ==> !reconcile)
      && (decision == Refuse(OverDocuments) ==> |taken| >= l.maxDocuments)
      && (decision.Refuse? && decision.error != OverDocuments ==>
            decision.error == OverBytes && !BytesFit(TotalBytes(taken + [d]), l))
  {
    assert (taken + [d])[..|taken|] == taken;
    SaturatedStep(TotalBytes(taken), ByteLength(d), l);
  }

  lemma SaturatedStep(total: nat, b: nat, l: Limits)
    requires Positive(l)
    ensures SaturatingAdd(Saturated(total), b) == Saturated(total + b)
    ensures Saturated(total + b) <= l.maxBytes <==> BytesFit(total + b, l)
  {
  }

  lemma NormalizeAllStep(cfg: SourceConfig, taken: seq<Document>, d: Document)
    ensures NormalizeAll(cfg, taken + [d]) == NormalizeAll(cfg, taken) + [Normalize(cfg, d)]
    ensures SourceIds(taken + [d]) == SourceIds(taken) + [d.sourceId]
  {
  }

  lemma TotalBytesStep(taken: seq<Document>, d: Document)
    ensures TotalBytes(taken + [d]) == TotalBytes(taken) + ByteLength(d)
  {
    assert (taken + [d])[..|taken|] == taken;
  }

  /** One line of a connector spool. */
  datatype Line = Blank | Garbled | Broken | Record(document: Document)

  function Records(lines: seq<Line>): seq<Document> {
    if lines == [] then []
    else
      var front := Records(lines[..|lines| - 1]);
      var last := lines[|lines| - 1];
      if last.Record? then front + [last.document] else front
  }

  ghost predicate Clean(lines: seq<Line>) {
    forall i :: 0 <= i < |lines| ==> lines[i].Blank? || lines[i].Record?
  }

  lemma RecordsStep(lines: seq<Line>, i: nat)
    requires i < |lines|
    ensures Records(lines[..i + 1])
      == if lines[i].Record? then Records(lines[..i]) + [lines[i].document] else Records(lines[..i])
  {
    assert lines[..i + 1][..i] == lines[..i];
  }

  lemma {:induction false} RecordsArePrefix(lines: seq<Line>, i: nat)
    requires i <= |lines|
    ensures Records(lines[..i]) <= Records(lines)
    decreases |lines|
  {
    if i < |lines| {
      var front := lines[..|lines| - 1];
      RecordsArePrefix(front, i);
      assert front[..i] == lines[..i];
    } else {
      assert lines[..i] == lines;
    }
  }

  datatype Step = Went(bytes: nat) | Halt | Fail(error: SyncError)

  /** The worker state shared by the two snapshot loops. */
  class SnapshotRun {
    const store: DocumentStore
    const control: Control
    const provider: Ingest.Provider
    const config: SourceConfig
    const limits: Limits
    /** The collected batch and the ids seen, as the loops keep them. */
    var batch: seq<Document>
    var seen: seq<string>
    /** The documents taken from the snapshot, and the table the run started from. */
    ghost var taken: seq<Document>
    ghost var start: Table

    constructor (store: DocumentStore, control: Control, provider: Ingest.Provider,
                 config: SourceConfig, limits: Limits)
      ensures this.store == store && this.control == control && this.provider == provider
      ensures this.config == config && this.limits == limits
      ensures batch == [] && seen == [] && taken == [] && start == store.rows
    {
      this.store, this.control, this.provider := store, control, provider;
      this.config, this.limits := config, limits;
      batch, seen, taken, start := [], [], [], store.rows;
    }

    ghost function Blocks(): Blocks
      reads this
    {
      Pushed(provider.engine, Threshold(limits), limits.batchSize, start, NormalizeAll(config, taken))
    }

    /** Between two documents: everything taken is either ingested or in the batch. */
    ghost predicate Valid()
      reads this, store
    {
      && seen == SourceIds(taken)
      && store.rows == Blocks().table && batch == Blocks().batch
    }

    /** The table is one a failing run over the documents taken so far may leave. */
    ghost predicate Cut()
      reads this, store
    {
      SnapshotCut(provider.engine, Threshold(limits), limits.batchSize, start, NormalizeAll(config, taken), store.rows)
    }

    lemma ValidIsCut()
      requires Valid()
      ensures Cut()
    {
      var docs := NormalizeAll(config, taken);
      var e, limit := provider.engine, Threshold(limits);
      assert docs[..|docs|] == docs;
      NothingDone(e, limit, Blocks().table, CutBatch(Blocks(), docs, |docs|, false));
      assert CutShort(e, limit, limits.batchSize, start, docs, |docs|, false, store.rows);
    }

    /** Take one more document and ingest the batch when it is full. */
    method Push(document: Document) returns (outcome: Outcome)
      requires Valid()
      modifies this, store, control
      ensures taken == old(taken) + [document] && start == old(start)
      ensures outcome == Done ==> Valid()
      ensures outcome != Done ==> Cut()
      ensures outcome == Failed(StoreFault) ==> store.faulted
      ensures outcome != Failed(StoreFault) ==> store.faulted == old(store.faulted)
      ensures provider.reliable && control.stopAt.None? ==> outcome in {Done, Failed(StoreFault)}
    {
      ghost var docs := NormalizeAll(config, taken);
      ghost var s := Blocks();
      NormalizeAllStep(config, taken, document);
      var d := Normalize(config, document);
      taken := taken + [document];
      seen := seen + [document.sourceId];
      var full := batch + [d];
      ghost var docs' := NormalizeAll(config, taken);
      assert docs'[..|docs|] == docs && docs'[|docs|] == d;
      if |full| < limits.batchSize {
        batch := full;
        return Done;
      }
      batch := [];
      var changedCount, unchangedCount;
      outcome, changedCount, unchangedCount :=
        Ingest.IngestDocumentsControlled(store, control, provider, limits.concurrency, full);
      if outcome != Done {
        assert CutBatch(s, docs', |docs|, true) == full;
        assert CutShort(provider.engine, Threshold(limits), limits.batchSize, start, docs', |docs|, true, store.rows);
      }
    }

    /** The first `i` items are taken, they fit, and `bytes` is their saturated size. */
    ghost predicate Taken(items: seq<Item>, i: nat, bytes: nat)
      reads this
    {
      && i <= |items| && |taken| == i
      && AllReadable(items[..i]) && taken == Entries(items[..i])
      && WithinBudgets(taken, limits) && bytes == Saturated(TotalBytes(taken))
    }

    /** One iteration of the filesystem loop. */
    method TakeItem(items: seq<Item>, i: nat, bytes: nat, reconcile: bool) returns (step: Step)
      requires i < |items| && Taken(items, i, bytes) && Valid() && Positive(limits)
      modifies this, store, control
      ensures start == old(start)
      ensures step.Went? ==> Valid() && Taken(items, i + 1, step.bytes)
      ensures step.Halt? ==> !reconcile && Valid() && TakesLongestPrefix(items, limits, taken)
      ensures step.Halt? ==> taken == old(taken)
      ensures step.Fail? ==> Cut() && |taken| <= |items| && taken == Entries(items[..|taken|])
      ensures step == Fail(Ingestion(StoreFault)) ==> store.faulted
      ensures step != Fail(Ingestion(StoreFault)) ==> store.faulted == old(store.faulted)
      ensures step.Fail? && provider.reliable && control.stopAt.None? ==>
        step.error == Ingestion(StoreFault) || !CanTake(items, limits, reconcile)
      ensures step.Fail? ==> ItemsExplain(items, limits, reconcile, step.error)
    {
      ValidIsCut();
      var alive := control.Check();
      if !alive {
        return Fail(Ingestion(Stopped));
      }
      if items[i].Unreadable? {
        UnreadableStops(items, i, limits, reconcile);
        return Fail(SourceUnreadable);
      }
      var document := items[i].document;
      EntriesStep(items, i);
      DecisionIsExact(taken, document, limits, reconcile);
      SourceIdsLength();
      var decision := Decide(|seen|, bytes, ByteLength(document), limits, reconcile);
      if decision.Refuse? {
        RefusalExplained(items, i, limits, decision.error);
        return Fail(decision.error);
      }
      if decision.Enough? {
        return Halt;
      }
      var outcome := Push(document);
      return if outcome == Done then Went(decision.bytes) else Fail(Ingestion(outcome.error));
    }

    /** One iteration of the second pass over a validated connector spool. */
    method TakeLine(lines: seq<Line>, i: nat) returns (outcome: Outcome)
      requires i < |lines| && Clean(lines) && taken == Records(lines[..i]) && Valid()
      modifies this, store, control
      ensures start == old(start)
      ensures outcome == Done ==> Valid() && taken == Records(lines[..i + 1])
      ensures outcome != Done ==> Cut() && taken <= Records(lines)
      ensures outcome == Failed(StoreFault) ==> store.faulted
      ensures outcome != Failed(StoreFault) ==> store.faulted == old(store.faulted)
      ensures provider.reliable && control.stopAt.None? ==> outcome in {Done, Failed(StoreFault)}
    {
      ValidIsCut();
      RecordsArePrefix(lines, i);
      RecordsArePrefix(lines, i + 1);
      RecordsStep(lines, i);
      var alive := control.Check();
      if !alive {
        return Failed(Stopped);
      }
      if lines[i].Blank? {
        return Done;
      }
      outcome := Push(lines[i].document);
    }

    lemma SourceIdsLength()
      requires Valid()
      ensures |seen| == |taken|
    {
    }

    /** Ingest what is left in the batch. */
    method Finish() returns (outcome: Outcome)
      requires Valid()
      modifies this, store, control
      ensures taken == old(taken) && start == old(start) && seen == old(seen)
      ensures outcome == Done ==>
        store.rows == InBatches(provider.engine, Threshold(limits), limits.batchSize, start, NormalizeAll(config, taken))
      ensures outcome != Done ==> Cut()
      ensures outcome == Failed(StoreFault) ==> store.faulted
      ensures outcome != Failed(StoreFault) ==> store.faulted == old(store.faulted)
      ensures provider.reliable && control.stopAt.None? ==> outcome in {Done, Failed(StoreFault)}
    {
      if batch == [] {
        return Done;
      }
      ghost var docs := NormalizeAll(config, taken);
      assert docs[..|docs|] == docs;
      var rest := batch;
      var changedCount, unchangedCount;
      outcome, changedCount, unchangedCount :=
        Ingest.IngestDocumentsControlled(store, control, provider, limits.concurrency, rest);
      if outcome != Done {
        assert CutShort(provider.engine, Threshold(limits), limits.batchSize, start, docs, |docs|, false, store.rows);
      }
    }
  }

  /**
    The filesystem branch. A reconciling run takes every item within both budgets or fails; a
    bounded one takes the longest prefix that fits. What is taken is ingested in order, batch by
    batch, and listed in `seen`.
    */
  method SyncFilesystem(store: DocumentStore, control: Control, provider: Ingest.Provider,
                        config: SourceConfig, limits: Limits, planned: bool, items: seq<Item>, reconcile: bool)
    returns (r: Result<Scope, SyncError>, ghost taken: seq<Document>)
    requires Positive(limits)
    modifies store, control
    ensures r.Ok? ==> if reconcile then TakesWhole(items, limits, taken) else TakesLongestPrefix(items, limits, taken)
    ensures r.Ok? ==> r.value == Scope(SourceIds(taken), |taken|, Saturated(TotalBytes(taken)))
    ensures r.Ok? ==>
      store.rows
        == InBatches(provider.engine, Threshold(limits), limits.batchSize, old(store.rows), NormalizeAll(config, taken))
    ensures r.Err? ==> |taken| <= |items| && taken == Entries(items[..|taken|])
    ensures r.Err? ==> SnapshotCut(provider.engine, Threshold(limits), limits.batchSize, old(store.rows),
                                   NormalizeAll(config, taken), store.rows)
    ensures r == Err(Ingestion(StoreFault)) ==> store.faulted
    ensures r != Err(Ingestion(StoreFault)) ==> store.faulted == old(store.faulted)
    ensures r.Ok? ==> planned
    ensures r.Err? ==> (r == Err(PlanRejected) && !planned) || ItemsExplain(items, limits, reconcile, r.error)
    ensures planned && provider.reliable && control.stopAt.None? && CanTake(items, limits, reconcile) ==>
      r.Ok? || r == Err(Ingestion(StoreFault))
  {
    var run := new SnapshotRun(store, control, provider, config, limits);
    taken := [];
    run.ValidIsCut();
    var alive := control.Check();
    if !alive {
      return Err(Ingestion(Stopped)), taken;
    }
    if !planned {
      return Err(PlanRejected), taken;
    }
    alive := control.Check();
    if !alive {
      return Err(Ingestion(Stopped)), taken;
    }
    var bytes: nat := 0;
    var i := 0;
    while i < |items|
      invariant fresh(run) && run.start == old(store.rows)
      invariant run.Valid() && run.Taken(items, i, bytes)
      invariant store.faulted == old(store.faulted)
    {
      var step := run.TakeItem(items, i, bytes, reconcile);
      if step.Fail? {
        return Err(step.error), run.taken;
      }
      if step.Halt? {
        break;
      }
      bytes := step.bytes;
      i := i + 1;
    }
    taken := run.taken;
    assert |taken| == |items| ==> items[..|taken|] == items;
    var outcome := run.Finish();
    if outcome != Done {
      return Err(Ingestion(outcome.error)), taken;
    }
    return Ok(Scope(run.seen, |run.seen|, bytes)), taken;
  }

  lemma EntriesStep(items: seq<Item>, i: nat)
    requires i < |items| && items[i].Entry?
    ensures Entries(items[..i + 1]) == Entries(items[..i]) + [items[i].document]
    ensures AllReadable(items[..i]) ==> AllReadable(items[..i + 1])
  {
    assert items[..i + 1][..i] == items[..i];
  }

  lemma {:induction false} BytesOfPrefix(docs: seq<Document>, m: nat)
    requires m <= |docs|
    ensures TotalBytes(docs[..m]) <= TotalBytes(docs)
    decreases |docs|
  {
    if m < |docs| {
      var front := docs[..|docs| - 1];
      BytesOfPrefix(front, m);
      assert front[..m] == docs[..m];
    } else {
      assert docs[..m] == docs;
    }
  }

  /** A snapshot with a prefix over a budget is over that budget as a whole. */
  lemma ReadableOverBudget(items: seq<Item>, i: nat, l: Limits)
    requires i < |items| && AllReadable(items[..i + 1]) && !WithinBudgets(Entries(items[..i + 1]), l)
    ensures AllReadable(items) ==> !WithinBudgets(Entries(items), l)
  {
    if AllReadable(items) && WithinBudgets(Entries(items), l) {
      assert items[..|items|] == items;
      FittingPrefix(items, l, i + 1, |items|);
    }
  }

  /** Each failure of the filesystem loop has its own reason. */
  ghost predicate ItemsExplain(items: seq<Item>, l: Limits, reconcile: bool, error: SyncError) {
    match error
    case Ingestion(_) => true
    case SourceUnreadable => exists i :: 0 <= i < |items| && items[i].Unreadable?
    case OverDocuments => reconcile && |Entries(items)| > l.maxDocuments
    case OverBytes => reconcile && !BytesFit(TotalBytes(Entries(items)), l)
    case _ => false
  }

  lemma PartOfItems(items: seq<Item>, i: nat)
    requires i <= |items|
    ensures |Entries(items[..i])| <= |Entries(items)| && TotalBytes(Entries(items[..i])) <= TotalBytes(Entries(items))
  {
    EntriesArePrefix(items, i);
    BytesOfPrefix(Entries(items), |Entries(items[..i])|);
    assert Entries(items[..i]) == Entries(items)[..|Entries(items[..i])|];
  }

  /** A reconciling run that refuses an item could not have succeeded. */
  lemma RefusalExplained(items: seq<Item>, i: nat, l: Limits, error: SyncError)
    requires i < |items| && items[i].Entry? && AllReadable(items[..i])
    requires var before := Entries(items[..i]);
      && !WithinBudgets(before + [items[i].document], l)
      && ((error == OverDocuments && |before| >= l.maxDocuments)
          || (error == OverBytes && !BytesFit(TotalBytes(before + [items[i].document]), l)))
    ensures !CanTake(items, l, true) && ItemsExplain(items, l, true, error)
  {
    EntriesStep(items, i);
    ReadableOverBudget(items, i, l);
    PartOfItems(items, i + 1);
  }

  /** Some outcome of the filesystem loop is a success. */
  ghost predicate CanTake(items: seq<Item>, l: Limits, reconcile: bool) {
    exists taken :: if reconcile then TakesWhole(items, l, taken) else TakesLongestPrefix(items, l, taken)
  }

  /** The longest prefix is at least as long as any readable one that fits. */
  lemma LongestPrefixBound(items: seq<Item>, l: Limits, taken: seq<Document>, i: nat)
    requires TakesLongestPrefix(items, l, taken) && i <= |items|
    requires AllReadable(items[..i]) && WithinBudgets(Entries(items[..i]), l)
    ensures i <= |taken|
  {
    var n := |taken|;
    if n < i {
      FittingPrefix(items, l, n + 1, i);
      assert items[..i][n] == items[n];
      EntriesStep(items, n);
    }
  }

  /** A readable prefix that fits has no prefix that does not. */
  lemma FittingPrefix(items: seq<Item>, l: Limits, m: nat, i: nat)
    requires m <= i <= |items| && AllReadable(items[..i]) && WithinBudgets(Entries(items[..i]), l)
    ensures WithinBudgets(Entries(items[..m]), l)
  {
    assert items[..i][..m] == items[..m];
    EntriesArePrefix(items[..i], m);
    BytesOfPrefix(Entries(items[..i]), |Entries(items[..m])|);
    assert Entries(items[..m]) == Entries(items[..i])[..|Entries(items[..m])|];
  }

  /** So there is only one. */
  lemma LongestPrefixIsUnique(items: seq<Item>, l: Limits, a: seq<Document>, b: seq<Document>)
    requires TakesLongestPrefix(items, l, a) && TakesLongestPrefix(items, l, b)
    ensures a == b
  {
    LongestPrefixBound(items, l, a, |b|);
    LongestPrefixBound(items, l, b, |a|);
  }

  /** An unreadable item within the budgets makes every run fail. */
  lemma UnreadableStops(items: seq<Item>, i: nat, l: Limits, reconcile: bool)
    requires i < |items| && items[i].Unreadable?
    requires AllReadable(items[..i]) && WithinBudgets(Entries(items[..i]), l)
    ensures !CanTake(items, l, reconcile)
  {
    forall taken ensures !TakesLongestPrefix(items, l, taken) {
      if TakesLongestPrefix(items, l, taken) {
        LongestPrefixBound(items, l, taken, i);
      }
    }
  }

  // ---------------------------------------------------------------------------------------
  // Connector snapshots
  // ---------------------------------------------------------------------------------------

  function MaximumSpoolBytes(l: Limits): nat {
    SaturatingAdd(l.maxBytes, Saturated(Saturated(l.maxDocuments) * 65536))
  }

  /** A spool may hold the byte budget and 64 KiB for every document, as far as 64 bits go. */
  lemma SpoolBound(l: Limits)
    requires Positive(l)
    ensures var bound := l.maxBytes + 65536 * l.maxDocuments;
      MaximumSpoolBytes(l) == if bound <= 0xFFFF_FFFF_FFFF_FFFF then bound else 0xFFFF_FFFF_FFFF_FFFF
  {
  }

  lemma {:induction false} RecordsMonotone(lines: seq<Line>, i: nat)
    requires i <= |lines|
    ensures |Records(lines[..i])| <= |Records(lines)|
    ensures TotalBytes(Records(lines[..i])) <= TotalBytes(Records(lines))
    decreases |lines|
  {
    if i < |lines| {
      var front := lines[..|lines| - 1];
      RecordsMonotone(front, i);
      assert front[..i] == lines[..i];
      if lines[|lines| - 1].Record? {
        TotalBytesStep(Records(front), lines[|lines| - 1].document);
      }
    } else {
      assert lines[..i] == lines;
    }
  }

  /** The running totals after one more record decide whether the spool still fits. */
  lemma RecordFits(lines: seq<Line>, i: nat, l: Limits)
    requires i < |lines| && lines[i].Record? && Positive(l) && WithinBudgets(Records(lines[..i]), l)
    ensures var before, after := Records(lines[..i]), Records(lines[..i + 1]);
      var bytes := SaturatingAdd(Saturated(TotalBytes(before)), ByteLength(lines[i].document));
      && |after| == |before| + 1 && bytes == Saturated(TotalBytes(after))
      && (|after| <= l.maxDocuments && bytes <= l.maxBytes <==> WithinBudgets(after, l))
      && (!WithinBudgets(after, l) ==> !WithinBudgets(Records(lines), l))
  {
    RecordsStep(lines, i);
    TotalBytesStep(Records(lines[..i]), lines[i].document);
    SaturatedStep(TotalBytes(Records(lines[..i])), ByteLength(lines[i].document), l);
    RecordsMonotone(lines, i + 1);
  }

  /** Each failure of the connector branch has its own reason. */
  ghost predicate LinesExplain(l: Limits, spoolBytes: nat, lines: seq<Line>, error: SyncError) {
    match error
    case Ingestion(_) => true
    case SpoolTooLarge => spoolBytes > MaximumSpoolBytes(l)
    case SourceUnreadable => exists i :: 0 <= i < |lines| && lines[i].Broken?
    case InvalidRecord => exists i :: 0 <= i < |lines| && lines[i].Garbled?
    case OverDocuments => |Records(lines)| > l.maxDocuments
    case OverBytes => !BytesFit(TotalBytes(Records(lines)), l)
    case _ => false
  }

  /** `validate_connector_spool`: accepts exactly clean spools within every bound. */
  method ValidateConnectorSpool(control: Control, limits: Limits, spoolBytes: nat, lines: seq<Line>)
    returns (r: Result<Scope, SyncError>)
    requires Positive(limits)
    modifies control
    ensures r.Ok? ==> r.value == Scope([], |Records(lines)|, Saturated(TotalBytes(Records(lines))))
    ensures r.Ok? ==>
      spoolBytes <= MaximumSpoolBytes(limits) && Clean(lines) && WithinBudgets(Records(lines), limits)
    ensures r.Err? && control.stopAt.None? ==>
      !(spoolBytes <= MaximumSpoolBytes(limits) && Clean(lines) && WithinBudgets(Records(lines), limits))
    ensures r != Err(Ingestion(StoreFault))
    ensures r.Err? ==> LinesExplain(limits, spoolBytes, lines, r.error)
  {
    if spoolBytes > MaximumSpoolBytes(limits) {
      return Err(SpoolTooLarge);
    }
    var documents: nat, bytes: nat := 0, 0;
    for i := 0 to |lines|
      invariant Clean(lines[..i])
      invariant documents == |Records(lines[..i])| && bytes == Saturated(TotalBytes(Records(lines[..i])))
      invariant WithinBudgets(Records(lines[..i]), limits)
    {
      var alive := control.Check();
      if !alive {
        return Err(Ingestion(Stopped));
      }
      RecordsStep(lines, i);
      assert Clean(lines[..i]) && (lines[i].Blank? || lines[i].Record?) ==> Clean(lines[..i + 1]);
      if lines[i].Broken? {
        return Err(SourceUnreadable);
      }
      if lines[i].Blank? {
        continue;
      }
      if lines[i].Garbled? {
        return Err(InvalidRecord);
      }
      RecordFits(lines, i, limits);
      RecordsMonotone(lines, i + 1);
      documents := documents + 1;
      bytes := SaturatingAdd(bytes, ByteLength(lines[i].document));
      if documents > limits.maxDocuments {
        return Err(OverDocuments);
      }
      if bytes > limits.maxBytes {
        return Err(OverBytes);
      }
    }
    assert lines[..|lines|] == lines;
    return Ok(Scope([], documents, bytes));
  }

  /** The connector branch: validate the whole spool first, then ingest it line by line. */
  method SyncConnector(store: DocumentStore, control: Control, provider: Ingest.Provider,
                       config: SourceConfig, limits: Limits, spoolBytes: nat, lines: seq<Line>)
    returns (r: Result<Scope, SyncError>, ghost taken: seq<Document>)
    requires Positive(limits)
    modifies store, control
    ensures r.Ok? ==> Clean(lines) && taken == Records(lines) && WithinBudgets(taken, limits)
    ensures r.Ok? ==> spoolBytes <= MaximumSpoolBytes(limits)
    ensures r.Err? ==> LinesExplain(limits, spoolBytes, lines, r.error)
    ensures r.Ok? ==> r.value == Scope(SourceIds(taken), |taken|, Saturated(TotalBytes(taken)))
    ensures r.Ok? ==>
      store.rows
        == InBatches(provider.engine, Threshold(limits), limits.batchSize, old(store.rows), NormalizeAll(config, taken))
    ensures r.Err? ==> |taken| <= |Records(lines)| && taken == Records(lines)[..|taken|]
    ensures r.Err? ==> SnapshotCut(provider.engine, Threshold(limits), limits.batchSize, old(store.rows),
                                   NormalizeAll(config, taken), store.rows)
    ensures r.Err? && taken != [] ==> Clean(lines) && WithinBudgets(Records(lines), limits)
    ensures r == Err(Ingestion(StoreFault)) ==> store.faulted
    ensures r != Err(Ingestion(StoreFault)) ==> store.faulted == old(store.faulted)
    ensures provider.reliable && control.stopAt.None? ==>
      || r.Ok? || r == Err(Ingestion(StoreFault))
      || !(spoolBytes <= MaximumSpoolBytes(limits) && Clean(lines) && WithinBudgets(Records(lines), limits))
  {
    var run := new SnapshotRun(store, control, provider, config, limits);
    taken := [];
    run.ValidIsCut();
    var scope := ValidateConnectorSpool(control, limits, spoolBytes, lines);
    if scope.Err? {
      return Err(scope.error), taken;
    }
    for i := 0 to |lines|
      invariant fresh(run) && run.start == old(store.rows) && run.Valid()
      invariant run.taken == Records(lines[..i])
      invariant store.faulted == old(store.faulted)
    {
      var outcome := run.TakeLine(lines, i);
      if outcome != Done {
        return Err(Ingestion(outcome.error)), run.taken;
      }
    }
    assert lines[..|lines|] == lines;
    taken := run.taken;
    var outcome := run.Finish();
    if outcome != Done {
      return Err(Ingestion(outcome.error)), taken;
    }
    return Ok(scope.value.(seen := run.seen)), taken;
  }

  // ---------------------------------------------------------------------------------------
  // One source, then all configured sources
  // ---------------------------------------------------------------------------------------

  datatype Feed =
    | Filesystem(planned: bool, items: seq<Item>)
    | Connector(failed: bool, spoolBytes: nat, lines: seq<Line>)

  datatype SourceRun = SourceRun(config: SourceConfig, limits: Limits, feed: Feed)

  /** All ids a source can offer to the index. */
  function OfferedIds(feed: Feed): set<string> {
    match feed
    case Filesystem(_, items) => IdSet(Entries(items))
    case Connector(_, _, lines) => IdSet(Records(lines))
  }

  /** The whole snapshot: what a reconciling run must have taken. */
  function Snapshot(feed: Feed): seq<Document> {
    match feed
    case Filesystem(_, items) => Entries(items)
    case Connector(_, _, lines) => Records(lines)
  }

  /** The snapshot could be read completely and is within both budgets. */
  ghost predicate Authoritative(s: SourceRun) {
    && WithinBudgets(Snapshot(s.feed), s.limits)
    && match s.feed
       case Filesystem(_, items) => AllReadable(items)
       case Connector(_, _, lines) => Clean(lines)
  }

  lemma {:induction false} EntriesArePrefix(items: seq<Item>, i: nat)
    requires i <= |items|
    ensures Entries(items[..i]) <= Entries(items)
    decreases |items|
  {
    if i < |items| {
      var front := items[..|items| - 1];
      EntriesArePrefix(front, i);
      assert front[..i] == items[..i];
    } else {
      assert items[..i] == items;
    }
  }

  lemma PrefixIds(part: seq<Document>, docs: seq<Document>)
    requires part <= docs
    ensures IdSet(part) <= IdSet(docs)
  {
    assert forall d :: d in part ==> d in docs;
  }

  lemma ConfinedWiden(t: Table, t': Table, c: string, p: string, ids: set<string>, ids': set<string>)
    requires Confined(t, t', c, p, ids) && ids <= ids'
    ensures Confined(t, t', c, p, ids')
  {
  }

  lemma NothingTaken(e: Engine, limit: nat, size: nat, t: Table, config: SourceConfig)
    ensures SnapshotCut(e, limit, size, t, NormalizeAll(config, []), t)
  {
    NothingDone(e, limit, t, []);
    assert CutShort(e, limit, size, t, [], 0, false, t);
    assert NormalizeAll(config, []) == [];
  }

  /** What a successful run takes: within the source's own budgets, and from a snapshot without defects. */
  ghost predicate Takes(s: SourceRun, reconcile: bool, taken: seq<Document>) {
    match s.feed
    case Filesystem(planned, items) =>
      planned && if reconcile then TakesWhole(items, s.limits, taken) else TakesLongestPrefix(items, s.limits, taken)
    case Connector(failed, spoolBytes, lines) =>
      && !failed && spoolBytes <= MaximumSpoolBytes(s.limits) && Clean(lines)
      && taken == Records(lines) && WithinBudgets(taken, s.limits)
  }

  /** There is at most one way to succeed. */
  lemma TakesIsUnique(s: SourceRun, reconcile: bool, a: seq<Document>, b: seq<Document>)
    requires Takes(s, reconcile, a) && Takes(s, reconcile, b)
    ensures a == b
  {
    if s.feed.Filesystem? && !reconcile {
      LongestPrefixIsUnique(s.feed.items, s.limits, a, b);
    }
  }

  ghost predicate CanSucceed(s: SourceRun, reconcile: bool) {
    exists taken :: Takes(s, reconcile, taken)
  }

  function ScopeTaken(taken: seq<Document>): Scope {
    Scope(SourceIds(taken), |taken|, Saturated(TotalBytes(taken)))
  }

  /** The documents taken are ingested in batches under the source's own configuration. */
  function Ingested(e: Engine, t: Table, s: SourceRun, taken: seq<Document>): Table {
    InBatches(e, Threshold(s.limits), s.limits.batchSize, t, NormalizeAll(s.config, taken))
  }

  ghost predicate CutOff(e: Engine, t: Table, s: SourceRun, taken: seq<Document>, t': Table) {
    SnapshotCut(e, Threshold(s.limits), s.limits.batchSize, t, NormalizeAll(s.config, taken), t')
  }

  /** Why a sync failed. */
  ghost predicate Explains(s: SourceRun, reconcile: bool, error: SyncError) {
    match s.feed
    case Filesystem(planned, items) =>
      (error == PlanRejected && !planned) || ItemsExplain(items, s.limits, reconcile, error)
    case Connector(failed, spoolBytes, lines) =>
      (error == ConnectorFailed && failed) || LinesExplain(s.limits, spoolBytes, lines, error)
  }

  /** `sync_source_documents` */
  method SyncSourceDocuments(store: DocumentStore, control: Control, provider: Ingest.Provider,
                             s: SourceRun, reconcile: bool)
    returns (r: Result<Scope, SyncError>, ghost taken: seq<Document>)
    requires Positive(s.limits)
    modifies store, control
    ensures taken <= Snapshot(s.feed)
    ensures r.Ok? ==> Takes(s, reconcile, taken) && r.value == ScopeTaken(taken)
    ensures r.Ok? ==> store.rows == Ingested(provider.engine, old(store.rows), s, taken)
    ensures r.Ok? && reconcile ==> taken == Snapshot(s.feed) && Authoritative(s)
    ensures r.Err? ==> CutOff(provider.engine, old(store.rows), s, taken, store.rows) && Explains(s, reconcile, r.error)
    ensures r == Err(Ingestion(StoreFault)) ==> store.faulted
    ensures r != Err(Ingestion(StoreFault)) ==> store.faulted == old(store.faulted)
    ensures provider.reliable && control.stopAt.None? && CanSucceed(s, reconcile) ==>
      r.Ok? || r == Err(Ingestion(StoreFault))
  {
    match s.feed
    case Filesystem(planned, items) =>
      r, taken := SyncFilesystem(store, control, provider, s.config, s.limits, planned, items, reconcile);
      if r.Ok? && reconcile {
        assert items[..|items|] == items;
      } else {
        EntriesArePrefix(items, |taken|);
      }
    case Connector(failed, spoolBytes, lines) =>
      if failed {
        taken := [];
        NothingTaken(provider.engine, Threshold(s.limits), s.limits.batchSize, store.rows, s.config);
        return Err(ConnectorFailed), taken;
      }
      r, taken := SyncConnector(store, control, provider, s.config, s.limits, spoolBytes, lines);
  }

  /** The index after a successful sync. */
  function AfterSync(e: Engine, t: Table, s: SourceRun, reconcile: bool, taken: seq<Document>): Table {
    if reconcile then AfterReconcile(e, Threshold(s.limits), s.limits.batchSize, t, s.config, taken)
    else Ingested(e, t, s, taken)
  }

  /** Ingesting a part of the snapshot deletes nothing and touches only the ids it offers. */
  lemma IngestedIsConfined(e: Engine, t: Table, s: SourceRun, taken: seq<Document>)
    requires taken <= Snapshot(s.feed)
    ensures var t' := Ingested(e, t, s, taken);
      && Loaded(t, t', NormalizeAll(s.config, taken), s.config.project) && t.Keys <= t'.Keys
      && Confined(t, t', CanonicalSource(s.config), s.config.project, OfferedIds(s.feed))
  {
    var t', docs := Ingested(e, t, s, taken), NormalizeAll(s.config, taken);
    NormalizedScope(s.config, taken);
    InBatchesLoads(e, Threshold(s.limits), s.limits.batchSize, t, docs, s.config.project);
    KeptIsConfined(t, t', s.config, taken);
    PrefixIds(taken, Snapshot(s.feed));
    ConfinedWiden(t, t', CanonicalSource(s.config), s.config.project, IdSet(taken), OfferedIds(s.feed));
  }

  lemma CutOffIsConfined(e: Engine, t: Table, s: SourceRun, taken: seq<Document>, t': Table)
    requires taken <= Snapshot(s.feed) && CutOff(e, t, s, taken, t')
    ensures t.Keys <= t'.Keys
    ensures Confined(t, t', CanonicalSource(s.config), s.config.project, OfferedIds(s.feed))
  {
    var docs, limit, size := NormalizeAll(s.config, taken), Threshold(s.limits), s.limits.batchSize;
    NormalizedScope(s.config, taken);
    var n: nat, more: bool :| CutShort(e, limit, size, t, docs, n, more, t');
    CutShortKeeps(e, limit, size, t, docs, n, more, t', s.config.project);
    KeptIsConfined(t, t', s.config, taken);
    PrefixIds(taken, Snapshot(s.feed));
    ConfinedWiden(t, t', CanonicalSource(s.config), s.config.project, IdSet(taken), OfferedIds(s.feed));
  }

  /** After a reconciling sync the scope is mirrored, and what is gone was there at the start. */
  lemma AfterSyncMirrors(e: Engine, t: Table, s: SourceRun, taken: seq<Document>)
    requires taken == Snapshot(s.feed)
    ensures var t' := AfterSync(e, t, s, true, taken);
      && Mirrored(t, t', CanonicalSource(s.config), s.config.project, OfferedIds(s.feed))
      && Ingested(e, t, s, taken).Keys - t'.Keys == t.Keys - t'.Keys
  {
    var t1, t' := Ingested(e, t, s, taken), AfterSync(e, t, s, true, taken);
    IngestedIsConfined(e, t, s, taken);
    ReconcileMirrors(t, t1, s.config, taken);
    NormalizedScope(s.config, taken);
    forall k | k in t1.Keys - t.Keys ensures k in t' {
      assert Lookup(t1, k) != Lookup(t, k);
    }
  }

  /** What `SyncOne` may leave when it fails: a part, or all, of the documents taken, ingested. */
  ghost predicate Abandoned(e: Engine, t: Table, s: SourceRun, taken: seq<Document>, t': Table) {
    taken <= Snapshot(s.feed) && (CutOff(e, t, s, taken, t') || t' == Ingested(e, t, s, taken))
  }

  /**
    One source of `sync_configured_sources`, up to its run record. It succeeds exactly when the
    snapshot can be taken, unless it is stopped or the provider or the store fails. Success ingests
    what was taken and, when reconciling, leaves exactly the snapshot under the source's scope; any
    other outcome deletes nothing.
    */
  method SyncOne(store: DocumentStore, control: Control, provider: Ingest.Provider, s: SourceRun, reconcile: bool)
    returns (r: Result<(Scope, nat), SyncError>, ghost taken: seq<Document>)
    requires Positive(s.limits)
    modifies store, control
    ensures r.Ok? ==> Takes(s, reconcile, taken)
    ensures r.Ok? ==> store.rows == AfterSync(provider.engine, old(store.rows), s, reconcile, taken)
    ensures r.Ok? ==> r.value == (ScopeTaken(taken), |old(store.rows).Keys - store.rows.Keys|)
    ensures r.Err? ==> Abandoned(provider.engine, old(store.rows), s, taken, store.rows) && Explains(s, reconcile, r.error)
    ensures provider.reliable && control.stopAt.None? && CanSucceed(s, reconcile) ==>
      r.Ok? || r == Err(Ingestion(StoreFault))
    ensures r == Err(Ingestion(StoreFault)) ==> store.faulted
    ensures r != Err(Ingestion(StoreFault)) ==> store.faulted == old(store.faulted)
    ensures Confined(old(store.rows), store.rows, CanonicalSource(s.config), s.config.project, OfferedIds(s.feed))
    ensures r.Ok? && reconcile ==> taken == Snapshot(s.feed) && Authoritative(s)
    ensures r.Ok? && reconcile ==>
      Mirrored(old(store.rows), store.rows, CanonicalSource(s.config), s.config.project, OfferedIds(s.feed))
    ensures !(r.Ok? && reconcile) ==> old(store.rows).Keys <= store.rows.Keys
  {
    ghost var t := store.rows;
    var scope;
    scope, taken := SyncSourceDocuments(store, control, provider, s, reconcile);
    if scope.Err? {
      CutOffIsConfined(provider.engine, t, s, taken, store.rows);
      return Err(scope.error), taken;
    }
    IngestedIsConfined(provider.engine, t, s, taken);
    var alive := control.Check();
    if !alive {
      return Err(Ingestion(Stopped)), taken;
    }
    if !reconcile {
      return Ok((scope.value, 0)), taken;
    }
    AfterSyncMirrors(provider.engine, t, s, taken);
    NormalizedScope(s.config, taken);
    var deleted := store.Reconcile(CanonicalSource(s.config), s.config.project, scope.value.seen);
    if deleted.Err? {
      return Err(Ingestion(StoreFault)), taken;
    }
    return Ok((scope.value, deleted.value)), taken;
  }

  /** What the run record says. */
  datatype Report = Succeeded(documents: nat, bytes: nat, deleted: nat) | Unsuccessful(error: SyncError)

  // ---------------------------------------------------------------------------------------
  // What a sequence of syncs does to the index
  // ---------------------------------------------------------------------------------------

  /** The index before and after every sync of one command, and what the successful ones have taken. */
  datatype Trace = Trace(tables: seq<Table>, synced: seq<Option<seq<Document>>>)

  /** One sync: what was taken is ingested and mirrored when reconciling; a failed one deletes nothing. */
  ghost predicate SyncStep(e: Engine, t: Table, t': Table, s: SourceRun, synced: Option<seq<Document>>, reconcile: bool) {
    var c, p, ids := CanonicalSource(s.config), s.config.project, OfferedIds(s.feed);
    && Confined(t, t', c, p, ids)
    && (synced.Some? ==> Takes(s, reconcile, synced.value) && t' == AfterSync(e, t, s, reconcile, synced.value))
    && (if synced.Some? && reconcile then Authoritative(s) && Mirrored(t, t', c, p, ids) else t.Keys <= t'.Keys)
  }

  ghost predicate Traced(e: Engine, tr: Trace, t0: Table, t: Table, sources: seq<SourceRun>, reconcile: bool) {
    && |tr.tables| == |tr.synced| + 1 && |tr.synced| <= |sources|
    && tr.tables[0] == t0 && tr.tables[|tr.synced|] == t
    && forall i :: 0 <= i < |tr.synced| ==>
      SyncStep(e, tr.tables[i], tr.tables[i + 1], sources[i], tr.synced[i], reconcile)
  }

  /** The report of a sync that took those documents, or of one that failed. */
  ghost predicate ReportOf(report: Report, t: Table, t': Table, synced: Option<seq<Document>>) {
    match synced
    case None => report.Unsuccessful?
    case Some(taken) => report == Succeeded(|taken|, Saturated(TotalBytes(taken)), |t.Keys - t'.Keys|)
  }

  /** The reports agree with the syncs; the run record of one last sync may have failed. */
  ghost predicate Reported(tr: Trace, reports: seq<Report>) {
    && |tr.tables| == |tr.synced| + 1 && |reports| <= |tr.synced| <= |reports| + 1
    && forall i :: 0 <= i < |reports| ==> ReportOf(reports[i], tr.tables[i], tr.tables[i + 1], tr.synced[i])
  }

  ghost predicate ApartSources(a: SourceRun, b: SourceRun) {
    Apart(CanonicalSource(a.config), a.config.project, OfferedIds(a.feed),
          CanonicalSource(b.config), b.config.project, OfferedIds(b.feed))
  }

  /** No source after `i` and before `n` disturbs source `i`. */
  ghost predicate Undisturbed(sources: seq<SourceRun>, i: nat, n: nat)
    requires n <= |sources|
  {
    forall j :: i < j < n ==> ApartSources(sources[i], sources[j])
  }

  /** The index holds exactly the source's snapshot under its scope. */
  ghost predicate Mirrors(t: Table, s: SourceRun) {
    Ids(t, CanonicalSource(s.config), s.config.project) == OfferedIds(s.feed)
  }

  /** Every successful sync that no later one disturbs still has its mirror. */
  ghost predicate MirrorsStand(t: Table, sources: seq<SourceRun>, synced: seq<Option<seq<Document>>>)
    requires |synced| <= |sources|
  {
    forall i :: 0 <= i < |synced| && synced[i].Some? && Undisturbed(sources, i, |synced|) ==> Mirrors(t, sources[i])
  }

  /** Sync `i` succeeded on a complete snapshot of a scope that held row `k`, and deleted the row, which the snapshot lacks. */
  ghost predicate DeletedBy(tr: Trace, sources: seq<SourceRun>, i: nat, k: Key)
    requires i < |tr.synced| <= |sources| && |tr.tables| == |tr.synced| + 1
  {
    var s := sources[i];
    && tr.synced[i].Some? && Authoritative(s)
    && k.source == CanonicalSource(s.config) && k.sourceId !in OfferedIds(s.feed)
    && k in tr.tables[i] && tr.tables[i][k].body.project == s.config.project && k !in tr.tables[i + 1]
  }

  /** Every row that is gone was deleted by such a sync. */
  ghost predicate DeletedOnlyAbsent(tr: Trace, sources: seq<SourceRun>)
    requires |tr.synced| <= |sources| && |tr.tables| == |tr.synced| + 1
  {
    forall k :: k in tr.tables[0] && k !in tr.tables[|tr.synced|] ==>
      exists i :: 0 <= i < |tr.synced| && DeletedBy(tr, sources, i, k)
  }

  /** Row `k` is in the reach of source `s`: of its name, and either offered or in its project. */
  ghost predicate InReach(t: Table, s: SourceRun, k: Key) {
    && k.source == CanonicalSource(s.config)
    && (k.sourceId in OfferedIds(s.feed) || (k in t && t[k].body.project == s.config.project))
  }

  /** Every row that changed was in the reach of some sync. */
  ghost predicate ChangedOnlyInReach(tr: Trace, sources: seq<SourceRun>)
    requires |tr.synced| <= |sources| && |tr.tables| == |tr.synced| + 1
  {
    forall k :: Lookup(tr.tables[0], k) != Lookup(tr.tables[|tr.synced|], k) ==>
      exists i :: 0 <= i < |tr.synced| && InReach(tr.tables[i], sources[i], k)
  }

  lemma {:induction false} MirrorLasts(e: Engine, tr: Trace, t0: Table, t: Table, sources: seq<SourceRun>, i: nat, n: nat)
    requires Traced(e, tr, t0, t, sources, true) && i < n <= |tr.synced|
    requires tr.synced[i].Some? && Undisturbed(sources, i, n)
    ensures Mirrors(tr.tables[n], sources[i])
    decreases n
  {
    assert SyncStep(e, tr.tables[n - 1], tr.tables[n], sources[n - 1], tr.synced[n - 1], true);
    if i < n - 1 {
      MirrorLasts(e, tr, t0, t, sources, i, n - 1);
      var a, b := sources[i], sources[n - 1];
      assert ApartSources(a, b);
      ConfinedKeepsMirror(tr.tables[n - 1], tr.tables[n], CanonicalSource(a.config), a.config.project,
                          CanonicalSource(b.config), b.config.project, OfferedIds(b.feed));
    }
  }

  /** A row that a sync removes was in its scope and is absent from its complete snapshot. */
  lemma RemovedByMirror(e: Engine, t: Table, t': Table, s: SourceRun, synced: Option<seq<Document>>, reconcile: bool, k: Key)
    requires SyncStep(e, t, t', s, synced, reconcile) && k in t && k !in t'
    ensures synced.Some? && reconcile && Authoritative(s) && k.source == CanonicalSource(s.config)
    ensures k.sourceId !in OfferedIds(s.feed) && t[k].body.project == s.config.project
  {
    assert Lookup(t', k) != Lookup(t, k);
    assert k.sourceId in OfferedIds(s.feed) ==> k.sourceId in Ids(t', CanonicalSource(s.config), s.config.project);
  }

  /** A row that is gone after `n` syncs was removed by one of them. */
  lemma {:induction false} RemovalStep(e: Engine, tr: Trace, t0: Table, t: Table, sources: seq<SourceRun>, reconcile: bool, n: nat, k: Key)
    returns (i: nat)
    requires Traced(e, tr, t0, t, sources, reconcile) && n <= |tr.synced|
    requires k in t0 && k !in tr.tables[n]
    ensures i < n && k in tr.tables[i] && k !in tr.tables[i + 1]
    decreases n
  {
    if k in tr.tables[n - 1] {
      i := n - 1;
    } else {
      i := RemovalStep(e, tr, t0, t, sources, reconcile, n - 1, k);
    }
  }

  lemma {:induction false} ChangeStep(e: Engine, tr: Trace, t0: Table, t: Table, sources: seq<SourceRun>, reconcile: bool, n: nat, k: Key)
    returns (i: nat)
    requires Traced(e, tr, t0, t, sources, reconcile) && n <= |tr.synced|
    requires Lookup(t0, k) != Lookup(tr.tables[n], k)
    ensures i < n && Lookup(tr.tables[i + 1], k) != Lookup(tr.tables[i], k)
    decreases n
  {
    if Lookup(tr.tables[n - 1], k) != Lookup(tr.tables[n], k) {
      i := n - 1;
    } else {
      i := ChangeStep(e, tr, t0, t, sources, reconcile, n - 1, k);
    }
  }

  /**
    Over any sequence of syncs: undisturbed mirrors stand; a row is gone only if a successful
    reconciling sync of its scope had a complete snapshot without it; and no row outside the reach
    of the sources is touched.
    */
  lemma TraceIsAccountable(e: Engine, tr: Trace, t0: Table, t: Table, sources: seq<SourceRun>, reconcile: bool)
    requires Traced(e, tr, t0, t, sources, reconcile)
    ensures reconcile ==> MirrorsStand(t, sources, tr.synced)
    ensures DeletedOnlyAbsent(tr, sources) && ChangedOnlyInReach(tr, sources)
    ensures !reconcile || (forall i :: 0 <= i < |tr.synced| ==> tr.synced[i].None?) ==> t0.Keys <= t.Keys
  {
    forall i | reconcile && 0 <= i < |tr.synced| && tr.synced[i].Some? && Undisturbed(sources, i, |tr.synced|)
      ensures Mirrors(t, sources[i])
    {
      MirrorLasts(e, tr, t0, t, sources, i, |tr.synced|);
    }
    forall k | k in t0 && k !in t
      ensures reconcile && exists i :: 0 <= i < |tr.synced| && DeletedBy(tr, sources, i, k)
    {
      var i := RemovalStep(e, tr, t0, t, sources, reconcile, |tr.synced|, k);
      RemovedByMirror(e, tr.tables[i], tr.tables[i + 1], sources[i], tr.synced[i], reconcile, k);
      assert DeletedBy(tr, sources, i, k);
    }
    forall k | Lookup(t0, k) != Lookup(t, k)
      ensures exists i :: 0 <= i < |tr.synced| && InReach(tr.tables[i], sources[i], k)
    {
      var i := ChangeStep(e, tr, t0, t, sources, reconcile, |tr.synced|, k);
      assert SyncStep(e, tr.tables[i], tr.tables[i + 1], sources[i], tr.synced[i], reconcile);
      assert InReach(tr.tables[i], sources[i], k);
    }
  }

  lemma TraceGrows(e: Engine, tr: Trace, t0: Table, t: Table, t': Table, sources: seq<SourceRun>,
                   synced: Option<seq<Document>>, reconcile: bool)
    requires Traced(e, tr, t0, t, sources, reconcile) && |tr.synced| < |sources|
    requires SyncStep(e, t, t', sources[|tr.synced|], synced, reconcile)
    ensures Traced(e, Trace(tr.tables + [t'], tr.synced + [synced]), t0, t', sources, reconcile)
  {
    var n, tables, all := |tr.synced|, tr.tables + [t'], tr.synced + [synced];
    forall i | 0 <= i <= n ensures SyncStep(e, tables[i], tables[i + 1], sources[i], all[i], reconcile) {
      if i < n {
        assert tables[i] == tr.tables[i] && tables[i + 1] == tr.tables[i + 1] && all[i] == tr.synced[i];
      } else {
        assert tables[n] == t && tables[n + 1] == t' && all[n] == synced;
      }
    }
  }

  lemma ReportsLast(tr: Trace, reports: seq<Report>, t': Table, synced: Option<seq<Document>>)
    requires Reported(tr, reports) && |reports| == |tr.synced|
    ensures Reported(Trace(tr.tables + [t'], tr.synced + [synced]), reports)
  {
    var tr' := Trace(tr.tables + [t'], tr.synced + [synced]);
    assert forall i :: 0 <= i <= |tr.synced| ==> tr'.tables[i] == tr.tables[i];
  }

  lemma ReportsGrow(tr: Trace, reports: seq<Report>, report: Report)
    requires Reported(tr, reports) && |tr.synced| == |reports| + 1
    requires ReportOf(report, tr.tables[|reports|], tr.tables[|reports| + 1], tr.synced[|reports|])
    ensures Reported(tr, reports + [report])
  {
  }

  predicate AllSucceeded(reports: seq<Report>) {
    forall i :: 0 <= i < |reports| ==> reports[i].Succeeded?
  }

  predicate NoneSucceeded(reports: seq<Report>) {
    forall i :: 0 <= i < |reports| ==> reports[i].Unsuccessful?
  }

  lemma OneMoreReport(reports: seq<Report>, report: Report)
    ensures AllSucceeded(reports + [report]) <==> AllSucceeded(reports) && report.Succeeded?
  {
    var all := reports + [report];
    assert all[|reports|] == report && forall i :: 0 <= i < |reports| ==> all[i] == reports[i];
  }

  /** A command none of whose syncs succeeded has deleted nothing. */
  lemma FailuresDeleteNothing(e: Engine, tr: Trace, t0: Table, t: Table, sources: seq<SourceRun>, reports: seq<Report>,
                              reconcile: bool)
    requires Traced(e, tr, t0, t, sources, reconcile) && Reported(tr, reports) && |reports| == |tr.synced|
    requires NoneSucceeded(reports)
    ensures t0.Keys <= t.Keys
  {
    forall i | 0 <= i < |tr.synced| ensures tr.synced[i].None? {
      assert ReportOf(reports[i], tr.tables[i], tr.tables[i + 1], tr.synced[i]);
    }
    TraceIsAccountable(e, tr, t0, t, sources, reconcile);
  }

  /** One round of the command is traced and reported. */
  lemma RoundIsTraced(e: Engine, tr: Trace, t0: Table, t: Table, t': Table, sources: seq<SourceRun>,
                      reports: seq<Report>, synced: Option<seq<Document>>, reconcile: bool) returns (tr': Trace)
    requires Traced(e, tr, t0, t, sources, reconcile) && Reported(tr, reports) && |reports| == |tr.synced| < |sources|
    requires SyncStep(e, t, t', sources[|tr.synced|], synced, reconcile)
    ensures Traced(e, tr', t0, t', sources, reconcile) && Reported(tr', reports) && |tr'.synced| == |reports| + 1
    ensures forall report :: ReportOf(report, t, t', synced) ==> Reported(tr', reports + [report])
  {
    tr' := Trace(tr.tables + [t'], tr.synced + [synced]);
    TraceGrows(e, tr, t0, t, t', sources, synced, reconcile);
    ReportsLast(tr, reports, t', synced);
    forall report | ReportOf(report, t, t', synced) ensures Reported(tr', reports + [report]) {
      ReportsGrow(tr', reports, report);
    }
  }

  // ---------------------------------------------------------------------------------------
  // The command
  // ---------------------------------------------------------------------------------------

  /** The source can be taken and is not stopped. */
  ghost predicate MustSucceed(s: SourceRun, stopAt: Option<nat>, reconcile: bool) {
    stopAt.None? && CanSucceed(s, reconcile)
  }

  /** Every reported source that must succeed did. */
  ghost predicate NoneMissed(sources: seq<SourceRun>, stopAt: nat -> Option<nat>, reconcile: bool, reports: seq<Report>) {
    && |reports| <= |sources|
    && forall i :: 0 <= i < |reports| && MustSucceed(sources[i], stopAt(i), reconcile) ==> reports[i].Succeeded?
  }

  /**
    `sync_configured_sources`; `stopAt` says when the control of each source stops it. Without a
    store fault every source is synced and reported, and with a reliable provider each one that can
    be taken and is not stopped succeeds. Every successful reconciling sync that no later source
    disturbs ends as an exact mirror of its snapshot; a row disappears only if a successful sync had
    a complete snapshot of its scope without it, so a command none of whose syncs succeeds deletes
    nothing; and rows outside the reach of the sources stay as they were.
    */
  method SyncConfiguredSources(store: DocumentStore, provider: Ingest.Provider, sources: seq<SourceRun>,
                               reconcile: bool, stopAt: nat -> Option<nat>)
    returns (ok: bool, reports: seq<Report>, ghost tr: Trace)
    modifies store
    ensures ok <==> sources != [] && |reports| == |sources| && AllSucceeded(reports)
    ensures Traced(provider.engine, tr, old(store.rows), store.rows, sources, reconcile) && Reported(tr, reports)
    ensures !store.faulted && (forall s :: s in sources ==> Positive(s.limits)) ==> |reports| == |sources|
    ensures !store.faulted && provider.reliable ==> NoneMissed(sources, stopAt, reconcile, reports)
    ensures reconcile ==> MirrorsStand(store.rows, sources, tr.synced)
    ensures DeletedOnlyAbsent(tr, sources) && ChangedOnlyInReach(tr, sources)
    ensures !reconcile ==> old(store.rows).Keys <= store.rows.Keys
    ensures |reports| == |sources| && NoneSucceeded(reports) ==>
      old(store.rows).Keys <= store.rows.Keys
  {
    var failures;
    reports, failures, tr := SyncInTurn(store, provider, sources, reconcile, stopAt);
    TraceIsAccountable(provider.engine, tr, old(store.rows), store.rows, sources, reconcile);
    if |reports| == |sources| && NoneSucceeded(reports) {
      FailuresDeleteNothing(provider.engine, tr, old(store.rows), store.rows, sources, reports, reconcile);
    }
    return sources != [] && |reports| == |sources| && failures == [], reports, tr;
  }

  /** The loop over the sources; it ends early when a source has no report. */
  method SyncInTurn(store: DocumentStore, provider: Ingest.Provider, sources: seq<SourceRun>, reconcile: bool,
                    stopAt: nat -> Option<nat>)
    returns (reports: seq<Report>, failures: seq<string>, ghost tr: Trace)
    modifies store
    ensures Traced(provider.engine, tr, old(store.rows), store.rows, sources, reconcile) && Reported(tr, reports)
    ensures |reports| <= |sources| && (|reports| == |sources| ==> |tr.synced| == |reports|)
    ensures |reports| < |sources| ==> store.faulted || exists s :: s in sources && !Positive(s.limits)
    ensures failures == [] <==> AllSucceeded(reports)
    ensures !store.faulted && provider.reliable ==> NoneMissed(sources, stopAt, reconcile, reports)
  {
    reports, failures := [], [];
    tr := Trace([store.rows], []);
    while |reports| < |sources|
      invariant |reports| == |tr.synced| <= |sources|
      invariant Traced(provider.engine, tr, old(store.rows), store.rows, sources, reconcile) && Reported(tr, reports)
      invariant failures == [] <==> AllSucceeded(reports)
      invariant !store.faulted && provider.reliable ==> NoneMissed(sources, stopAt, reconcile, reports)
    {
      ghost var before := store.rows;
      var s := sources[|reports|];
      var report: Option<Report>;
      ghost var synced: Option<Option<seq<Document>>>;
      report, synced := SyncReported(store, provider, s, reconcile, stopAt(|reports|));
      if synced.Some? {
        tr := RoundIsTraced(provider.engine, tr, old(store.rows), before, store.rows, sources, reports,
                            synced.value, reconcile);
      }
      if report.None? {
        assert s in sources;
        return;
      }
      OneMoreReport(reports, report.value);
      reports := reports + [report.value];
      if report.value.Unsuccessful? {
        failures := failures + [s.config.name];
      }
    }
  }

  /** One round of the loop; without a report the whole command fails. */
  method SyncReported(store: DocumentStore, provider: Ingest.Provider, s: SourceRun, reconcile: bool, stopAt: Option<nat>)
    returns (report: Option<Report>, ghost synced: Option<Option<seq<Document>>>)
    modifies store
    ensures synced.Some? ==> SyncStep(provider.engine, old(store.rows), store.rows, s, synced.value, reconcile)
    ensures synced.None? ==> store.rows == old(store.rows)
    ensures report.Some? ==> synced.Some? && ReportOf(report.value, old(store.rows), store.rows, synced.value)
    ensures report.None? ==> !Positive(s.limits) || store.faulted
    ensures !store.faulted ==> !old(store.faulted)
    ensures report.Some? && !store.faulted && provider.reliable && MustSucceed(s, stopAt, reconcile) ==>
      report.value.Succeeded?
  {
    if !Positive(s.limits) {
      return None, None;
    }
    var begun := store.Touch();
    if begun.Err? {
      return None, None;
    }
    var control := new Control(stopAt);
    var r;
    ghost var taken;
    r, taken := SyncOne(store, control, provider, s, reconcile);
    synced := Some(if r.Ok? then Some(taken) else None);
    var finished := store.Touch();
    if finished.Err? {
      return None, synced;
    }
    report := Some(if r.Ok? then Succeeded(r.value.0.documents, r.value.0.bytes, r.value.1) else Unsuccessful(r.error));
  }
}
