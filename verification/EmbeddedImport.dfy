/**
  Import of documents that arrive with their embeddings (`import_embeddings`, src/main.rs):
  which inputs are accepted, and what a reconciling import deletes.
  */
module EmbeddedImport {
  import opened Wrappers
  import opened Documents
  import opened Sequences
  import opened Store
  import opened Text

  datatype ImportChunk = ImportChunk(content: string, embedding: Vector)

  /** One input line, after JSON decoding; `Broken` could not be read, `Garbled` not decoded. */
  datatype Line =
    | Blank
    | Broken
    | Garbled
    | Record(fingerprint: string, document: Document, chunks: seq<ImportChunk>)
    | Complete(records: nat)

  /** The provider generation and vector size the index expects. */
  datatype Expected = Expected(fingerprint: string, dimension: nat)

  predicate ValidChunk(x: Expected, c: ImportChunk) {
    !IsBlank(Rust, c.content) && |c.embedding| == x.dimension
  }

  predicate ValidRecord(x: Expected, line: Line) {
    && line.Record?
    && line.fingerprint == x.fingerprint
    && line.chunks != []
    && forall i :: 0 <= i < |line.chunks| ==> ValidChunk(x, line.chunks[i])
  }

  // ---------------------------------------------------------------------------------------
  // Accepted inputs
  // ---------------------------------------------------------------------------------------

  /** The reader's state: records counted so far, completion seen, or rejected for good. */
  datatype Phase = Reading(records: nat) | Finished(records: nat) | Rejected

  function Advance(x: Expected, p: Phase, line: Line): Phase {
    match line
    case Blank => p
    case Record(_, _, _) => if p.Reading? && ValidRecord(x, line) then Reading(p.records + 1) else Rejected
    case Complete(n) => if p.Reading? && n == p.records then Finished(n) else Rejected
    case _ => Rejected
  }

  function Scan(x: Expected, lines: seq<Line>): Phase {
    if lines == [] then Reading(0) else Advance(x, Scan(x, lines[..|lines| - 1]), lines[|lines| - 1])
  }

  /** The records of the input, in order. */
  function Records(lines: seq<Line>): seq<Line> {
    if lines == [] then []
    else
      var front := Records(lines[..|lines| - 1]);
      if lines[|lines| - 1].Record? then front + [lines[|lines| - 1]] else front
  }

  ghost predicate OnlyRecords(x: Expected, lines: seq<Line>) {
    forall i :: 0 <= i < |lines| ==> lines[i].Blank? || ValidRecord(x, lines[i])
  }

  ghost predicate OnlyBlank(lines: seq<Line>) {
    forall i :: 0 <= i < |lines| ==> lines[i].Blank?
  }

  /** Valid records, one completion record with their number at line `c`, then blank lines. */
  ghost predicate CompletedAt(x: Expected, lines: seq<Line>, c: nat) {
    && c < |lines|
    && OnlyRecords(x, lines[..c])
    && lines[c] == Complete(|Records(lines[..c])|)
    && OnlyBlank(lines[c + 1..])
  }

  ghost predicate Accepted(x: Expected, lines: seq<Line>) {
    exists c: nat :: CompletedAt(x, lines, c)
  }

  lemma {:induction false} ReadingMeansOnlyRecords(x: Expected, lines: seq<Line>)
    ensures Scan(x, lines).Reading? <==> OnlyRecords(x, lines)
    ensures Scan(x, lines).Reading? ==> Scan(x, lines).records == |Records(lines)|
  {
    if lines != [] {
      var front, last := lines[..|lines| - 1], lines[|lines| - 1];
      assert lines == front + [last];
      ReadingMeansOnlyRecords(x, front);
    }
  }

  /** One more line: accepted if it is blank after an accepted input, or the completion record. */
  lemma AcceptedStep(x: Expected, front: seq<Line>, last: Line)
    ensures Accepted(x, front + [last])
      <==> (last.Blank? && Accepted(x, front)) || (OnlyRecords(x, front) && last == Complete(|Records(front)|))
  {
    var lines, n := front + [last], |front|;
    assert lines[..n] == front && lines[n + 1..] == [];
    forall c: nat | c < n ensures CompletedAt(x, lines, c) <==> last.Blank? && CompletedAt(x, front, c) {
      assert lines[..c] == front[..c];
      assert lines[c + 1..] == front[c + 1..] + [last];
      OnlyBlankStep(front[c + 1..], last);
    }
    assert CompletedAt(x, lines, n) <==> OnlyRecords(x, front) && last == Complete(|Records(front)|);
  }

  lemma OnlyBlankStep(front: seq<Line>, last: Line)
    ensures OnlyBlank(front + [last]) <==> OnlyBlank(front) && last.Blank?
  {
    var lines := front + [last];
    assert lines[|front|] == last && forall i :: 0 <= i < |front| ==> lines[i] == front[i];
  }

  /** The reader accepts exactly the inputs of that shape. */
  lemma {:induction false} FinishedMeansAccepted(x: Expected, lines: seq<Line>)
    ensures Scan(x, lines).Finished? <==> Accepted(x, lines)
  {
    if lines != [] {
      var front, last := lines[..|lines| - 1], lines[|lines| - 1];
      assert lines == front + [last];
      ReadingMeansOnlyRecords(x, front);
      FinishedMeansAccepted(x, front);
      AcceptedStep(x, front, last);
    }
  }

  // ---------------------------------------------------------------------------------------
  // The imported table, and what is pruned from it
  // ---------------------------------------------------------------------------------------

  function LegacyChunks(chunks: seq<ImportChunk>): seq<StoredChunk> {
    seq(|chunks|, i requires 0 <= i < |chunks| => StoredChunk(None, chunks[i].content, chunks[i].embedding, false))
  }

  /** Each stored chunk has the content and the embedding given at its own place, and no structure. */
  ghost predicate HoldsChunks(stored: seq<StoredChunk>, given: seq<ImportChunk>) {
    && |stored| == |given|
    && forall i :: 0 <= i < |given| ==>
      && stored[i].content == given[i].content && stored[i].vector == given[i].embedding
      && stored[i].key.None? && !stored[i].structured
  }

  lemma HoldsOnlyLegacy(stored: seq<StoredChunk>, given: seq<ImportChunk>)
    ensures HoldsChunks(stored, given) <==> stored == LegacyChunks(given)
  {
  }

  ghost predicate AllRecords(records: seq<Line>) {
    forall i :: 0 <= i < |records| ==> records[i].Record?
  }

  /** The records upserted in order. */
  ghost function Imported(t: Table, records: seq<Line>): Table
    requires AllRecords(records)
  {
    if records == [] then t
    else
      var last := records[|records| - 1];
      UpsertLegacy(Imported(t, records[..|records| - 1]), last.document, LegacyChunks(last.chunks))
  }

  ghost function Written(t: Table, records: seq<Line>): nat
    requires AllRecords(records)
  {
    if records == [] then 0
    else
      var front := records[..|records| - 1];
      Written(t, front) + (if NeedsUpdate(Imported(t, front), records[|records| - 1].document) then 1 else 0)
  }

  type Scope = (string, string)

  function ScopeOf(d: Document): Scope {
    (d.source, d.body.project)
  }

  /** Ids per (source, project) pair, as the import collects them. */
  type Seen = map<Scope, seq<string>>

  function Note(seen: Seen, d: Document): Seen {
    var scope := ScopeOf(d);
    seen[scope := (if scope in seen then seen[scope] else []) + [d.sourceId]]
  }

  ghost function SeenIn(records: seq<Line>): Seen
    requires AllRecords(records)
  {
    if records == [] then map[]
    else Note(SeenIn(records[..|records| - 1]), records[|records| - 1].document)
  }

  /** A row goes exactly when its own scope was seen and its id was not seen in it. */
  predicate Kept(t: Table, seen: Seen, k: Key)
    requires k in t
  {
    var scope := (k.source, t[k].body.project);
    scope in seen ==> k.sourceId in seen[scope]
  }

  function Pruned(t: Table, seen: Seen): Table {
    map k | k in t && Kept(t, seen, k) :: t[k]
  }

  lemma {:induction false} RecordsAreRecords(lines: seq<Line>)
    ensures AllRecords(Records(lines))
  {
    if lines != [] {
      RecordsAreRecords(lines[..|lines| - 1]);
    }
  }

  lemma ScanNext(x: Expected, before: seq<Line>, line: Line)
    ensures Scan(x, before + [line]) == Advance(x, Scan(x, before), line)
  {
    assert (before + [line])[..|before|] == before;
  }

  /** Table, records written and kept, and ids seen after some lines. */
  datatype Summary = Summary(rows: Table, imported: nat, kept: nat, seen: Seen)

  function Take(s: Summary, line: Line): Summary {
    if !line.Record? then s
    else
      var writes := NeedsUpdate(s.rows, line.document);
      Summary(UpsertLegacy(s.rows, line.document, LegacyChunks(line.chunks)),
              if writes then s.imported + 1 else s.imported, if writes then s.kept else s.kept + 1,
              Note(s.seen, line.document))
  }

  function SummaryOf(t: Table, lines: seq<Line>): Summary {
    if lines == [] then Summary(t, 0, 0, map[]) else Take(SummaryOf(t, lines[..|lines| - 1]), lines[|lines| - 1])
  }

  lemma SummaryNext(t: Table, before: seq<Line>, line: Line)
    ensures SummaryOf(t, before + [line]) == Take(SummaryOf(t, before), line)
  {
    assert (before + [line])[..|before|] == before;
  }

  /** Line by line comes to the same as all records together. */
  lemma {:induction false} SummaryMeans(t: Table, lines: seq<Line>)
    ensures AllRecords(Records(lines))
    ensures var s, records := SummaryOf(t, lines), Records(lines);
      && s.rows == Imported(t, records) && s.imported == Written(t, records)
      && s.imported + s.kept == |records| && s.seen == SeenIn(records)
  {
    if lines != [] {
      var front, line := lines[..|lines| - 1], lines[|lines| - 1];
      SummaryMeans(t, front);
      if line.Record? {
        RecordTaken(t, Records(front), line);
      }
    }
  }

  lemma RecordTaken(t: Table, records: seq<Line>, line: Line)
    requires AllRecords(records) && line.Record?
    ensures AllRecords(records + [line])
    ensures Imported(t, records + [line]) == UpsertLegacy(Imported(t, records), line.document, LegacyChunks(line.chunks))
    ensures Written(t, records + [line])
      == Written(t, records) + if NeedsUpdate(Imported(t, records), line.document) then 1 else 0
    ensures SeenIn(records + [line]) == Note(SeenIn(records), line.document)
  {
    ImportedNext(t, records, line);
    WrittenNext(t, records, line);
    SeenNext(records, line);
  }

  lemma ImportedNext(t: Table, records: seq<Line>, line: Line)
    requires AllRecords(records) && line.Record?
    ensures AllRecords(records + [line])
    ensures Imported(t, records + [line]) == UpsertLegacy(Imported(t, records), line.document, LegacyChunks(line.chunks))
  {
    assert (records + [line])[..|records|] == records;
  }

  lemma WrittenNext(t: Table, records: seq<Line>, line: Line)
    requires AllRecords(records) && line.Record? && AllRecords(records + [line])
    ensures Written(t, records + [line])
      == Written(t, records) + if NeedsUpdate(Imported(t, records), line.document) then 1 else 0
  {
    assert (records + [line])[..|records|] == records;
  }

  lemma SeenNext(records: seq<Line>, line: Line)
    requires AllRecords(records) && line.Record? && AllRecords(records + [line])
    ensures SeenIn(records + [line]) == Note(SeenIn(records), line.document)
  {
    assert (records + [line])[..|records|] == records;
  }

  /** A rejected input stays rejected. */
  lemma {:induction false} RejectedForGood(x: Expected, lines: seq<Line>, i: nat)
    requires i <= |lines| && Scan(x, lines[..i]) == Rejected
    ensures Scan(x, lines) == Rejected
    decreases |lines|
  {
    if i < |lines| {
      var front := lines[..|lines| - 1];
      assert front[..i] == lines[..i];
      RejectedForGood(x, front, i);
    } else {
      assert lines[..i] == lines;
    }
  }

  // ---------------------------------------------------------------------------------------
  // The import
  // ---------------------------------------------------------------------------------------

  datatype ImportError = BadInput | Incomplete | StoreFailed

  datatype Totals = Totals(imported: nat, kept: nat, deleted: nat)

  /** Check the chunks of one record and cache their embeddings. */
  method CheckChunks(store: DocumentStore, x: Expected, chunks: seq<ImportChunk>)
    returns (r: Result<seq<StoredChunk>, ImportError>)
    modifies store`faulted
    ensures r.Ok? ==> HoldsChunks(r.value, chunks)
    ensures r.Ok? ==> forall i :: 0 <= i < |chunks| ==>
      |chunks[i].embedding| == x.dimension && exists p :: 0 <= p < |chunks[i].content| && !IsSpace(Rust, chunks[i].content[p])
    ensures r == Err(StoreFailed) ==> store.faulted
    ensures r != Err(StoreFailed) ==> store.faulted == old(store.faulted)
    ensures r.Err? ==> r.error in {BadInput, StoreFailed}
    ensures r.Err? && r.error != StoreFailed ==>
      r.error == BadInput && exists i :: 0 <= i < |chunks| && !ValidChunk(x, chunks[i])
  {
    var checked := [];
    for i := 0 to |chunks|
      invariant HoldsChunks(checked, chunks[..i])
      invariant forall j :: 0 <= j < i ==> ValidChunk(x, chunks[j])
      invariant store.faulted == old(store.faulted)
    {
      if IsBlank(Rust, chunks[i].content) {
        return Err(BadInput);
      }
      if |chunks[i].embedding| != x.dimension {
        return Err(BadInput);
      }
      var cached := store.Touch();
      if cached.Err? {
        return Err(StoreFailed);
      }
      checked := checked + [StoredChunk(None, chunks[i].content, chunks[i].embedding, false)];
    }
    assert chunks[..|chunks|] == chunks;
    forall i | 0 <= i < |chunks|
      ensures exists p :: 0 <= p < |chunks[i].content| && !IsSpace(Rust, chunks[i].content[p])
    {
      assert ValidChunk(x, chunks[i]);
    }
    return Ok(checked);
  }

  /** The seen scopes that are not among those left. */
  function Part(seen: Seen, left: set<Scope>): Seen {
    map s | s in seen && s !in left :: seen[s]
  }

  /** Pruning one more scope. */
  lemma PruneOne(t: Table, seen: Seen, left: set<Scope>, scope: Scope)
    requires scope in seen && scope in left
    ensures Reconcile(Pruned(t, Part(seen, left)), scope.0, scope.1, set id | id in seen[scope])
      == Pruned(t, Part(seen, left - {scope}))
  {
    var a := Reconcile(Pruned(t, Part(seen, left)), scope.0, scope.1, set id | id in seen[scope]);
    var b := Pruned(t, Part(seen, left - {scope}));
    forall k | k in t ensures k in a <==> k in b {
      assert (k.source, t[k].body.project) == scope <==> k.source == scope.0 && t[k].body.project == scope.1;
    }
  }

  lemma PruneNoneOrAll(t: Table, seen: Seen)
    ensures Pruned(t, Part(seen, seen.Keys)) == t && Part(seen, {}) == seen
  {
  }

  lemma DeletedCount(before: Table, after: Table)
    requires after.Keys <= before.Keys
    ensures |before.Keys - after.Keys| == |before.Keys| - |after.Keys|
  {
    assert before.Keys == after.Keys + (before.Keys - after.Keys);
  }

  /** Some of the seen scopes have been reconciled. */
  ghost predicate PartlyPruned(t: Table, t': Table, seen: Seen) {
    exists left: set<Scope> :: t' == Pruned(t, Part(seen, left))
  }

  /** Reconcile the seen scopes in whatever order the hash map yields them. */
  method ReconcileSeen(store: DocumentStore, seen: Seen) returns (r: Result<nat, ImportError>)
    modifies store
    ensures r.Ok? ==> store.rows == Pruned(old(store.rows), seen)
    ensures r.Ok? ==> r.value == |old(store.rows).Keys| - |store.rows.Keys|
    ensures r.Err? ==> r.error == StoreFailed && store.faulted
    ensures r.Ok? ==> store.faulted == old(store.faulted)
    ensures PartlyPruned(old(store.rows), store.rows, seen)
  {
    ghost var t := store.rows;
    var left := seen.Keys;
    var deleted := 0;
    PruneNoneOrAll(t, seen);
    while left != {}
      invariant left <= seen.Keys && store.rows == Pruned(t, Part(seen, left))
      invariant deleted == |t.Keys| - |store.rows.Keys|
      invariant store.faulted == old(store.faulted)
      decreases left
    {
      var scope :| scope in left;
      ghost var before := store.rows;
      var result := store.Reconcile(scope.0, scope.1, seen[scope]);
      if result.Err? {
        return Err(StoreFailed);
      }
      PruneOne(t, seen, left, scope);
      DeletedCount(before, store.rows);
      deleted := deleted + result.value;
      left := left - {scope};
    }
    return Ok(deleted);
  }

  /** The state the import keeps while it reads. */
  class ImportRun {
    const store: DocumentStore
    const expected: Expected
    var imported: nat
    var kept: nat
    var completed: bool
    var seen: Seen
    ghost const start: Table

    constructor (store: DocumentStore, expected: Expected)
      ensures this.store == store && this.expected == expected && start == store.rows
      ensures Valid([])
    {
      this.store, this.expected, start := store, expected, store.rows;
      imported, kept, completed, seen := 0, 0, false, map[];
    }

    /** The state after reading `lines`. */
    ghost predicate Valid(lines: seq<Line>)
      reads this, store
    {
      && Scan(expected, lines) == PhaseNow()
      && Summary(store.rows, imported, kept, seen) == SummaryOf(start, lines)
    }

    /** Read one record; nothing is written for a record that is refused. */
    method ReadRecord(ghost before: seq<Line>, line: Line) returns (error: Option<ImportError>)
      requires Valid(before) && line.Record?
      modifies this, store
      ensures error.None? ==> Valid(before + [line]) && store.faulted == old(store.faulted)
      ensures error.Some? ==> store.rows == old(store.rows)
      ensures error == Some(StoreFailed) ==> store.faulted
      ensures error.Some? && error.value != StoreFailed ==>
        Scan(expected, before + [line]) == Rejected && store.faulted == old(store.faulted)
      ensures error.Some? ==> error.value in {BadInput, StoreFailed}
    {
      ScanNext(expected, before, line);
      var checked := CheckRecord(line);
      if checked.Err? {
        return Some(checked.error);
      }
      SummaryNext(start, before, line);
      seen := Note(seen, line.document);
      var written := store.UpsertLegacy(line.document, checked.value);
      if written.Err? {
        return Some(StoreFailed);
      }
      if written.value {
        imported := imported + 1;
      } else {
        kept := kept + 1;
      }
      return None;
    }

    ghost function PhaseNow(): Phase
      reads this
    {
      if completed then Finished(imported + kept) else Reading(imported + kept)
    }

    /** The checks on one record. */
    method CheckRecord(line: Line) returns (r: Result<seq<StoredChunk>, ImportError>)
      requires line.Record?
      modifies store`faulted
      ensures r.Ok? ==> Advance(expected, PhaseNow(), line) == Reading(imported + kept + 1) && !completed
      ensures r.Ok? ==> r.value == LegacyChunks(line.chunks)
      ensures r.Err? ==> r.error in {BadInput, StoreFailed}
      ensures r == Err(BadInput) ==> Advance(expected, PhaseNow(), line) == Rejected
      ensures r == Err(StoreFailed) ==> store.faulted
      ensures r != Err(StoreFailed) ==> store.faulted == old(store.faulted)
    {
      if completed || line.fingerprint != expected.fingerprint || line.chunks == [] {
        return Err(BadInput);
      }
      r := CheckChunks(store, expected, line.chunks);
      if r.Ok? {
        HoldsOnlyLegacy(r.value, line.chunks);
      }
    }

    /** Read one line. */
    method ReadLine(ghost before: seq<Line>, line: Line) returns (error: Option<ImportError>)
      requires Valid(before)
      modifies this, store
      ensures error.None? ==> Valid(before + [line]) && store.faulted == old(store.faulted)
      ensures error.Some? ==> store.rows == old(store.rows)
      ensures error == Some(StoreFailed) ==> store.faulted
      ensures error.Some? && error.value != StoreFailed ==>
        Scan(expected, before + [line]) == Rejected && store.faulted == old(store.faulted)
      ensures error == Some(Incomplete) ==>
        Scan(expected, before).Reading? && line.Complete? && line.records != |Records(before)|
    {
      ScanNext(expected, before, line);
      SummaryNext(start, before, line);
      match line
      case Blank => return None;
      case Broken => return Some(BadInput);
      case Garbled => return Some(BadInput);
      case Complete(records) =>
        if completed {
          return Some(BadInput);
        }
        if records != imported + kept {
          SummaryMeans(start, before);
          return Some(Incomplete);
        }
        completed := true;
        return None;
      case Record(_, _, _) =>
        error := ReadRecord(before, line);
    }

    /** Read the whole input, or up to the line that is refused. */
    method ReadAll(lines: seq<Line>) returns (error: Option<ImportError>)
      requires Valid([]) && start == store.rows
      modifies this, store
      ensures error.None? ==> Valid(lines) && store.faulted == old(store.faulted)
      ensures error.Some? ==> start.Keys <= store.rows.Keys && ReadingFails(expected, lines, error.value)
      ensures error == Some(StoreFailed) ==> store.faulted
      ensures error.Some? && error.value != StoreFailed ==> store.faulted == old(store.faulted)
    {
      for i := 0 to |lines|
        invariant Valid(lines[..i]) && store.faulted == old(store.faulted)
      {
        LastOfPart(lines, i);
        SummaryMeans(start, lines[..i]);
        ImportKeepsRows(start, Records(lines[..i]));
        error := ReadLine(lines[..i], lines[i]);
        if error.Some? {
          if error.value != StoreFailed {
            RefusedLine(expected, lines, i, error.value);
          }
          return;
        }
      }
      WholePart(lines);
      return None;
    }
  }

  /** Valid records, then a completion record with another number. */
  ghost predicate MiscountedAt(x: Expected, lines: seq<Line>, c: nat) {
    c < |lines| && OnlyRecords(x, lines[..c]) && lines[c].Complete? && lines[c].records != |Records(lines[..c])|
  }

  /** Why reading ends early. */
  ghost predicate ReadingFails(x: Expected, lines: seq<Line>, error: ImportError) {
    && (error != StoreFailed ==> !Accepted(x, lines) && !OnlyRecords(x, lines))
    && (error == Incomplete ==> exists c :: MiscountedAt(x, lines, c))
  }

  /** A line that is refused decides the whole input. */
  lemma RefusedLine(x: Expected, lines: seq<Line>, i: nat, error: ImportError)
    requires i < |lines| && Scan(x, lines[..i + 1]) == Rejected
    requires error == Incomplete ==>
      Scan(x, lines[..i]).Reading? && lines[i].Complete? && lines[i].records != |Records(lines[..i])|
    ensures ReadingFails(x, lines, error)
  {
    RejectedForGood(x, lines, i + 1);
    FinishedMeansAccepted(x, lines);
    ReadingMeansOnlyRecords(x, lines);
    ReadingMeansOnlyRecords(x, lines[..i]);
    assert error == Incomplete ==> MiscountedAt(x, lines, i);
  }

  function KeysOf(records: seq<Line>): set<Key>
    requires AllRecords(records)
  {
    set i | 0 <= i < |records| :: KeyOf(records[i].document)
  }

  lemma {:induction false} ImportKeepsRows(t: Table, records: seq<Line>)
    requires AllRecords(records)
    ensures Imported(t, records).Keys == t.Keys + KeysOf(records)
  {
    if records != [] {
      var front, last := records[..|records| - 1], records[|records| - 1];
      ImportKeepsRows(t, front);
      assert records == front + [last];
      KeysOfLast(front, last);
    } else {
      assert KeysOf(records) == {};
    }
  }

  lemma KeysOfLast(front: seq<Line>, last: Line)
    requires AllRecords(front) && last.Record?
    ensures AllRecords(front + [last]) && KeysOf(front + [last]) == KeysOf(front) + {KeyOf(last.document)}
  {
    var all := front + [last];
    assert all[|front|] == last && forall i :: 0 <= i < |front| ==> all[i] == front[i];
    forall k | k in KeysOf(front) ensures k in KeysOf(all) {
      var i :| 0 <= i < |front| && KeyOf(front[i].document) == k;
      assert all[i] == front[i];
    }
  }

  /** The row is the record's: its body and times, and its chunks one by one. */
  ghost predicate RowOf(row: Row, line: Line)
    requires line.Record?
  {
    && row.body == line.document.body && row.observedAt == line.document.observedAt
    && row.updatedAt == line.document.updatedAt
    && row.hasContent == (line.document.body.content != "") && row.parserCurrent
    && HoldsChunks(row.chunks, line.chunks)
  }

  /** A row that needs no write for the record: same body, content not empty, parse current. */
  ghost predicate Agrees(row: Row, line: Line)
    requires line.Record?
  {
    row.body == line.document.body && row.hasContent && row.parserCurrent
  }

  /** `row` was written for record `i`, and the later records of its key found nothing to write. */
  ghost predicate WrittenFor(records: seq<Line>, k: Key, row: Row, i: nat)
    requires AllRecords(records)
  {
    && i < |records| && KeyOf(records[i].document) == k && RowOf(row, records[i])
    && forall j :: i < j < |records| && KeyOf(records[j].document) == k ==> Agrees(row, records[j])
  }

  /** `row` was there before, and no record of its key found anything to write. */
  ghost predicate LeftAlone(t: Table, records: seq<Line>, k: Key, row: Row)
    requires AllRecords(records)
  {
    && k in t && row == t[k]
    && forall j :: 0 <= j < |records| && KeyOf(records[j].document) == k ==> Agrees(row, records[j])
  }

  /** Where a row comes from after the import. */
  ghost predicate RowIsGiven(t: Table, records: seq<Line>, k: Key, row: Row)
    requires AllRecords(records)
  {
    LeftAlone(t, records, k, row) || exists i :: WrittenFor(records, k, row, i)
  }

  /** Every row is the record's that was last written under its key, or as it was before. */
  lemma {:induction false} RowsAreGiven(t: Table, records: seq<Line>, k: Key)
    requires AllRecords(records) && k in Imported(t, records)
    ensures RowIsGiven(t, records, k, Imported(t, records)[k])
  {
    if records != [] {
      var n := |records| - 1;
      var front, last := records[..n], records[n];
      var before, d := Imported(t, front), last.document;
      HoldsOnlyLegacy(LegacyChunks(last.chunks), last.chunks);
      if KeyOf(d) == k && NeedsUpdate(before, d) {
        assert WrittenFor(records, k, Imported(t, records)[k], n);
      } else {
        RowsAreGiven(t, front, k);
        GivenFurther(t, front, last, k, before[k]);
        assert records == front + [last];
      }
    }
  }

  lemma GivenFurther(t: Table, front: seq<Line>, last: Line, k: Key, row: Row)
    requires AllRecords(front) && last.Record? && RowIsGiven(t, front, k, row)
    requires KeyOf(last.document) == k ==> Agrees(row, last)
    ensures AllRecords(front + [last]) && RowIsGiven(t, front + [last], k, row)
  {
    var all := front + [last];
    assert all[|front|] == last && forall i :: 0 <= i < |front| ==> all[i] == front[i];
    if i :| WrittenFor(front, k, row, i) {
      assert WrittenFor(all, k, row, i);
    }
  }

  /** For keys that do not repeat, the number imported is that of the records whose row did not agree before. */
  lemma {:induction false} ImportedCountsChanged(t: Table, records: seq<Line>)
    requires AllRecords(records)
    requires forall i, j :: 0 <= i < j < |records| ==> KeyOf(records[i].document) != KeyOf(records[j].document)
    ensures Written(t, records) == |Changed(t, records)|
  {
    if records == [] {
      assert Changed(t, records) == {};
    } else {
      var n := |records| - 1;
      var front, d := records[..n], records[n].document;
      ImportedCountsChanged(t, front);
      ImportLeavesOthers(t, front, KeyOf(d));
      assert records == front + [records[n]];
      ChangedFurther(t, front, records[n]);
    }
  }

  lemma ChangedFurther(t: Table, front: seq<Line>, last: Line)
    requires AllRecords(front) && last.Record?
    ensures AllRecords(front + [last]) && |front| !in Changed(t, front)
    ensures Changed(t, front + [last])
      == Changed(t, front)
        + if KeyOf(last.document) in t && Agrees(t[KeyOf(last.document)], last) then {} else {|front|}
  {
    var all := front + [last];
    assert all[|front|] == last && forall i :: 0 <= i < |front| ==> all[i] == front[i];
  }

  /** The places of the records whose key has no row, or one that does not agree. */
  ghost function Changed(t: Table, records: seq<Line>): set<nat>
    requires AllRecords(records)
  {
    set i: nat | i < |records| && !(KeyOf(records[i].document) in t && Agrees(t[KeyOf(records[i].document)], records[i]))
  }

  lemma {:induction false} ImportLeavesOthers(t: Table, records: seq<Line>, k: Key)
    requires AllRecords(records) && forall i :: 0 <= i < |records| ==> KeyOf(records[i].document) != k
    ensures Lookup(Imported(t, records), k) == Lookup(t, k)
  {
    if records != [] {
      ImportLeavesOthers(t, records[..|records| - 1], k);
    }
  }

  /** What an accepted input leaves in the index. */
  ghost function Outcome(t: Table, records: seq<Line>, reconcile: bool): Table
    requires AllRecords(records)
  {
    if reconcile then Pruned(Imported(t, records), SeenIn(records)) else Imported(t, records)
  }

  /** Some record is of that source and project. */
  ghost predicate Named(records: seq<Line>, source: string, project: string)
    requires AllRecords(records)
  {
    exists i :: 0 <= i < |records| && records[i].document.source == source && records[i].document.body.project == project
  }

  /** Some record of that source and project has the id. */
  ghost predicate NamedWith(records: seq<Line>, source: string, project: string, id: string)
    requires AllRecords(records)
  {
    exists i :: 0 <= i < |records| && records[i].document.source == source
      && records[i].document.body.project == project && records[i].document.sourceId == id
  }

  /** The row is under a source and project of the input, which has no such id there. */
  ghost predicate Unlisted(records: seq<Line>, k: Key, row: Row)
    requires AllRecords(records)
  {
    Named(records, k.source, row.body.project) && !NamedWith(records, k.source, row.body.project, k.sourceId)
  }

  lemma KeptIffListed(t: Table, records: seq<Line>, k: Key)
    requires AllRecords(records) && k in t
    ensures Kept(t, SeenIn(records), k) <==> !Unlisted(records, k, t[k])
  {
    SeenExactly(records);
    var scope := (k.source, t[k].body.project);
    if scope in SeenIn(records) {
      assert SeenIn(records)[scope][0] in SeenIn(records)[scope];
    }
    if Named(records, k.source, t[k].body.project) {
      assert scope in SeenIn(records);
    }
  }

  /** A reconciling import deletes exactly the unlisted rows of the sources and projects of its input. */
  lemma DeletesExactlyUnlisted(t: Table, records: seq<Line>, k: Key)
    requires AllRecords(records) && k in t.Keys + KeysOf(records)
    ensures k !in Outcome(t, records, true) <==> k in Imported(t, records) && Unlisted(records, k, Imported(t, records)[k])
    ensures k !in Outcome(t, records, true) ==> exists row :: RowIsGiven(t, records, k, row) && Unlisted(records, k, row)
    ensures k in Outcome(t, records, true) ==> !Unlisted(records, k, Outcome(t, records, true)[k])
  {
    ImportKeepsRows(t, records);
    KeptIffListed(Imported(t, records), records, k);
    RowsAreGiven(t, records, k);
  }

  lemma OutcomeIsGiven(t: Table, records: seq<Line>, reconcile: bool)
    requires AllRecords(records)
    ensures forall k :: k in Outcome(t, records, reconcile) ==>
      RowIsGiven(t, records, k, Outcome(t, records, reconcile)[k])
  {
    forall k | k in Outcome(t, records, reconcile) ensures RowIsGiven(t, records, k, Outcome(t, records, reconcile)[k]) {
      RowsAreGiven(t, records, k);
    }
  }

  lemma OutcomeDeletes(t: Table, records: seq<Line>)
    requires AllRecords(records)
    ensures DeletedUnlisted(t, records, Outcome(t, records, true))
  {
    forall k | k in t.Keys + KeysOf(records)
      ensures k !in Outcome(t, records, true) ==> exists row :: RowIsGiven(t, records, k, row) && Unlisted(records, k, row)
      ensures k in Outcome(t, records, true) ==> !Unlisted(records, k, Outcome(t, records, true)[k])
    {
      DeletesExactlyUnlisted(t, records, k);
    }
    ImportKeepsRows(t, records);
  }

  /** No row of `t'` is unlisted, and every row that is missing was. */
  ghost predicate DeletedUnlisted(t: Table, records: seq<Line>, t': Table)
    requires AllRecords(records)
  {
    && t'.Keys <= t.Keys + KeysOf(records)
    && (forall k :: k in t' ==> !Unlisted(records, k, t'[k]))
    && (forall k :: k in t.Keys + KeysOf(records) && k !in t' ==>
          exists row :: RowIsGiven(t, records, k, row) && Unlisted(records, k, row))
  }

  /**
    `import_embeddings`. Without a store failure the import succeeds exactly on accepted inputs;
    it deletes only in that case, only when reconciling, and only from scopes in the input.
    */
  method ImportEmbeddings(store: DocumentStore, x: Expected, lines: seq<Line>, reconcile: bool)
    returns (r: Result<Totals, ImportError>)
    modifies store
    ensures AllRecords(Records(lines))
    ensures r.Ok? ==> Accepted(x, lines)
    ensures r.Err? && r.error != StoreFailed ==> !Accepted(x, lines) && store.faulted == old(store.faulted)
    ensures r == Err(StoreFailed) ==> store.faulted
    ensures OnlyRecords(x, lines) ==> r in {Err(Incomplete), Err(StoreFailed)}
    ensures r == Err(Incomplete) ==> OnlyRecords(x, lines) || exists c :: MiscountedAt(x, lines, c)
    ensures r.Ok? ==> store.rows == Outcome(old(store.rows), Records(lines), reconcile)
    ensures r.Ok? ==> forall k :: k in store.rows ==> RowIsGiven(old(store.rows), Records(lines), k, store.rows[k])
    ensures r.Ok? && reconcile ==> DeletedUnlisted(old(store.rows), Records(lines), store.rows)
    ensures r.Ok? && !reconcile ==> store.rows.Keys == old(store.rows).Keys + KeysOf(Records(lines))
    ensures r.Ok? ==> r.value.imported == Written(old(store.rows), Records(lines))
    ensures r.Ok? ==> r.value.imported + r.value.kept == |Records(lines)|
    ensures r.Ok? ==> r.value.deleted == |old(store.rows).Keys + KeysOf(Records(lines))| - |store.rows.Keys|
    ensures !(reconcile && Accepted(x, lines)) ==> old(store.rows).Keys <= store.rows.Keys
    ensures reconcile && r.Err? && Accepted(x, lines) ==>
      || old(store.rows).Keys <= store.rows.Keys
      || PartlyPruned(Imported(old(store.rows), Records(lines)), store.rows, SeenIn(Records(lines)))
  {
    ghost var t := store.rows;
    RecordsAreRecords(lines);
    FinishedMeansAccepted(x, lines);
    ReadingMeansOnlyRecords(x, lines);
    ImportKeepsRows(t, Records(lines));
    var run := new ImportRun(store, x);
    var error := run.ReadAll(lines);
    if error.Some? {
      return Err(error.value);
    }
    SummaryMeans(t, lines);
    if !run.completed {
      return Err(Incomplete);
    }
    var deleted := 0;
    if reconcile {
      var result := ReconcileSeen(store, run.seen);
      if result.Err? {
        return Err(StoreFailed);
      }
      deleted := result.value;
    }
    var pruned := store.Touch();
    if pruned.Err? {
      return Err(StoreFailed);
    }
    OutcomeIsGiven(t, Records(lines), reconcile);
    OutcomeDeletes(t, Records(lines));
    return Ok(Totals(run.imported, run.kept, deleted));
  }

  // ---------------------------------------------------------------------------------------
  // When a reconciling import is an exact mirror of its input
  // ---------------------------------------------------------------------------------------

  /** No document appears under two projects. */
  ghost predicate OneProjectPerKey(records: seq<Line>)
    requires AllRecords(records)
  {
    forall i, j :: 0 <= i < j < |records| && KeyOf(records[i].document) == KeyOf(records[j].document) ==>
      records[i].document.body.project == records[j].document.body.project
  }

  ghost predicate MirrorsInput(t: Table, records: seq<Line>)
    requires AllRecords(records)
  {
    forall s :: s in SeenIn(records) ==> Ids(t, s.0, s.1) == set id | id in SeenIn(records)[s]
  }

  lemma {:induction false} SeenExactly(records: seq<Line>)
    requires AllRecords(records)
    ensures forall i :: 0 <= i < |records| ==>
      && ScopeOf(records[i].document) in SeenIn(records)
      && records[i].document.sourceId in SeenIn(records)[ScopeOf(records[i].document)]
    ensures forall s, id :: s in SeenIn(records) && id in SeenIn(records)[s] ==>
      exists i :: 0 <= i < |records| && ScopeOf(records[i].document) == s && records[i].document.sourceId == id
    ensures forall s :: s in SeenIn(records) ==> SeenIn(records)[s] != []
  {
    if records != [] {
      var n := |records| - 1;
      var front := records[..n];
      SeenExactly(front);
      var d := records[n].document;
      forall i | 0 <= i < |records|
        ensures ScopeOf(records[i].document) in SeenIn(records)
        ensures records[i].document.sourceId in SeenIn(records)[ScopeOf(records[i].document)]
      {
        if i < n {
          assert front[i] == records[i];
        }
      }
      forall s, id | s in SeenIn(records) && id in SeenIn(records)[s]
        ensures exists i :: 0 <= i < |records| && ScopeOf(records[i].document) == s && records[i].document.sourceId == id
      {
        if s in SeenIn(front) && id in SeenIn(front)[s] {
          var i :| 0 <= i < |front| && ScopeOf(front[i].document) == s && front[i].document.sourceId == id;
          assert records[i] == front[i];
        } else {
          assert ScopeOf(d) == s && d.sourceId == id;
        }
      }
    }
  }

  /** The last record of a key decides its row. */
  lemma {:induction false} LastRecordWins(t: Table, records: seq<Line>, last: nat)
    requires AllRecords(records) && last < |records|
    requires forall j :: last < j < |records| ==> KeyOf(records[j].document) != KeyOf(records[last].document)
    ensures var k := KeyOf(records[last].document);
      k in Imported(t, records) && Imported(t, records)[k].body == records[last].document.body
    decreases |records|
  {
    if last < |records| - 1 {
      LastRecordWins(t, records[..|records| - 1], last);
    }
  }

  lemma LastRecordOf(records: seq<Line>, i: nat) returns (last: nat)
    requires AllRecords(records) && i < |records|
    ensures i <= last < |records| && KeyOf(records[last].document) == KeyOf(records[i].document)
    ensures forall j :: last < j < |records| ==> KeyOf(records[j].document) != KeyOf(records[i].document)
  {
    last := i;
    for j := i + 1 to |records|
      invariant i <= last < j && KeyOf(records[last].document) == KeyOf(records[i].document)
      invariant forall x :: last < x < j ==> KeyOf(records[x].document) != KeyOf(records[i].document)
    {
      if KeyOf(records[j].document) == KeyOf(records[i].document) {
        last := j;
      }
    }
  }

  /**
    A reconciling import leaves exactly the ids it saw under every scope it saw, if and only if
    no document was given under two projects.
    */
  lemma ReconcilingImportMirrorsIff(t: Table, records: seq<Line>)
    requires AllRecords(records)
    ensures MirrorsInput(Outcome(t, records, true), records) <==> OneProjectPerKey(records)
  {
    SeenExactly(records);
    if OneProjectPerKey(records) {
      MirrorsWhenOneProject(t, records);
    } else {
      var i, j :| 0 <= i < j < |records| && KeyOf(records[i].document) == KeyOf(records[j].document)
        && records[i].document.body.project != records[j].document.body.project;
      var last := LastRecordOf(records, i);
      var moved := if records[i].document.body.project != records[last].document.body.project then i else j;
      MovedRecordIsMissing(t, records, moved, last);
    }
  }

  lemma MirrorsWhenOneProject(t: Table, records: seq<Line>)
    requires AllRecords(records) && OneProjectPerKey(records)
    ensures MirrorsInput(Outcome(t, records, true), records)
  {
    SeenExactly(records);
    var t' := Outcome(t, records, true);
    forall s | s in SeenIn(records) ensures Ids(t', s.0, s.1) == set id | id in SeenIn(records)[s] {
      forall id | id in SeenIn(records)[s] ensures id in Ids(t', s.0, s.1) {
        SeenIsHeld(t, records, s, id);
      }
      forall id | id in Ids(t', s.0, s.1) ensures id in SeenIn(records)[s] {
        var k :| k in t' && InScope(t', k, s.0, s.1) && k.sourceId == id;
        assert Kept(Imported(t, records), SeenIn(records), k);
      }
    }
  }

  lemma SeenIsHeld(t: Table, records: seq<Line>, s: Scope, id: string)
    requires AllRecords(records) && OneProjectPerKey(records) && s in SeenIn(records) && id in SeenIn(records)[s]
    ensures id in Ids(Outcome(t, records, true), s.0, s.1)
  {
    SeenExactly(records);
    var i :| 0 <= i < |records| && ScopeOf(records[i].document) == s && records[i].document.sourceId == id;
    ImportedInProject(t, records, i);
    var k, t' := KeyOf(records[i].document), Outcome(t, records, true);
    assert k in t' && InScope(t', k, s.0, s.1);
  }

  lemma ImportedInProject(t: Table, records: seq<Line>, i: nat)
    requires AllRecords(records) && OneProjectPerKey(records) && i < |records|
    ensures var k := KeyOf(records[i].document);
      k in Imported(t, records) && Imported(t, records)[k].body.project == records[i].document.body.project
  {
    var last := LastRecordOf(records, i);
    LastRecordWins(t, records, last);
  }

  lemma MovedRecordIsMissing(t: Table, records: seq<Line>, moved: nat, last: nat)
    requires AllRecords(records) && moved < |records| && last < |records|
    requires KeyOf(records[moved].document) == KeyOf(records[last].document)
    requires records[moved].document.body.project != records[last].document.body.project
    requires forall j :: last < j < |records| ==> KeyOf(records[j].document) != KeyOf(records[last].document)
    ensures !MirrorsInput(Outcome(t, records, true), records)
  {
    SeenExactly(records);
    LastRecordWins(t, records, last);
    var d := records[moved].document;
    var s := ScopeOf(d);
    var t' := Outcome(t, records, true);
    forall k | k in t' && InScope(t', k, s.0, s.1) ensures k.sourceId != d.sourceId {
      assert k.sourceId == d.sourceId ==> k == KeyOf(d);
    }
    var seen := set id | id in SeenIn(records)[s];
    assert d.sourceId in seen && d.sourceId !in Ids(t', s.0, s.1);
    assert Ids(t', s.0, s.1) != seen;
  }
}
