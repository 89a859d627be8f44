/** Results of fallible operations, and optional values. */
module Wrappers {
  datatype Option<+T> = None | Some(value: T)

  datatype Result<+T, +E> = Ok(value: T) | Err(error: E)
}

/**
  Canonical documents and the index table they are stored in
  (crates/core/src/model.rs, crates/core/src/store.rs).

  The SHA-256 of the canonical JSON of a document is taken to be injective, so the
  hashed part of a document, `Body`, stands for its own hash. The observation time
  that the hash leaves out is a field of its own.
  */
module Documents {
  import opened Wrappers

  type Vector = seq<real>

  datatype Metadata = NotObject | Object(entries: map<string, string>)

  /** Everything that enters the content hash. */
  datatype Body = Body(
    title: string,
    content: string,
    uri: Option<string>,
    project: string,
    acl: seq<string>,
    metadata: Metadata)

  datatype Document = Document(
    source: string,
    sourceId: string,
    body: Body,
    observedAt: Option<int>,
    updatedAt: int)

  /** Rows are unique by source and source id. The project is not part of the key. */
  datatype Key = Key(source: string, sourceId: string)

  datatype ChunkSpec = ChunkSpec(key: string, content: string)

  /** `structured` says that the chunk carries the current chunking policy version; legacy chunks have no key. */
  datatype StoredChunk = StoredChunk(key: Option<string>, content: string, vector: Vector, structured: bool)

  /**
    A document row with its derived chunks. `hasContent` is false for rows whose content
    column is empty; `parserCurrent` says that the code index is the one the present
    parser would produce.
    */
  datatype Row = Row(
    body: Body,
    hasContent: bool,
    observedAt: Option<int>,
    updatedAt: int,
    parserCurrent: bool,
    chunks: seq<StoredChunk>)

  type Table = map<Key, Row>

  function KeyOf(d: Document): Key {
    Key(d.source, d.sourceId)
  }

  function Keys(docs: seq<Document>): set<Key> {
    set d | d in docs :: KeyOf(d)
  }

  ghost predicate DistinctKeys(docs: seq<Document>) {
    forall i, j :: 0 <= i < j < |docs| ==> KeyOf(docs[i]) != KeyOf(docs[j])
  }

  function Lookup(t: Table, k: Key): Option<Row> {
    if k in t then Some(t[k]) else None
  }

  /** The canonical row already holds this document (`needs_update` is false). */
  predicate CanonicalCurrent(r: Row, d: Document) {
    r.body == d.body && r.hasContent && r.parserCurrent
  }

  /** The derived chunks follow the structured policy as well. */
  predicate Current(r: Row, d: Document) {
    CanonicalCurrent(r, d) && r.chunks != [] && r.chunks[0].structured
  }

  predicate NeedsUpdate(t: Table, d: Document) {
    !(KeyOf(d) in t && CanonicalCurrent(t[KeyOf(d)], d))
  }

  predicate NeedsStructuredUpdate(t: Table, d: Document) {
    !(KeyOf(d) in t && Current(t[KeyOf(d)], d))
  }

  function StoredRow(d: Document, chunks: seq<StoredChunk>): Row {
    Row(d.body, d.body.content != "", d.observedAt, d.updatedAt, true, chunks)
  }

  /** `upsert_structured`: a current row is left as it is, anything else is replaced. */
  function UpsertStructured(t: Table, d: Document, chunks: seq<StoredChunk>): Table {
    if NeedsStructuredUpdate(t, d) then t[KeyOf(d) := StoredRow(d, chunks)] else t
  }

  /** `upsert`, the legacy form: the chunking policy is not consulted. */
  function UpsertLegacy(t: Table, d: Document, chunks: seq<StoredChunk>): Table {
    if NeedsUpdate(t, d) then t[KeyOf(d) := StoredRow(d, chunks)] else t
  }

  /** `refresh_timestamp` */
  function RefreshTimestamp(t: Table, d: Document): Table {
    if KeyOf(d) in t then t[KeyOf(d) := t[KeyOf(d)].(updatedAt := d.updatedAt)] else t
  }

  predicate InScope(t: Table, k: Key, source: string, project: string)
    requires k in t
  {
    k.source == source && t[k].body.project == project
  }

  /** `reconcile`: drop the rows of one scope whose id the snapshot did not contain. */
  function Reconcile(t: Table, source: string, project: string, seen: set<string>): Table {
    map k | k in t && !(InScope(t, k, source, project) && k.sourceId !in seen) :: t[k]
  }

  /** The ids stored under one (source, project) scope. */
  function Ids(t: Table, source: string, project: string): set<string> {
    set k | k in t && InScope(t, k, source, project) :: k.sourceId
  }
}

/** The index database as a mutable object whose statements may fail. */
module Store {
  import opened Wrappers
  import opened Documents

  datatype Fault = IoFault

  class DocumentStore {
    var rows: Table
    /** Raised by the first statement that fails, never lowered. */
    var faulted: bool

    constructor (rows: Table)
      ensures this.rows == rows && !faulted
    {
      this.rows := rows;
      faulted := false;
    }

    /** One statement that touches no document row: progress and run records. */
    method Touch() returns (r: Result<(), Fault>)
      modifies this`faulted
      ensures r.Err? ==> faulted
      ensures r.Ok? ==> faulted == old(faulted)
    {
      if * {
        faulted := true;
        return Err(IoFault);
      }
      return Ok(());
    }

    method NeedsStructuredUpdate(d: Document) returns (r: Result<bool, Fault>)
      modifies this`faulted
      ensures r.Err? ==> faulted
      ensures r.Ok? ==> faulted == old(faulted) && r.value == Documents.NeedsStructuredUpdate(rows, d)
    {
      var io := Touch();
      if io.Err? {
        return Err(IoFault);
      }
      return Ok(Documents.NeedsStructuredUpdate(rows, d));
    }

    /** Whole transaction or nothing; the answer says whether the row was written. */
    method UpsertStructured(d: Document, chunks: seq<StoredChunk>) returns (r: Result<bool, Fault>)
      modifies this
      ensures r.Err? ==> faulted && rows == old(rows)
      ensures r.Ok? ==> faulted == old(faulted)
      ensures r.Ok? ==> rows == Documents.UpsertStructured(old(rows), d, chunks)
      ensures r.Ok? ==> r.value == Documents.NeedsStructuredUpdate(old(rows), d)
    {
      var io := Touch();
      if io.Err? {
        return Err(IoFault);
      }
      if !Documents.NeedsStructuredUpdate(rows, d) {
        return Ok(false);
      }
      rows := rows[KeyOf(d) := StoredRow(d, chunks)];
      return Ok(true);
    }

    method UpsertLegacy(d: Document, chunks: seq<StoredChunk>) returns (r: Result<bool, Fault>)
      modifies this
      ensures r.Err? ==> faulted && rows == old(rows)
      ensures r.Ok? ==> faulted == old(faulted)
      ensures r.Ok? ==> rows == Documents.UpsertLegacy(old(rows), d, chunks)
      ensures r.Ok? ==> r.value == NeedsUpdate(old(rows), d)
    {
      var io := Touch();
      if io.Err? {
        return Err(IoFault);
      }
      if !NeedsUpdate(rows, d) {
        return Ok(false);
      }
      rows := rows[KeyOf(d) := StoredRow(d, chunks)];
      return Ok(true);
    }

    method RefreshTimestamp(d: Document) returns (r: Result<(), Fault>)
      modifies this
      ensures r.Err? ==> faulted && rows == old(rows)
      ensures r.Ok? ==> faulted == old(faulted)
      ensures r.Ok? ==> rows == Documents.RefreshTimestamp(old(rows), d)
    {
      var io := Touch();
      if io.Err? {
        return Err(IoFault);
      }
      if KeyOf(d) in rows {
        rows := rows[KeyOf(d) := rows[KeyOf(d)].(updatedAt := d.updatedAt)];
      }
      return Ok(());
    }

    method Reconcile(source: string, project: string, seen: seq<string>) returns (r: Result<nat, Fault>)
      modifies this
      ensures r.Err? ==> faulted && rows == old(rows)
      ensures r.Ok? ==> faulted == old(faulted)
      ensures r.Ok? ==> rows == Documents.Reconcile(old(rows), source, project, set id | id in seen)
      ensures r.Ok? ==> r.value == |old(rows).Keys - rows.Keys|
    {
      var io := Touch();
      if io.Err? {
        return Err(IoFault);
      }
      var kept := set id | id in seen;
      var stale := set k | k in rows && InScope(rows, k, source, project) && k.sourceId !in kept;
      ghost var before := rows;
      rows := rows - stale;
      assert rows == Documents.Reconcile(before, source, project, kept);
      assert before.Keys - rows.Keys == stale;
      return Ok(|stale|);
    }
  }
}
