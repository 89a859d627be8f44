/**
  Rebuilding every embedding under a new provider generation
  (`rebuild_embedding_generation`, src/main.rs; the staging table, crates/core/src/store.rs).
  */
module Rebuild {
  import opened Alignment
  import opened Paging
  import opened Sequences
  import opened Wrappers
  import Flush

  const REQUEST_SIZE := Flush.REQUEST_SIZE

  datatype RebuildError = NotForced | NoGeneration | WrongGeneration | SameGeneration | StoreFailed
    | ProviderFailed | WrongCount | EmptyVector

  predicate HasEmptyVector(vectors: map<ChunkId, Vector>) {
    exists id :: id in vectors && vectors[id] == []
  }

  /** The chunk table with its staging area. */
  class EmbeddingIndex {
    var chunks: map<ChunkId, Chunk>
    var fingerprint: Option<string>
    var staging: Option<map<ChunkId, Vector>>
    /** Raised by the first statement that fails, never lowered. */
    var faulted: bool

    constructor (chunks: map<ChunkId, Chunk>, fingerprint: Option<string>)
      ensures this.chunks == chunks && this.fingerprint == fingerprint && staging.None? && !faulted
    {
      this.chunks, this.fingerprint := chunks, fingerprint;
      staging, faulted := None, false;
    }

    /** A statement without effect on the chunks, the generation or the staging table. */
    method Touch() returns (ok: bool)
      modifies this`faulted
      ensures !ok ==> faulted
      ensures ok ==> faulted == old(faulted)
    {
      if * {
        faulted := true;
        return false;
      }
      return true;
    }

    /** `begin_embedding_rebuild`: an empty staging table, and the number of chunks. */
    method Begin(from: string, to: string) returns (r: Result<nat, RebuildError>)
      requires from != to
      modifies this`staging, this`faulted
      ensures r.Ok? ==> staging == Some(map[]) && r.value == |chunks| && fingerprint == Some(from)
      ensures r.Err? ==> staging == old(staging)
      ensures r == Err(StoreFailed) ==> faulted
      ensures r != Err(StoreFailed) ==> faulted == old(faulted)
      ensures r.Err? && r.error != StoreFailed ==> fingerprint != Some(from)
    {
      var ok := Touch();
      if !ok {
        return Err(StoreFailed);
      }
      if fingerprint.None? {
        return Err(NoGeneration);
      }
      if fingerprint.value != from {
        return Err(WrongGeneration);
      }
      staging := Some(map[]);
      return Ok(|chunks|);
    }

    /** `embedding_rebuild_chunks` */
    method Page(after: Option<ChunkId>, limit: nat) returns (r: Result<seq<Entry>, RebuildError>)
      modifies this`faulted
      ensures r.Ok? ==> r.value == Smallest(chunks, Above(chunks, after), limit) && faulted == old(faulted)
      ensures r.Err? ==> r.error == StoreFailed && faulted
    {
      var ok := Touch();
      if !ok {
        return Err(StoreFailed);
      }
      var left := Above(chunks, after);
      var page: seq<Entry> := [];
      while left != {} && |page| < limit
        invariant |page| <= limit && left <= chunks.Keys
        invariant page + Smallest(chunks, left, limit - |page|) == Smallest(chunks, Above(chunks, after), limit)
        invariant faulted == old(faulted)
        decreases left
      {
        MinimumExists(left);
        var m :| m in left && forall id :: id in left ==> m <= id;
        assert m == Least(left);
        assert page + ([Entry(m, chunks[m].content)] + Smallest(chunks, left - {m}, limit - |page| - 1))
          == (page + [Entry(m, chunks[m].content)]) + Smallest(chunks, left - {m}, limit - |page| - 1);
        page := page + [Entry(m, chunks[m].content)];
        left := left - {m};
      }
      assert page + [] == page;
      return Ok(page);
    }

    /** `stage_embedding_rebuild`: all vectors of a page or none. */
    method Stage(vectors: map<ChunkId, Vector>) returns (error: Option<RebuildError>)
      requires staging.Some? && vectors.Keys <= chunks.Keys
      modifies this`staging, this`faulted
      ensures staging.Some?
      ensures error.None? ==> staging.value == old(staging.value) + vectors && faulted == old(faulted)
      ensures error.None? ==> forall id :: id in vectors ==> vectors[id] != []
      ensures error.Some? ==> staging == old(staging)
      ensures error == Some(StoreFailed) ==> faulted
      ensures error.Some? && error.value != StoreFailed ==>
        error.value == EmptyVector && faulted == old(faulted) && HasEmptyVector(vectors)
    {
      if HasEmptyVector(vectors) {
        return Some(EmptyVector);
      }
      var ok := Touch();
      if !ok {
        return Some(StoreFailed);
      }
      staging := Some(staging.value + vectors);
      return None;
    }

    /** `commit_embedding_rebuild`: install all staged vectors and the new generation at once. */
    method Commit(from: string, to: string) returns (r: Result<nat, RebuildError>)
      requires staging.Some? && staging.value.Keys <= chunks.Keys
      modifies this
      ensures r.Ok? ==>
        && fingerprint == Some(to) && staging.None? && faulted == old(faulted)
        && old(staging.value.Keys) == chunks.Keys == old(chunks.Keys) && r.value == |chunks|
        && forall id :: id in chunks ==>
          chunks[id] == Chunk(old(chunks)[id].content, old(staging.value)[id])
      ensures r.Err? ==> chunks == old(chunks) && fingerprint == old(fingerprint) && staging == old(staging)
      ensures old(fingerprint == Some(from) && |staging.value| == |chunks|) && r.Err? ==>
        r.error == StoreFailed && faulted
    {
      var ok := Touch();
      if !ok {
        return Err(StoreFailed);
      }
      if fingerprint != Some(from) {
        return Err(WrongGeneration);
      }
      var staged := staging.value;
      if |staged| != |chunks| {
        return Err(WrongCount);
      }
      SubsetSize(staged.Keys, chunks.Keys);
      chunks := map id | id in chunks :: Chunk(chunks[id].content, staged[id]);
      assert chunks.Keys == staged.Keys;
      fingerprint := Some(to);
      staging := None;
      return Ok(|chunks|);
    }

    /** `discard_embedding_rebuild` */
    method Discard()
      modifies this`staging, this`faulted
      ensures staging == None || (staging == old(staging) && faulted)
      ensures old(faulted) ==> faulted
    {
      var ok := Touch();
      if ok {
        staging := None;
      }
    }
  }

  /**
    The embedding provider. A request may fail; otherwise its response depends on the request alone
    and may hold any number of vectors.
    */
  class Provider {
    const answer: seq<string> -> seq<Vector>
    const embed: string -> Vector
    /** Every request of a reliable provider succeeds. */
    const reliable: bool
    const target: string

    constructor (answer: seq<string> -> seq<Vector>, embed: string -> Vector, reliable: bool, target: string)
      ensures this.answer == answer && this.embed == embed && this.reliable == reliable && this.target == target
    {
      this.answer, this.embed, this.reliable, this.target := answer, embed, reliable, target;
    }

    /** One vector per text, the embedding of that text. */
    ghost predicate Exact() {
      forall texts: seq<string> :: answer(texts) == Each(embed, texts)
    }

    /** The provider keeps its contract: one non-empty vector per text, always. */
    ghost predicate Sound() {
      Exact() && reliable && forall text :: embed(text) != []
    }

    method Embed(texts: seq<string>) returns (r: Option<seq<Vector>>)
      ensures r.Some? ==> r.value == answer(texts)
      ensures reliable ==> r.Some?
    {
      var fails: bool := *;
      if fails && !reliable {
        return None;
      }
      return Some(answer(texts));
    }
  }

  function Texts(page: seq<Entry>): (r: seq<string>)
    ensures |r| == |page|
  {
    seq(|page|, i requires 0 <= i < |page| => page[i].content)
  }

  // ---------------------------------------------------------------------------------------
  // The vectors of one page
  // ---------------------------------------------------------------------------------------

  /** The vectors a page gets: the responses to its requests, joined. */
  function PageVectors(answer: seq<string> -> seq<Vector>, page: seq<Entry>): seq<Vector> {
    Joined(REQUEST_SIZE, answer, Texts(page))
  }

  /** Every text of the page is paired with the vector made for it. */
  ghost predicate PageAligned(answer: seq<string> -> seq<Vector>, page: seq<Entry>) {
    forall p :: 0 <= p < |page| ==> OwnAnswer(REQUEST_SIZE, answer, Texts(page), p)
  }

  ghost predicate PageExact(answer: seq<string> -> seq<Vector>, page: seq<Entry>) {
    ExactCounts(REQUEST_SIZE, answer, Texts(page))
  }

  /** The test of the program: the total is right. */
  predicate TotalFits(answer: seq<string> -> seq<Vector>, page: seq<Entry>) {
    |PageVectors(answer, page)| == |page|
  }

  /**
    Ask for the vectors of one page, request by request, in order. When their total is right, every
    text has the vector made for it exactly when every response has its request's length.
    */
  method EmbedPage(provider: Provider, page: seq<Entry>) returns (r: Option<seq<Vector>>)
    ensures r.Some? ==> r.value == PageVectors(provider.answer, page)
    ensures TotalFits(provider.answer, page) ==> (PageAligned(provider.answer, page) <==> PageExact(provider.answer, page))
    ensures provider.Exact() ==> PageVectors(provider.answer, page) == Each(provider.embed, Texts(page))
    ensures provider.reliable ==> r.Some?
  {
    if TotalFits(provider.answer, page) {
      OwnAnswersIff(REQUEST_SIZE, provider.answer, Texts(page));
    }
    if provider.Exact() {
      JoinedExactly(REQUEST_SIZE, provider.answer, provider.embed, Texts(page));
    }
    var left := Texts(page);
    var vectors: seq<Vector> := [];
    while left != []
      invariant vectors + Joined(REQUEST_SIZE, provider.answer, left) == PageVectors(provider.answer, page)
      decreases |left|
    {
      var end := if |left| <= REQUEST_SIZE then |left| else REQUEST_SIZE;
      var response := provider.Embed(left[..end]);
      if response.None? {
        return None;
      }
      JoinedStep(REQUEST_SIZE, provider.answer, left);
      vectors := vectors + response.value;
      left := left[end..];
    }
    return Some(vectors);
  }

  // ---------------------------------------------------------------------------------------
  // The staging table
  // ---------------------------------------------------------------------------------------

  /** Each entry with the vector at its position. */
  function Zip(page: seq<Entry>, vectors: seq<Vector>): map<ChunkId, Vector> {
    if page == [] || vectors == [] then map[]
    else Zip(page[1..], vectors[1..])[page[0].id := vectors[0]]
  }

  lemma {:induction false} ZipKeys(page: seq<Entry>, vectors: seq<Vector>)
    requires |page| == |vectors|
    ensures Zip(page, vectors).Keys == Listed(page)
  {
    if page != [] {
      ZipKeys(page[1..], vectors[1..]);
      assert page == [page[0]] + page[1..];
      ListedCons(page[0], page[1..]);
    }
  }

  lemma {:induction false} ZipAt(page: seq<Entry>, vectors: seq<Vector>, i: nat)
    requires |page| == |vectors| && Ascending(page) && i < |page|
    ensures page[i].id in Zip(page, vectors) && Zip(page, vectors)[page[i].id] == vectors[i]
  {
    if i > 0 {
      ZipAt(page[1..], vectors[1..], i - 1);
      assert page[0].id < page[i].id;
    }
  }

  lemma ZipExactly(page: seq<Entry>, vectors: seq<Vector>)
    requires |page| == |vectors| && Ascending(page)
    ensures Zip(page, vectors).Keys == Listed(page)
    ensures forall i :: 0 <= i < |page| ==> page[i].id in Zip(page, vectors) && Zip(page, vectors)[page[i].id] == vectors[i]
  {
    ZipKeys(page, vectors);
    forall i | 0 <= i < |page| ensures page[i].id in Zip(page, vectors) && Zip(page, vectors)[page[i].id] == vectors[i] {
      ZipAt(page, vectors, i);
    }
  }

  /** The staging table after these pages. */
  ghost function StagedFrom(pages: seq<seq<Entry>>, answer: seq<string> -> seq<Vector>): map<ChunkId, Vector> {
    if pages == [] then map[]
    else
      var last := pages[|pages| - 1];
      StagedFrom(pages[..|pages| - 1], answer) + Zip(last, PageVectors(answer, last))
  }

  /** What a whole rebuild installs. */
  ghost function Rebuilt(chunks: map<ChunkId, Chunk>, answer: seq<string> -> seq<Vector>): map<ChunkId, Vector> {
    StagedFrom(Pages(chunks), answer)
  }

  /** Every page has as many vectors as texts. */
  ghost predicate Fits(pages: seq<seq<Entry>>, answer: seq<string> -> seq<Vector>) {
    forall i :: 0 <= i < |pages| ==> TotalFits(answer, pages[i])
  }

  ghost predicate OnSomePage(pages: seq<seq<Entry>>, id: ChunkId) {
    exists i :: 0 <= i < |pages| && id in Listed(pages[i])
  }

  lemma OnOneMorePage(front: seq<seq<Entry>>, last: seq<Entry>, id: ChunkId)
    ensures OnSomePage(front + [last], id) <==> OnSomePage(front, id) || id in Listed(last)
  {
    var pages := front + [last];
    assert pages[|front|] == last && forall i :: 0 <= i < |front| ==> pages[i] == front[i];
  }

  lemma {:induction false} StagedKeys(pages: seq<seq<Entry>>, answer: seq<string> -> seq<Vector>)
    requires WellPaged(pages) && Fits(pages, answer)
    ensures forall id :: id in StagedFrom(pages, answer) <==> OnSomePage(pages, id)
  {
    if pages != [] {
      var front, last := pages[..|pages| - 1], pages[|pages| - 1];
      StagedKeys(front, answer);
      ZipExactly(last, PageVectors(answer, last));
      assert pages == front + [last];
      forall id ensures id in StagedFrom(pages, answer) <==> OnSomePage(pages, id) {
        OnOneMorePage(front, last, id);
      }
    }
  }

  /** Every entry keeps the vector at its own position in the joined responses of its page. */
  lemma {:induction false} StagedVector(pages: seq<seq<Entry>>, answer: seq<string> -> seq<Vector>, i: nat, j: nat)
    requires WellPaged(pages) && Fits(pages, answer) && i < |pages| && j < |pages[i]|
    ensures pages[i][j].id in StagedFrom(pages, answer)
    ensures StagedFrom(pages, answer)[pages[i][j].id] == PageVectors(answer, pages[i])[j]
  {
    var n := |pages| - 1;
    var id := pages[i][j].id;
    if i < n {
      StagedVector(pages[..n], answer, i, j);
      ZipKeys(pages[n], PageVectors(answer, pages[n]));
      assert pages[i][j] in pages[i] && id in Listed(pages[i]) && id !in Listed(pages[n]);
    } else {
      ZipAt(pages[n], PageVectors(answer, pages[n]), j);
    }
  }

  lemma StagedAreChunks(chunks: map<ChunkId, Chunk>, answer: seq<string> -> seq<Vector>, k: nat)
    requires k <= PageCount(chunks) && Fits(Pages(chunks)[..k], answer)
    ensures StagedFrom(Pages(chunks)[..k], answer).Keys <= chunks.Keys
  {
    var pages := Pages(chunks)[..k];
    PagesAreWell(chunks);
    StagedKeys(pages, answer);
    forall id | id in StagedFrom(pages, answer) ensures id in chunks {
      var i :| 0 <= i < |pages| && id in Listed(pages[i]);
      assert FromChunks(chunks, Pages(chunks)[i]);
    }
  }

  /** A whole rebuild has a vector for every chunk, the one at its position on its page. */
  lemma RebuiltKeys(chunks: map<ChunkId, Chunk>, answer: seq<string> -> seq<Vector>)
    requires Fits(Pages(chunks), answer)
    ensures Rebuilt(chunks, answer).Keys == chunks.Keys
  {
    PagesAreWell(chunks);
    assert Pages(chunks)[..PageCount(chunks)] == Pages(chunks);
    StagedAreChunks(chunks, answer, PageCount(chunks));
    forall id | id in chunks ensures id in Rebuilt(chunks, answer) {
      var k, j := EveryChunkHasPage(chunks, id);
      StagedVector(Pages(chunks), answer, k, j);
    }
  }

  /** Every chunk gets the vector made for its own text. */
  ghost predicate AllAligned(pages: seq<seq<Entry>>, answer: seq<string> -> seq<Vector>) {
    forall k :: 0 <= k < |pages| ==> PageAligned(answer, pages[k])
  }

  /**
    A rebuild that gets through pairs every chunk with the vector made for its own text if and only
    if every single response has the length of its request.
    */
  lemma RebuildAlignedIff(chunks: map<ChunkId, Chunk>, answer: seq<string> -> seq<Vector>)
    requires Fits(Pages(chunks), answer)
    ensures AllAligned(Pages(chunks), answer) <==>
      forall k :: 0 <= k < PageCount(chunks) ==> PageExact(answer, Pages(chunks)[k])
  {
    forall k | 0 <= k < PageCount(chunks)
      ensures PageAligned(answer, Pages(chunks)[k]) <==> PageExact(answer, Pages(chunks)[k])
    {
      AlignedOnPage(answer, Pages(chunks)[k]);
    }
  }

  ghost predicate OwnVectors(chunks: map<ChunkId, Chunk>, vectors: map<ChunkId, Vector>, embed: string -> Vector) {
    forall id :: id in vectors && id in chunks ==> vectors[id] == embed(chunks[id].content)
  }

  /** An exact provider gives every chunk the embedding of its own text. */
  lemma ExactMeansOwn(chunks: map<ChunkId, Chunk>, provider: Provider)
    requires provider.Exact() && Fits(Pages(chunks), provider.answer)
    ensures OwnVectors(chunks, Rebuilt(chunks, provider.answer), provider.embed)
  {
    PagesAreWell(chunks);
    forall id | id in Rebuilt(chunks, provider.answer) && id in chunks
      ensures Rebuilt(chunks, provider.answer)[id] == provider.embed(chunks[id].content)
    {
      var k, j := EveryChunkHasPage(chunks, id);
      StagedVector(Pages(chunks), provider.answer, k, j);
      JoinedExactly(REQUEST_SIZE, provider.answer, provider.embed, Texts(Pages(chunks)[k]));
    }
  }

  // ---------------------------------------------------------------------------------------
  // The paging loop
  // ---------------------------------------------------------------------------------------

  /** Why a page cannot be staged, without a store fault. */
  ghost predicate PageFails(provider: Provider, page: seq<Entry>, error: RebuildError) {
    match error
    case ProviderFailed => !provider.reliable
    case WrongCount => !TotalFits(provider.answer, page)
    case EmptyVector => [] in PageVectors(provider.answer, page)
    case _ => false
  }

  /** The rebuild can go through: every page has as many vectors as texts, none of them empty. */
  ghost predicate Passes(provider: Provider, chunks: map<ChunkId, Chunk>) {
    && provider.reliable
    && forall k :: 0 <= k < PageCount(chunks) ==>
      TotalFits(provider.answer, Pages(chunks)[k]) && [] !in PageVectors(provider.answer, Pages(chunks)[k])
  }

  lemma SoundPasses(provider: Provider, chunks: map<ChunkId, Chunk>)
    requires provider.Sound()
    ensures Passes(provider, chunks)
  {
    forall k | 0 <= k < PageCount(chunks)
      ensures TotalFits(provider.answer, Pages(chunks)[k]) && [] !in PageVectors(provider.answer, Pages(chunks)[k])
    {
      JoinedExactly(REQUEST_SIZE, provider.answer, provider.embed, Texts(Pages(chunks)[k]));
    }
  }

  /** Page `k` is empty exactly when all pages are through. */
  lemma PageIsCounted(chunks: map<ChunkId, Chunk>, k: nat)
    requires k <= PageCount(chunks)
    ensures PageAt(chunks, k) == if k < PageCount(chunks) then Pages(chunks)[k] else []
    ensures k < PageCount(chunks) ==>
      && Pages(chunks)[k] != [] && CursorAt(chunks, k + 1) == Some(Pages(chunks)[k][|Pages(chunks)[k]| - 1].id)
      && |Pages(chunks)[k]| == Position(chunks, k + 1) - Position(chunks, k)
    ensures k == PageCount(chunks) ==> Position(chunks, k) == |chunks|
  {
    OrderedIsWhole(chunks);
    PageFacts(chunks, k);
  }

  /** Read and embed page `k`; without an error it has as many vectors as texts. */
  method FetchPage(index: EmbeddingIndex, provider: Provider, after: Option<ChunkId>, ghost k: nat)
    returns (r: Result<(seq<Entry>, seq<Vector>), RebuildError>)
    requires after == CursorAt(index.chunks, k) && k <= PageCount(index.chunks)
    modifies index`faulted
    ensures r.Ok? ==> r.value == (PageAt(index.chunks, k), PageVectors(provider.answer, PageAt(index.chunks, k)))
    ensures r.Ok? ==> TotalFits(provider.answer, PageAt(index.chunks, k)) && index.faulted == old(index.faulted)
    ensures r.Ok? && r.value.0 == [] ==> k == PageCount(index.chunks)
    ensures r.Ok? && r.value.0 != [] ==>
      && k < PageCount(index.chunks) && r.value.0 == Pages(index.chunks)[k]
      && |Above(index.chunks, CursorAt(index.chunks, k + 1))| < |Above(index.chunks, after)|
    ensures r == Err(StoreFailed) ==> index.faulted
    ensures r.Err? && r.error != StoreFailed ==> index.faulted == old(index.faulted)
    ensures r.Err? && r.error != StoreFailed ==>
      k < PageCount(index.chunks) && PageFails(provider, Pages(index.chunks)[k], r.error)
  {
    var page := index.Page(after, PAGE_SIZE);
    if page.Err? {
      return Err(StoreFailed);
    }
    PageAtCursor(index.chunks, k);
    PageIsCounted(index.chunks, k);
    if page.value == [] {
      return Ok(([], []));
    }
    CursorAdvances(index.chunks, k);
    var vectors := EmbedPage(provider, page.value);
    if vectors.None? {
      return Err(ProviderFailed);
    }
    if |vectors.value| != |page.value| {
      return Err(WrongCount);
    }
    return Ok((page.value, vectors.value));
  }

  /** An empty vector of a page that is paired up is one of the joined responses. */
  lemma EmptyIsAnswered(page: seq<Entry>, vectors: seq<Vector>)
    requires Ascending(page) && |page| == |vectors| && HasEmptyVector(Zip(page, vectors))
    ensures [] in vectors
  {
    ZipExactly(page, vectors);
    var id :| id in Zip(page, vectors) && Zip(page, vectors)[id] == [];
    assert id in Listed(page);
    var e :| e in page && e.id == id;
    var i :| 0 <= i < |page| && page[i] == e;
    assert vectors[i] == [];
  }

  lemma ZipIsOfChunks(chunks: map<ChunkId, Chunk>, k: nat, vectors: seq<Vector>)
    requires k < PageCount(chunks) && |vectors| == |Pages(chunks)[k]|
    ensures Ascending(Pages(chunks)[k]) && Zip(Pages(chunks)[k], vectors).Keys <= chunks.Keys
  {
    PagesAreWell(chunks);
    ZipExactly(Pages(chunks)[k], vectors);
    assert FromChunks(chunks, Pages(chunks)[k]);
  }

  lemma StagedStep(pages: seq<seq<Entry>>, answer: seq<string> -> seq<Vector>, k: nat)
    requires k < |pages|
    ensures StagedFrom(pages[..k + 1], answer) == StagedFrom(pages[..k], answer) + Zip(pages[k], PageVectors(answer, pages[k]))
  {
    assert pages[..k + 1][..k] == pages[..k];
  }

  lemma AlignedOnPage(answer: seq<string> -> seq<Vector>, page: seq<Entry>)
    requires TotalFits(answer, page)
    ensures PageAligned(answer, page) <==> PageExact(answer, page)
  {
    OwnAnswersIff(REQUEST_SIZE, answer, Texts(page));
  }

  /** What staging page `k` comes to. */
  lemma NextIsStaged(chunks: map<ChunkId, Chunk>, answer: seq<string> -> seq<Vector>, k: nat)
    requires k < PageCount(chunks) && TotalFits(answer, Pages(chunks)[k])
    ensures var pages, page := Pages(chunks), Pages(chunks)[k];
      && Ascending(page) && Zip(page, PageVectors(answer, page)).Keys <= chunks.Keys
      && StagedFrom(pages[..k + 1], answer) == StagedFrom(pages[..k], answer) + Zip(page, PageVectors(answer, page))
      && (PageAligned(answer, page) <==> PageExact(answer, page))
      && page != [] && CursorAt(chunks, k + 1) == Some(page[|page| - 1].id)
  {
    PageIsCounted(chunks, k);
    ZipIsOfChunks(chunks, k, PageVectors(answer, Pages(chunks)[k]));
    AlignedOnPage(answer, Pages(chunks)[k]);
    StagedStep(Pages(chunks), answer, k);
  }

  /** Stage the vectors of page `k`, each at the place of its entry. */
  method StagePage(index: EmbeddingIndex, provider: Provider, page: seq<Entry>, vectors: seq<Vector>,
                   ghost pages: seq<seq<Entry>>, ghost k: nat)
    returns (error: Option<RebuildError>)
    requires pages == Pages(index.chunks) && k < |pages| && page == pages[k]
    requires vectors == PageVectors(provider.answer, page) && TotalFits(provider.answer, page)
    requires index.staging == Some(StagedFrom(pages[..k], provider.answer))
    modifies index`staging, index`faulted
    ensures error.None? ==> index.staging == Some(StagedFrom(pages[..k + 1], provider.answer))
    ensures error.None? ==> page != [] && CursorAt(index.chunks, k + 1) == Some(page[|page| - 1].id)
    ensures error.None? ==> (PageAligned(provider.answer, page) <==> PageExact(provider.answer, page))
    ensures error.Some? ==> index.staging == old(index.staging)
    ensures error == Some(StoreFailed) ==> index.faulted
    ensures error != Some(StoreFailed) ==> index.faulted == old(index.faulted)
    ensures error.Some? && error.value != StoreFailed ==> PageFails(provider, page, error.value)
  {
    NextIsStaged(index.chunks, provider.answer, k);
    error := index.Stage(Zip(page, vectors));
    if error.Some? && error.value != StoreFailed {
      EmptyIsAnswered(page, vectors);
    }
  }

  /**
    Stage page `k`; an empty page ends the loop. Every entry gets the vector at its own position of
    the joined responses, which is the vector made for it exactly when the responses are exact.
    */
  method StageNext(index: EmbeddingIndex, provider: Provider, after: Option<ChunkId>,
                   ghost pages: seq<seq<Entry>>, ghost k: nat)
    returns (r: Result<Option<ChunkId>, RebuildError>, count: nat)
    requires pages == Pages(index.chunks) && k <= |pages|
    requires index.staging == Some(StagedFrom(pages[..k], provider.answer))
    requires after == CursorAt(index.chunks, k)
    modifies index`staging, index`faulted
    ensures r.Ok? && r.value.None? ==> k == |pages| && index.staging == old(index.staging)
    ensures r.Ok? && r.value.Some? ==>
      && k < |pages| && TotalFits(provider.answer, pages[k])
      && index.staging == Some(StagedFrom(pages[..k + 1], provider.answer))
      && r.value == CursorAt(index.chunks, k + 1) && count == |pages[k]|
      && (PageAligned(provider.answer, pages[k]) <==> PageExact(provider.answer, pages[k]))
      && |Above(index.chunks, r.value)| < |Above(index.chunks, after)|
    ensures r.Err? ==> index.staging == old(index.staging)
    ensures r == Err(StoreFailed) ==> index.faulted
    ensures r != Err(StoreFailed) ==> index.faulted == old(index.faulted)
    ensures r.Err? && r.error != StoreFailed ==> k < |pages| && PageFails(provider, pages[k], r.error)
  {
    var fetched := FetchPage(index, provider, after, k);
    if fetched.Err? {
      return Err(fetched.error), 0;
    }
    var page, vectors := fetched.value.0, fetched.value.1;
    if page == [] {
      return Ok(None), 0;
    }
    var error := StagePage(index, provider, page, vectors, pages, k);
    if error.Some? {
      return Err(error.value), 0;
    }
    return Ok(Some(page[|page| - 1].id)), |page|;
  }

  lemma FitsStep(pages: seq<seq<Entry>>, answer: seq<string> -> seq<Vector>, k: nat)
    requires k < |pages| && Fits(pages[..k], answer) && TotalFits(answer, pages[k])
    ensures Fits(pages[..k + 1], answer)
  {
    var before, after := pages[..k], pages[..k + 1];
    forall i | 0 <= i < |after| ensures TotalFits(answer, after[i]) {
      assert i < k ==> before[i] == after[i];
    }
  }

  /** The paging loop: every chunk is staged exactly once. */
  method StageAll(index: EmbeddingIndex, provider: Provider, expected: nat) returns (r: Result<nat, RebuildError>)
    requires index.staging == Some(map[]) && expected == |index.chunks|
    modifies index`staging, index`faulted
    ensures index.staging.Some? && index.staging.value.Keys <= index.chunks.Keys
    ensures r.Ok? ==> r.value == expected && index.staging.value.Keys == index.chunks.Keys
    ensures r.Ok? ==> Fits(Pages(index.chunks), provider.answer)
    ensures r.Ok? ==> index.staging == Some(Rebuilt(index.chunks, provider.answer))
    ensures r == Err(StoreFailed) ==> index.faulted
    ensures r != Err(StoreFailed) ==> index.faulted == old(index.faulted)
    ensures r.Err? && r.error != StoreFailed ==>
      !Passes(provider, index.chunks) && r.error in {ProviderFailed, WrongCount, EmptyVector}
  {
    ghost var chunks, pages := index.chunks, Pages(index.chunks);
    var after: Option<ChunkId> := None;
    var processed: nat := 0;
    ghost var k := 0;
    while true
      invariant k <= |pages| && Fits(pages[..k], provider.answer)
      invariant index.staging == Some(StagedFrom(pages[..k], provider.answer))
      invariant after == CursorAt(chunks, k) && processed == Position(chunks, k)
      invariant index.faulted == old(index.faulted)
      decreases |Above(chunks, after)|
    {
      PageIsCounted(chunks, k);
      StagedAreChunks(chunks, provider.answer, k);
      var next, count := StageNext(index, provider, after, pages, k);
      if next.Err? {
        return Err(next.error);
      }
      if next.value.None? {
        break;
      }
      FitsStep(pages, provider.answer, k);
      after := next.value;
      processed := processed + count;
      k := k + 1;
    }
    assert pages[..k] == pages;
    RebuiltKeys(chunks, provider.answer);
    // So the guard on the number of chunks scanned never fails.
    assert processed == expected;
    return Ok(processed);
  }

  function VectorsOf(chunks: map<ChunkId, Chunk>): map<ChunkId, Vector> {
    map id | id in chunks :: chunks[id].vector
  }

  const PROBE := "__cortana_probe__"

  /** The provider answers the probe with a first vector. */
  predicate ProbeFits(provider: Provider) {
    provider.answer([PROBE]) != [] && provider.answer([PROBE])[0] != []
  }

  /**
    `rebuild_embedding_generation`. Success installs, for every chunk, the vector at its position in
    the joined responses of its page (from an exact provider the embedding of its own text) together
    with the new generation; any failure leaves the live chunks and the generation as they were, and
    without a store fault nothing stays staged.
    */
  method RebuildGeneration(index: EmbeddingIndex, provider: Provider, from: string, force: bool)
    returns (r: Result<nat, RebuildError>)
    modifies index
    ensures r.Ok? ==> force && from != provider.target && old(index.fingerprint) == Some(from)
    ensures r.Ok? ==> provider.answer([PROBE]) != [] && provider.answer([PROBE])[0] != []
    ensures r == Err(NotForced) <==> !force
    ensures r == Err(NoGeneration) ==> force && old(index.fingerprint).None?
    ensures r == Err(WrongGeneration) ==> force && old(index.fingerprint).Some? && old(index.fingerprint) != Some(from)
    ensures r == Err(SameGeneration) ==> force && old(index.fingerprint) == Some(from) == Some(provider.target)
    ensures r == Err(StoreFailed) ==> index.faulted
    ensures r.Ok? ==> index.fingerprint == Some(provider.target) && index.staging.None? && r.value == |index.chunks|
    ensures r.Ok? ==> index.chunks.Keys == old(index.chunks).Keys
    ensures r.Ok? ==> forall id :: id in index.chunks ==> index.chunks[id].content == old(index.chunks)[id].content
    ensures r.Ok? ==> Fits(Pages(old(index.chunks)), provider.answer)
    ensures r.Ok? ==> VectorsOf(index.chunks) == Rebuilt(old(index.chunks), provider.answer)
    ensures r.Ok? && provider.Exact() ==>
      forall id :: id in index.chunks ==> index.chunks[id].vector == provider.embed(index.chunks[id].content)
    ensures r.Err? ==> index.chunks == old(index.chunks) && index.fingerprint == old(index.fingerprint)
    ensures r.Err? && !index.faulted ==> index.staging == None || index.staging == old(index.staging)
    ensures old(force && index.fingerprint == Some(from) && from != provider.target) && !index.faulted ==>
      (r.Err? ==> r.error in {ProviderFailed, WrongCount, EmptyVector} && !provider.Sound())
    ensures old(force && index.fingerprint == Some(from) && from != provider.target) && !index.faulted ==>
      (Passes(provider, old(index.chunks)) && ProbeFits(provider) ==> r.Ok?)
  {
    if !force {
      return Err(NotForced);
    }
    var ok := index.Touch();
    if !ok {
      return Err(StoreFailed);
    }
    if index.fingerprint.None? {
      return Err(NoGeneration);
    }
    if index.fingerprint.value != from {
      return Err(WrongGeneration);
    }
    if from == provider.target {
      return Err(SameGeneration);
    }
    SoundProbe(provider, index.chunks);
    var probe := provider.Embed([PROBE]);
    if probe.None? || probe.value == [] || probe.value[0] == [] {
      return Err(ProviderFailed);
    }
    ok := index.Touch();
    if !ok {
      return Err(StoreFailed);
    }
    r := StageAndCommit(index, provider, from);
  }

  lemma SoundProbe(provider: Provider, chunks: map<ChunkId, Chunk>)
    ensures provider.Sound() ==> ProbeFits(provider) && Passes(provider, chunks)
  {
    if provider.Sound() {
      SoundPasses(provider, chunks);
      assert provider.answer([PROBE]) == Each(provider.embed, [PROBE]);
    }
  }

  lemma VectorsInstalled(before: map<ChunkId, Chunk>, after: map<ChunkId, Chunk>, vectors: map<ChunkId, Vector>)
    requires after.Keys == before.Keys == vectors.Keys
    requires forall id :: id in after ==> after[id] == Chunk(before[id].content, vectors[id])
    ensures VectorsOf(after) == vectors
  {
    assert VectorsOf(after).Keys == vectors.Keys;
    assert forall id :: id in vectors ==> VectorsOf(after)[id] == vectors[id];
  }

  /** From the empty staging table to the new generation. */
  method StageAndCommit(index: EmbeddingIndex, provider: Provider, from: string)
    returns (r: Result<nat, RebuildError>)
    requires index.fingerprint == Some(from) && from != provider.target
    modifies index
    ensures r.Ok? ==> index.fingerprint == Some(provider.target) && index.staging.None? && r.value == |index.chunks|
    ensures r.Ok? ==> index.chunks.Keys == old(index.chunks).Keys
    ensures r.Ok? ==> forall id :: id in index.chunks ==> index.chunks[id].content == old(index.chunks)[id].content
    ensures r.Ok? ==> Fits(Pages(old(index.chunks)), provider.answer)
    ensures r.Ok? ==> VectorsOf(index.chunks) == Rebuilt(old(index.chunks), provider.answer)
    ensures r.Ok? && provider.Exact() ==>
      forall id :: id in index.chunks ==> index.chunks[id].vector == provider.embed(index.chunks[id].content)
    ensures r.Err? ==> index.chunks == old(index.chunks) && index.fingerprint == old(index.fingerprint)
    ensures r.Err? && !index.faulted ==> index.staging == None || index.staging == old(index.staging)
    ensures r.Err? && !index.faulted ==>
      r.error in {ProviderFailed, WrongCount, EmptyVector} && !Passes(provider, old(index.chunks))
    ensures r.Err? ==> r.error in {ProviderFailed, WrongCount, EmptyVector, StoreFailed}
    ensures r == Err(StoreFailed) ==> index.faulted
  {
    ghost var chunks := index.chunks;
    var expected := index.Begin(from, provider.target);
    if expected.Err? {
      return Err(expected.error);
    }
    var staged := StageAll(index, provider, expected.value);
    if staged.Err? {
      index.Discard();
      return Err(staged.error);
    }
    if provider.Exact() {
      ExactMeansOwn(chunks, provider);
    }
    ghost var vectors := index.staging.value;
    var committed := index.Commit(from, provider.target);
    if committed.Err? {
      return Err(committed.error);
    }
    VectorsInstalled(chunks, index.chunks, vectors);
    // So the guard that compares the two counts never fails.
    assert committed.value == staged.value;
    return Ok(committed.value);
  }

  // ---------------------------------------------------------------------------------------
  // A run that succeeds misaligned
  // ---------------------------------------------------------------------------------------

  function Dots(n: nat): Chunk {
    Chunk(seq(n, _ => '.'), [0.0])
  }

  /** A chunk table whose texts have different lengths. */
  function NineChunks(): map<ChunkId, Chunk> {
    map[0 := Dots(0), 1 := Dots(1), 2 := Dots(2), 3 := Dots(3), 4 := Dots(4), 5 := Dots(5), 6 := Dots(6), 7 := Dots(7),
        8 := Dots(8)]
  }

  function LengthOf(text: string): Vector {
    [|text| as real]
  }

  /** One vector too few for a request of eight, one too many for any other. */
  function Careless(texts: seq<string>): seq<Vector> {
    if |texts| == 8 then Each(LengthOf, texts[..7]) else Each(LengthOf, texts) + [LengthOf("")]
  }

  lemma NineIds()
    ensures NineChunks().Keys == {0, 1, 2, 3, 4, 5, 6, 7, 8}
    ensures forall i: nat :: i < 9 ==> i in NineChunks() && NineChunks()[i] == Dots(i)
  {
  }

  lemma NineInOrder()
    ensures PageCount(NineChunks()) == 1 && |Pages(NineChunks())[0]| == 9
    ensures forall i :: 0 <= i < 9 ==> Pages(NineChunks())[0][i] == Entry(i, Dots(i).content)
  {
    NineIds();
    InOrder(NineChunks(), 9);
  }

  /** A chunk table with the ids below `n` fits on one page and is listed in order. */
  lemma InOrder(chunks: map<ChunkId, Chunk>, n: nat)
    requires 0 < n <= PAGE_SIZE && forall id :: id in chunks <==> 0 <= id < n
    ensures PageCount(chunks) == 1 && |Pages(chunks)[0]| == n
    ensures forall i :: 0 <= i < n ==> Pages(chunks)[0][i] == Entry(i, chunks[i].content)
  {
    SizeOfRange(chunks.Keys, n);
    assert |chunks| == |chunks.Keys|;
    SinglePage(chunks);
    OrderedCounts(chunks, n);
  }

  lemma OrderedCounts(chunks: map<ChunkId, Chunk>, n: nat)
    requires |chunks| == n && forall id :: id in chunks <==> 0 <= id < n
    ensures |Ordered(chunks)| == n
    ensures forall i :: 0 <= i < n ==> Ordered(chunks)[i] == Entry(i, chunks[i].content)
  {
    OrderedIsWhole(chunks);
    var page := Ordered(chunks);
    forall e | e in page ensures 0 <= e.id < n {
      assert e.id in Listed(page);
    }
    CountingUp(page, n);
    forall i | 0 <= i < n ensures page[i] == Entry(i, chunks[i].content) {
      assert page[i] in page;
    }
  }

  lemma {:induction false} SizeOfRange(ids: set<int>, n: nat)
    requires forall i: int :: i in ids <==> 0 <= i < n
    ensures |ids| == n
  {
    if n == 0 {
      assert forall i :: i !in ids;
      assert ids == {};
    } else {
      SizeOfRange(ids - {n - 1}, n - 1);
    }
  }

  /** `n` ascending ids from 0 below `n` are 0, 1 and so on. */
  lemma {:induction false} CountingUp(page: seq<Entry>, n: nat)
    requires Ascending(page) && |page| == n && forall e :: e in page ==> 0 <= e.id < n
    ensures forall i :: 0 <= i < n ==> page[i].id == i
  {
    forall i | 0 <= i < n ensures page[i].id == i {
      AtLeast(page, i);
      AtMost(page, n, i);
    }
  }

  lemma {:induction false} AtLeast(page: seq<Entry>, i: nat)
    requires Ascending(page) && i < |page| && forall e :: e in page ==> 0 <= e.id
    ensures page[i].id >= i
  {
    assert page[i] in page;
    if i > 0 {
      AtLeast(page, i - 1);
      assert page[i - 1].id < page[i].id;
    }
  }

  lemma {:induction false} AtMost(page: seq<Entry>, n: nat, i: nat)
    requires Ascending(page) && i < |page| == n && forall e :: e in page ==> e.id < n
    ensures page[i].id <= i
    decreases n - i
  {
    assert page[i] in page;
    if i < n - 1 {
      AtMost(page, n, i + 1);
      assert page[i].id < page[i + 1].id;
    }
  }

  lemma CarelessIsNotEmpty(texts: seq<string>)
    ensures [] !in Careless(texts)
  {
    forall i | 0 <= i < |Careless(texts)| ensures |Careless(texts)[i]| == 1 {
      if |texts| != 8 && i == |texts| {
        assert Careless(texts)[i] == LengthOf("");
      } else {
        assert Careless(texts)[i] == LengthOf(texts[i]);
      }
    }
  }

  lemma CarelessAnswers(texts: seq<string>)
    requires |texts| == 9 && |texts[8]| == 8
    ensures var vectors := Joined(REQUEST_SIZE, Careless, texts);
      |vectors| == 9 && vectors[7] == [8.0] && [] !in vectors
    ensures !ExactCounts(REQUEST_SIZE, Careless, texts)
  {
    var first, rest := texts[..8], texts[8..];
    JoinedStep(REQUEST_SIZE, Careless, texts);
    JoinedStep(REQUEST_SIZE, Careless, rest);
    assert rest == [texts[8]] && rest[..1] == rest && rest[1..] == [];
    assert Joined(REQUEST_SIZE, Careless, rest[1..]) == [];
    assert Joined(REQUEST_SIZE, Careless, texts) == Careless(first) + Careless(rest);
    assert Careless(rest)[0] == LengthOf(rest[0]);
    CarelessIsNotEmpty(first);
    CarelessIsNotEmpty(rest);
    assert Requests(REQUEST_SIZE, texts)[0] == first;
    assert |Responses(REQUEST_SIZE, Careless, texts)[0]| == 7;
  }

  /** Its page gets nine vectors in all, the eighth of them made for the ninth text. */
  lemma CarelessPage()
    ensures PageCount(NineChunks()) == 1
    ensures var page := Pages(NineChunks())[0];
      && |page| == 9 && |PageVectors(Careless, page)| == 9 && [] !in PageVectors(Careless, page)
      && PageVectors(Careless, page)[7] == [8.0] && !PageExact(Careless, page)
  {
    NineInOrder();
    CarelessAnswers(Texts(Pages(NineChunks())[0]));
  }

  lemma CarelessProbe(text: string)
    ensures Careless([text]) != [] && Careless([text])[0] != []
  {
    CarelessIsNotEmpty([text]);
    assert Careless([text])[0] in Careless([text]);
  }

  lemma CarelessPasses(provider: Provider)
    requires provider.answer == Careless && provider.reliable
    ensures Passes(provider, NineChunks()) && ProbeFits(provider)
  {
    CarelessPage();
    CarelessProbe(PROBE);
  }

  /** A rebuilt chunk of the first page has the vector at its place. */
  lemma RebuiltAt(chunks: map<ChunkId, Chunk>, answer: seq<string> -> seq<Vector>, rebuilt: map<ChunkId, Chunk>, j: nat)
    requires Fits(Pages(chunks), answer) && PageCount(chunks) > 0 && j < |Pages(chunks)[0]|
    requires VectorsOf(rebuilt) == Rebuilt(chunks, answer)
    ensures var id := Pages(chunks)[0][j].id;
      id in rebuilt && rebuilt[id].vector == PageVectors(answer, Pages(chunks)[0])[j]
  {
    PagesAreWell(chunks);
    StagedVector(Pages(chunks), answer, 0, j);
    var id := Pages(chunks)[0][j].id;
    assert id in VectorsOf(rebuilt) && VectorsOf(rebuilt)[id] == rebuilt[id].vector;
  }

  lemma SeventhIsAnothers(rebuilt: map<ChunkId, Chunk>)
    requires VectorsOf(rebuilt) == Rebuilt(NineChunks(), Careless)
    ensures 7 in rebuilt && rebuilt[7].vector == [8.0]
  {
    CarelessPage();
    NineInOrder();
    RebuiltAt(NineChunks(), Careless, rebuilt, 7);
  }

  /**
    With that provider a rebuild of nine chunks succeeds, unless the store fails, and gives chunk 7
    the vector made for the text of chunk 8.
    */
  method MisalignedRebuild() returns (r: Result<nat, RebuildError>, index: EmbeddingIndex)
    ensures fresh(index) && (!index.faulted ==> r.Ok?)
    ensures r.Ok? ==> 7 in index.chunks && index.chunks[7].vector == [8.0] != LengthOf(index.chunks[7].content)
  {
    index := new EmbeddingIndex(NineChunks(), Some("old"));
    var provider := new Provider(Careless, LengthOf, true, "new");
    CarelessPasses(provider);
    r := RebuildGeneration(index, provider, "old", true);
    if r.Ok? {
      SeventhIsAnothers(index.chunks);
    }
  }
}
