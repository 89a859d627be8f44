/**
  The pages in which the chunk table is read while embeddings are rebuilt
  (`embedding_rebuild_chunks`, crates/core/src/store.rs). Chunk ids enter only through their order,
  so they are integers here.
  */
module Paging {
  import opened Sequences
  import opened Wrappers
  import Documents

  type Vector = Documents.Vector

  type ChunkId = int

  const PAGE_SIZE := 256

  datatype Chunk = Chunk(content: string, vector: Vector)

  /** A page entry: a chunk id and its text. */
  datatype Entry = Entry(id: ChunkId, content: string)

  predicate After(after: Option<ChunkId>, id: ChunkId) {
    after.Some? ==> id > after.value
  }

  ghost predicate Ascending(page: seq<Entry>) {
    forall i, j :: 0 <= i < j < |page| ==> page[i].id < page[j].id
  }

  /** The chunks a page can still be taken from. */
  function Above(chunks: map<ChunkId, Chunk>, after: Option<ChunkId>): set<ChunkId> {
    set id | id in chunks && After(after, id)
  }

  function Listed(page: seq<Entry>): set<ChunkId> {
    set e | e in page :: e.id
  }

  /** The page lists `above - left` in ascending order, with its texts, and all of `left` lies beyond. */
  ghost predicate Lists(chunks: map<ChunkId, Chunk>, above: set<ChunkId>, left: set<ChunkId>, page: seq<Entry>) {
    && Ascending(page)
    && left <= above && Listed(page) == above - left
    && (forall e :: e in page ==> e.id in chunks && e.content == chunks[e.id].content)
    && Precede(page, left)
  }

  ghost predicate Precede(page: seq<Entry>, left: set<ChunkId>) {
    forall e, id :: e in page && id in left ==> e.id < id
  }

  /** `page` lists the smallest ids above `after` in ascending order, at most `limit` of them. */
  ghost predicate IsPage(chunks: map<ChunkId, Chunk>, after: Option<ChunkId>, limit: nat, page: seq<Entry>) {
    var above := Above(chunks, after);
    && Lists(chunks, above, above - Listed(page), page)
    && |page| <= limit && (|page| == limit || Listed(page) == above)
  }

  lemma Pick<T>(s: set<T>) returns (x: T)
    requires s != {}
    ensures x in s
  {
    x :| x in s;
  }

  lemma {:induction false} MinimumExists(ids: set<int>)
    requires |ids| > 0
    ensures exists m :: m in ids && forall id :: id in ids ==> m <= id
  {
    var x := Pick(ids);
    var rest := ids - {x};
    if |rest| == 0 {
      assert ids == {x};
    } else {
      MinimumExists(rest);
      var m :| m in rest && forall id :: id in rest ==> m <= id;
      var least := if m <= x then m else x;
      assert least in ids;
      forall id | id in ids ensures least <= id {
        assert id == x || id in rest;
      }
    }
  }

  ghost function Least(ids: set<ChunkId>): (m: ChunkId)
    requires ids != {}
    ensures m in ids && forall id :: id in ids ==> m <= id
  {
    MinimumExists(ids);
    var m :| m in ids && forall id :: id in ids ==> m <= id;
    m
  }

  /** The entries of the smallest ids in ascending order, at most `limit` of them. */
  ghost function Smallest(chunks: map<ChunkId, Chunk>, ids: set<ChunkId>, limit: nat): seq<Entry>
    requires ids <= chunks.Keys
    decreases |ids|
  {
    if limit == 0 || ids == {} then []
    else
      var m := Least(ids);
      [Entry(m, chunks[m].content)] + Smallest(chunks, ids - {m}, limit - 1)
  }

  /** All chunks in ascending order. */
  ghost function Ordered(chunks: map<ChunkId, Chunk>): seq<Entry> {
    Smallest(chunks, chunks.Keys, |chunks|)
  }

  /** The list of the smallest, one by one. */
  lemma SmallestCons(chunks: map<ChunkId, Chunk>, ids: set<ChunkId>, limit: nat) returns (first: Entry, left: set<ChunkId>)
    requires ids <= chunks.Keys && limit > 0 && ids != {}
    ensures first.id in ids && first.id in chunks && first.content == chunks[first.id].content
    ensures left == ids - {first.id} && forall id :: id in left ==> first.id < id
    ensures Smallest(chunks, ids, limit) == [first] + Smallest(chunks, left, limit - 1)
  {
    var m := Least(ids);
    first, left := Entry(m, chunks[m].content), ids - {m};
  }

  ghost predicate FromChunks(chunks: map<ChunkId, Chunk>, page: seq<Entry>) {
    forall e :: e in page ==> e.id in chunks && e.content == chunks[e.id].content
  }

  /** Facts about ascending lists: consing, membership of a prefix, disjoint stretches. */
  lemma AscendingCons(first: Entry, rest: seq<Entry>)
    requires Ascending(rest) && forall i :: 0 <= i < |rest| ==> first.id < rest[i].id
    ensures Ascending([first] + rest)
  {
  }

  lemma PrefixHolds(all: seq<Entry>, n: nat, i: nat)
    requires Ascending(all) && n <= |all| && i < |all|
    ensures all[i].id in Listed(all[..n]) <==> i < n
    ensures n > 0 ==> (all[i].id > all[n - 1].id <==> i >= n)
  {
    if i < n {
      assert all[..n][i] == all[i];
    } else {
      forall e | e in all[..n] ensures e.id != all[i].id {
        var j :| 0 <= j < n && all[..n][j] == e;
        assert all[j].id < all[i].id;
      }
    }
  }

  lemma StretchesApart(all: seq<Entry>, a: nat, b: nat, c: nat, d: nat)
    requires Ascending(all) && a <= b <= c <= d <= |all|
    ensures Listed(all[a..b]) !! Listed(all[c..d])
  {
    forall x, y | x in all[a..b] && y in all[c..d] ensures x.id != y.id {
      var i :| 0 <= i < b - a && all[a..b][i] == x;
      var j :| 0 <= j < d - c && all[c..d][j] == y;
      assert all[a + i].id < all[c + j].id;
    }
  }

  lemma {:induction false} SmallestSize(chunks: map<ChunkId, Chunk>, ids: set<ChunkId>, limit: nat)
    requires ids <= chunks.Keys
    ensures |Smallest(chunks, ids, limit)| == if limit <= |ids| then limit else |ids|
    decreases |ids|
  {
    if limit > 0 && ids != {} {
      var first, left := SmallestCons(chunks, ids, limit);
      SmallestSize(chunks, left, limit - 1);
      assert |left| == |ids| - 1;
    }
  }

  /** The entries are chunks of the given ids. */
  ghost predicate Within(chunks: map<ChunkId, Chunk>, page: seq<Entry>, ids: set<ChunkId>) {
    forall i :: 0 <= i < |page| ==>
      page[i].id in ids && page[i].id in chunks && page[i].content == chunks[page[i].id].content
  }

  lemma WithinCons(chunks: map<ChunkId, Chunk>, first: Entry, rest: seq<Entry>, ids: set<ChunkId>)
    requires first.id in ids && first.id in chunks && first.content == chunks[first.id].content
    requires Within(chunks, rest, ids - {first.id})
    ensures Within(chunks, [first] + rest, ids)
  {
  }

  lemma {:induction false} SmallestAscends(chunks: map<ChunkId, Chunk>, ids: set<ChunkId>, limit: nat)
    requires ids <= chunks.Keys
    ensures Ascending(Smallest(chunks, ids, limit)) && Within(chunks, Smallest(chunks, ids, limit), ids)
    decreases |ids|
  {
    if limit > 0 && ids != {} {
      var first, left := SmallestCons(chunks, ids, limit);
      var rest := Smallest(chunks, left, limit - 1);
      SmallestAscends(chunks, left, limit - 1);
      WithinCons(chunks, first, rest, ids);
      AscendingCons(first, rest);
    }
  }

  lemma SmallestIsOrdered(chunks: map<ChunkId, Chunk>, ids: set<ChunkId>, limit: nat)
    requires ids <= chunks.Keys
    ensures var page := Smallest(chunks, ids, limit);
      && Ascending(page) && FromChunks(chunks, page) && Listed(page) <= ids
      && |page| == (if limit <= |ids| then limit else |ids|)
      && (limit >= |ids| ==> Listed(page) == ids)
  {
    var page := Smallest(chunks, ids, limit);
    SmallestSize(chunks, ids, limit);
    SmallestAscends(chunks, ids, limit);
    WithinLists(chunks, page, ids);
    ListedSize(page);
    SubsetSize(Listed(page), ids);
  }

  lemma WithinLists(chunks: map<ChunkId, Chunk>, page: seq<Entry>, ids: set<ChunkId>)
    requires Within(chunks, page, ids)
    ensures Listed(page) <= ids && FromChunks(chunks, page)
  {
    forall e | e in page ensures e.id in ids && e.id in chunks && e.content == chunks[e.id].content {
      var i :| 0 <= i < |page| && page[i] == e;
    }
  }

  /** A shorter list of the smallest is a prefix of a longer one. */
  lemma {:induction false} SmallestPrefix(chunks: map<ChunkId, Chunk>, ids: set<ChunkId>, k: nat, n: nat)
    requires ids <= chunks.Keys && k <= n
    ensures k <= |Smallest(chunks, ids, n)| ==> Smallest(chunks, ids, k) == Smallest(chunks, ids, n)[..k]
    ensures k > |Smallest(chunks, ids, n)| ==> Smallest(chunks, ids, k) == Smallest(chunks, ids, n)
    decreases |ids|
  {
    if k > 0 && ids != {} {
      var m := Least(ids);
      SmallestPrefix(chunks, ids - {m}, k - 1, n - 1);
      var rest := Smallest(chunks, ids - {m}, n - 1);
      assert k - 1 <= |rest| ==> ([Entry(m, chunks[m].content)] + rest)[..k] == [Entry(m, chunks[m].content)] + rest[..k - 1];
    }
  }

  /** What follows the first `n` of the list is the list of what they leave. */
  lemma {:induction false} SmallestRest(chunks: map<ChunkId, Chunk>, ids: set<ChunkId>, limit: nat, n: nat)
    requires ids <= chunks.Keys && n <= |Smallest(chunks, ids, limit)|
    ensures var page := Smallest(chunks, ids, limit);
      n <= limit && Smallest(chunks, ids - Listed(page[..n]), limit - n) == page[n..]
    decreases n
  {
    var page := Smallest(chunks, ids, limit);
    if n == 0 {
      assert ids - Listed(page[..0]) == ids;
    } else {
      var m := Least(ids);
      var rest := Smallest(chunks, ids - {m}, limit - 1);
      SmallestRest(chunks, ids - {m}, limit - 1, n - 1);
      assert page[..n] == [page[0]] + rest[..n - 1];
      assert Listed(page[..n]) == {m} + Listed(rest[..n - 1]);
      assert ids - {m} - Listed(rest[..n - 1]) == ids - Listed(page[..n]);
    }
  }

  lemma {:induction false} SmallestLeavesGreater(chunks: map<ChunkId, Chunk>, ids: set<ChunkId>, limit: nat)
    requires ids <= chunks.Keys
    ensures Precede(Smallest(chunks, ids, limit), ids - Listed(Smallest(chunks, ids, limit)))
    decreases |ids|
  {
    if limit > 0 && ids != {} {
      var first, left := SmallestCons(chunks, ids, limit);
      var rest := Smallest(chunks, left, limit - 1);
      SmallestLeavesGreater(chunks, left, limit - 1);
      LeftCons(ids, first, rest);
      PrecedeCons(first, rest, left - Listed(rest));
    }
  }

  lemma LeftCons(ids: set<ChunkId>, first: Entry, rest: seq<Entry>)
    ensures ids - Listed([first] + rest) == (ids - {first.id}) - Listed(rest)
  {
    ListedCons(first, rest);
  }

  lemma PrecedeCons(first: Entry, rest: seq<Entry>, left: set<ChunkId>)
    requires Precede(rest, left) && forall id :: id in left ==> first.id < id
    ensures Precede([first] + rest, left)
  {
  }

  lemma ListedCons(first: Entry, rest: seq<Entry>)
    ensures Listed([first] + rest) == {first.id} + Listed(rest)
  {
    assert forall e :: e in [first] + rest <==> e == first || e in rest;
  }

  /** So the list is a page of what is above the cursor. */
  lemma SmallestIsPage(chunks: map<ChunkId, Chunk>, after: Option<ChunkId>, limit: nat)
    ensures IsPage(chunks, after, limit, Smallest(chunks, Above(chunks, after), limit))
  {
    var above := Above(chunks, after);
    var page := Smallest(chunks, above, limit);
    SmallestIsOrdered(chunks, above, limit);
    SmallestLeavesGreater(chunks, above, limit);
    assert forall e :: e in page ==> e.id in Listed(page);
  }

  lemma OrderedIsWhole(chunks: map<ChunkId, Chunk>)
    ensures |Ordered(chunks)| == |chunks| && Listed(Ordered(chunks)) == chunks.Keys
    ensures Ascending(Ordered(chunks)) && FromChunks(chunks, Ordered(chunks))
  {
    SmallestIsOrdered(chunks, chunks.Keys, |chunks|);
    assert |chunks.Keys| == |chunks|;
  }

  // ---------------------------------------------------------------------------------------
  // The pages of one rebuild
  // ---------------------------------------------------------------------------------------

  /** How many chunks the first `k` pages hold. */
  function Position(chunks: map<ChunkId, Chunk>, k: nat): nat {
    if PAGE_SIZE * k <= |chunks| then PAGE_SIZE * k else |chunks|
  }

  /** Page `k` of the rebuild. */
  ghost function PageAt(chunks: map<ChunkId, Chunk>, k: nat): seq<Entry> {
    OrderedIsWhole(chunks);
    Ordered(chunks)[Position(chunks, k)..Position(chunks, k + 1)]
  }

  /** The cursor before page `k`: the last id of the pages so far. */
  ghost function CursorAt(chunks: map<ChunkId, Chunk>, k: nat): Option<ChunkId> {
    OrderedIsWhole(chunks);
    if Position(chunks, k) == 0 then None else Some(Ordered(chunks)[Position(chunks, k) - 1].id)
  }

  function PageCount(chunks: map<ChunkId, Chunk>): nat {
    (|chunks| + PAGE_SIZE - 1) / PAGE_SIZE
  }

  /** The chunks above a cursor are those not yet on a page. */
  lemma AboveCursor(chunks: map<ChunkId, Chunk>, k: nat)
    ensures Position(chunks, k) <= |Ordered(chunks)|
    ensures Above(chunks, CursorAt(chunks, k)) == chunks.Keys - Listed(Ordered(chunks)[..Position(chunks, k)])
  {
    OrderedIsWhole(chunks);
    var all, n, after := Ordered(chunks), Position(chunks, k), CursorAt(chunks, k);
    forall id | id in chunks ensures After(after, id) <==> id !in Listed(all[..n]) {
      assert id in Listed(all);
      var i := PlaceOf(all, id);
      PrefixHolds(all, n, i);
    }
  }

  lemma PlaceOf(page: seq<Entry>, id: ChunkId) returns (i: nat)
    requires id in Listed(page)
    ensures i < |page| && page[i].id == id
  {
    var e :| e in page && e.id == id;
    i :| 0 <= i < |page| && page[i] == e;
  }

  lemma SmallestTake(chunks: map<ChunkId, Chunk>, left: set<ChunkId>, limit: nat)
    requires left <= chunks.Keys
    ensures var all := Smallest(chunks, left, |left|);
      |all| == |left| && Smallest(chunks, left, limit) == if limit <= |left| then all[..limit] else all
  {
    SmallestIsOrdered(chunks, left, |left|);
    if limit <= |left| {
      SmallestPrefix(chunks, left, limit, |left|);
    } else {
      SmallestIsOrdered(chunks, left, limit);
      SmallestPrefix(chunks, left, |left|, limit);
    }
  }

  /** The page read at the cursor of page `k` is page `k`. */
  lemma PageAtCursor(chunks: map<ChunkId, Chunk>, k: nat)
    ensures Smallest(chunks, Above(chunks, CursorAt(chunks, k)), PAGE_SIZE) == PageAt(chunks, k)
  {
    OrderedIsWhole(chunks);
    AboveCursor(chunks, k);
    LeftSize(chunks, k);
    SmallestStretch(chunks, Above(chunks, CursorAt(chunks, k)), Position(chunks, k), PAGE_SIZE);
  }

  /** The smallest of what the first `n` leave are the next ones in order. */
  lemma SmallestStretch(chunks: map<ChunkId, Chunk>, left: set<ChunkId>, n: nat, limit: nat)
    requires n <= |Ordered(chunks)| && left == chunks.Keys - Listed(Ordered(chunks)[..n])
    requires |left| == |chunks| - n
    ensures var all := Ordered(chunks);
      Smallest(chunks, left, limit) == all[n..if n + limit <= |all| then n + limit else |all|]
  {
    OrderedIsWhole(chunks);
    SmallestRest(chunks, chunks.Keys, |chunks|, n);
    StretchOf(chunks, left, Ordered(chunks), n, limit);
  }

  lemma StretchOf(chunks: map<ChunkId, Chunk>, left: set<ChunkId>, all: seq<Entry>, n: nat, limit: nat)
    requires left <= chunks.Keys && n <= |all| && |left| == |all| - n
    requires Smallest(chunks, left, |left|) == all[n..]
    ensures Smallest(chunks, left, limit) == all[n..if n + limit <= |all| then n + limit else |all|]
  {
    SmallestTake(chunks, left, limit);
    if limit <= |left| {
      assert all[n..][..limit] == all[n..n + limit];
    }
  }

  lemma LeftSize(chunks: map<ChunkId, Chunk>, k: nat)
    ensures |Above(chunks, CursorAt(chunks, k))| == |chunks| - Position(chunks, k)
  {
    OrderedIsWhole(chunks);
    AboveCursor(chunks, k);
    var all, n := Ordered(chunks), Position(chunks, k);
    ListedSize(all[..n]);
    assert Listed(all[..n]) <= chunks.Keys by {
      forall e | e in all[..n] ensures e in all && e.id in Listed(all) {
      }
    }
    assert |chunks.Keys - Listed(all[..n])| == |chunks.Keys| - |Listed(all[..n])|;
  }

  lemma {:induction false} ListedSize(page: seq<Entry>)
    requires Ascending(page)
    ensures |Listed(page)| == |page|
  {
    if page == [] {
      assert Listed(page) == {};
    } else {
      var first, rest := page[0], page[1..];
      ListedSize(rest);
      assert page == [first] + rest;
      ListedCons(first, rest);
      FirstIsNew(first, rest);
    }
  }

  lemma FirstIsNew(first: Entry, rest: seq<Entry>)
    requires Ascending([first] + rest)
    ensures first.id !in Listed(rest)
  {
    forall e | e in rest ensures e.id != first.id {
      var i :| 0 <= i < |rest| && rest[i] == e;
      assert ([first] + rest)[0].id < ([first] + rest)[i + 1].id;
    }
  }

  /** Pages are ascending stretches of the chunks, and a later page has only greater ids. */
  lemma PageFacts(chunks: map<ChunkId, Chunk>, k: nat)
    ensures Ascending(PageAt(chunks, k)) && FromChunks(chunks, PageAt(chunks, k))
    ensures |PageAt(chunks, k)| == Position(chunks, k + 1) - Position(chunks, k)
  {
    OrderedIsWhole(chunks);
    var all, n := Ordered(chunks), Position(chunks, k);
    forall i | 0 <= i < |PageAt(chunks, k)| ensures PageAt(chunks, k)[i] == all[n + i] {
    }
  }

  lemma PagesAreApart(chunks: map<ChunkId, Chunk>, i: nat, k: nat)
    requires i < k
    ensures Listed(PageAt(chunks, i)) !! Listed(PageAt(chunks, k))
  {
    OrderedIsWhole(chunks);
    StretchesApart(Ordered(chunks), Position(chunks, i), Position(chunks, i + 1), Position(chunks, k), Position(chunks, k + 1));
  }

  /** The pages of a rebuild, in order. */
  ghost function Pages(chunks: map<ChunkId, Chunk>): (r: seq<seq<Entry>>)
    ensures |r| == PageCount(chunks)
  {
    seq(PageCount(chunks), k requires 0 <= k < PageCount(chunks) => PageAt(chunks, k))
  }

  /** Ascending pages without a common id. */
  ghost predicate WellPaged(pages: seq<seq<Entry>>) {
    && (forall i :: 0 <= i < |pages| ==> Ascending(pages[i]))
    && (forall i, k :: 0 <= i < k < |pages| ==> Listed(pages[i]) !! Listed(pages[k]))
  }

  lemma PagesAreWell(chunks: map<ChunkId, Chunk>)
    ensures WellPaged(Pages(chunks))
    ensures forall i :: 0 <= i < PageCount(chunks) ==> FromChunks(chunks, Pages(chunks)[i])
  {
    forall i | 0 <= i < PageCount(chunks) ensures Ascending(Pages(chunks)[i]) && FromChunks(chunks, Pages(chunks)[i]) {
      PageFacts(chunks, i);
    }
    forall i, k | 0 <= i < k < PageCount(chunks) ensures Listed(Pages(chunks)[i]) !! Listed(Pages(chunks)[k]) {
      PagesAreApart(chunks, i, k);
    }
  }

  /** Every chunk is on one of the pages. */
  lemma EveryChunkHasPage(chunks: map<ChunkId, Chunk>, id: ChunkId) returns (k: nat, j: nat)
    requires id in chunks
    ensures k < PageCount(chunks) && j < |Pages(chunks)[k]| && Pages(chunks)[k][j] == Entry(id, chunks[id].content)
  {
    var q := RankOf(chunks, id);
    k, j := q / PAGE_SIZE, q % PAGE_SIZE;
    PositionOf(chunks, q);
    assert PageAt(chunks, k)[j] == Ordered(chunks)[q];
  }

  lemma RankOf(chunks: map<ChunkId, Chunk>, id: ChunkId) returns (q: nat)
    requires id in chunks
    ensures q < |Ordered(chunks)| == |chunks| && Ordered(chunks)[q] == Entry(id, chunks[id].content)
  {
    OrderedIsWhole(chunks);
    var all := Ordered(chunks);
    assert id in Listed(all);
    var e :| e in all && e.id == id;
    q :| 0 <= q < |all| && all[q] == e;
  }

  lemma PositionOf(chunks: map<ChunkId, Chunk>, q: nat)
    requires q < |chunks|
    ensures q / PAGE_SIZE < PageCount(chunks)
    ensures Position(chunks, q / PAGE_SIZE) + q % PAGE_SIZE == q < Position(chunks, q / PAGE_SIZE + 1)
  {
  }

  /** Every page leaves strictly fewer chunks above the cursor, down to none after the last. */
  lemma CursorAdvances(chunks: map<ChunkId, Chunk>, k: nat)
    requires k < PageCount(chunks)
    ensures |Above(chunks, CursorAt(chunks, k + 1))| < |Above(chunks, CursorAt(chunks, k))|
    ensures k + 1 == PageCount(chunks) ==> Above(chunks, CursorAt(chunks, k + 1)) == {}
  {
    LeftSize(chunks, k);
    LeftSize(chunks, k + 1);
  }

  /** Every page but the last has 256 chunks, and the last one the rest. */
  lemma PageSizes(chunks: map<ChunkId, Chunk>, k: nat)
    requires k < PageCount(chunks)
    ensures |Pages(chunks)[k]| == if k + 1 < PageCount(chunks) then 256 else |chunks| - 256 * k
    ensures 0 < |Pages(chunks)[k]| <= 256
  {
    PageFacts(chunks, k);
  }

  /** Few chunks fit on one page. */
  lemma SinglePage(chunks: map<ChunkId, Chunk>)
    requires 0 < |chunks| <= PAGE_SIZE
    ensures PageCount(chunks) == 1 && Pages(chunks)[0] == Ordered(chunks)
  {
    OrderedIsWhole(chunks);
    assert Position(chunks, 0) == 0 && Position(chunks, 1) == |chunks|;
    assert PageAt(chunks, 0) == Ordered(chunks);
  }
}
