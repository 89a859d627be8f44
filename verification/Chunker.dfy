/**
  The overlapping window chunker (`bounded` in scripts/compare-chunking.py).
  */
module Chunker {
  import opened Wrappers
  import opened Text

  const TARGET: nat := 1600
  const OVERLAP: nat := 200

  predicate BreakAt(s: string, b: nat) {
    b + 2 <= |s| && s[b] == '\n' && s[b + 1] == '\n'
  }

  /** `s.rfind("\n\n", lo, hi)` */
  function LastBreak(s: string, lo: nat, hi: nat): (r: Option<nat>)
    requires hi <= |s|
    ensures r.Some? ==> lo <= r.value <= hi - 2 && BreakAt(s, r.value)
    ensures forall b: nat :: lo <= b <= hi - 2 && BreakAt(s, b) ==> r.Some? && b <= r.value
  {
    if hi < lo + 2 then None
    else if BreakAt(s, hi - 2) then Some(hi - 2)
    else LastBreak(s, lo, hi - 1)
  }

  datatype Window = Window(from: nat, to: nat)

  predicate Within(w: Window, content: string) {
    w.from <= w.to <= |content|
  }

  predicate AllWithin(windows: seq<Window>, content: string) {
    forall i :: 0 <= i < |windows| ==> Within(windows[i], content)
  }

  /** Where the window from `start` ends. */
  function EndOf(content: string, start: nat): nat
    requires start < |content|
  {
    if start + TARGET < |content| then
      var boundary := LastBreak(content, start + TARGET / 2, start + TARGET);
      if boundary.Some? then boundary.value + 2 else start + TARGET
    else |content|
  }

  /** The windows from `start` on. */
  function Windows(content: string, start: nat): seq<Window>
    requires start < |content|
    decreases |content| - start
  {
    var end := EndOf(content, start);
    if end == |content| then [Window(start, end)]
    else [Window(start, end)] + Windows(content, end - OVERLAP)
  }

  /** What a window contributes: its text without white space around it, unless nothing is left. */
  function ChunkOf(content: string, w: Window): seq<string>
    requires Within(w, content)
  {
    var chunk := Trim(Python, content[w.from..w.to]);
    if chunk == "" then [] else [chunk]
  }

  function Chunks(content: string, windows: seq<Window>): seq<string>
    requires AllWithin(windows, content)
  {
    if windows == [] then []
    else Chunks(content, windows[..|windows| - 1]) + ChunkOf(content, windows[|windows| - 1])
  }

  // ---------------------------------------------------------------------------------------
  // The windows
  // ---------------------------------------------------------------------------------------

  predicate Fits(content: string, w: Window) {
    w.from < w.to <= w.from + 1600 && w.to <= |content|
  }

  /** `w` overlaps `v` by 200 characters, at least 602 further on; `v` did not reach the end. */
  predicate Follows(content: string, v: Window, w: Window) {
    w.from == v.to - 200 && v.from + 602 <= w.from && v.from + 1600 < |content|
  }

  ghost predicate Tiling(content: string, start: nat, windows: seq<Window>) {
    && windows != [] && windows[0].from == start && windows[|windows| - 1].to == |content|
    && (forall i :: 0 <= i < |windows| ==> Fits(content, windows[i]))
    && (forall i :: 0 < i < |windows| ==> Follows(content, windows[i - 1], windows[i]))
  }

  /**
    The windows reach from the start to the end of the text, none is longer than 1600, consecutive
    ones share exactly 200 characters, and every step advances by at least 602.
    */
  lemma {:induction false} WindowsTile(content: string, start: nat)
    requires start < |content|
    ensures Tiling(content, start, Windows(content, start))
    decreases |content| - start
  {
    var end := EndOf(content, start);
    if end < |content| {
      var rest := Windows(content, end - OVERLAP);
      WindowsTile(content, end - OVERLAP);
      var all := Windows(content, start);
      assert all == [Window(start, end)] + rest;
      forall i | 0 < i < |all| ensures Follows(content, all[i - 1], all[i]) {
        assert all[i] == rest[i - 1];
        assert i > 1 ==> all[i - 1] == rest[i - 2];
      }
    }
  }

  /** The window ends after a blank line in its second half, and no later one fits. */
  ghost predicate LastBreakOf(content: string, w: Window) {
    && w.to >= 2 && BreakAt(content, w.to - 2) && w.to - 2 >= w.from + 800
    && forall b: nat :: w.to - 2 < b <= w.from + 1598 ==> !BreakAt(content, b)
  }

  /** Some blank line of the second half ends within the window at full length. */
  ghost predicate HasBreak(content: string, from: nat) {
    exists b: nat :: from + 800 <= b <= from + 1598 && BreakAt(content, b)
  }

  /** Where a window ends: with the text, or after the last such blank line, or at full length. */
  ghost predicate EndsRight(content: string, w: Window) {
    if w.from + 1600 >= |content| then w.to == |content|
    else if HasBreak(content, w.from) then LastBreakOf(content, w)
    else w.to == w.from + 1600
  }

  /** Every window ends there. */
  lemma {:induction false} EndsAtLastBreak(content: string, start: nat, i: nat)
    requires start < |content| && i < |Windows(content, start)|
    ensures EndsRight(content, Windows(content, start)[i])
    decreases i
  {
    var end := EndOf(content, start);
    if i > 0 {
      EndsAtLastBreak(content, end - OVERLAP, i - 1);
      assert Windows(content, start)[i] == Windows(content, end - OVERLAP)[i - 1];
    }
  }

  lemma {:induction false} StartsGrow(content: string, start: nat, windows: seq<Window>, i: nat)
    requires Tiling(content, start, windows) && i < |windows|
    ensures windows[i].from >= start + 602 * i
  {
    if i > 0 {
      StartsGrow(content, start, windows, i - 1);
      assert Follows(content, windows[i - 1], windows[i]);
    }
  }

  /** At most ⌈n / 602⌉ windows, and never one more than the last full stride needs. */
  lemma FewWindows(content: string)
    requires content != ""
    ensures var count := |Windows(content, 0)|;
      && count <= (|content| + 601) / 602
      && (count >= 2 ==> 602 * (count - 2) + TARGET < |content|)
  {
    var windows := Windows(content, 0);
    WindowsTile(content, 0);
    StartsGrow(content, 0, windows, |windows| - 1);
    if |windows| >= 2 {
      StartsGrow(content, 0, windows, |windows| - 2);
      assert Follows(content, windows[|windows| - 2], windows[|windows| - 1]);
    }
  }

  /** The text put together again: the first window, then each further one without its overlap. */
  function Joined(content: string, windows: seq<Window>): string
    requires AllWithin(windows, content)
    requires forall i :: 0 < i < |windows| ==> windows[i].from + OVERLAP <= windows[i].to
  {
    if windows == [] then ""
    else if |windows| == 1 then content[windows[0].from..windows[0].to]
    else
      var last := windows[|windows| - 1];
      Joined(content, windows[..|windows| - 1]) + content[last.from + OVERLAP..last.to]
  }

  /** Nothing is lost and nothing is doubled beyond the overlap. */
  lemma WindowsRestoreText(content: string)
    requires content != ""
    ensures var windows := Windows(content, 0);
      && AllWithin(windows, content)
      && (forall i :: 0 < i < |windows| ==> windows[i].from + OVERLAP <= windows[i].to)
      && Joined(content, windows) == content
  {
    var windows := Windows(content, 0);
    WindowsTile(content, 0);
    JoinedPrefix(content, windows, |windows|);
    assert windows[..|windows|] == windows;
  }

  lemma {:induction false} JoinedPrefix(content: string, windows: seq<Window>, n: nat)
    requires Tiling(content, 0, windows) && 1 <= n <= |windows|
    ensures forall i :: 0 < i < |windows| ==> windows[i].from + OVERLAP <= windows[i].to
    ensures Joined(content, windows[..n]) == content[..windows[n - 1].to]
    decreases n
  {
    forall i | 0 < i < |windows| ensures windows[i].from + OVERLAP <= windows[i].to {
      LaterWindowsAreLong(content, windows, i);
    }
    if n > 1 {
      JoinedPrefix(content, windows, n - 1);
      assert windows[..n][..n - 1] == windows[..n - 1];
      var last := windows[n - 1];
      assert content[..windows[n - 2].to] + content[last.from + OVERLAP..last.to] == content[..last.to];
    }
  }

  /** A window that follows another reaches beyond it. */
  lemma LaterWindowsAreLong(content: string, windows: seq<Window>, i: nat)
    requires Tiling(content, 0, windows) && 0 < i < |windows|
    ensures windows[i].from + OVERLAP <= windows[i].to
  {
    if i + 1 < |windows| {
      assert Follows(content, windows[i], windows[i + 1]);
    } else {
      assert Follows(content, windows[i - 1], windows[i]);
    }
  }

  // ---------------------------------------------------------------------------------------
  // The chunks
  // ---------------------------------------------------------------------------------------

  lemma {:induction false} EveryPositionIsCovered(content: string, windows: seq<Window>, p: nat) returns (i: nat)
    requires Tiling(content, 0, windows) && p < |content|
    ensures i < |windows| && windows[i].from <= p < windows[i].to
  {
    i := |windows| - 1;
    while windows[i].from > p
      invariant i < |windows| && p < windows[i].to
    {
      i := i - 1;
    }
  }

  lemma {:induction false} ChunksHold(content: string, windows: seq<Window>, i: nat)
    requires AllWithin(windows, content)
    requires i < |windows|
    ensures forall c :: c in ChunkOf(content, windows[i]) ==> c in Chunks(content, windows)
    decreases |windows|
  {
    if i < |windows| - 1 {
      ChunksHold(content, windows[..|windows| - 1], i);
    }
  }

  /** The stretch `[k, l)` of the text is one of the chunks. */
  ghost predicate IsChunk(content: string, chunks: seq<string>, k: nat, l: nat) {
    k <= l <= |content| && content[k..l] in chunks
  }

  lemma WordSurvivesTrim(text: string, at: nat) returns (a: nat, b: nat)
    requires at < |text| && !IsSpace(Python, text[at])
    ensures a <= at < b <= |text| && Trim(Python, text) == text[a..b]
  {
    a, b := TrimKeepsStretch(Python, text);
    assert forall i :: 0 <= i < a ==> text[i] == text[..a][i];
    assert forall i :: b <= i < |text| ==> text[i] == text[b..][i - b];
  }

  lemma SliceOfSlice(content: string, w: Window, a: nat, b: nat)
    requires Within(w, content) && a <= b <= w.to - w.from
    ensures content[w.from..w.to][a..b] == content[w.from + a..w.from + b]
  {
  }

  /** Every character that is not white space lies in some chunk. */
  lemma EveryWordIsInAChunk(content: string, p: nat) returns (k: nat, l: nat)
    requires p < |content| && !IsSpace(Python, content[p])
    ensures AllWithin(Windows(content, 0), content)
    ensures k <= p < l && IsChunk(content, Chunks(content, Windows(content, 0)), k, l)
  {
    var windows := Windows(content, 0);
    WindowsTile(content, 0);
    var i := EveryPositionIsCovered(content, windows, p);
    var w := windows[i];
    var text := content[w.from..w.to];
    assert text[p - w.from] == content[p];
    var a, b := WordSurvivesTrim(text, p - w.from);
    k, l := w.from + a, w.from + b;
    var chunk := content[k..l];
    SliceOfSlice(content, w, a, b);
    assert |chunk| > 0 && Trim(Python, text) == chunk;
    assert ChunkOf(content, w) == [chunk];
    ChunksHold(content, windows, i);
    assert chunk in ChunkOf(content, w);
  }

  /** Every chunk is a stretch of one window, so at most 1600 characters, and starts and ends with a word. */
  lemma {:induction false} ChunksAreStretches(content: string, windows: seq<Window>, c: string)
    requires AllWithin(windows, content)
    requires forall j :: 0 <= j < |windows| ==> windows[j].to <= windows[j].from + TARGET
    requires c in Chunks(content, windows)
    ensures 0 < |c| <= TARGET && !IsSpace(Python, c[0]) && !IsSpace(Python, c[|c| - 1])
    decreases |windows|
  {
    var n := |windows| - 1;
    if c in Chunks(content, windows[..n]) {
      ChunksAreStretches(content, windows[..n], c);
    } else {
      var text := content[windows[n].from..windows[n].to];
      assert c == Trim(Python, text);
      var a, b := TrimKeepsStretch(Python, text);
      TrimmedEnds(Python, text);
    }
  }

  /** `c` is the text of the window without the white space at its ends. */
  ghost predicate IsStripped(content: string, w: Window, c: string) {
    exists a: nat, b: nat :: StrippedTo(content, w, c, a, b)
  }

  ghost predicate StrippedTo(content: string, w: Window, c: string, a: nat, b: nat) {
    && w.from <= a < b <= w.to <= |content| && c == content[a..b]
    && !IsSpace(Python, content[a]) && !IsSpace(Python, content[b - 1])
    && (forall p :: w.from <= p < a || b <= p < w.to ==> IsSpace(Python, content[p]))
  }

  ghost predicate HasWord(content: string, w: Window) {
    exists p :: w.from <= p < w.to <= |content| && !IsSpace(Python, content[p])
  }

  /** The chunks are the stripped texts, in order, of the windows at the places `at`: all that hold a word. */
  ghost predicate ChunksAt(content: string, windows: seq<Window>, chunks: seq<string>, at: seq<nat>) {
    && |at| == |chunks| && (forall i, j :: 0 <= i < j < |at| ==> at[i] < at[j])
    && (forall i :: 0 <= i < |at| ==> at[i] < |windows| && IsStripped(content, windows[at[i]], chunks[i]))
    && (forall p: nat :: p < |windows| && HasWord(content, windows[p]) ==> p in at)
  }

  /** A window gives its stripped text if it holds a word, and nothing otherwise. */
  lemma ChunkOfWindow(content: string, w: Window)
    requires Within(w, content)
    ensures HasWord(content, w) <==> ChunkOf(content, w) != []
    ensures |ChunkOf(content, w)| <= 1 && forall c :: c in ChunkOf(content, w) ==> IsStripped(content, w, c)
  {
    var text := content[w.from..w.to];
    var a, b := TrimKeepsStretch(Python, text);
    TrimmedEnds(Python, text);
    if a < b {
      SliceOfSlice(content, w, a, b);
      assert forall p :: w.from <= p < w.from + a ==> content[p] == text[..a][p - w.from];
      assert forall p :: w.from + b <= p < w.to ==> content[p] == text[b..][p - w.from - b];
      assert StrippedTo(content, w, Trim(Python, text), w.from + a, w.from + b);
      assert !IsSpace(Python, content[w.from + a]);
    } else {
      assert Trim(Python, text) == "";
      forall p | w.from <= p < w.to ensures IsSpace(Python, content[p]) {
        assert text[p - w.from] == content[p];
        assert if p - w.from < a then text[..a][p - w.from] == content[p] else text[b..][p - w.from - b] == content[p];
      }
    }
  }

  lemma ChunksAtFurther(content: string, windows: seq<Window>, w: Window, chunks: seq<string>, at: seq<nat>)
    requires ChunksAt(content, windows, chunks, at)
    ensures !HasWord(content, w) ==> ChunksAt(content, windows + [w], chunks, at)
    ensures forall c :: IsStripped(content, w, c) ==>
      ChunksAt(content, windows + [w], chunks + [c], at + [|windows|])
  {
    var all, at' := windows + [w], at + [|windows|];
    assert all[|windows|] == w && at'[|at|] == |windows|;
    forall p: nat | p < |windows| && HasWord(content, all[p]) ensures p in at && p in at' {
      assert all[p] == windows[p];
    }
  }

  /** In order, one chunk for every window that holds a word. */
  lemma {:induction false} ChunksFollowWindows(content: string, windows: seq<Window>) returns (at: seq<nat>)
    requires AllWithin(windows, content)
    ensures ChunksAt(content, windows, Chunks(content, windows), at)
  {
    at := [];
    if windows != [] {
      var front, w := windows[..|windows| - 1], windows[|windows| - 1];
      assert windows == front + [w];
      at := ChunksFollowWindows(content, front);
      ChunkOfWindow(content, w);
      ChunksAtFurther(content, front, w, Chunks(content, front), at);
      at := if ChunkOf(content, w) == [] then at else at + [|front|];
    }
  }

  // ---------------------------------------------------------------------------------------
  // The loop
  // ---------------------------------------------------------------------------------------

  /** The windows still to come when the loop is at `start`. */
  ghost function WindowsFrom(content: string, start: nat): seq<Window> {
    if start < |content| then Windows(content, start) else []
  }

  ghost function AllWindows(content: string): seq<Window> {
    WindowsFrom(content, 0)
  }

  ghost function WindowsAfter(content: string, w: Window): seq<Window> {
    if OVERLAP <= w.to < |content| then WindowsFrom(content, w.to - OVERLAP) else []
  }

  /** One more round of the loop. */
  lemma NextWindow(content: string, start: nat, done: seq<Window>)
    requires start < |content|
    ensures var w := Window(start, EndOf(content, start));
      done + WindowsFrom(content, start) == (done + [w]) + WindowsAfter(content, w)
  {
    var w := Window(start, EndOf(content, start));
    var rest := WindowsAfter(content, w);
    assert WindowsFrom(content, start) == [w] + rest;
    assert done + ([w] + rest) == (done + [w]) + rest;
  }

  lemma NextChunk(content: string, done: seq<Window>, w: Window)
    requires Within(w, content) && AllWithin(done, content)
    ensures AllWithin(done + [w], content)
    ensures Chunks(content, done + [w]) == Chunks(content, done) + ChunkOf(content, w)
  {
    assert (done + [w])[..|done|] == done;
  }

  /** One round of the loop: its window is the next one, and its chunk that of the window. */
  lemma NextRound(content: string, start: nat, done: seq<Window>)
    requires start < |content| && AllWithin(done, content) && AllWindows(content) == done + WindowsFrom(content, start)
    ensures var w := Window(start, EndOf(content, start));
      && Within(w, content) && AllWithin(done + [w], content)
      && AllWindows(content) == (done + [w]) + WindowsAfter(content, w)
      && Chunks(content, done + [w]) == Chunks(content, done) + ChunkOf(content, w)
      && (w.to < |content| ==> w.to - OVERLAP > start)
  {
    var w := Window(start, EndOf(content, start));
    NextWindow(content, start, done);
    NextChunk(content, done, w);
  }

  /** The end of the window from `start`. */
  method WindowEnd(content: string, start: nat) returns (end: nat)
    requires start < |content|
    ensures end == EndOf(content, start)
  {
    end := if |content| < start + TARGET then |content| else start + TARGET;
    if end < |content| {
      var boundary := LastBreak(content, start + TARGET / 2, end);
      if boundary.Some? {
        end := boundary.value + 2;
      }
    }
  }

  /**
    `bounded`: in order, the stripped texts of the windows that hold a word, where the windows tile
    the text and each ends where it must.
    */
  method Bounded(content: string) returns (result: seq<string>)
    ensures AllWithin(AllWindows(content), content)
    ensures result == Chunks(content, AllWindows(content))
    ensures exists at :: ChunksAt(content, AllWindows(content), result, at)
    ensures content != "" ==> Tiling(content, 0, AllWindows(content))
    ensures forall i :: 0 <= i < |AllWindows(content)| ==> EndsRight(content, AllWindows(content)[i])
  {
    result := ChunkWindows(content);
    BoundedMeans(content);
  }

  /** The loop over the windows. */
  method ChunkWindows(content: string) returns (result: seq<string>)
    ensures AllWithin(AllWindows(content), content)
    ensures result == Chunks(content, AllWindows(content))
  {
    result := [];
    var start := 0;
    ghost var done: seq<Window> := [];
    while start < |content|
      invariant start <= |content|
      invariant AllWithin(done, content)
      invariant AllWindows(content) == done + WindowsFrom(content, start)
      invariant result == Chunks(content, done)
      decreases |content| - start
    {
      var end := WindowEnd(content, start);
      NextRound(content, start, done);
      var chunk := Trim(Python, content[start..end]);
      if chunk != "" {
        result := result + [chunk];
      }
      done := done + [Window(start, end)];
      if end == |content| {
        assert done + [] == done;
        break;
      }
      start := if end - OVERLAP < start + 1 then start + 1 else end - OVERLAP;
    }
    assert AllWindows(content) == done;
  }

  lemma BoundedMeans(content: string)
    requires AllWithin(AllWindows(content), content)
    ensures exists at :: ChunksAt(content, AllWindows(content), Chunks(content, AllWindows(content)), at)
    ensures content != "" ==> Tiling(content, 0, AllWindows(content))
    ensures forall i :: 0 <= i < |AllWindows(content)| ==> EndsRight(content, AllWindows(content)[i])
  {
    var at := ChunksFollowWindows(content, AllWindows(content));
    if content != "" {
      WindowsTile(content, 0);
      forall i | 0 <= i < |AllWindows(content)| ensures EndsRight(content, AllWindows(content)[i]) {
        EndsAtLastBreak(content, 0, i);
      }
    }
  }
}
