/**
  The build progress summary (scripts/container_release.py): progress events of container builds
  are merged per vertex, then counted per stage. Instants are whole numbers here.
  */
module BuildProgress {
  import opened Wrappers
  import opened Sequences

  /**
    A progress event; an empty text or `None` stands for a field that is missing or empty. An error
    that is given may be null, which is `Some(None)`.
    */
  datatype Event = Event(digest: string, vertex: string, name: string, cached: Option<bool>,
                         error: Option<Option<string>>, started: Option<int>, completed: Option<int>)

  datatype Vertex = Vertex(name: string, cached: bool, error: Option<string>,
                           started: Option<int>, completed: Option<int>)

  const NEW := Vertex("", false, None, None, None)

  /** One log line; list entries that are no objects are `None`. */
  datatype Line =
    | Blank
    | Garbled
    | NotObject
    | Stream(event: Event)
    | History(vertexes: seq<Option<Event>>, statuses: seq<Option<Event>>)

  /** The dictionary of vertices, with its keys in the order of insertion. */
  datatype Log = Log(order: seq<string>, table: map<string, Vertex>)

  function Identifier(e: Event): string {
    if e.digest != "" then e.digest else e.vertex
  }

  // ---------------------------------------------------------------------------------------
  // Merging
  // ---------------------------------------------------------------------------------------

  function Earlier(previous: Option<int>, value: Option<int>): Option<int> {
    if value.None? then previous
    else if previous.None? || value.value < previous.value then value else previous
  }

  function Later(previous: Option<int>, value: Option<int>): Option<int> {
    if value.None? then previous
    else if previous.None? || value.value > previous.value then value else previous
  }

  function MergeVertex(v: Vertex, e: Event): Vertex {
    Vertex(if e.name != "" && v.name == "" then e.name else v.name,
           v.cached || e.cached == Some(true),
           if e.error.Some? then e.error.value else v.error,
           Earlier(v.started, e.started),
           Later(v.completed, e.completed))
  }

  function Merge(log: Log, e: Event): Log {
    var id := Identifier(e);
    if id == "" then log
    else if id in log.table then log.(table := log.table[id := MergeVertex(log.table[id], e)])
    else Log(log.order + [id], log.table[id := MergeVertex(NEW, e)])
  }

  function MergeInto(log: Log, events: seq<Event>): Log {
    if events == [] then log
    else Merge(MergeInto(log, events[..|events| - 1]), events[|events| - 1])
  }

  function MergeAll(events: seq<Event>): Log {
    MergeInto(Log([], map[]), events)
  }

  function Present(items: seq<Option<Event>>): seq<Event> {
    if items == [] then []
    else
      var front := Present(items[..|items| - 1]);
      var last := items[|items| - 1];
      if last.Some? then front + [last.value] else front
  }

  function EventsOf(line: Line): seq<Event> {
    match line
    case Stream(event) => [event]
    case History(vertexes, statuses) => Present(vertexes) + Present(statuses)
    case _ => []
  }

  /** All events of a log, in the order in which they are merged. */
  function Events(lines: seq<Line>): seq<Event> {
    if lines == [] then [] else Events(lines[..|lines| - 1]) + EventsOf(lines[|lines| - 1])
  }

  /** Merging a list in two parts. */
  lemma {:induction false} MergeParts(log: Log, first: seq<Event>, second: seq<Event>)
    ensures MergeInto(log, first + second) == MergeInto(MergeInto(log, first), second)
    decreases |second|
  {
    if second == [] {
      assert first + second == first;
    } else {
      var n := |second| - 1;
      var all := first + second;
      var front, last := second[..n], second[n];
      MergeParts(log, first, front);
      assert all[..|all| - 1] == first + front && all[|all| - 1] == last;
      assert MergeInto(log, all) == Merge(MergeInto(log, first + front), last);
    }
  }

  lemma MergeOne(log: Log, e: Event)
    ensures MergeInto(log, [e]) == Merge(log, e)
  {
    assert [e][..0] == [];
  }

  // ---------------------------------------------------------------------------------------
  // What a merged vertex says, whatever the order
  // ---------------------------------------------------------------------------------------

  ghost predicate IsEarliest(events: seq<Event>, id: string, t: Option<int>) {
    && (forall e :: e in events && Identifier(e) == id && e.started.Some? ==> t.Some? && t.value <= e.started.value)
    && (t.Some? ==> exists e :: e in events && Identifier(e) == id && e.started == t)
  }

  ghost predicate IsLatest(events: seq<Event>, id: string, t: Option<int>) {
    && (forall e :: e in events && Identifier(e) == id && e.completed.Some? ==> t.Some? && t.value >= e.completed.value)
    && (t.Some? ==> exists e :: e in events && Identifier(e) == id && e.completed == t)
  }

  ghost predicate EverCached(events: seq<Event>, id: string) {
    exists e :: e in events && Identifier(e) == id && e.cached == Some(true)
  }

  /** Some event names the vertex by its digest, or by `vertex` and has no digest. */
  ghost predicate Mentioned(events: seq<Event>, id: string) {
    id != "" && exists e :: e in events && (e.digest == id || (e.digest == "" && e.vertex == id))
  }

  /** `v` has the earliest start, the latest completion and the OR of `cached`. */
  ghost predicate Extreme(events: seq<Event>, id: string, v: Vertex) {
    && IsEarliest(events, id, v.started) && IsLatest(events, id, v.completed)
    && (v.cached <==> EverCached(events, id))
  }

  lemma ExtremeStep(events: seq<Event>, e: Event, v: Vertex)
    requires Extreme(events, Identifier(e), v)
    ensures Extreme(events + [e], Identifier(e), MergeVertex(v, e))
  {
    var id, all := Identifier(e), events + [e];
    assert e in all && forall x :: x in all <==> x in events || x == e;
    EarliestStep(events, e, v.started);
    LatestStep(events, e, v.completed);
  }

  lemma EarliestStep(events: seq<Event>, e: Event, t: Option<int>)
    requires IsEarliest(events, Identifier(e), t)
    ensures IsEarliest(events + [e], Identifier(e), Earlier(t, e.started))
  {
    assert e in events + [e];
    if t.Some? {
      var x :| x in events && Identifier(x) == Identifier(e) && x.started == t;
      assert x in events + [e];
    }
  }

  lemma LatestStep(events: seq<Event>, e: Event, t: Option<int>)
    requires IsLatest(events, Identifier(e), t)
    ensures IsLatest(events + [e], Identifier(e), Later(t, e.completed))
  {
    assert e in events + [e];
    if t.Some? {
      var x :| x in events && Identifier(x) == Identifier(e) && x.completed == t;
      assert x in events + [e];
    }
  }

  /** An event of another vertex changes nothing. */
  lemma ExtremeFrame(events: seq<Event>, e: Event, id: string, v: Vertex)
    requires Extreme(events, id, v) && id != Identifier(e)
    ensures Extreme(events + [e], id, v)
  {
    var all := events + [e];
    assert forall x :: x in all && Identifier(x) == id <==> x in events && Identifier(x) == id;
  }

  lemma NewIsExtreme(events: seq<Event>, id: string)
    requires forall e :: e in events ==> Identifier(e) != id
    ensures Extreme(events, id, NEW)
  {
  }

  /** The dictionary holds exactly the vertices mentioned, each with its extremes. */
  lemma {:induction false} MergedIsExtreme(events: seq<Event>, id: string)
    ensures var log := MergeAll(events);
      && (id in log.table <==> Mentioned(events, id))
      && (id in log.table ==> Extreme(events, id, log.table[id]))
  {
    if events != [] {
      var front, e := events[..|events| - 1], events[|events| - 1];
      MergedIsExtreme(front, id);
      assert events == front + [e];
      assert e in events && forall x :: x in events <==> x in front || x == e;
      var before := MergeAll(front);
      if id == "" {
      } else if id == Identifier(e) {
        if id !in before.table {
          NewIsExtreme(front, id);
        }
        ExtremeStep(front, e, if id in before.table then before.table[id] else NEW);
      } else if id in before.table {
        ExtremeFrame(front, e, id, before.table[id]);
      }
    }
  }

  ghost predicate SameEvents(a: seq<Event>, b: seq<Event>) {
    forall e: Event :: e in a <==> e in b
  }

  /** Same key, same bounds, same cache flag: everything the counts depend on. */
  ghost predicate SameTiming(v: Vertex, w: Vertex) {
    v.started == w.started && v.completed == w.completed && v.cached == w.cached
  }

  lemma ExtremesAgree(a: seq<Event>, b: seq<Event>, id: string, v: Vertex, w: Vertex)
    requires SameEvents(a, b) && Extreme(a, id, v) && Extreme(b, id, w)
    ensures SameTiming(v, w)
  {
    EarliestAgrees(a, b, id, v.started, w.started);
    EarliestAgrees(b, a, id, w.started, v.started);
    LatestAgrees(a, b, id, v.completed, w.completed);
    LatestAgrees(b, a, id, w.completed, v.completed);
    assert EverCached(a, id) <==> EverCached(b, id);
  }

  lemma EarliestAgrees(a: seq<Event>, b: seq<Event>, id: string, t: Option<int>, u: Option<int>)
    requires SameEvents(a, b) && IsEarliest(a, id, t) && IsEarliest(b, id, u)
    ensures u.Some? ==> t.Some? && t.value <= u.value
  {
  }

  lemma LatestAgrees(a: seq<Event>, b: seq<Event>, id: string, t: Option<int>, u: Option<int>)
    requires SameEvents(a, b) && IsLatest(a, id, t) && IsLatest(b, id, u)
    ensures u.Some? ==> t.Some? && t.value >= u.value
  {
  }

  /**
    The order of events, their nesting and their repetition do not matter: every vertex ends with
    the same start, completion and cache flag.
    */
  lemma OrderDoesNotMatter(a: seq<Event>, b: seq<Event>, id: string)
    requires SameEvents(a, b)
    ensures var x, y := MergeAll(a).table, MergeAll(b).table;
      && (id in x <==> id in y)
      && (id in x ==> SameTiming(x[id], y[id]))
  {
    MergedIsExtreme(a, id);
    MergedIsExtreme(b, id);
    assert Mentioned(a, id) <==> Mentioned(b, id);
    if id in MergeAll(a).table {
      ExtremesAgree(a, b, id, MergeAll(a).table[id], MergeAll(b).table[id]);
    }
  }

  /** `name` is the first one that an event gives the vertex; empty if none does. */
  ghost predicate IsFirstName(events: seq<Event>, id: string, name: string) {
    if name == "" then forall i :: 0 <= i < |events| && Identifier(events[i]) == id ==> events[i].name == ""
    else exists i :: 0 <= i < |events| && Identifier(events[i]) == id && events[i].name == name
           && forall k :: 0 <= k < i && Identifier(events[k]) == id ==> events[k].name == ""
  }

  /** `error` is what the last event with an error, null or not, gives the vertex; none if no event does. */
  ghost predicate IsLastError(events: seq<Event>, id: string, error: Option<string>) {
    || (error.None? && forall i :: 0 <= i < |events| && Identifier(events[i]) == id ==> events[i].error.None?)
    || (exists i :: 0 <= i < |events| && Identifier(events[i]) == id && events[i].error == Some(error)
          && forall k :: i < k < |events| && Identifier(events[k]) == id ==> events[k].error.None?)
  }

  /** Name and error do depend on the order: the first name stays, the last error stays, also a null. */
  lemma {:induction false} NameAndErrorFollowOrder(events: seq<Event>, id: string)
    requires id in MergeAll(events).table
    ensures IsFirstName(events, id, MergeAll(events).table[id].name)
    ensures IsLastError(events, id, MergeAll(events).table[id].error)
  {
    if events != [] {
      var front, e := events[..|events| - 1], events[|events| - 1];
      assert events == front + [e];
      var v := Held(MergeAll(front), id);
      MergedIsExtreme(events, id);
      VertexStep(MergeAll(front), e, id);
      if id in MergeAll(front).table {
        NameAndErrorFollowOrder(front, id);
      } else {
        MergedIsExtreme(front, id);
        NoneMentioned(front, id);
      }
      FirstNameStep(front, e, id, v.name);
      LastErrorStep(front, e, id, v.error);
    }
  }

  function Held(log: Log, id: string): Vertex {
    if id in log.table then log.table[id] else NEW
  }

  lemma VertexStep(log: Log, e: Event, id: string)
    requires id in Merge(log, e).table && id != ""
    ensures var v, after := Held(log, id), Merge(log, e).table[id];
      && after.name == (if Identifier(e) == id && v.name == "" then e.name else v.name)
      && after.error == (if Identifier(e) == id && e.error.Some? then e.error.value else v.error)
  {
  }

  lemma NoneMentioned(events: seq<Event>, id: string)
    requires id != "" && !Mentioned(events, id)
    ensures IsFirstName(events, id, "") && IsLastError(events, id, None)
  {
    forall i | 0 <= i < |events| ensures Identifier(events[i]) != id {
      assert events[i] in events;
    }
  }

  lemma FirstNameStep(events: seq<Event>, e: Event, id: string, name: string)
    requires IsFirstName(events, id, name)
    ensures IsFirstName(events + [e], id, if Identifier(e) == id && name == "" then e.name else name)
  {
    var all := events + [e];
    assert all[|events|] == e && forall i :: 0 <= i < |events| ==> all[i] == events[i];
  }

  lemma LastErrorStep(events: seq<Event>, e: Event, id: string, error: Option<string>)
    requires IsLastError(events, id, error)
    ensures IsLastError(events + [e], id, if Identifier(e) == id && e.error.Some? then e.error.value else error)
  {
    var all := events + [e];
    assert all[|events|] == e && forall i :: 0 <= i < |events| ==> all[i] == events[i];
  }

  /** The order lists every key once. */
  ghost predicate Listed(log: Log) {
    Distinct(log.order) && Elements(log.order) == log.table.Keys
  }

  lemma {:induction false} OrderListsTable(events: seq<Event>)
    ensures Listed(MergeAll(events))
  {
    if events != [] {
      var front, e := events[..|events| - 1], events[|events| - 1];
      OrderListsTable(front);
      var before, id := MergeAll(front), Identifier(e);
      if id != "" && id !in before.table {
        assert id !in Elements(before.order);
        assert Elements(before.order + [id]) == Elements(before.order) + {id};
      }
    }
  }

  /** The first event that names `a` comes before all that name `b`. */
  ghost predicate FirstNamed(events: seq<Event>, a: string, b: string) {
    exists p :: 0 <= p < |events| && Identifier(events[p]) == a
      && forall q :: 0 <= q <= p ==> Identifier(events[q]) != b
  }

  lemma FirstNamedFurther(events: seq<Event>, e: Event, a: string, b: string)
    requires FirstNamed(events, a, b)
    ensures FirstNamed(events + [e], a, b)
  {
    var all := events + [e];
    var p :| 0 <= p < |events| && Identifier(events[p]) == a
      && forall q :: 0 <= q <= p ==> Identifier(events[q]) != b;
    assert forall q :: 0 <= q <= p ==> all[q] == events[q];
  }

  /** A vertex that is not listed yet is named after all that are. */
  lemma FirstNamedNew(events: seq<Event>, a: string, b: string)
    requires a in MergeAll(events).order && b !in MergeAll(events).order && b != ""
    ensures FirstNamed(events, a, b)
  {
    NamedByNow(events, a);
    var p :| 0 <= p < |events| && Identifier(events[p]) == a;
    forall q | 0 <= q <= p ensures Identifier(events[q]) != b {
      if Identifier(events[q]) != "" {
        NamedIsListed(events, q);
      }
    }
  }

  /** The dictionary lists the vertices in the order in which they are first named. */
  lemma {:induction false} OrderIsFirstNamed(events: seq<Event>, i: nat, j: nat)
    requires i < j < |MergeAll(events).order|
    ensures FirstNamed(events, MergeAll(events).order[i], MergeAll(events).order[j])
  {
    if events != [] {
      var front, e := events[..|events| - 1], events[|events| - 1];
      assert events == front + [e];
      var before, order := MergeAll(front).order, MergeAll(events).order;
      OrderGrows(front, e);
      if j < |before| {
        OrderIsFirstNamed(front, i, j);
      } else {
        FirstNamedNew(front, order[i], order[j]);
      }
      FirstNamedFurther(front, e, order[i], order[j]);
    }
  }

  lemma OrderGrows(front: seq<Event>, e: Event)
    ensures var before, order, id := MergeAll(front).order, MergeAll(front + [e]).order, Identifier(e);
      order == before || (id != "" && id !in before && order == before + [id])
  {
    assert (front + [e])[..|front|] == front;
    OrderListsTable(front);
    assert Identifier(e) in MergeAll(front).order ==> Identifier(e) in Elements(MergeAll(front).order);
  }

  lemma NamedByNow(events: seq<Event>, id: string)
    requires id in MergeAll(events).order
    ensures exists p :: 0 <= p < |events| && Identifier(events[p]) == id
  {
    OrderListsTable(events);
    assert id in Elements(MergeAll(events).order);
    MergedIsExtreme(events, id);
  }

  lemma NamedIsListed(events: seq<Event>, q: nat)
    requires q < |events| && Identifier(events[q]) != ""
    ensures Identifier(events[q]) in MergeAll(events).order
  {
    OrderListsTable(events);
    MergedIsExtreme(events, Identifier(events[q]));
    assert events[q] in events;
    assert Identifier(events[q]) in Elements(MergeAll(events).order);
  }

  /** The objects of a list, one log line each. */
  function AsLines(items: seq<Option<Event>>): seq<Line> {
    seq(|items|, i requires 0 <= i < |items| => if items[i].Some? then Stream(items[i].value) else NotObject)
  }

  /**
    What the lines say: an object is one event, blank lines and other values are none, and a history
    line stands for its vertexes and then its statuses, one line each.
    */
  lemma NestingIsFlat(lines: seq<Line>, e: Event, vertexes: seq<Option<Event>>, statuses: seq<Option<Event>>)
    ensures Events(lines + [Stream(e)]) == Events(lines) + [e]
    ensures Events(lines + [Blank]) == Events(lines + [NotObject]) == Events(lines)
    ensures Events(lines + [History(vertexes, statuses)]) == Events(lines + (AsLines(vertexes) + AsLines(statuses)))
  {
    AppendLine(lines, Stream(e));
    AppendLine(lines, Blank);
    AppendLine(lines, NotObject);
    HistoryIsFlat(lines, vertexes, statuses);
  }

  lemma HistoryIsFlat(lines: seq<Line>, vertexes: seq<Option<Event>>, statuses: seq<Option<Event>>)
    ensures Events(lines + [History(vertexes, statuses)]) == Events(lines + (AsLines(vertexes) + AsLines(statuses)))
  {
    AppendLine(lines, History(vertexes, statuses));
    TwoLists(vertexes, statuses);
    EventsOfTwo(lines, AsLines(vertexes) + AsLines(statuses));
  }

  lemma TwoLists(vertexes: seq<Option<Event>>, statuses: seq<Option<Event>>)
    ensures Events(AsLines(vertexes) + AsLines(statuses)) == Present(vertexes) + Present(statuses)
  {
    EventsOfTwo(AsLines(vertexes), AsLines(statuses));
    ObjectsAsLines(vertexes);
    ObjectsAsLines(statuses);
  }

  lemma AppendLine(lines: seq<Line>, line: Line)
    ensures Events(lines + [line]) == Events(lines) + EventsOf(line)
  {
    assert (lines + [line])[..|lines|] == lines;
  }

  lemma {:induction false} EventsOfTwo(a: seq<Line>, b: seq<Line>)
    ensures Events(a + b) == Events(a) + Events(b)
  {
    if b == [] {
      assert a + b == a;
    } else {
      var front, last := b[..|b| - 1], b[|b| - 1];
      assert b == front + [last];
      EventsOfTwo(a, front);
      AppendLine(a + front, last);
      Associative(a, front, [last]);
      Associative(Events(a), Events(front), EventsOf(last));
    }
  }

  lemma {:induction false} ObjectsAsLines(items: seq<Option<Event>>)
    ensures Events(AsLines(items)) == Present(items)
  {
    if items != [] {
      var front, last := items[..|items| - 1], items[|items| - 1];
      ObjectsAsLines(front);
      AsLinesStep(front, last);
      assert items == front + [last];
      AppendLine(AsLines(front), if last.Some? then Stream(last.value) else NotObject);
    }
  }

  lemma AsLinesStep(front: seq<Option<Event>>, last: Option<Event>)
    ensures AsLines(front + [last]) == AsLines(front) + [if last.Some? then Stream(last.value) else NotObject]
  {
  }

  // ---------------------------------------------------------------------------------------
  // The summary
  // ---------------------------------------------------------------------------------------

  datatype Row = Row(work: int, cached: nat, executed: nat)

  const EMPTY_ROW := Row(0, 0, 0)

  datatype Step = Step(name: string, elapsed: int, cached: bool, error: Option<string>)

  datatype Summary = Summary(stages: map<string, Row>, steps: seq<Step>)

  datatype SummaryError = BadWallTime | BadLine | NoVertices | NegativeDuration | NoSteps

  predicate Timed(v: Vertex) {
    v.started.Some? && v.completed.Some?
  }

  predicate Negative(v: Vertex) {
    Timed(v) && v.completed.value < v.started.value
  }

  function StepOf(v: Vertex): Step
    requires Timed(v)
  {
    Step(v.name, v.completed.value - v.started.value, v.cached, v.error)
  }

  /** The timed vertices as steps, in the order of the dictionary. */
  function StepsOf(log: Log, ids: seq<string>): seq<Step> {
    if ids == [] then []
    else
      var front := StepsOf(log, ids[..|ids| - 1]);
      var last := ids[|ids| - 1];
      if last in log.table && Timed(log.table[last]) then front + [StepOf(log.table[last])] else front
  }

  function Count(row: Row, step: Step): Row {
    if step.cached then row.(cached := row.cached + 1)
    else row.(executed := row.executed + 1, work := row.work + step.elapsed)
  }

  /** The row of one stage, from the steps alone. */
  function Tally(stageOf: string -> string, steps: seq<Step>, stage: string): Row {
    if steps == [] then EMPTY_ROW
    else
      var before := Tally(stageOf, steps[..|steps| - 1], stage);
      var last := steps[|steps| - 1];
      if stageOf(last.name) == stage then Count(before, last) else before
  }

  /** Exactly the stages that occur, each with its own tally. */
  ghost predicate Tallied(stageOf: string -> string, steps: seq<Step>, stages: map<string, Row>) {
    && (forall s :: s in stages <==> exists i :: 0 <= i < |steps| && stageOf(steps[i].name) == s)
    && (forall s :: s in stages ==> stages[s] == Tally(stageOf, steps, s))
  }

  /** Steps counted in all stages together. */
  ghost function Counted(stages: map<string, Row>): nat {
    if stages == map[] then 0
    else
      var s :| s in stages;
      stages[s].cached + stages[s].executed + Counted(stages - {s})
  }

  lemma {:induction false} CountedWithout(stages: map<string, Row>, s: string)
    requires s in stages
    ensures Counted(stages) == stages[s].cached + stages[s].executed + Counted(stages - {s})
    decreases |stages|
  {
    var x :| x in stages && Counted(stages) == stages[x].cached + stages[x].executed + Counted(stages - {x});
    if x != s {
      CountedWithout(stages - {x}, s);
      CountedWithout(stages - {s}, x);
      assert (stages - {x}) - {s} == (stages - {s}) - {x};
    }
  }

  function AddStep(stageOf: string -> string, stages: map<string, Row>, step: Step): map<string, Row> {
    var stage := stageOf(step.name);
    stages[stage := Count(if stage in stages then stages[stage] else EMPTY_ROW, step)]
  }

  lemma {:induction false} AbsentMeansEmpty(stageOf: string -> string, steps: seq<Step>, stage: string)
    requires forall i :: 0 <= i < |steps| ==> stageOf(steps[i].name) != stage
    ensures Tally(stageOf, steps, stage) == EMPTY_ROW
  {
    if steps != [] {
      AbsentMeansEmpty(stageOf, steps[..|steps| - 1], stage);
    }
  }

  lemma AddStepTallies(stageOf: string -> string, steps: seq<Step>, stages: map<string, Row>, step: Step)
    requires Tallied(stageOf, steps, stages)
    ensures Tallied(stageOf, steps + [step], AddStep(stageOf, stages, step))
  {
    var all, after := steps + [step], AddStep(stageOf, stages, step);
    assert all[..|steps|] == steps && all[|steps|] == step;
    forall s ensures s in after <==> exists i :: 0 <= i < |all| && stageOf(all[i].name) == s {
      if s in stages {
        var i :| 0 <= i < |steps| && stageOf(steps[i].name) == s;
        assert stageOf(all[i].name) == s;
      }
      if i :| 0 <= i < |all| && stageOf(all[i].name) == s {
        assert i < |steps| ==> all[i] == steps[i];
      }
    }
    if stageOf(step.name) !in stages {
      AbsentMeansEmpty(stageOf, steps, stageOf(step.name));
    }
  }

  lemma AddStepCounts(stageOf: string -> string, stages: map<string, Row>, step: Step)
    ensures Counted(AddStep(stageOf, stages, step)) == Counted(stages) + 1
  {
    var stage := stageOf(step.name);
    var after := AddStep(stageOf, stages, step);
    CountedWithout(after, stage);
    assert after - {stage} == stages - {stage};
    if stage in stages {
      CountedWithout(stages, stage);
    } else {
      assert stages - {stage} == stages;
    }
  }

  ghost function TimedIds(log: Log): set<string> {
    set id | id in log.table && Timed(log.table[id])
  }

  ghost function TimedAmong(log: Log, ids: seq<string>): set<string> {
    set id | id in ids && id in log.table && Timed(log.table[id])
  }

  lemma {:induction false} StepsCountTimed(log: Log, ids: seq<string>)
    requires Distinct(ids)
    ensures |StepsOf(log, ids)| == |TimedAmong(log, ids)|
  {
    if ids == [] {
      assert TimedAmong(log, ids) == {};
    } else {
      var front, last := ids[..|ids| - 1], ids[|ids| - 1];
      StepsCountTimed(log, front);
      var before, after := TimedAmong(log, front), TimedAmong(log, ids);
      assert last !in front;
      assert forall id :: id in ids <==> id in front || id == last;
      assert after == if last in log.table && Timed(log.table[last]) then before + {last} else before;
    }
  }

  ghost predicate NoneNegative(log: Log, n: nat)
    requires n <= |log.order|
  {
    forall i :: 0 <= i < n ==> log.order[i] in log.table && !Negative(log.table[log.order[i]])
  }

  predicate InTime(steps: seq<Step>) {
    forall i :: 0 <= i < |steps| ==> steps[i].elapsed >= 0
  }

  /** The steps of a whole dictionary without negative durations decide how its summary ends. */
  lemma StepsDecideOutcome(log: Log)
    requires Listed(log) && log.table != map[]
    requires NoneNegative(log, |log.order|)
    ensures |StepsOf(log, log.order)| == |TimedIds(log)|
    ensures Outcome(log) == if StepsOf(log, log.order) == [] then Some(NoSteps) else None
  {
    StepsCountTimed(log, log.order);
    assert TimedIds(log) == TimedAmong(log, log.order) by {
      assert forall id :: id in log.order <==> id in Elements(log.order);
    }
    forall id | id in log.table ensures !Negative(log.table[id]) {
      assert id in Elements(log.order);
    }
  }

  // ---------------------------------------------------------------------------------------
  // The summary in terms of the vertices
  // ---------------------------------------------------------------------------------------

  /** The step says of the vertex what it is: its name, how long it took, whether from the cache, its error. */
  predicate Describes(step: Step, v: Vertex) {
    && v.started.Some? && v.completed.Some?
    && step.name == v.name && v.started.value + step.elapsed == v.completed.value
    && (step.cached <==> v.cached) && step.error == v.error
  }

  /** `steps` describe, in order, the vertices of `ids` at the places `at`: all of those with both bounds. */
  ghost predicate DescribeTimed(log: Log, ids: seq<string>, steps: seq<Step>, at: seq<nat>) {
    && |at| == |steps| && (forall i, j :: 0 <= i < j < |at| ==> at[i] < at[j])
    && (forall i :: 0 <= i < |at| ==> at[i] < |ids| && Describes(steps[i], Held(log, ids[at[i]])))
    && (forall p: nat :: p < |ids| && Timed(Held(log, ids[p])) ==> p in at)
  }

  ghost predicate StepsAreTimed(log: Log, steps: seq<Step>) {
    exists at :: DescribeTimed(log, log.order, steps, at)
  }

  lemma DescribeFurther(log: Log, front: seq<string>, last: string, steps: seq<Step>, at: seq<nat>)
    requires DescribeTimed(log, front, steps, at)
    ensures Timed(Held(log, last)) ==>
      DescribeTimed(log, front + [last], steps + [StepOf(Held(log, last))], at + [|front|])
    ensures !Timed(Held(log, last)) ==> DescribeTimed(log, front + [last], steps, at)
  {
    var ids, at' := front + [last], at + [|front|];
    assert ids[|front|] == last && at'[|at|] == |front|;
    forall p: nat | p < |front| && Timed(Held(log, ids[p])) ensures p in at && p in at' {
      assert ids[p] == front[p];
    }
  }

  lemma {:induction false} StepsDescribe(log: Log, ids: seq<string>) returns (at: seq<nat>)
    ensures DescribeTimed(log, ids, StepsOf(log, ids), at)
  {
    at := [];
    if ids != [] {
      var front, last := ids[..|ids| - 1], ids[|ids| - 1];
      assert ids == front + [last];
      at := StepsDescribe(log, front);
      DescribeFurther(log, front, last, StepsOf(log, front), at);
      at := if Timed(Held(log, last)) then at + [|front|] else at;
    }
  }

  /** A vertex of the stage with both bounds that came from the cache, or was executed. */
  predicate InStage(stageOf: string -> string, v: Vertex, stage: string, cached: bool) {
    v.started.Some? && v.completed.Some? && v.cached == cached && stageOf(v.name) == stage
  }

  ghost function OfStage(stageOf: string -> string, log: Log, ids: set<string>, stage: string, cached: bool): set<string> {
    set id | id in ids && InStage(stageOf, Held(log, id), stage, cached)
  }

  function Duration(v: Vertex): int {
    if v.started.Some? && v.completed.Some? then v.completed.value - v.started.value else 0
  }

  /** The time from start to completion, over all of `ids`. */
  ghost function TimeOf(log: Log, ids: set<string>): int {
    if ids == {} then 0
    else
      var id :| id in ids;
      Duration(Held(log, id)) + TimeOf(log, ids - {id})
  }

  lemma {:induction false} TimeWithout(log: Log, ids: set<string>, id: string)
    requires id in ids
    ensures TimeOf(log, ids) == Duration(Held(log, id)) + TimeOf(log, ids - {id})
    decreases |ids|
  {
    var x :| x in ids && TimeOf(log, ids) == Duration(Held(log, x)) + TimeOf(log, ids - {x});
    if x != id {
      TimeWithout(log, ids - {x}, id);
      TimeWithout(log, ids - {id}, x);
      assert (ids - {x}) - {id} == (ids - {id}) - {x};
    }
  }

  /** What the row of a stage must say of the vertices `ids`. */
  ghost predicate RowCounts(stageOf: string -> string, log: Log, ids: set<string>, stage: string, row: Row) {
    && row.cached == |OfStage(stageOf, log, ids, stage, true)|
    && row.executed == |OfStage(stageOf, log, ids, stage, false)|
    && row.work == TimeOf(log, OfStage(stageOf, log, ids, stage, false))
  }

  /** Exactly the stages of vertices with both bounds have a row, each with the counts of its own. */
  ghost predicate RowsCount(stageOf: string -> string, log: Log, stages: map<string, Row>) {
    && (forall s :: s in stages <==>
          exists id, cached :: id in log.table && InStage(stageOf, log.table[id], s, cached))
    && (forall s :: s in stages ==> RowCounts(stageOf, log, log.table.Keys, s, stages[s]))
  }

  lemma OfStageFurther(stageOf: string -> string, log: Log, ids: set<string>, last: string, stage: string, cached: bool)
    requires last !in ids
    ensures var before, after := OfStage(stageOf, log, ids, stage, cached), OfStage(stageOf, log, ids + {last}, stage, cached);
      && last !in before
      && after == if InStage(stageOf, Held(log, last), stage, cached) then before + {last} else before
  {
  }

  /** One more vertex in the row of its stage. */
  lemma RowFurther(stageOf: string -> string, log: Log, ids: set<string>, last: string, stage: string, row: Row)
    requires last !in ids && RowCounts(stageOf, log, ids, stage, row)
    ensures var v := Held(log, last);
      RowCounts(stageOf, log, ids + {last}, stage,
                if Timed(v) && stageOf(v.name) == stage then Count(row, StepOf(v)) else row)
  {
    OfStageFurther(stageOf, log, ids, last, stage, true);
    OfStageFurther(stageOf, log, ids, last, stage, false);
    if InStage(stageOf, Held(log, last), stage, false) {
      var executed := OfStage(stageOf, log, ids, stage, false);
      TimeWithout(log, executed + {last}, last);
      assert (executed + {last}) - {last} == executed;
    }
  }

  lemma {:induction false} TallyCounts(stageOf: string -> string, log: Log, ids: seq<string>, stage: string)
    requires Distinct(ids)
    ensures RowCounts(stageOf, log, Elements(ids), stage, Tally(stageOf, StepsOf(log, ids), stage))
  {
    if ids == [] {
      assert OfStage(stageOf, log, Elements(ids), stage, true) == {} == OfStage(stageOf, log, Elements(ids), stage, false);
    } else {
      var front, last := ids[..|ids| - 1], ids[|ids| - 1];
      assert ids == front + [last] && last !in front;
      TallyCounts(stageOf, log, front, stage);
      TallyStep(stageOf, log, ids, stage);
      assert Elements(ids) == Elements(front) + {last};
      RowFurther(stageOf, log, Elements(front), last, stage, Tally(stageOf, StepsOf(log, front), stage));
    }
  }

  lemma TallyStep(stageOf: string -> string, log: Log, ids: seq<string>, stage: string)
    requires ids != []
    ensures var front, v := ids[..|ids| - 1], Held(log, ids[|ids| - 1]);
      var before := Tally(stageOf, StepsOf(log, front), stage);
      Tally(stageOf, StepsOf(log, ids), stage)
        == if Timed(v) && stageOf(v.name) == stage then Count(before, StepOf(v)) else before
  {
    var steps, v := StepsOf(log, ids[..|ids| - 1]), Held(log, ids[|ids| - 1]);
    if Timed(v) {
      var all := steps + [StepOf(v)];
      assert all[..|all| - 1] == steps;
    }
  }

  /** A stage occurs among the steps exactly when it does among the vertices with both bounds. */
  lemma StagesOccur(stageOf: string -> string, log: Log, steps: seq<Step>, at: seq<nat>, stage: string)
    requires Listed(log) && DescribeTimed(log, log.order, steps, at)
    ensures (exists i :: 0 <= i < |steps| && stageOf(steps[i].name) == stage)
      <==> exists id, cached :: id in log.table && InStage(stageOf, log.table[id], stage, cached)
  {
    if i :| 0 <= i < |steps| && stageOf(steps[i].name) == stage {
      var id := log.order[at[i]];
      assert id in Elements(log.order) && Describes(steps[i], Held(log, id));
      assert InStage(stageOf, log.table[id], stage, log.table[id].cached);
    }
    if id, cached :| id in log.table && InStage(stageOf, log.table[id], stage, cached) {
      assert id in Elements(log.order);
      var p :| 0 <= p < |log.order| && log.order[p] == id;
      var i :| 0 <= i < |at| && at[i] == p;
      assert Describes(steps[i], Held(log, id));
    }
  }

  /** The rows of a whole dictionary. */
  lemma TalliedCounts(stageOf: string -> string, log: Log, stages: map<string, Row>)
    requires Listed(log) && Tallied(stageOf, StepsOf(log, log.order), stages)
    ensures RowsCount(stageOf, log, stages)
  {
    var at := StepsDescribe(log, log.order);
    forall s ensures s in stages <==> exists id, cached :: id in log.table && InStage(stageOf, log.table[id], s, cached) {
      StagesOccur(stageOf, log, StepsOf(log, log.order), at, s);
    }
    forall s | s in stages ensures RowCounts(stageOf, log, log.table.Keys, s, stages[s]) {
      TallyCounts(stageOf, log, log.order, s);
    }
  }

  /** How the summary of a log without broken lines ends. */
  ghost function Outcome(log: Log): Option<SummaryError> {
    if log.table == map[] then Some(NoVertices)
    else if exists id :: id in log.table && Negative(log.table[id]) then Some(NegativeDuration)
    else if TimedIds(log) == {} then Some(NoSteps)
    else None
  }

  predicate EndsBeforeStart(v: Vertex) {
    v.started.Some? && v.completed.Some? && v.completed.value < v.started.value
  }

  lemma OutcomeMeans(log: Log)
    ensures Outcome(log) == Some(NoVertices) <==> log.table == map[]
    ensures Outcome(log) == Some(NegativeDuration) <==> exists id :: id in log.table && EndsBeforeStart(log.table[id])
    ensures Outcome(log) == Some(NoSteps) ==>
      forall id :: id in log.table ==> log.table[id].started.None? || log.table[id].completed.None?
  {
    if id :| id in log.table && EndsBeforeStart(log.table[id]) {
      assert Negative(log.table[id]);
    }
    if id :| id in log.table && Negative(log.table[id]) {
      assert EndsBeforeStart(log.table[id]);
    }
    if Outcome(log) == Some(NoSteps) {
      forall id | id in log.table ensures log.table[id].started.None? || log.table[id].completed.None? {
        assert id !in TimedIds(log);
      }
    }
  }

  lemma NegativeDecidesOutcome(log: Log, id: string)
    requires id in log.table && Negative(log.table[id])
    ensures Outcome(log) == Some(NegativeDuration)
  {
  }

  /** Whether a summary succeeds, how it fails, and how many steps it has, ignore the order too. */
  lemma OutcomeIgnoresOrder(a: seq<Event>, b: seq<Event>)
    requires SameEvents(a, b)
    ensures Outcome(MergeAll(a)) == Outcome(MergeAll(b))
    ensures TimedIds(MergeAll(a)) == TimedIds(MergeAll(b))
  {
    var x, y := MergeAll(a).table, MergeAll(b).table;
    forall id ensures id in x <==> id in y {
      OrderDoesNotMatter(a, b, id);
    }
    forall id | id in x ensures SameTiming(x[id], y[id]) {
      OrderDoesNotMatter(a, b, id);
    }
    assert x.Keys == y.Keys;
    assert x == map[] <==> x.Keys == {};
    assert y == map[] <==> y.Keys == {};
    assert forall id :: id in x ==> (Negative(x[id]) <==> Negative(y[id]));
  }

  // ---------------------------------------------------------------------------------------
  // The script
  // ---------------------------------------------------------------------------------------

  /** The dictionary `vertices`, updated in place. */
  class Vertices {
    var order: seq<string>
    var table: map<string, Vertex>

    constructor ()
      ensures View() == Log([], map[])
    {
      order, table := [], map[];
    }

    ghost function View(): Log
      reads this
    {
      Log(order, table)
    }

    /** `_merge_progress_event` */
    method MergeProgressEvent(event: Event)
      modifies this
      ensures View() == Merge(old(View()), event)
    {
      var identifier := if event.digest != "" then event.digest else event.vertex;
      if identifier == "" {
        return;
      }
      if identifier !in table {
        order := order + [identifier];
        table := table[identifier := NEW];
      }
      var vertex := Updated(table[identifier], event);
      table := table[identifier := vertex];
    }

    static method Updated(previous: Vertex, event: Event) returns (vertex: Vertex)
      ensures vertex == MergeVertex(previous, event)
    {
      vertex := previous;
      if event.name != "" && vertex.name == "" {
        vertex := vertex.(name := event.name);
      }
      if event.cached.Some? {
        vertex := vertex.(cached := vertex.cached || event.cached.value);
      }
      if event.error.Some? {
        vertex := vertex.(error := event.error.value);
      }
      if event.started.Some? {
        if vertex.started.None? || event.started.value < vertex.started.value {
          vertex := vertex.(started := event.started);
        }
      }
      if event.completed.Some? {
        if vertex.completed.None? || event.completed.value > vertex.completed.value {
          vertex := vertex.(completed := event.completed);
        }
      }
    }

    /** The objects of one list of a history line. */
    method MergeItems(items: seq<Option<Event>>)
      modifies this
      ensures View() == MergeInto(old(View()), Present(items))
    {
      ghost var before := View();
      for i := 0 to |items|
        invariant View() == MergeInto(before, Present(items[..i]))
      {
        assert items[..i + 1][..i] == items[..i];
        if items[i].Some? {
          MergeProgressEvent(items[i].value);
        }
      }
      assert items[..|items|] == items;
    }

    /** One line of the log; `false` when it is no JSON. */
    method MergeLine(line: Line) returns (ok: bool)
      modifies this
      ensures ok <==> !line.Garbled?
      ensures View() == MergeInto(old(View()), EventsOf(line))
    {
      match line {
        case Garbled => return false;
        case Stream(event) =>
          MergeOne(View(), event);
          MergeProgressEvent(event);
        case History(vertexes, statuses) =>
          MergeParts(View(), Present(vertexes), Present(statuses));
          MergeItems(vertexes);
          MergeItems(statuses);
        case _ =>
      }
      return true;
    }

    /** All lines of the log; `false` at the first that is no JSON. */
    method MergeLog(lines: seq<Line>) returns (ok: bool)
      requires View() == Log([], map[])
      modifies this
      ensures ok <==> Readable(lines)
      ensures ok ==> View() == MergeLines(lines)
    {
      for i := 0 to |lines|
        invariant View() == MergeLines(lines[..i])
        invariant ReadableUpTo(lines, i)
      {
        MergeLinesStep(lines, i);
        ok := MergeLine(lines[i]);
        if !ok {
          return false;
        }
      }
      assert lines[..|lines|] == lines;
      return true;
    }
  }

  /** The dictionary line by line. */
  function MergeLines(lines: seq<Line>): Log {
    if lines == [] then Log([], map[])
    else MergeInto(MergeLines(lines[..|lines| - 1]), EventsOf(lines[|lines| - 1]))
  }

  /** Merging line by line is merging all events: nesting makes no difference. */
  lemma {:induction false} LinesAreEvents(lines: seq<Line>)
    ensures MergeLines(lines) == MergeAll(Events(lines))
  {
    if lines != [] {
      var front, last := lines[..|lines| - 1], lines[|lines| - 1];
      LinesAreEvents(front);
      MergeParts(Log([], map[]), Events(front), EventsOf(last));
    }
  }

  predicate Readable(lines: seq<Line>) {
    ReadableUpTo(lines, |lines|)
  }

  predicate ReadableUpTo(lines: seq<Line>, n: nat)
    requires n <= |lines|
  {
    forall i :: 0 <= i < n ==> !lines[i].Garbled?
  }

  lemma MergeLinesStep(lines: seq<Line>, i: nat)
    requires i < |lines|
    ensures MergeLines(lines[..i + 1]) == MergeInto(MergeLines(lines[..i]), EventsOf(lines[i]))
  {
    assert lines[..i + 1][..i] == lines[..i];
  }

  /** `_progress_vertices` */
  method ProgressVertices(lines: seq<Line>) returns (r: Result<Vertices, SummaryError>)
    ensures r.Ok? ==> fresh(r.value) && r.value.View() == MergeAll(Events(lines))
    ensures r.Ok? <==> Readable(lines)
    ensures r.Err? ==> r.error == BadLine
  {
    var vertices := new Vertices();
    var ok := vertices.MergeLog(lines);
    if !ok {
      return Err(BadLine);
    }
    LinesAreEvents(lines);
    return Ok(vertices);
  }

  /**
    `summarize_progress`, for a way to tell the stage from the name. Cached and executed over all
    stages add up to the steps, which are as many as there are vertices with both bounds.
    */
  method SummarizeProgress(lines: seq<Line>, wall: Option<int>, stageOf: string -> string)
    returns (r: Result<Summary, SummaryError>)
    ensures wall.None? || wall.value < 0 <==> r == Err(BadWallTime)
    ensures r == Err(BadLine) ==> !Readable(lines)
    ensures r.Ok? ==> Readable(lines)
    ensures r != Err(BadWallTime) && Readable(lines) ==>
      if r.Ok? then Outcome(MergeAll(Events(lines))).None? else Outcome(MergeAll(Events(lines))) == Some(r.error)
    ensures r != Err(BadWallTime) && Readable(lines) ==>
      var table := MergeAll(Events(lines)).table;
      && (r == Err(NoVertices) <==> table == map[])
      && (r == Err(NegativeDuration) <==> exists id :: id in table && EndsBeforeStart(table[id]))
      && (r == Err(NoSteps) ==> forall id :: id in table ==> table[id].started.None? || table[id].completed.None?)
    ensures r.Ok? ==> Tallied(stageOf, r.value.steps, r.value.stages)
    ensures r.Ok? ==> Counted(r.value.stages) == |r.value.steps| == |TimedIds(MergeAll(Events(lines)))|
    ensures r.Ok? ==> InTime(r.value.steps)
    ensures r.Ok? ==> StepsAreTimed(MergeAll(Events(lines)), r.value.steps)
    ensures r.Ok? ==> RowsCount(stageOf, MergeAll(Events(lines)), r.value.stages)
  {
    if wall.None? || wall.value < 0 {
      return Err(BadWallTime);
    }
    var parsed := ProgressVertices(lines);
    if parsed.Err? {
      return Err(BadLine);
    }
    OrderListsTable(Events(lines));
    r := CountSteps(parsed.value, stageOf);
    OutcomeMeans(MergeAll(Events(lines)));
  }

  method CountSteps(vertices: Vertices, stageOf: string -> string) returns (r: Result<Summary, SummaryError>)
    requires Listed(vertices.View())
    ensures var log := vertices.View();
      if r.Ok? then Outcome(log).None? else Outcome(log) == Some(r.error)
    ensures r.Ok? ==> Tallied(stageOf, r.value.steps, r.value.stages)
    ensures r.Ok? ==> Counted(r.value.stages) == |r.value.steps| == |TimedIds(vertices.View())|
    ensures r.Ok? ==> InTime(r.value.steps)
    ensures r.Ok? ==> StepsAreTimed(vertices.View(), r.value.steps)
    ensures r.Ok? ==> RowsCount(stageOf, vertices.View(), r.value.stages)
  {
    var order, table := vertices.order, vertices.table;
    ghost var log := Log(order, table);
    if table == map[] {
      return Err(NoVertices);
    }
    var stages: map<string, Row> := map[];
    var steps: seq<Step> := [];
    for i := 0 to |order|
      invariant CountedUpTo(stageOf, log, i, stages, steps)
    {
      assert order[i] in Elements(order);
      var vertex := table[order[i]];
      CountedFurther(stageOf, log, i, stages, steps);
      if vertex.started.None? || vertex.completed.None? {
        continue;
      }
      if vertex.completed.value < vertex.started.value {
        NegativeDecidesOutcome(log, order[i]);
        return Err(NegativeDuration);
      }
      stages, steps := CountStep(stageOf, stages, steps, StepOf(vertex));
    }
    assert order[..|order|] == order;
    StepsDecideOutcome(log);
    if steps == [] {
      return Err(NoSteps);
    }
    ghost var at := StepsDescribe(log, order);
    TalliedCounts(stageOf, log, stages);
    return Ok(Summary(stages, steps));
  }

  /** The state of the counting loop after `n` vertices. */
  ghost predicate CountedUpTo(stageOf: string -> string, log: Log, n: nat, stages: map<string, Row>, steps: seq<Step>)
    requires n <= |log.order|
  {
    && steps == StepsOf(log, log.order[..n])
    && Tallied(stageOf, steps, stages) && Counted(stages) == |steps|
    && InTime(steps) && NoneNegative(log, n)
  }

  lemma CountedFurther(stageOf: string -> string, log: Log, n: nat, stages: map<string, Row>, steps: seq<Step>)
    requires n < |log.order| && log.order[n] in log.table
    requires CountedUpTo(stageOf, log, n, stages, steps)
    ensures var v := log.table[log.order[n]];
      && (!Timed(v) ==> CountedUpTo(stageOf, log, n + 1, stages, steps))
      && (Timed(v) && !Negative(v) ==>
          CountedUpTo(stageOf, log, n + 1, AddStep(stageOf, stages, StepOf(v)), steps + [StepOf(v)]))
  {
    StepsFurther(log, n);
    var v := log.table[log.order[n]];
    if Timed(v) {
      AddStepTallies(stageOf, steps, stages, StepOf(v));
      AddStepCounts(stageOf, stages, StepOf(v));
    }
  }

  lemma StepsFurther(log: Log, n: nat)
    requires n < |log.order| && log.order[n] in log.table
    ensures var v := log.table[log.order[n]];
      StepsOf(log, log.order[..n + 1]) == StepsOf(log, log.order[..n]) + if Timed(v) then [StepOf(v)] else []
  {
    assert log.order[..n + 1][..n] == log.order[..n];
  }

  method CountStep(stageOf: string -> string, stages: map<string, Row>, steps: seq<Step>, step: Step)
    returns (stages': map<string, Row>, steps': seq<Step>)
    ensures stages' == AddStep(stageOf, stages, step) && steps' == steps + [step]
  {
    var stage := stageOf(step.name);
    var row := CountRow(if stage in stages then stages[stage] else EMPTY_ROW, step);
    return stages[stage := row], steps + [step];
  }

  method CountRow(before: Row, step: Step) returns (row: Row)
    ensures row == Count(before, step)
  {
    row := before;
    if step.cached {
      row := row.(cached := row.cached + 1);
    } else {
      row := row.(executed := row.executed + 1);
      row := row.(work := row.work + step.elapsed);
    }
  }
}
