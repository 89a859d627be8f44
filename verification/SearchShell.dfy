/**
  The search request protocol of the desktop shell (apps/web/src/App.tsx): a generation counter,
  an abort controller and a scope token guard the shown answer against responses that arrive late.
  */
module SearchProtocol {
  import opened Wrappers
  import opened Text

  /** `searchScope`: what a request asked, where. */
  datatype Scope = Scope(workspace: string, source: string, query: string)

  datatype Answer = Answer(text: string, evidence: seq<string>)

  /** What the answer pane shows. */
  datatype Shown = Shown(answer: Option<Answer>, reflection: Option<Answer>, evidence: seq<string>, activeQuery: string)

  datatype Kind = Search | Reflect

  /** A request that awaits its response. Its controller is identified by its own number. */
  datatype Request = Request(kind: Kind, scope: Scope, value: string)

  /** How an awaited call ends; `AbortError` is the rejection of an aborted fetch. */
  datatype Response = Answered(answer: Answer) | Failed(message: string) | AbortError

  datatype Shell = Shell(
    requestId: nat,
    controller: Option<nat>,
    aborted: set<nat>,
    token: Option<Scope>,
    inFlight: map<nat, Request>,
    answer: Option<Answer>,
    reflection: Option<Answer>,
    evidence: seq<string>,
    activeQuery: string,
    loading: bool,
    error: string,
    workspace: string,
    source: string,
    query: string)

  /** The shell before the first search; `loading` then belongs to the first status request. */
  predicate Initial(s: Shell) {
    && s.requestId == 0 && s.controller.None? && s.aborted == {} && s.token.None? && s.inFlight == map[]
    && s.answer.None? && s.reflection.None? && s.evidence == []
  }

  // ---------------------------------------------------------------------------------------
  // The steps
  // ---------------------------------------------------------------------------------------

  /** The controllers that aborting through this variable reaches. */
  function Held(controller: Option<nat>): set<nat> {
    if controller.Some? then {controller.value} else {}
  }

  /** The synchronous part of `runSearch` and `runReflection`, up to the call. */
  function Start(s: Shell, kind: Kind, scope: Scope, value: string): Shell {
    var id := s.requestId + 1;
    s.(
      requestId := id,
      aborted := s.aborted + Held(s.controller),
      controller := Some(id),
      token := Some(scope),
      inFlight := s.inFlight[id := Request(kind, scope, value)],
      loading := true,
      error := "")
  }

  function StartReflection(s: Shell, effectiveWorkspace: string): Shell {
    var value := Trim(JavaScript, s.query);
    if value == "" || s.loading then s
    else Start(s, Reflect, Scope(effectiveWorkspace, s.source, value), value)
  }

  /** The latest request, under the scope it was started for. */
  predicate Fresh(s: Shell, id: nat, r: Request) {
    s.requestId == id && s.token == Some(r.scope)
  }

  function Landed(s: Shell, id: nat): Shell {
    s.(inFlight := s.inFlight - {id})
  }

  /** The part of `runSearch` after its call. */
  function FinishSearch(s: Shell, id: nat, r: Request, response: Response): Shell {
    var current := Fresh(s, id, r);
    var shown := response.Answered? && current;
    var failed := response.Failed? && current && id !in s.aborted;
    s.(
      inFlight := s.inFlight - {id},
      loading := s.loading && !(current && id !in s.aborted),
      error := if failed then response.message else s.error,
      answer := if shown then Some(response.answer) else if failed then None else s.answer,
      reflection := if shown || failed then None else s.reflection,
      evidence := if shown then response.answer.evidence else if failed then [] else s.evidence,
      activeQuery := if shown then r.value else s.activeQuery)
  }

  /** The part of `runReflection` after its call; its last step does not look at the token. */
  function FinishReflection(s: Shell, id: nat, r: Request, response: Response): Shell {
    var shown := response.Answered? && Fresh(s, id, r);
    s.(
      inFlight := s.inFlight - {id},
      loading := s.loading && !(s.requestId == id && id !in s.aborted),
      error := if response.Failed? && id !in s.aborted then response.message else s.error,
      answer := if shown then None else s.answer,
      reflection := if shown then Some(response.answer) else s.reflection,
      evidence := if shown then [] else s.evidence,
      activeQuery := if shown then r.value else s.activeQuery)
  }

  function Finish(s: Shell, id: nat, response: Response): Shell {
    if id !in s.inFlight then s
    else if s.inFlight[id].kind.Search? then FinishSearch(s, id, s.inFlight[id], response)
    else FinishReflection(s, id, s.inFlight[id], response)
  }

  /** `abortSearchRequest` */
  function Abort(s: Shell): Shell {
    s.(requestId := s.requestId + 1, aborted := s.aborted + Held(s.controller), loading := false, error := "")
  }

  /** `clearScopedResults`, as far as search results are concerned. */
  function Clear(s: Shell): Shell {
    s.(answer := None, reflection := None, evidence := [])
  }

  /** `scopeSources` */
  function Rescope(s: Shell, workspace: string, source: string): Shell {
    s.(token := Some(Scope(workspace, source, s.query)))
  }

  function OrElse(a: string, b: string): string {
    if a != "" then a else b
  }

  /** `chooseSource`; `first` is the id of the first workspace, if any. */
  function ChooseSource(s: Shell, next: string, project: Option<string>, toggle: bool, first: string): Shell {
    var workspace := OrElse(if project.Some? then project.value else s.workspace, first);
    var source := if toggle && s.source == next && s.workspace == workspace then "" else next;
    Rescope(Clear(Abort(s)), workspace, source).(workspace := workspace, source := source)
  }

  /** `chooseWorkspace` */
  function ChooseWorkspace(s: Shell, next: string, first: string): Shell {
    var workspace := OrElse(next, first);
    var moved := workspace != OrElse(s.workspace, first) || s.source != "";
    var s' := if moved then Rescope(Clear(Abort(s)), workspace, "") else s;
    s'.(workspace := workspace, source := "")
  }

  /** The saved-settings handler, when the selected source is no longer configured. */
  function DropSource(s: Shell, first: string): Shell {
    Rescope(Clear(Abort(s)), OrElse(s.workspace, first), "").(source := "")
  }

  /** The effect that drops a source missing from the inventory: it rescopes without aborting. */
  function EvictSource(s: Shell, first: string): Shell {
    if s.source == "" then s
    else Rescope(s.(source := ""), OrElse(s.workspace, first), "")
  }

  /** The end of the first status request. */
  function StatusArrived(s: Shell): Shell {
    if s.requestId == 0 then s.(loading := false) else s
  }

  datatype Event =
    | RunSearch(value: string, source: string, workspace: string)
    | RunReflection(first: string)
    | Respond(id: nat, response: Response)
    | Source(next: string, project: Option<string>, toggle: bool, first: string)
    | Workspace(next: string, first: string)
    | Drop(first: string)
    | Evict(first: string)
    | Status
    | Type(query: string)

  function Step(s: Shell, e: Event): Shell {
    match e
    case RunSearch(value, source, workspace) => Start(s, Search, Scope(workspace, source, value), value)
    case RunReflection(first) => StartReflection(s, OrElse(s.workspace, first))
    case Respond(id, response) => Finish(s, id, response)
    case Source(next, project, toggle, first) => ChooseSource(s, next, project, toggle, first)
    case Workspace(next, first) => ChooseWorkspace(s, next, first)
    case Drop(first) => DropSource(s, first)
    case Evict(first) => EvictSource(s, first)
    case Status => StatusArrived(s)
    case Type(query) => s.(query := query)
  }

  /** Any interleaving of user actions, status and responses. */
  function Run(s: Shell, events: seq<Event>): Shell {
    if events == [] then s else Step(Run(s, events[..|events| - 1]), events[|events| - 1])
  }

  // ---------------------------------------------------------------------------------------
  // Invariants of all runs
  // ---------------------------------------------------------------------------------------

  /** A request whose response can still matter. */
  predicate Live(s: Shell, id: nat) {
    id in s.inFlight && id !in s.aborted
  }

  /** The generations are consistent: only the latest request can be live. */
  ghost predicate Generations(s: Shell) {
    && (forall id :: id in s.inFlight ==> 1 <= id <= s.requestId)
    && (forall id :: id in s.inFlight && id != s.requestId ==> id in s.aborted)
    && (s.requestId in s.inFlight ==> s.controller == Some(s.requestId) && s.requestId !in s.aborted)
    && (s.controller.Some? ==> s.controller.value <= s.requestId)
    && (forall id :: id in s.aborted ==> id <= s.requestId)
  }

  /** Answer and reflection exclude each other, and the evidence is that of the shown answer. */
  predicate OneResult(s: Shell) {
    && (s.answer.None? || s.reflection.None?)
    && s.evidence == if s.answer.Some? then s.answer.value.evidence else []
  }

  /** A live request is always shown as loading. */
  predicate LiveIsLoading(s: Shell) {
    s.requestId in s.inFlight ==> s.loading
  }

  ghost predicate Sound(s: Shell) {
    Generations(s) && OneResult(s) && LiveIsLoading(s)
  }

  /** `loading` after the first request means that its request is live under its own scope. */
  predicate LoadingIsLive(s: Shell) {
    s.requestId > 0 ==>
      && (s.loading ==> s.requestId in s.inFlight)
      && (s.requestId in s.inFlight ==> s.token == Some(s.inFlight[s.requestId].scope))
  }

  lemma StartIsSound(s: Shell, kind: Kind, scope: Scope, value: string)
    requires Sound(s)
    ensures Sound(Start(s, kind, scope, value))
  {
  }

  lemma FinishIsSound(s: Shell, id: nat, response: Response)
    requires Sound(s)
    ensures Sound(Finish(s, id, response))
  {
    if id in s.inFlight {
      assert Generations(Landed(s, id));
    }
  }

  lemma RescopedIsSound(s: Shell, workspace: string, source: string)
    requires Sound(s)
    ensures Sound(Rescope(Clear(Abort(s)), workspace, source))
  {
    assert Generations(Abort(s));
  }

  lemma StepIsSound(s: Shell, e: Event)
    requires Sound(s)
    ensures Sound(Step(s, e))
  {
    match e
    case RunSearch(value, source, workspace) => StartIsSound(s, Search, Scope(workspace, source, value), value);
    case RunReflection(first) =>
      var value := Trim(JavaScript, s.query);
      StartIsSound(s, Reflect, Scope(OrElse(s.workspace, first), s.source, value), value);
    case Respond(id, response) => FinishIsSound(s, id, response);
    case Source(next, project, toggle, first) =>
      var s' := ChooseSource(s, next, project, toggle, first);
      RescopedIsSound(s, s'.workspace, s'.source);
    case Workspace(next, first) => RescopedIsSound(s, OrElse(next, first), "");
    case Drop(first) => RescopedIsSound(s, OrElse(s.workspace, first), "");
    case Evict(_) =>
    case Status =>
    case Type(_) =>
  }

  lemma StepKeepsLoadingLive(s: Shell, e: Event)
    requires Sound(s) && LoadingIsLive(s) && !e.Evict?
    ensures LoadingIsLive(Step(s, e))
  {
  }

  /**
    In every interleaving at most one request is live and it is the latest; answer and reflection
    are never shown together; the evidence is that of the shown answer or empty; and a live request
    shows as loading.
    */
  lemma {:induction false} EveryRunIsSound(s: Shell, events: seq<Event>)
    requires Initial(s)
    ensures var end := Run(s, events);
      && Sound(end)
      && (forall a, b :: Live(end, a) && Live(end, b) ==> a == b == end.requestId)
  {
    if events != [] {
      EveryRunIsSound(s, events[..|events| - 1]);
      StepIsSound(Run(s, events[..|events| - 1]), events[|events| - 1]);
    }
  }

  /** As long as no source is evicted, `loading` after the first request means a live request. */
  lemma {:induction false} LoadingMeansLive(s: Shell, events: seq<Event>)
    requires Initial(s) && forall i :: 0 <= i < |events| ==> !events[i].Evict?
    ensures var end := Run(s, events); LoadingIsLive(end) && (end.requestId > 0 && end.loading ==> Live(end, end.requestId))
  {
    if events != [] {
      var front := events[..|events| - 1];
      LoadingMeansLive(s, front);
      EveryRunIsSound(s, front);
      EveryRunIsSound(s, events);
      StepKeepsLoadingLive(Run(s, front), events[|events| - 1]);
    } else {
      EveryRunIsSound(s, events);
    }
  }

  /** Only the latest request under its own, unchanged scope can change what is shown. */
  lemma OnlyFreshResponsesShow(s: Shell, id: nat, response: Response)
    requires Sound(s)
    ensures var end := Finish(s, id, response);
      (end.answer != s.answer || end.reflection != s.reflection || end.evidence != s.evidence
        || end.activeQuery != s.activeQuery) ==>
      Live(s, id) && Fresh(s, id, s.inFlight[id])
  {
  }

  /** A stale response changes nothing that is shown, not even an error or the loading state. */
  lemma StaleResponsesAreSilent(s: Shell, id: nat, response: Response)
    requires Sound(s) && id in s.inFlight && id != s.requestId
    ensures Finish(s, id, response) == Landed(s, id)
  {
  }

  /** A fresh response is shown in full. */
  lemma FreshAnswerIsShown(s: Shell, id: nat, answer: Answer)
    requires Sound(s) && id in s.inFlight && Fresh(s, id, s.inFlight[id])
    ensures var end := Finish(s, id, Answered(answer));
      && !end.loading && end.activeQuery == s.inFlight[id].value
      && (if s.inFlight[id].kind.Search?
          then end.answer == Some(answer) && end.reflection.None? && end.evidence == answer.evidence
          else end.reflection == Some(answer) && end.answer.None? && end.evidence == [])
  {
  }

  /** Nothing shown by the result panes changes. */
  predicate SameResults(s: Shell, t: Shell) {
    t.answer == s.answer && t.reflection == s.reflection && t.evidence == s.evidence && t.activeQuery == s.activeQuery
  }

  predicate SamePlace(s: Shell, t: Shell) {
    t.workspace == s.workspace && t.source == s.source && t.query == s.query
  }

  /**
    A failure of the latest request ends loading and shows its message. A search under its own token
    also clears answer, reflection and evidence; a reflection leaves them.
    */
  lemma FailureIsShown(s: Shell, id: nat, message: string)
    requires Sound(s) && id in s.inFlight && id == s.requestId
    requires s.inFlight[id].kind.Search? ==> Fresh(s, id, s.inFlight[id])
    ensures var end := Finish(s, id, Failed(message));
      && end.error == message && !end.loading && SamePlace(s, end) && end.activeQuery == s.activeQuery
      && (if s.inFlight[id].kind.Search? then end.answer.None? && end.reflection.None? && end.evidence == []
          else SameResults(s, end))
  {
  }

  /** A search that fails or is answered under another token, and any aborted call, shows nothing. */
  lemma OtherEndsShowNothing(s: Shell, id: nat, response: Response)
    requires Sound(s) && id in s.inFlight
    requires response.AbortError? || (s.inFlight[id].kind.Search? && !Fresh(s, id, s.inFlight[id]))
    ensures var end := Finish(s, id, response);
      SameResults(s, end) && SamePlace(s, end) && end.error == s.error
        && (Fresh(s, id, s.inFlight[id]) ==> !end.loading)
  {
  }

  /** A started request is the latest, in flight, loading, under its own token; all earlier ones are aborted. */
  lemma StartedIsLatest(s: Shell, kind: Kind, scope: Scope, value: string)
    requires Sound(s)
    ensures var end := Start(s, kind, scope, value);
      && end.requestId > s.requestId && end.requestId in end.inFlight && end.requestId !in end.aborted
      && end.inFlight[end.requestId] == Request(kind, scope, value) && Fresh(end, end.requestId, Request(kind, scope, value))
      && end.loading && end.error == "" && SameResults(s, end) && SamePlace(s, end)
      && forall id :: id in s.inFlight ==> id in end.inFlight && id in end.aborted
  {
  }

  /** A reflection asks the trimmed query in the place shown; a blank query or a loading shell starts none. */
  lemma ReflectionAsksQuery(s: Shell, effectiveWorkspace: string)
    requires Sound(s)
    ensures var end, value := StartReflection(s, effectiveWorkspace), Trim(JavaScript, s.query);
      && (value == "" || s.loading <==> end.requestId == s.requestId)
      && (end.requestId == s.requestId ==> end == s)
      && (end.requestId != s.requestId ==>
            end.token == Some(Scope(effectiveWorkspace, s.source, value))
            && end.inFlight[end.requestId] == Request(Reflect, Scope(effectiveWorkspace, s.source, value), value))
  {
  }

  /** Nothing is shown, nothing loads, no call is live, and the token is that of the place. */
  predicate LeftBehind(s: Shell, t: Shell, workspace: string, source: string) {
    && t.answer.None? && t.reflection.None? && t.evidence == [] && !t.loading && t.error == ""
    && t.requestId > s.requestId && t.query == s.query && t.inFlight == s.inFlight
    && (forall id :: id in t.inFlight ==> id in t.aborted)
    && t.token == Some(Scope(workspace, source, s.query))
  }

  /**
    Choosing a source selects it in the given project, else the present workspace, else the first
    one; choosing it again with `toggle` selects none.
    */
  lemma SourceIsChosen(s: Shell, next: string, project: Option<string>, toggle: bool, first: string)
    requires Sound(s)
    ensures var end := ChooseSource(s, next, project, toggle, first);
      && (project.Some? && project.value != "" ==> end.workspace == project.value)
      && (project.None? && s.workspace != "" ==> end.workspace == s.workspace)
      && (project == Some("") || (project.None? && s.workspace == "") ==> end.workspace == first)
      && (end.source == "" || end.source == next)
      && (end.source == next <==> !(toggle && s.source == next && s.workspace == end.workspace) || next == "")
      && LeftBehind(s, end, end.workspace, end.source)
  {
  }

  /**
    Choosing a workspace selects it, or the first one, without a source. It leaves the results behind
    exactly when workspace or source change.
    */
  lemma WorkspaceIsChosen(s: Shell, next: string, first: string)
    requires Sound(s)
    ensures var end := ChooseWorkspace(s, next, first);
      && end.workspace == (if next == "" then first else next) && end.source == ""
      && (if s.source == "" && end.workspace == (if s.workspace == "" then first else s.workspace)
          then end.token == s.token && SameResults(s, end) && end.loading == s.loading && end.requestId == s.requestId
          else LeftBehind(s, end, end.workspace, ""))
  {
  }

  /** The end of the first status request ends loading only while no search was started. */
  lemma StatusEndsFirstLoading(s: Shell)
    requires Sound(s)
    ensures s.requestId == 0 ==> !StatusArrived(s).loading && StatusArrived(s).inFlight == s.inFlight
    ensures s.requestId != 0 ==> StatusArrived(s) == s
    ensures SameResults(s, StatusArrived(s)) && SamePlace(s, StatusArrived(s))
  {
  }

  /** A source dropped from the settings leaves the results behind; one missing from the inventory leaves them shown. */
  lemma SourceIsDropped(s: Shell, first: string)
    requires Sound(s)
    ensures var dropped, evicted := DropSource(s, first), EvictSource(s, first);
      var workspace := if s.workspace == "" then first else s.workspace;
      && dropped.source == "" == evicted.source && dropped.workspace == s.workspace == evicted.workspace
      && LeftBehind(s, dropped, workspace, "")
      && SameResults(s, evicted) && evicted.requestId == s.requestId && evicted.aborted == s.aborted
      && evicted.loading == s.loading
      && evicted.token == if s.source == "" then s.token else Some(Scope(workspace, "", s.query))
  {
  }

  // ---------------------------------------------------------------------------------------
  // The order in which responses are shown
  // ---------------------------------------------------------------------------------------

  /** The request behind the last shown response of a run, 0 before the first. */
  function LastShown(s: Shell, events: seq<Event>): nat {
    if events == [] then 0
    else
      var front, e := events[..|events| - 1], events[|events| - 1];
      var before := Run(s, front);
      if e.Respond? && e.response.Answered? && e.id in before.inFlight && Fresh(before, e.id, before.inFlight[e.id])
      then e.id else LastShown(s, front)
  }

  lemma GenerationsGrow(s: Shell, e: Event)
    ensures s.requestId <= Step(s, e).requestId
  {
  }

  lemma {:induction false} ShownIsKnown(s: Shell, events: seq<Event>)
    ensures LastShown(s, events) <= Run(s, events).requestId
  {
    if events != [] {
      ShownIsKnown(s, events[..|events| - 1]);
      GenerationsGrow(Run(s, events[..|events| - 1]), events[|events| - 1]);
    }
  }

  /** Responses are shown in the order in which their requests were made, never the other way round. */
  lemma {:induction false} ShownInOrder(s: Shell, events: seq<Event>, n: nat)
    requires n <= |events|
    ensures LastShown(s, events[..n]) <= LastShown(s, events)
    decreases |events|
  {
    if n == |events| {
      assert events[..n] == events;
    } else {
      var front := events[..|events| - 1];
      ShownInOrder(s, front, n);
      assert front[..n] == events[..n];
      ShownIsKnown(s, front);
    }
  }

  // ---------------------------------------------------------------------------------------
  // The evicted source
  // ---------------------------------------------------------------------------------------

  /**
    Evicting the source while a request is in flight leaves `loading` on after its response exactly
    when the request is a search whose scope the eviction replaced.
    */
  lemma EvictionStrandsLoadingIff(s: Shell, first: string, response: Response)
    requires Sound(s) && LoadingIsLive(s) && s.source != "" && s.requestId in s.inFlight
    ensures var r := s.inFlight[s.requestId];
      var stranded := r.kind.Search? && r.scope != Scope(OrElse(s.workspace, first), "", s.query);
      Finish(EvictSource(s, first), s.requestId, response).loading <==> stranded
  {
  }

  /** A run that ends loading with nothing in flight. */
  lemma LoadingCanBeStranded(s: Shell, workspace: string, source: string, answer: Answer)
    requires Initial(s) && source != "" && workspace != ""
    ensures var end := Run(s, [Source(source, Some(workspace), false, ""), RunSearch("q", source, workspace),
                               Evict(""), Respond(2, Answered(answer))]);
      end.loading && end.inFlight == map[] && end.requestId == 2
  {
    var e1, e2, e3, e4 := Source(source, Some(workspace), false, ""), RunSearch("q", source, workspace),
      Evict(""), Respond(2, Answered(answer));
    assert [e1][..0] == [] && [e1, e2][..1] == [e1];
    assert [e1, e2, e3][..2] == [e1, e2] && [e1, e2, e3, e4][..3] == [e1, e2, e3];
    var s1 := Step(Run(s, []), e1);
    assert Run(s, [e1]) == s1;
    var s2 := Step(s1, e2);
    assert Run(s, [e1, e2]) == s2;
    var s3 := Step(s2, e3);
    assert Run(s, [e1, e2, e3]) == s3;
    assert Run(s, [e1, e2, e3, e4]) == Step(s3, e4);
    assert s3.inFlight[2] == Request(Search, Scope(workspace, source, "q"), "q");
  }

  // ---------------------------------------------------------------------------------------
  // The shell itself
  // ---------------------------------------------------------------------------------------

  /** The module variables and signals of the shell, changed one assignment at a time. */
  class SearchShell {
    var searchRequestId: nat
    var searchAbort: Option<nat>
    var aborted: set<nat>
    var searchScopeToken: Option<Scope>
    var awaited: map<nat, Request>
    var shown: Shown
    var loading: bool
    var error: string
    var place: Scope

    constructor ()
      ensures Initial(View()) && loading
    {
      searchRequestId, searchAbort, aborted, searchScopeToken, awaited := 0, None, {}, None, map[];
      shown, loading, error, place := Shown(None, None, [], ""), true, "", Scope("", "", "");
    }

    ghost function View(): Shell
      reads this
    {
      Shell(searchRequestId, searchAbort, aborted, searchScopeToken, awaited,
            shown.answer, shown.reflection, shown.evidence, shown.activeQuery, loading, error,
            place.workspace, place.source, place.query)
    }

    method AbortSearchRequest()
      modifies this
      ensures View() == Abort(old(View()))
    {
      searchRequestId := searchRequestId + 1;
      aborted := aborted + Held(searchAbort);
      loading := false;
      error := "";
    }

    method ClearScopedResults()
      modifies this
      ensures View() == Clear(old(View()))
    {
      shown := shown.(answer := None);
      shown := shown.(reflection := None);
      shown := shown.(evidence := []);
    }

    method ScopeSources(nextWorkspace: string, nextSource: string)
      modifies this`searchScopeToken
      ensures View() == Rescope(old(View()), nextWorkspace, nextSource)
    {
      searchScopeToken := Some(Scope(nextWorkspace, nextSource, place.query));
    }

    /** The `finally` blocks. */
    method StopLoading(requestId: nat, inScope: bool)
      modifies this`loading
      ensures loading == (old(loading) && !(searchRequestId == requestId && inScope && requestId !in aborted))
    {
      if searchRequestId == requestId && inScope && requestId !in aborted {
        loading := false;
      }
    }

    /** `runSearch` up to its call. */
    method RunSearch(value: string, nextSource: string, nextWorkspace: string)
      modifies this
      ensures View() == Start(old(View()), Search, Scope(nextWorkspace, nextSource, value), value)
    {
      searchRequestId := searchRequestId + 1;
      var requestId := searchRequestId;
      var requestedScope := Scope(nextWorkspace, nextSource, value);
      loading := true;
      error := "";
      searchScopeToken := Some(requestedScope);
      aborted := aborted + Held(searchAbort);
      searchAbort := Some(requestId);
      awaited := awaited[requestId := Request(Search, requestedScope, value)];
    }

    /** `runSearch` from the response on. */
    method CompleteSearch(requestId: nat, response: Response)
      requires requestId in awaited && awaited[requestId].kind.Search?
      modifies this
      ensures View() == FinishSearch(old(View()), requestId, old(awaited[requestId]), response)
    {
      var request := awaited[requestId];
      awaited := awaited - {requestId};
      match response {
        case Answered(next) =>
          if searchRequestId == requestId && searchScopeToken == Some(request.scope) {
            shown := shown.(answer := Some(next));
            shown := shown.(reflection := None);
            shown := shown.(evidence := next.evidence);
            shown := shown.(activeQuery := request.value);
          }
        case AbortError =>
        case Failed(message) =>
          if requestId !in aborted && searchRequestId == requestId && searchScopeToken == Some(request.scope) {
            error := message;
            shown := shown.(answer := None);
            shown := shown.(reflection := None);
            shown := shown.(evidence := []);
          }
      }
      StopLoading(requestId, searchScopeToken == Some(request.scope));
    }

    /** `runReflection` up to its call, if it gets that far. */
    method RunReflection(effectiveWorkspace: string)
      modifies this
      ensures View() == StartReflection(old(View()), effectiveWorkspace)
    {
      var value := Trim(JavaScript, place.query);
      if value == "" || loading {
        return;
      }
      searchRequestId := searchRequestId + 1;
      var requestId := searchRequestId;
      var requestedScope := Scope(effectiveWorkspace, place.source, value);
      aborted := aborted + Held(searchAbort);
      searchAbort := Some(requestId);
      searchScopeToken := Some(requestedScope);
      loading := true;
      error := "";
      awaited := awaited[requestId := Request(Reflect, requestedScope, value)];
    }

    /** `runReflection` from the response on. */
    method CompleteReflection(requestId: nat, response: Response)
      requires requestId in awaited && awaited[requestId].kind.Reflect?
      modifies this
      ensures View() == FinishReflection(old(View()), requestId, old(awaited[requestId]), response)
    {
      var request := awaited[requestId];
      awaited := awaited - {requestId};
      match response {
        case Answered(next) =>
          if searchRequestId == requestId && searchScopeToken == Some(request.scope) {
            shown := shown.(answer := None);
            shown := shown.(reflection := Some(next));
            shown := shown.(evidence := []);
            shown := shown.(activeQuery := request.value);
          }
        case AbortError =>
        case Failed(message) =>
          if requestId !in aborted {
            error := message;
          }
      }
      StopLoading(requestId, true);
    }

    method ChooseSource(next: string, project: Option<string>, toggle: bool, first: string)
      modifies this
      ensures View() == Step(old(View()), Source(next, project, toggle, first))
    {
      var requested := if project.Some? then project.value else place.workspace;
      var nextWorkspace := OrElse(requested, first);
      var sameScope := toggle && place.source == next && place.workspace == nextWorkspace;
      var nextSource := if sameScope then "" else next;
      AbortSearchRequest();
      ClearScopedResults();
      ScopeSources(nextWorkspace, nextSource);
      if (project.Some? && project.value != "") || place.workspace != nextWorkspace {
        place := place.(workspace := nextWorkspace);
      }
      place := place.(source := nextSource);
    }

    method ChooseWorkspace(next: string, first: string)
      modifies this
      ensures View() == Step(old(View()), Workspace(next, first))
    {
      var nextWorkspace := OrElse(next, first);
      if nextWorkspace != OrElse(place.workspace, first) || place.source != "" {
        AbortSearchRequest();
        ClearScopedResults();
        ScopeSources(nextWorkspace, "");
      }
      place := place.(workspace := nextWorkspace);
      place := place.(source := "");
    }

    method DropSource(first: string)
      modifies this
      ensures View() == Step(old(View()), Drop(first))
    {
      AbortSearchRequest();
      ClearScopedResults();
      ScopeSources(OrElse(place.workspace, first), "");
      place := place.(source := "");
    }

    method EvictSource(first: string)
      modifies this
      ensures View() == Step(old(View()), Evict(first))
    {
      if place.source == "" {
        return;
      }
      place := place.(source := "");
      ScopeSources(OrElse(place.workspace, first), "");
    }
  }
}
