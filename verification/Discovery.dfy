/**
  Discovery of the shared UI files a client uses (`collectUiSourceFiles`,
  apps/web/tooling/ui-tailwind-sources.ts): a memoised depth-first walk over a possibly cyclic
  graph of (file, selection) nodes.
  */
module Discovery {
  import opened Sequences
  import opened Wrappers
  import opened ModuleGraph
  import opened ExportResolution

  // ---------------------------------------------------------------------------------------
  // The finite universe of nodes
  // ---------------------------------------------------------------------------------------

  function StatementSelections(s: Statement): set<Selection> {
    match s
    case NamedFrom(_, elements) => set e | e in elements :: Named([e.source])
    case LocalList(locals) => set e | e in locals && e.binding.Imported? :: e.binding.origin.selection
    case DefaultExport(identifier) => if identifier.Some? then {identifier.value.selection} else {}
    case _ => {}
  }

  function ModuleSelections(m: Module): set<Selection> {
    (set i | i in m.imports :: i.selection)
    + (set s, x | s in m.statements && x in StatementSelections(s) :: x)
  }

  function Selections(w: World): set<Selection> {
    {Execute, SideEffect, All} + (set f, x | f in w.modules && x in ModuleSelections(w.modules[f]) :: x)
  }

  function Universe(w: World): set<Node> {
    set f, x | f in w.code && x in Selections(w) :: Node(f, x)
  }

  lemma TargetSelectionKnown(w: World, f: Path, name: string, t: Node)
    requires LocalTarget(w, f, name, t)
    ensures t.selection in Selections(w)
  {
    var s :| s in w.modules[f].statements && StatementTarget(w, f, s, name, t);
    if t.selection !in {Execute, SideEffect, All} {
      assert t.selection in StatementSelections(s);
      assert t.selection in ModuleSelections(w.modules[f]);
    }
  }

  lemma EdgeSelectionKnown(w: World, n: Node, m: Node)
    requires ImportEdge(w, n, m) || ExportEdge(w, n, m)
    ensures m.selection in Selections(w)
  {
    if ImportEdge(w, n, m) {
      assert m.selection in ModuleSelections(w.modules[n.file]);
    } else {
      var name :| Wants(w, n, name) && ExportTarget(w, n.file, name, {}, m);
      var g :| Provides(w, n.file, g, name, {}) && LocalTarget(w, g, name, m);
      TargetSelectionKnown(w, g, name, m);
    }
  }

  /** There is a closed set, so the least one is a genuine bound. */
  lemma UniverseIsClosed(w: World, entries: seq<Path>)
    ensures Closed(w, entries, Universe(w))
  {
    forall n, m | n in Universe(w) && Edge(w, n, m) ensures m in Universe(w) {
      EdgeSelectionKnown(w, n, m);
    }
  }

  function UniverseKeys(w: World): set<NodeKey> {
    set n | n in Universe(w) :: KeyOf(n)
  }

  // ---------------------------------------------------------------------------------------
  // The walk
  // ---------------------------------------------------------------------------------------

  function Files(w: World, nodes: set<Node>): set<Path> {
    set n | n in nodes && n.file in w.ui :: n.file
  }

  function NodeKeys(nodes: set<Node>): set<NodeKey> {
    set n | n in nodes :: KeyOf(n)
  }

  /** `n` was visited without failing, and every dependency of `n` has a visited memo key. */
  ghost predicate Settled(w: World, visited: set<NodeKey>, n: Node) {
    !NodeFault(w, n) && forall m :: Edge(w, n, m) ==> KeyOf(m) in visited
  }

  ghost predicate SomeFault(w: World, entries: seq<Path>) {
    exists n :: InLeast(w, entries, n) && NodeFault(w, n)
  }

  /** A wanted export cannot be traced because a module on the way cannot be read or a re-export not resolved. */
  ghost predicate ExportBroken(w: World, n: Node) {
    (n.selection.All? && NamesFault(w, n.file, {})) || exists name :: Wants(w, n, name) && ExportFault(w, n.file, name, {})
  }

  /** An import of the shared UI, or from within it, that does not resolve. */
  predicate Missing(w: World, f: Path, i: Import) {
    Resolve(w, i.specifier, f).None? && (IsPublished(i.specifier) || f in w.ui)
  }

  /** An import of the shared UI that resolves to code outside it. */
  predicate Misplaced(w: World, f: Path, i: Import) {
    var target := Resolve(w, i.specifier, f);
    IsPublished(i.specifier) && target.Some? && target.value in w.code && target.value !in w.ui
  }

  /** The reason for which a visit of `n` fails. */
  ghost predicate Blames(w: World, n: Node, error: DiscoveryError) {
    match error
    case Unreadable => n.file !in w.modules || ExportBroken(w, n)
    case OpaqueImport => n.file in w.modules && w.modules[n.file].opaqueImport
    case UnresolvedImport =>
      n.file in w.modules && exists i :: i in w.modules[n.file].imports && Missing(w, n.file, i)
    case OutsidePublishedSource =>
      n.file in w.modules && exists i :: i in w.modules[n.file].imports && Misplaced(w, n.file, i)
    case UnresolvedReexport => ExportBroken(w, n)
    case UntraceableExport => exists name :: Wants(w, n, name) && forall t :: !ExportTarget(w, n.file, name, {}, t)
  }

  /** Some node in use is the reason for the failure. */
  ghost predicate Blamed(w: World, entries: seq<Path>, error: DiscoveryError) {
    exists n :: InLeast(w, entries, n) && Blames(w, n, error)
  }

  /** The faults of a node are the reasons to fail there, and nothing else is. */
  lemma BlamedIsFault(w: World, n: Node, error: DiscoveryError)
    ensures Blames(w, n, error) ==> NodeFault(w, n)
    ensures NodeFault(w, n) ==> exists e :: Blames(w, n, e)
  {
    if Blames(w, n, error) && n.file in w.modules {
      if name :| Wants(w, n, name) && ExportFault(w, n.file, name, {}) {
        assert Untraceable(w, n.file, name);
      }
    }
    if n.file in w.modules {
      if i :| i in w.modules[n.file].imports && ImportFault(w, n.file, i) {
        assert Blames(w, n, if Resolve(w, i.specifier, n.file).None? then UnresolvedImport else OutsidePublishedSource);
      }
      if name :| Wants(w, n, name) && Untraceable(w, n.file, name) {
        assert Blames(w, n, if ExportFault(w, n.file, name, {}) then UnresolvedReexport else UntraceableExport);
      }
      assert w.modules[n.file].opaqueImport ==> Blames(w, n, OpaqueImport);
      assert n.selection.All? && NamesFault(w, n.file, {}) ==> Blames(w, n, UnresolvedReexport);
    } else {
      assert Blames(w, n, Unreadable);
    }
  }

  ghost predicate WithinLeast(w: World, entries: seq<Path>, nodes: set<Node>) {
    nodes <= Universe(w) && forall n :: n in nodes ==> InLeast(w, entries, n)
  }

  /** An entry, or a run-time dependency of one of `nodes`. */
  ghost predicate Reached(w: World, entries: seq<Path>, nodes: set<Node>, n: Node) {
    (n.file in entries && n.selection == Execute) || exists v :: v in nodes && Edge(w, v, n)
  }

  /** The visits in their order: each is reached from earlier ones and has a new memo key. */
  ghost predicate Chain(w: World, entries: seq<Path>, trace: seq<Node>) {
    trace == [] ||
    (var front, n := trace[..|trace| - 1], trace[|trace| - 1];
     && Chain(w, entries, front)
     && Traversed(w, n.file) && Reached(w, entries, Elements(front), n)
     && KeyOf(n) !in NodeKeys(Elements(front)))
  }

  lemma ElementsGrow<T>(s: seq<T>, x: T)
    ensures Elements(s + [x]) == Elements(s) + {x}
  {
  }

  lemma ChainGrows(w: World, entries: seq<Path>, trace: seq<Node>, n: Node)
    requires Chain(w, entries, trace) && Traversed(w, n.file)
    requires Reached(w, entries, Elements(trace), n) && KeyOf(n) !in NodeKeys(Elements(trace))
    ensures Chain(w, entries, trace + [n])
  {
    assert (trace + [n])[..|trace|] == trace;
  }

  /** Nothing outside the least closed set and the finite universe is visited. */
  lemma {:induction false} ChainIsWithinLeast(w: World, entries: seq<Path>, trace: seq<Node>)
    requires Chain(w, entries, trace)
    ensures WithinLeast(w, entries, Elements(trace))
  {
    if trace != [] {
      var front, n := trace[..|trace| - 1], trace[|trace| - 1];
      ChainIsWithinLeast(w, entries, front);
      assert trace == front + [n];
      ElementsGrow(front, n);
      ReachedIsWithinLeast(w, entries, Elements(front), n);
    }
  }

  lemma ReachedIsWithinLeast(w: World, entries: seq<Path>, nodes: set<Node>, n: Node)
    requires WithinLeast(w, entries, nodes) && Traversed(w, n.file) && Reached(w, entries, nodes, n)
    ensures InLeast(w, entries, n) && n in Universe(w)
  {
    if n.file !in entries || n.selection != Execute {
      var v :| v in nodes && Edge(w, v, n);
      assert InLeast(w, entries, v);
      EdgeSelectionKnown(w, v, n);
    }
  }

  /** The nodes that are not settled. */
  ghost function Unsettled(w: World, visited: set<NodeKey>, nodes: set<Node>): set<Node> {
    set n | n in nodes && !Settled(w, visited, n)
  }

  lemma UnsettledShrinks(w: World, before: set<NodeKey>, after: set<NodeKey>, nodes: set<Node>, n: Node)
    requires before <= after
    ensures Unsettled(w, after, nodes + {n}) <= Unsettled(w, before, nodes) + {n}
    ensures Settled(w, after, n) ==> n !in Unsettled(w, after, nodes + {n})
  {
  }

  lemma NodesGrow(w: World, nodes: set<Node>, n: Node)
    ensures NodeKeys(nodes + {n}) == NodeKeys(nodes) + {KeyOf(n)}
    ensures Files(w, nodes + {n}) == Files(w, nodes) + if n.file in w.ui then {n.file} else {}
    ensures n in Universe(w) ==> KeyOf(n) in UniverseKeys(w)
  {
  }

  /** One more visit, and what it adds to each part of the state. */
  lemma EnterIsAStep(w: World, entries: seq<Path>, trace: seq<Node>, n: Node)
    requires Chain(w, entries, trace) && Traversed(w, n.file) && Reached(w, entries, Elements(trace), n)
    requires KeyOf(n) !in NodeKeys(Elements(trace))
    ensures Chain(w, entries, trace + [n]) && Elements(trace + [n]) == Elements(trace) + {n}
    ensures NodeKeys(Elements(trace + [n])) == NodeKeys(Elements(trace)) + {KeyOf(n)}
    ensures Files(w, Elements(trace + [n])) == Files(w, Elements(trace)) + if n.file in w.ui then {n.file} else {}
    ensures var before, after := NodeKeys(Elements(trace)), NodeKeys(Elements(trace + [n]));
      Unsettled(w, after, Elements(trace + [n])) <= Unsettled(w, before, Elements(trace)) + {n}
    ensures KeyOf(n) in UniverseKeys(w)
  {
    ChainIsWithinLeast(w, entries, trace);
    ReachedIsWithinLeast(w, entries, Elements(trace), n);
    ChainGrows(w, entries, trace, n);
    ElementsGrow(trace, n);
    NodesGrow(w, Elements(trace), n);
    UnsettledShrinks(w, NodeKeys(Elements(trace)), NodeKeys(Elements(trace)) + {KeyOf(n)}, Elements(trace), n);
  }

  /** Import `i` of file `f` is no fault, and its target, if the walk enters it, has a visited memo key. */
  ghost predicate ImportHeeded(w: World, visited: set<NodeKey>, f: Path, i: Import) {
    var target := Resolve(w, i.specifier, f);
    && !ImportFault(w, f, i)
    && (target.Some? && Traversed(w, target.value) ==> KeyOf(Node(target.value, i.selection)) in visited)
  }

  ghost predicate AllImportsHeeded(w: World, visited: set<NodeKey>, f: Path, imports: seq<Import>) {
    forall i :: i in imports ==> ImportHeeded(w, visited, f, i)
  }

  lemma ImportedGrows(w: World, before: set<NodeKey>, after: set<NodeKey>, f: Path, imports: seq<Import>, i: Import)
    requires before <= after && AllImportsHeeded(w, before, f, imports) && ImportHeeded(w, after, f, i)
    ensures AllImportsHeeded(w, after, f, imports + [i])
  {
    forall j | j in imports + [i] ensures ImportHeeded(w, after, f, j) {
      assert j != i ==> ImportHeeded(w, before, f, j);
    }
  }

  /** Export `name` of `f` is traceable and all its targets have visited memo keys. */
  ghost predicate ExportHeeded(w: World, visited: set<NodeKey>, f: Path, name: string) {
    && !Untraceable(w, f, name)
    && forall m: Node :: Traversed(w, m.file) && ExportTarget(w, f, name, {}, m) ==> KeyOf(m) in visited
  }

  ghost predicate AllExportsHeeded(w: World, visited: set<NodeKey>, f: Path, names: set<string>) {
    forall name :: name in names ==> ExportHeeded(w, visited, f, name)
  }

  lemma ExportedGrows(w: World, before: set<NodeKey>, after: set<NodeKey>, f: Path, names: set<string>, name: string)
    requires before <= after && AllExportsHeeded(w, before, f, names) && ExportHeeded(w, after, f, name)
    ensures AllExportsHeeded(w, after, f, names + {name})
  {
    forall other | other in names + {name} ensures ExportHeeded(w, after, f, other) {
      assert other != name ==> ExportHeeded(w, before, f, other);
    }
  }

  /** The keys of those targets that the walk enters. */
  function EnteredKeys(w: World, targets: seq<Node>): set<NodeKey> {
    set t | t in targets && Traversed(w, t.file) :: KeyOf(t)
  }

  /** The first `n` targets are visited, as far as the walk enters them. */
  ghost predicate Entered(w: World, visited: set<NodeKey>, targets: seq<Node>, n: nat)
    requires n <= |targets|
  {
    EnteredKeys(w, targets[..n]) <= visited
  }

  lemma EnteredNext(w: World, before: set<NodeKey>, after: set<NodeKey>, targets: seq<Node>, n: nat)
    requires n < |targets| && before <= after && Entered(w, before, targets, n)
    requires Traversed(w, targets[n].file) ==> KeyOf(targets[n]) in after
    ensures Entered(w, after, targets, n + 1)
  {
    assert targets[..n + 1] == targets[..n] + [targets[n]];
  }

  lemma EnteredWhole(w: World, visited: set<NodeKey>, targets: seq<Node>)
    ensures Entered(w, visited, targets, 0)
    ensures Entered(w, visited, targets, |targets|) ==> EnteredKeys(w, targets) <= visited
  {
    assert targets[..|targets|] == targets;
  }

  ghost predicate AllReached(w: World, entries: seq<Path>, nodes: set<Node>, targets: seq<Node>) {
    forall t :: t in targets && Traversed(w, t.file) ==> Reached(w, entries, nodes, t)
  }

  lemma ReachedGrows(w: World, entries: seq<Path>, before: set<Node>, after: set<Node>, targets: seq<Node>, t: Node)
    requires before <= after && AllReached(w, entries, before, targets) && t in targets
    ensures Traversed(w, t.file) ==> Reached(w, entries, after, t)
  {
    if Traversed(w, t.file) && !(t.file in entries && t.selection == Execute) {
      var v :| v in before && Edge(w, v, t);
      assert v in after;
    }
  }

  lemma TargetsAreReached(w: World, entries: seq<Path>, nodes: set<Node>, node: Node, name: string, targets: seq<Node>)
    requires node in nodes && Wants(w, node, name)
    requires forall t :: t in targets ==> ExportTarget(w, node.file, name, {}, t)
    ensures AllReached(w, entries, nodes, targets)
  {
    forall t | t in targets && Traversed(w, t.file) ensures Reached(w, entries, nodes, t) {
      assert ExportEdge(w, node, t) && Edge(w, node, t);
    }
  }

  /** All targets of a traceable export are visited when those of a covering list are. */
  lemma TargetsAreHeeded(w: World, visited: set<NodeKey>, f: Path, name: string, targets: seq<Node>)
    requires !ExportFault(w, f, name, {}) && targets != [] && EnteredKeys(w, targets) <= visited
    requires forall t :: t in targets ==> ExportTarget(w, f, name, {}, t)
    requires forall t :: ExportTarget(w, f, name, {}, t) ==> Covered(targets, t)
    ensures ExportHeeded(w, visited, f, name)
  {
    assert targets[0] in targets;
    forall m: Node | Traversed(w, m.file) && ExportTarget(w, f, name, {}, m) ensures KeyOf(m) in visited {
      assert Covered(targets, m);
    }
  }

  function EntryNodes(entries: seq<Path>): seq<Node> {
    seq(|entries|, k requires 0 <= k < |entries| => Node(entries[k], Execute))
  }

  /** `names` are the exports that a visit of `n` follows. */
  ghost predicate Wanted(w: World, n: Node, names: set<string>) {
    && !(n.selection.All? && NamesFault(w, n.file, {}))
    && forall name :: name in names <==> Wants(w, n, name)
  }

  /** Imports and exports followed without a fault: the node is settled. */
  lemma NodeIsSettled(w: World, visited: set<NodeKey>, n: Node, names: set<string>)
    requires n.file in w.modules && !w.modules[n.file].opaqueImport
    requires AllImportsHeeded(w, visited, n.file, w.modules[n.file].imports)
    requires Wanted(w, n, names) && AllExportsHeeded(w, visited, n.file, names)
    ensures Settled(w, visited, n)
  {
    forall m | Edge(w, n, m) ensures KeyOf(m) in visited {
      if ExportEdge(w, n, m) {
        var name :| Wants(w, n, name) && ExportTarget(w, n.file, name, {}, m);
        assert ExportHeeded(w, visited, n.file, name);
      } else {
        var i :| i in w.modules[n.file].imports
          && Resolve(w, i.specifier, n.file) == Some(m.file) && m.selection == i.selection;
        assert ImportHeeded(w, visited, n.file, i) && m == Node(m.file, i.selection);
      }
    }
  }

  class Discovery {
    const w: World
    var visited: set<NodeKey>
    var files: set<Path>
    /** The visited nodes in the order of the visits; `visited` keeps their keys. */
    ghost var trace: seq<Node>
    ghost const entries: seq<Path>

    constructor (w: World, ghost entries: seq<Path>)
      ensures this.w == w && this.entries == entries
      ensures Walking({}) && trace == []
    {
      this.w, this.entries := w, entries;
      visited, files, trace := {}, {}, [];
    }

    /** The state of the walk while the nodes in `open` are still being visited. */
    ghost predicate Walking(open: set<Node>)
      reads this
    {
      && Chain(w, entries, trace) && open <= Elements(trace)
      && visited == NodeKeys(Elements(trace)) && files == Files(w, Elements(trace))
      && Unsettled(w, visited, Elements(trace)) <= open
    }

    /** A later state of the same walk. */
    twostate predicate Grown()
      reads this
    {
      old(visited) <= visited && Elements(old(trace)) <= Elements(trace)
    }

    ghost function Room(): set<NodeKey>
      reads this
    {
      UniverseKeys(w) - visited
    }

    /** A reason to fail at an open node is one of the least closed set. */
    lemma BlamedInUse(open: set<Node>, node: Node, error: DiscoveryError)
      requires Walking(open) && node in open && Blames(w, node, error)
      ensures Blamed(w, entries, error)
    {
      ChainIsWithinLeast(w, entries, trace);
    }

    /** `visit` */
    method Visit(node: Node, ghost open: set<Node>) returns (error: Option<DiscoveryError>)
      requires Walking(open)
      requires Traversed(w, node.file) ==> Reached(w, entries, Elements(trace), node)
      modifies this
      decreases Room(), 0
      ensures Grown()
      ensures error.None? ==> Walking(open) && (Traversed(w, node.file) ==> KeyOf(node) in visited)
      ensures error.Some? ==> Blamed(w, entries, error.value)
      ensures old(KeyOf(node) in visited) || !Traversed(w, node.file) ==> trace == old(trace)
    {
      if !Traversed(w, node.file) || KeyOf(node) in visited {
        return None;
      }
      Enter(node, open);
      error := VisitEntered(node, open);
    }

    /** The key of a new node is remembered before its module is read. */
    method Enter(node: Node, ghost open: set<Node>)
      requires Walking(open) && Traversed(w, node.file) && KeyOf(node) !in visited
      requires Reached(w, entries, Elements(trace), node)
      modifies this
      ensures Walking(open + {node}) && Grown()
      ensures KeyOf(node) in visited && Room() < old(Room())
    {
      EnterIsAStep(w, entries, trace, node);
      visited := visited + {KeyOf(node)};
      trace := trace + [node];
      if node.file in w.ui {
        files := files + {node.file};
      }
    }

    method VisitEntered(node: Node, ghost open: set<Node>) returns (error: Option<DiscoveryError>)
      requires Walking(open + {node})
      modifies this
      decreases Room(), 5
      ensures Grown()
      ensures error.None? ==> Walking(open)
      ensures error.Some? ==> Blamed(w, entries, error.value)
    {
      if node.file !in w.modules || w.modules[node.file].opaqueImport {
        BlamedInUse(open + {node}, node, if node.file !in w.modules then Unreadable else OpaqueImport);
        return Some(if node.file !in w.modules then Unreadable else OpaqueImport);
      }
      error := VisitImports(node, open + {node});
      if error.Some? {
        return error;
      }
      ghost var names;
      error, names := VisitExports(node, open + {node});
      if error.Some? {
        return error;
      }
      NodeIsSettled(w, visited, node, names);
      assert node !in Unsettled(w, visited, Elements(trace));
    }

    /** Follow the run-time imports of a visited node. */
    method VisitImports(node: Node, ghost open: set<Node>) returns (error: Option<DiscoveryError>)
      requires Walking(open) && node in open && node.file in w.modules
      modifies this
      decreases Room(), 3
      ensures Grown()
      ensures error.None? ==> Walking(open) && AllImportsHeeded(w, visited, node.file, w.modules[node.file].imports)
      ensures error.Some? ==> Blamed(w, entries, error.value)
    {
      var imports := w.modules[node.file].imports;
      for k := 0 to |imports|
        invariant Walking(open) && Grown()
        invariant AllImportsHeeded(w, visited, node.file, imports[..k])
      {
        ghost var before := visited;
        error := ResolveImport(node, imports[k], open);
        if error.Some? {
          return error;
        }
        ImportedGrows(w, before, visited, node.file, imports[..k], imports[k]);
        LastOfPart(imports, k);
      }
      WholePart(imports);
      return None;
    }

    /** `resolveImport` */
    method ResolveImport(node: Node, i: Import, ghost open: set<Node>) returns (error: Option<DiscoveryError>)
      requires Walking(open) && node in open && node.file in w.modules && i in w.modules[node.file].imports
      modifies this
      decreases Room(), 2
      ensures Grown()
      ensures error.None? ==> Walking(open) && ImportHeeded(w, visited, node.file, i)
      ensures error.Some? ==> Blamed(w, entries, error.value)
    {
      var target := Resolve(w, i.specifier, node.file);
      if target.None? {
        if IsPublished(i.specifier) || node.file in w.ui {
          BlamedInUse(open, node, UnresolvedImport);
          return Some(UnresolvedImport);
        }
        return None;
      }
      if target.value !in w.code {
        return None;
      }
      if IsPublished(i.specifier) && target.value !in w.ui {
        BlamedInUse(open, node, OutsidePublishedSource);
        return Some(OutsidePublishedSource);
      }
      assert ImportEdge(w, node, Node(target.value, i.selection));
      error := Visit(Node(target.value, i.selection), open);
    }

    /** The names a visit follows. */
    method WantedNames(node: Node) returns (r: Result<set<string>, DiscoveryError>)
      ensures r.Ok? ==> Wanted(w, node, r.value)
      ensures r.Err? ==> Blames(w, node, r.error)
    {
      match node.selection
      case Named(names) => return Ok(set n | n in names);
      case All => r := RuntimeExportNames(w, node.file, {});
      case _ => return Ok({});
    }

    /** Follow the wanted exports of a visited node, in any order of names. */
    method VisitExports(node: Node, ghost open: set<Node>)
      returns (error: Option<DiscoveryError>, ghost followed: set<string>)
      requires Walking(open) && node in open
      modifies this
      decreases Room(), 4
      ensures Grown()
      ensures error.None? ==>
        Walking(open) && Wanted(w, node, followed) && AllExportsHeeded(w, visited, node.file, followed)
      ensures error.Some? ==> Blamed(w, entries, error.value)
    {
      var names := WantedNames(node);
      followed := {};
      if names.Err? {
        BlamedInUse(open, node, names.error);
        return Some(names.error), followed;
      }
      followed := names.value;
      error := VisitNames(node, names.value, open);
    }

    method VisitNames(node: Node, names: set<string>, ghost open: set<Node>) returns (error: Option<DiscoveryError>)
      requires Walking(open) && node in open && Wanted(w, node, names)
      modifies this
      decreases Room(), 3
      ensures Grown()
      ensures error.None? ==> Walking(open) && AllExportsHeeded(w, visited, node.file, names)
      ensures error.Some? ==> Blamed(w, entries, error.value)
    {
      var left := names;
      while left != {}
        invariant Walking(open) && Grown() && left <= names
        invariant AllExportsHeeded(w, visited, node.file, names - left)
        decreases left
      {
        var name :| name in left;
        ghost var before := visited;
        error := VisitExport(node, name, open);
        if error.Some? {
          return error;
        }
        ExportedGrows(w, before, visited, node.file, names - left, name);
        assert names - (left - {name}) == (names - left) + {name};
        left := left - {name};
      }
      assert names - {} == names;
      return None;
    }

    /** Visit the targets of one export. */
    method VisitExport(node: Node, name: string, ghost open: set<Node>) returns (error: Option<DiscoveryError>)
      requires Walking(open) && node in open && Wants(w, node, name)
      modifies this
      decreases Room(), 2
      ensures Grown()
      ensures error.None? ==> Walking(open) && ExportHeeded(w, visited, node.file, name)
      ensures error.Some? ==> Blamed(w, entries, error.value)
    {
      var found := ResolveExportTargets(w, node.file, name, {});
      if found.Err? || found.value == [] {
        assert found.Ok? ==> forall t :: !ExportTarget(w, node.file, name, {}, t);
        BlamedInUse(open, node, if found.Err? then found.error else UntraceableExport);
        return Some(if found.Err? then found.error else UntraceableExport);
      }
      var targets := found.value;
      assert targets[0] in targets;
      TargetsAreReached(w, entries, Elements(trace), node, name, targets);
      error := VisitAll(targets, open);
      if error.None? {
        TargetsAreHeeded(w, visited, node.file, name, targets);
      }
    }

    /** Visit nodes in turn: the targets of one export, or the entries. */
    method VisitAll(targets: seq<Node>, ghost open: set<Node>) returns (error: Option<DiscoveryError>)
      requires Walking(open) && AllReached(w, entries, Elements(trace), targets)
      modifies this
      decreases Room(), 1
      ensures Grown()
      ensures error.None? ==> Walking(open) && EnteredKeys(w, targets) <= visited
      ensures error.Some? ==> Blamed(w, entries, error.value)
    {
      EnteredWhole(w, visited, targets);
      for k := 0 to |targets|
        invariant Walking(open) && Grown() && Entered(w, visited, targets, k)
      {
        ghost var before := visited;
        ReachedGrows(w, entries, Elements(old(trace)), Elements(trace), targets, targets[k]);
        error := Visit(targets[k], open);
        if error.Some? {
          return error;
        }
        EnteredNext(w, before, visited, targets, k);
      }
      EnteredWhole(w, visited, targets);
      return None;
    }
  }

  // ---------------------------------------------------------------------------------------
  // The whole discovery
  // ---------------------------------------------------------------------------------------

  /** Closed up to memo keys: what the walk guarantees whatever the names in the graph are. */
  ghost predicate KeyClosed(w: World, entries: seq<Path>, nodes: set<Node>) {
    && (forall e :: e in entries && Traversed(w, e) ==> KeyOf(Node(e, Execute)) in NodeKeys(nodes))
    && (forall n :: n in nodes ==> Settled(w, NodeKeys(nodes), n))
  }

  /** The selections of a world. */
  ghost function Asked(w: World): iset<Selection> {
    iset s | s in Selections(w)
  }

  /** No selection in the graph has a name with a comma, or is the single name of a selection kind. */
  ghost predicate CleanWorld(w: World) {
    forall s :: s in Selections(w) ==> Clean(s)
  }

  lemma CleanWorldTellsApart(w: World)
    requires CleanWorld(w)
    ensures MemoIdentifies(Asked(w)) && TellsApart(Asked(w))
  {
    forall s, t | s in Asked(w) && t in Asked(w) && Label(s) == Label(t) ensures s == t {
      LabelIsInjective(s, t);
    }
  }

  /** Nodes of one file that ask for the same have the same dependencies and faults. */
  lemma SameWantsSameEdges(w: World, n: Node, v: Node)
    requires n.file == v.file && SameWants(n.selection, v.selection)
    ensures forall name :: Wants(w, n, name) <==> Wants(w, v, name)
    ensures forall m :: Edge(w, n, m) <==> Edge(w, v, m)
    ensures NodeFault(w, n) <==> NodeFault(w, v)
  {
    forall name ensures Wants(w, n, name) <==> Wants(w, v, name) {
      assert Wants(w, n, name) <==> name in Names(n.selection) || (n.selection.All? && ExportName(w, n.file, {}, name));
      assert Wants(w, v, name) <==> name in Names(v.selection) || (v.selection.All? && ExportName(w, v.file, {}, name));
    }
  }

  /** All nodes that have the memo key of a visited one. */
  ghost function Saturated(w: World, nodes: set<Node>): set<Node> {
    set n | n in Universe(w) && KeyOf(n) in NodeKeys(nodes) :: n
  }

  /** The visited node behind a saturated one. */
  lemma Visited(w: World, nodes: set<Node>, n: Node) returns (v: Node)
    requires TellsApart(Asked(w)) && nodes <= Universe(w) && n in Saturated(w, nodes)
    ensures v in nodes && KeyOf(v) == KeyOf(n)
    ensures forall m :: Edge(w, n, m) <==> Edge(w, v, m)
    ensures NodeFault(w, n) <==> NodeFault(w, v)
  {
    v :| v in nodes && KeyOf(v) == KeyOf(n);
    assert n.selection in Asked(w) && v.selection in Asked(w);
    SameWantsSameEdges(w, n, v);
  }

  /** When one label means one wish, the memo loses nothing: the visited set is closed up to keys. */
  lemma SaturatedIsClosed(w: World, entries: seq<Path>, nodes: set<Node>)
    requires TellsApart(Asked(w)) && nodes <= Universe(w) && KeyClosed(w, entries, nodes)
    ensures Closed(w, entries, Saturated(w, nodes))
  {
    forall n, m | n in Saturated(w, nodes) && Edge(w, n, m) ensures m in Saturated(w, nodes) {
      var v := Visited(w, nodes, n);
      assert Settled(w, NodeKeys(nodes), v);
      EdgeSelectionKnown(w, n, m);
    }
  }

  /** Up to memo keys the visited nodes are the least closed set, and no node in it has a fault. */
  lemma VisitedIsLeastUpToKeys(w: World, entries: seq<Path>, nodes: set<Node>)
    requires TellsApart(Asked(w)) && KeyClosed(w, entries, nodes) && WithinLeast(w, entries, nodes)
    ensures forall n :: InLeast(w, entries, n) ==> KeyOf(n) in NodeKeys(nodes)
    ensures !SomeFault(w, entries)
  {
    SaturatedIsClosed(w, entries, nodes);
    forall n | InLeast(w, entries, n) ensures KeyOf(n) in NodeKeys(nodes) && !NodeFault(w, n) {
      var v := Visited(w, nodes, n);
      assert Settled(w, NodeKeys(nodes), v);
    }
  }

  /** Where labels identify selections, the visited set is exactly the least closed set. */
  lemma VisitedIsLeast(w: World, entries: seq<Path>, nodes: set<Node>)
    requires MemoIdentifies(Asked(w)) && KeyClosed(w, entries, nodes) && WithinLeast(w, entries, nodes)
    ensures forall n :: n in nodes <==> InLeast(w, entries, n)
    ensures !SomeFault(w, entries)
  {
    VisitedIsLeastUpToKeys(w, entries, nodes);
    UniverseIsClosed(w, entries);
    forall n | InLeast(w, entries, n) ensures n in nodes {
      assert n in Universe(w);
      var v :| v in nodes && KeyOf(v) == KeyOf(n);
      assert n.selection in Asked(w) && v.selection in Asked(w);
    }
  }

  /** `f` is a shared UI file of the least closed set. */
  ghost predicate Used(w: World, entries: seq<Path>, f: Path) {
    f in w.ui && exists x :: InLeast(w, entries, Node(f, x))
  }

  /** What is in use: code of the shared UI and of the workspace, from the entries on along imports. */
  lemma UseFollowsImports(w: World, entries: seq<Path>, n: Node, i: Import, g: Path, e: Path)
    ensures e in entries && e in w.code && (e in w.ui || e in w.workspace) ==> InLeast(w, entries, Node(e, Execute))
    ensures InLeast(w, entries, n) ==> n.file in w.code && (n.file in w.ui || n.file in w.workspace)
    ensures InLeast(w, entries, n) && Imports(w, n.file, i, g) && g in w.code && (g in w.ui || g in w.workspace) ==>
      InLeast(w, entries, Node(g, i.selection))
  {
    if InLeast(w, entries, n) {
      EnteredIsClosed(w, entries);
      assert n in set m | m in Universe(w) && Traversed(w, m.file);
      if Imports(w, n.file, i, g) && g in w.code && (g in w.ui || g in w.workspace) {
        assert Edge(w, n, Node(g, i.selection));
      }
    }
  }

  predicate Imports(w: World, f: Path, i: Import, g: Path) {
    f in w.modules && i in w.modules[f].imports && Resolve(w, i.specifier, f) == Some(g)
  }

  lemma EnteredIsClosed(w: World, entries: seq<Path>)
    ensures Closed(w, entries, set m | m in Universe(w) && Traversed(w, m.file))
  {
    UniverseIsClosed(w, entries);
  }

  // ---------------------------------------------------------------------------------------
  // Chains of re-exports
  // ---------------------------------------------------------------------------------------

  /** `f` re-exports `name` as the export `source` of `g`, directly or through an import of its own. */
  ghost predicate Passes(w: World, f: Path, name: string, g: Path, source: string) {
    f in w.modules && exists s :: s in w.modules[f].statements && PassesBy(w, f, s, name, g, source)
  }

  ghost predicate PassesBy(w: World, f: Path, s: Statement, name: string, g: Path, source: string) {
    match s
    case NamedFrom(specifier, elements) =>
      Resolve(w, specifier, f) == Some(g) && exists e :: e in elements && e.exported == name && e.source == source
    case LocalList(locals) =>
      exists e :: e in locals && e.exported == name && e.binding.Imported?
        && Resolve(w, e.binding.origin.specifier, f) == Some(g) && e.binding.origin.selection == Named([source])
    case DefaultExport(identifier) =>
      name == "default" && identifier.Some? && Resolve(w, identifier.value.specifier, f) == Some(g)
        && identifier.value.selection == Named([source])
    case _ => false
  }

  /** An export of a file. */
  datatype Export = Export(file: Path, name: string)

  /** The next export of the chain, through any star re-exports first; the walk enters its file. */
  ghost predicate Hop(w: World, a: Export, b: Export) {
    Traversed(w, b.file) && exists f :: Provides(w, a.file, f, a.name, {}) && Passes(w, f, a.name, b.file, b.name)
  }

  ghost predicate ReexportChain(w: World, chain: seq<Export>) {
    chain != [] && forall i :: 0 <= i < |chain| - 1 ==> Hop(w, chain[i], chain[i + 1])
  }

  /** A wanted export leads to all the files that pass it on: none on its chains of re-exports is left out. */
  lemma {:induction false} ChainsAreFollowed(w: World, entries: seq<Path>, n: Node, chain: seq<Export>)
    requires InLeast(w, entries, n) && ReexportChain(w, chain)
    requires n.file == chain[0].file && Wants(w, n, chain[0].name)
    ensures forall i :: 0 < i < |chain| ==> InLeast(w, entries, Node(chain[i].file, Named([chain[i].name])))
    ensures forall i :: 0 < i < |chain| && chain[i].file in w.ui ==> Used(w, entries, chain[i].file)
    decreases |chain|
  {
    if |chain| > 1 {
      var a, b := chain[0], chain[1];
      assert Hop(w, chain[0], chain[0 + 1]);
      var next := Node(b.file, Named([b.name]));
      HopIsEdge(w, n, a, b);
      assert InLeast(w, entries, next);
      var rest := chain[1..];
      forall i | 0 <= i < |rest| - 1 ensures Hop(w, rest[i], rest[i + 1]) {
        assert Hop(w, chain[i + 1], chain[i + 1 + 1]);
      }
      ChainsAreFollowed(w, entries, next, rest);
      forall i | 0 < i < |chain| ensures InLeast(w, entries, Node(chain[i].file, Named([chain[i].name]))) {
        assert chain[i] == rest[i - 1];
      }
    }
  }

  lemma HopIsEdge(w: World, n: Node, a: Export, b: Export)
    requires n.file == a.file && Wants(w, n, a.name) && Hop(w, a, b)
    ensures Edge(w, n, Node(b.file, Named([b.name])))
  {
    var t := Node(b.file, Named([b.name]));
    var f :| Provides(w, a.file, f, a.name, {}) && Passes(w, f, a.name, b.file, b.name);
    var s :| s in w.modules[f].statements && PassesBy(w, f, s, a.name, b.file, b.name);
    assert StatementTarget(w, f, s, a.name, t);
    assert LocalTarget(w, f, a.name, t) && ExportTarget(w, n.file, a.name, {}, t);
  }

  datatype CollectError = WalkFailed(error: DiscoveryError) | NoSharedSource

  /** A whole walk without failures. */
  ghost predicate Walk(w: World, entries: seq<Path>, trace: seq<Node>) {
    Chain(w, entries, trace) && KeyClosed(w, entries, Elements(trace))
  }

  function Outcome(files: set<Path>): Result<set<Path>, CollectError> {
    if files == {} then Err(NoSharedSource) else Ok(files)
  }

  /** What `collectUiSourceFiles` may return: the files of a whole walk, or a failure of a node in use. */
  ghost predicate Returns(w: World, entries: seq<Path>, r: Result<set<Path>, CollectError>) {
    if r.Err? && r.error.WalkFailed? then Blamed(w, entries, r.error.error)
    else exists trace :: Walk(w, entries, trace) && r == Outcome(Files(w, Elements(trace)))
  }

  /** Success exactly without faults and with a shared file in use, and then exactly those files. */
  ghost predicate Exact(w: World, entries: seq<Path>, r: Result<set<Path>, CollectError>) {
    && (r.Ok? ==> forall f :: f in r.value <==> Used(w, entries, f))
    && (r.Ok? <==> !SomeFault(w, entries) && exists f :: Used(w, entries, f))
  }

  /**
    `collectUiSourceFiles`. In a world where one memo label means one wish, the discovery returns
    exactly the shared UI files of the least set of (file, selection) pairs closed under run-time
    imports and export targets, and it fails exactly when some pair in that set is faulty or no such
    file exists.
    */
  method CollectUiSourceFiles(w: World, entries: seq<Path>)
    returns (r: Result<set<Path>, CollectError>, ghost trace: seq<Node>)
    ensures Returns(w, entries, r)
    ensures !(r.Err? && r.error.WalkFailed?) ==>
      Walk(w, entries, trace) && r == Outcome(Files(w, Elements(trace)))
    ensures TellsApart(Asked(w)) ==> Exact(w, entries, r)
  {
    var discovery := new Discovery(w, entries);
    var error := discovery.VisitAll(EntryNodes(entries), {});
    trace := discovery.trace;
    if error.Some? {
      return Err(WalkFailed(error.value)), trace;
    }
    r := if discovery.files == {} then Err(NoSharedSource) else Ok(discovery.files);
    WalkIsWhole(w, entries, trace);
    if TellsApart(Asked(w)) {
      ReturnsAreExact(w, entries, r);
    }
  }

  /** Entries visited and nothing left unsettled. */
  lemma WalkIsWhole(w: World, entries: seq<Path>, trace: seq<Node>)
    requires Chain(w, entries, trace) && EnteredKeys(w, EntryNodes(entries)) <= NodeKeys(Elements(trace))
    requires Unsettled(w, NodeKeys(Elements(trace)), Elements(trace)) <= {}
    ensures Walk(w, entries, trace)
  {
    var nodes := Elements(trace);
    forall e | e in entries && Traversed(w, e) ensures KeyOf(Node(e, Execute)) in NodeKeys(nodes) {
      var k :| 0 <= k < |entries| && entries[k] == e;
      assert EntryNodes(entries)[k] == Node(e, Execute);
    }
    forall n | n in nodes ensures Settled(w, NodeKeys(nodes), n) {
      assert n !in Unsettled(w, NodeKeys(nodes), nodes);
    }
  }

  /** The files of the visited nodes are used, and all used ones where one label means one wish. */
  lemma FilesAreUsed(w: World, entries: seq<Path>, nodes: set<Node>)
    requires WithinLeast(w, entries, nodes)
    requires forall n :: InLeast(w, entries, n) ==> KeyOf(n) in NodeKeys(nodes)
    ensures forall f :: f in Files(w, nodes) <==> Used(w, entries, f)
  {
    forall f ensures f in Files(w, nodes) <==> Used(w, entries, f) {
      if f in Files(w, nodes) {
        var n :| n in nodes && n.file in w.ui && n.file == f;
        assert InLeast(w, entries, Node(f, n.selection));
      }
      if Used(w, entries, f) {
        var x :| InLeast(w, entries, Node(f, x));
        var v :| v in nodes && KeyOf(v) == KeyOf(Node(f, x));
        assert v.file == f;
      }
    }
  }

  lemma ReturnsAreExact(w: World, entries: seq<Path>, r: Result<set<Path>, CollectError>)
    requires TellsApart(Asked(w)) && Returns(w, entries, r)
    ensures Exact(w, entries, r)
  {
    if !(r.Err? && r.error.WalkFailed?) {
      var trace :| Walk(w, entries, trace) && r == Outcome(Files(w, Elements(trace)));
      ChainIsWithinLeast(w, entries, trace);
      VisitedIsLeastUpToKeys(w, entries, Elements(trace));
      FilesAreUsed(w, entries, Elements(trace));
      if f :| f in Files(w, Elements(trace)) {
        assert Used(w, entries, f);
      }
    } else {
      var n :| InLeast(w, entries, n) && Blames(w, n, r.error.error);
      BlamedIsFault(w, n, r.error.error);
    }
  }
}
