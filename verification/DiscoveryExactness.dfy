/**
  When source discovery is exact (apps/web/tooling/ui-tailwind-sources.ts): for the worlds over given
  selections it always is, exactly when selections with one memo label ask for the same exports. For
  any two that do not, there is a world in which every walk loses a file.
  */
module DiscoveryExactness {
  import opened Sequences
  import opened Wrappers
  import opened ModuleGraph
  import opened ExportResolution
  import opened Discovery

  // ---------------------------------------------------------------------------------------
  // A world that tells two selections apart
  // ---------------------------------------------------------------------------------------

  /**
    The client asks `barrel` for `first`; the barrel loads `side`, which asks `barrel` for `second`.
    Every export of the barrel leads to `leaf`, but `odd` leads to `lost`.
    */
  function LosingWorld(first: Selection, second: Selection, odd: string): World {
    World(
      map[
        "main" := Module(if first.Execute? then [] else [Import("barrel", first)], false, []),
        "barrel" := Module([Import("side", SideEffect)], false, Exports(first, second, odd)),
        "side" := Module([Import("leaf", All), Import("barrel", second)], false, []),
        "leaf" := Module([], false, []),
        "lost" := Module([], false, [])
      ],
      map[
        ("barrel", "main") := "barrel", ("side", "barrel") := "side", ("leaf", "side") := "leaf",
        ("barrel", "side") := "barrel", ("leaf", "barrel") := "leaf", ("lost", "barrel") := "lost"
      ],
      {"main", "barrel", "side", "leaf", "lost"},
      {"barrel", "side", "leaf", "lost"},
      {"main"})
  }

  /** Entry files are executed, so that is how `barrel` is visited for `Execute`. */
  function Entries(first: Selection): seq<Path> {
    if first.Execute? then ["main", "barrel"] else ["main"]
  }

  function ListOfNames(s: Selection): seq<string> {
    if s.Named? then s.names else []
  }

  function ExportList(first: Selection, second: Selection, odd: string): seq<string> {
    ListOfNames(first) + ListOfNames(second) + [odd]
  }

  function Home(name: string, odd: string): Path {
    if name == odd then "lost" else "leaf"
  }

  /** `export * as name from …` for each name */
  function Exports(first: Selection, second: Selection, odd: string): seq<Statement> {
    var names := ExportList(first, second, odd);
    seq(|names|, i requires 0 <= i < |names| => Namespace(Home(names[i], odd), names[i]))
  }

  /** `second` asks every such barrel for `odd`, and `first` does not. */
  predicate OnlySecond(first: Selection, second: Selection, odd: string) {
    && !first.All? && odd !in Names(first)
    && (second.All? || odd in Names(second))
  }

  // ---------------------------------------------------------------------------------------
  // Its dependencies
  // ---------------------------------------------------------------------------------------

  lemma NoStars(w: World, f: Path, g: Path, name: string)
    requires f in w.modules && forall s :: s in w.modules[f].statements ==> !s.Star?
    ensures StarReach(w, f, g, {}) <==> g == f
    ensures Provides(w, f, g, name, {}) <==> g == f
  {
    StarReachUnfold(w, f, g, {});
    forall h ensures !StarEdge(w, f, h) {
      forall i | 0 <= i < |w.modules[f].statements| ensures !StarTo(w, f, w.modules[f].statements[i], h) {
        assert w.modules[f].statements[i] in w.modules[f].statements;
      }
    }
  }

  /** Without star re-exports a module answers for its own statements alone. */
  lemma OwnStatements(w: World, f: Path, name: string, t: Node)
    requires f in w.modules && forall s :: s in w.modules[f].statements ==> !s.Star?
    ensures ExportTarget(w, f, name, {}, t) <==> LocalTarget(w, f, name, t)
    ensures ExportFault(w, f, name, {}) <==> TargetFault(w, f, name)
    ensures ExportName(w, f, {}, name) <==> LocalName(w, f, name)
    ensures NamesFault(w, f, {}) <==> NamesFaultAt(w, f)
  {
    forall g { NoStars(w, f, g, name); }
  }

  lemma ExportedNames(first: Selection, second: Selection, odd: string, name: string)
    ensures name in ExportList(first, second, odd) <==> name in Names(first) || name in Names(second) || name == odd
    ensures forall s :: s in Exports(first, second, odd) ==>
      s.Namespace? && s.name in ExportList(first, second, odd) && s.specifier == Home(s.name, odd)
    ensures name in ExportList(first, second, odd) ==> Namespace(Home(name, odd), name) in Exports(first, second, odd)
  {
    var names := ExportList(first, second, odd);
    if name in names {
      var i :| 0 <= i < |names| && names[i] == name;
      assert Exports(first, second, odd)[i] == Namespace(Home(name, odd), name);
    }
  }

  /** The barrel exports its list of names, each leading to one module as a whole, without faults. */
  lemma BarrelExports(first: Selection, second: Selection, odd: string, name: string, t: Node)
    ensures var w := LosingWorld(first, second, odd);
      && (ExportTarget(w, "barrel", name, {}, t)
          <==> name in ExportList(first, second, odd) && t == Node(Home(name, odd), All))
      && !ExportFault(w, "barrel", name, {}) && !NamesFault(w, "barrel", {})
      && (ExportName(w, "barrel", {}, name) <==> name in ExportList(first, second, odd))
  {
    var w := LosingWorld(first, second, odd);
    ExportedNames(first, second, odd, name);
    assert w.modules["barrel"].statements == Exports(first, second, odd);
    OwnStatements(w, "barrel", name, t);
    if name in ExportList(first, second, odd) {
      var s := Namespace(Home(name, odd), name);
      assert s in w.modules["barrel"].statements;
      assert StatementTarget(w, "barrel", s, name, Node(Home(name, odd), All)) && StatementName(w, "barrel", s, name);
    }
  }

  /** The other modules export nothing. */
  lemma NoExports(first: Selection, second: Selection, odd: string, f: Path, name: string, t: Node)
    requires f in {"main", "side", "leaf", "lost"}
    ensures var w := LosingWorld(first, second, odd);
      !ExportTarget(w, f, name, {}, t) && !ExportName(w, f, {}, name) && !NamesFault(w, f, {})
  {
    OwnStatements(LosingWorld(first, second, odd), f, name, t);
  }

  /** All nodes in use: those a walk visits, and two more that it takes for visited or never sees. */
  function Seen(first: Selection): set<Node> {
    {Node("main", Execute), Node("barrel", first), Node("side", SideEffect), Node("leaf", All)}
  }

  function InUse(first: Selection, second: Selection): set<Node> {
    Seen(first) + {Node("barrel", second), Node("lost", All)}
  }

  /** The dependencies of a module that is asked for no export are its imports. */
  lemma ImportsOnly(w: World, n: Node, m: Node)
    requires n.file in w.modules && forall name, t :: !ExportTarget(w, n.file, name, {}, t)
    ensures Edge(w, n, m) <==> Traversed(w, m.file) && ImportEdge(w, n, m)
  {
  }

  lemma MainEdges(first: Selection, second: Selection, odd: string, m: Node)
    ensures var w, n := LosingWorld(first, second, odd), Node("main", Execute);
      (Edge(w, n, m) <==> !first.Execute? && m == Node("barrel", first)) && !NodeFault(w, n)
  {
    var w, n := LosingWorld(first, second, odd), Node("main", Execute);
    forall name, t { NoExports(first, second, odd, "main", name, t); }
    ImportsOnly(w, n, m);
    var imports := w.modules["main"].imports;
    if !first.Execute? {
      assert imports == [Import("barrel", first)] && imports[0] in imports;
    }
  }

  lemma SideEdges(first: Selection, second: Selection, odd: string, m: Node)
    ensures var w, n := LosingWorld(first, second, odd), Node("side", SideEffect);
      (Edge(w, n, m) <==> m == Node("leaf", All) || m == Node("barrel", second)) && !NodeFault(w, n)
  {
    var w, n := LosingWorld(first, second, odd), Node("side", SideEffect);
    forall name, t { NoExports(first, second, odd, "side", name, t); }
    ImportsOnly(w, n, m);
    var imports := w.modules["side"].imports;
    assert imports == [Import("leaf", All), Import("barrel", second)];
    assert imports[0] in imports && imports[1] in imports;
  }

  lemma LeafEdges(first: Selection, second: Selection, odd: string, f: Path, m: Node)
    requires f in {"leaf", "lost"}
    ensures var w := LosingWorld(first, second, odd); !Edge(w, Node(f, All), m) && !NodeFault(w, Node(f, All))
  {
    var w := LosingWorld(first, second, odd);
    forall name, t { NoExports(first, second, odd, f, name, t); }
    ImportsOnly(w, Node(f, All), m);
    NoExports(first, second, odd, f, "", m);
    forall name ensures !Wants(w, Node(f, All), name) {
      NoExports(first, second, odd, f, name, m);
    }
    assert w.modules[f] == Module([], false, []);
  }

  /** What `s` asks the barrel for. */
  ghost predicate Asks(first: Selection, second: Selection, odd: string, s: Selection, name: string) {
    name in ExportList(first, second, odd) && (s.All? || name in Names(s))
  }

  lemma BarrelWants(first: Selection, second: Selection, odd: string, s: Selection, name: string)
    requires s in {first, second}
    ensures Wants(LosingWorld(first, second, odd), Node("barrel", s), name) <==> Asks(first, second, odd, s, name)
  {
    BarrelExports(first, second, odd, name, Node("leaf", All));
    ExportedNames(first, second, odd, name);
  }

  /** A module that a wanted export of the barrel leads to. */
  ghost predicate LeadsTo(first: Selection, second: Selection, odd: string, s: Selection, m: Node) {
    m.selection == All && exists name :: Asks(first, second, odd, s, name) && m.file == Home(name, odd)
  }

  lemma BarrelExportEdges(first: Selection, second: Selection, odd: string, s: Selection, m: Node)
    requires s in {first, second}
    ensures ExportEdge(LosingWorld(first, second, odd), Node("barrel", s), m) <==> LeadsTo(first, second, odd, s, m)
  {
    forall name { BarrelExports(first, second, odd, name, m); }
    forall name { BarrelWants(first, second, odd, s, name); }
    if LeadsTo(first, second, odd, s, m) {
      var name :| Asks(first, second, odd, s, name) && m.file == Home(name, odd);
      BarrelWants(first, second, odd, s, name);
      BarrelExports(first, second, odd, name, m);
    }
  }

  lemma BarrelEdges(first: Selection, second: Selection, odd: string, s: Selection, m: Node)
    requires s in {first, second}
    ensures Edge(LosingWorld(first, second, odd), Node("barrel", s), m)
      <==> m == Node("side", SideEffect) || LeadsTo(first, second, odd, s, m)
  {
    BarrelExportEdges(first, second, odd, s, m);
    var imports := LosingWorld(first, second, odd).modules["barrel"].imports;
    assert imports == [Import("side", SideEffect)] && imports[0] in imports;
  }

  lemma BarrelIsFaultless(first: Selection, second: Selection, odd: string, s: Selection)
    requires s in {first, second}
    ensures !NodeFault(LosingWorld(first, second, odd), Node("barrel", s))
  {
    var w := LosingWorld(first, second, odd);
    BarrelExports(first, second, odd, odd, Node("leaf", All));
    forall name | Wants(w, Node("barrel", s), name) ensures !Untraceable(w, "barrel", name) {
      BarrelWants(first, second, odd, s, name);
      BarrelExports(first, second, odd, name, Node(Home(name, odd), All));
    }
  }

  // ---------------------------------------------------------------------------------------
  // Every walk of it loses a file
  // ---------------------------------------------------------------------------------------

  /** From the nodes seen, a walk comes to nodes seen, or to the barrel again. */
  lemma SeenEdges(first: Selection, second: Selection, odd: string, n: Node, m: Node)
    requires OnlySecond(first, second, odd) && n in Seen(first) && Edge(LosingWorld(first, second, odd), n, m)
    ensures m in Seen(first) || m == Node("barrel", second)
    ensures m == Node("side", SideEffect) ==> n == Node("barrel", first)
    ensures m == Node("barrel", second) && second != first ==> n == Node("side", SideEffect)
  {
    if n == Node("main", Execute) {
      MainEdges(first, second, odd, m);
    } else if n == Node("side", SideEffect) {
      SideEdges(first, second, odd, m);
    } else if n == Node("leaf", All) {
      LeafEdges(first, second, odd, "leaf", m);
    } else {
      BarrelEdges(first, second, odd, first, m);
    }
  }

  /** A walk never visits the barrel for `second`: when it comes there, the key is taken. */
  lemma {:induction false} OnlySeen(first: Selection, second: Selection, odd: string, trace: seq<Node>)
    requires OnlySecond(first, second, odd) && Label(first) == Label(second)
    requires Chain(LosingWorld(first, second, odd), Entries(first), trace)
    ensures Elements(trace) <= Seen(first)
    ensures Node("side", SideEffect) in trace ==> Node("barrel", first) in trace
  {
    if trace != [] {
      var front, n := trace[..|trace| - 1], trace[|trace| - 1];
      OnlySeen(first, second, odd, front);
      assert trace == front + [n];
      NextIsSeen(first, second, odd, Elements(front), n);
    }
  }

  lemma NextIsSeen(first: Selection, second: Selection, odd: string, nodes: set<Node>, n: Node)
    requires OnlySecond(first, second, odd) && Label(first) == Label(second) && nodes <= Seen(first)
    requires Node("side", SideEffect) in nodes ==> Node("barrel", first) in nodes
    requires Reached(LosingWorld(first, second, odd), Entries(first), nodes, n) && KeyOf(n) !in NodeKeys(nodes)
    ensures n in Seen(first)
    ensures n == Node("side", SideEffect) ==> Node("barrel", first) in nodes
  {
    if v :| v in nodes && Edge(LosingWorld(first, second, odd), v, n) {
      SeenEdges(first, second, odd, v, n);
      assert KeyOf(Node("barrel", second)) == KeyOf(Node("barrel", first));
    } else {
      assert n.file in Entries(first) && n.selection == Execute;
    }
  }

  /** A key of a visited node, and the node it must be. */
  lemma SeenByKey(first: Selection, nodes: set<Node>, n: Node)
    requires nodes <= Seen(first) && n in Seen(first) && KeyOf(n) in NodeKeys(nodes)
    ensures n in nodes
  {
  }

  /** A whole walk visits exactly the nodes seen. */
  lemma WalkSeesAll(first: Selection, second: Selection, odd: string, trace: seq<Node>)
    requires OnlySecond(first, second, odd) && Label(first) == Label(second)
    requires Walk(LosingWorld(first, second, odd), Entries(first), trace)
    ensures Elements(trace) == Seen(first)
  {
    var w, nodes := LosingWorld(first, second, odd), Elements(trace);
    OnlySeen(first, second, odd, trace);
    assert "main" in Entries(first) && (first.Execute? ==> "barrel" in Entries(first));
    SeenByKey(first, nodes, Node("main", Execute));
    MainEdges(first, second, odd, Node("barrel", first));
    SeenByKey(first, nodes, Node("barrel", first));
    BarrelEdges(first, second, odd, first, Node("side", SideEffect));
    SeenByKey(first, nodes, Node("side", SideEffect));
    SideEdges(first, second, odd, Node("leaf", All));
    SeenByKey(first, nodes, Node("leaf", All));
  }

  /** No node in use has a fault. */
  lemma NoFaults(first: Selection, second: Selection, odd: string)
    ensures !SomeFault(LosingWorld(first, second, odd), Entries(first))
  {
    var w := LosingWorld(first, second, odd);
    forall n, m | n in InUse(first, second) && Edge(w, n, m) ensures m in InUse(first, second) {
      InUseEdges(first, second, odd, n, m);
    }
    assert Closed(w, Entries(first), InUse(first, second));
    forall n | InLeast(w, Entries(first), n) ensures !NodeFault(w, n) {
      assert n in InUse(first, second);
      InUseIsFaultless(first, second, odd, n);
    }
  }

  lemma InUseEdges(first: Selection, second: Selection, odd: string, n: Node, m: Node)
    requires n in InUse(first, second) && Edge(LosingWorld(first, second, odd), n, m)
    ensures m in InUse(first, second)
  {
    if n == Node("main", Execute) {
      MainEdges(first, second, odd, m);
    } else if n == Node("side", SideEffect) {
      SideEdges(first, second, odd, m);
    } else if n.file == "barrel" {
      BarrelEdges(first, second, odd, n.selection, m);
    } else {
      LeafEdges(first, second, odd, n.file, m);
    }
  }

  lemma InUseIsFaultless(first: Selection, second: Selection, odd: string, n: Node)
    requires n in InUse(first, second)
    ensures !NodeFault(LosingWorld(first, second, odd), n)
  {
    if n == Node("main", Execute) {
      MainEdges(first, second, odd, n);
    } else if n == Node("side", SideEffect) {
      SideEdges(first, second, odd, n);
    } else if n.file == "barrel" {
      BarrelIsFaultless(first, second, odd, n.selection);
    } else {
      LeafEdges(first, second, odd, n.file, n);
    }
  }

  /** A dependency of a node in the least closed set is in it. */
  lemma LeastStep(w: World, entries: seq<Path>, n: Node, m: Node)
    requires InLeast(w, entries, n) && Edge(w, n, m)
    ensures InLeast(w, entries, m)
  {
  }

  lemma LostIsUsed(first: Selection, second: Selection, odd: string)
    requires OnlySecond(first, second, odd)
    ensures Used(LosingWorld(first, second, odd), Entries(first), "lost")
  {
    var w, entries := LosingWorld(first, second, odd), Entries(first);
    assert "main" in entries && (first.Execute? ==> "barrel" in entries);
    assert InLeast(w, entries, Node("main", Execute));
    MainEdges(first, second, odd, Node("barrel", first));
    BarrelEdges(first, second, odd, first, Node("side", SideEffect));
    LeastStep(w, entries, Node("barrel", first), Node("side", SideEffect));
    SideEdges(first, second, odd, Node("barrel", second));
    LeastStep(w, entries, Node("side", SideEffect), Node("barrel", second));
    assert Asks(first, second, odd, second, odd);
    BarrelEdges(first, second, odd, second, Node("lost", All));
    LeastStep(w, entries, Node("barrel", second), Node("lost", All));
  }

  /** Whatever is returned for that world, the file "lost" is in use and missing. */
  lemma EveryReturnLosesAFile(first: Selection, second: Selection, odd: string, r: Result<set<Path>, CollectError>)
    requires OnlySecond(first, second, odd) && Label(first) == Label(second)
    requires Returns(LosingWorld(first, second, odd), Entries(first), r)
    ensures r == Ok({"barrel", "side", "leaf"})
    ensures Used(LosingWorld(first, second, odd), Entries(first), "lost")
  {
    var w := LosingWorld(first, second, odd);
    NoFaults(first, second, odd);
    LostIsUsed(first, second, odd);
    var trace :| Walk(w, Entries(first), trace) && r == Outcome(Files(w, Elements(trace)));
    WalkSeesAll(first, second, odd, trace);
    SeenFiles(first, second, odd);
  }

  lemma SeenFiles(first: Selection, second: Selection, odd: string)
    ensures Files(LosingWorld(first, second, odd), Seen(first)) == {"barrel", "side", "leaf"}
  {
    var seen := Seen(first);
    assert Node("barrel", first) in seen && Node("side", SideEffect) in seen && Node("leaf", All) in seen;
  }

  /** The program on that world. */
  method KeyCollisionLosesAFile(first: Selection, second: Selection, odd: string)
    returns (r: Result<set<Path>, CollectError>)
    requires OnlySecond(first, second, odd) && Label(first) == Label(second)
    ensures r == Ok({"barrel", "side", "leaf"})
    ensures Used(LosingWorld(first, second, odd), Entries(first), "lost")
  {
    ghost var trace;
    r, trace := CollectUiSourceFiles(LosingWorld(first, second, odd), Entries(first));
    EveryReturnLosesAFile(first, second, odd, r);
  }

  // ---------------------------------------------------------------------------------------
  // When discovery is exact
  // ---------------------------------------------------------------------------------------

  /** One more visit, along an edge from a node visited before. */
  lemma ChainAlong(w: World, entries: seq<Path>, trace: seq<Node>, v: Node, n: Node)
    requires Chain(w, entries, trace) && v in Elements(trace) && Edge(w, v, n)
    requires KeyOf(n) !in NodeKeys(Elements(trace))
    ensures Chain(w, entries, trace + [n]) && Elements(trace + [n]) == Elements(trace) + {n}
  {
    ChainGrows(w, entries, trace, n);
    ElementsGrow(trace, n);
  }

  lemma ChainStart(w: World, entries: seq<Path>, e: Path)
    requires e in entries && Traversed(w, e)
    ensures Chain(w, entries, [Node(e, Execute)]) && Elements([Node(e, Execute)]) == {Node(e, Execute)}
  {
    ChainGrows(w, entries, [], Node(e, Execute));
    assert [] + [Node(e, Execute)] == [Node(e, Execute)];
  }

  /** The client, then the barrel: along the import, or as an entry itself. */
  lemma SeenStart(first: Selection, second: Selection, odd: string) returns (trace: seq<Node>)
    ensures Chain(LosingWorld(first, second, odd), Entries(first), trace)
    ensures Elements(trace) == {Node("main", Execute), Node("barrel", first)}
  {
    var w, entries := LosingWorld(first, second, odd), Entries(first);
    var main, barrel := Node("main", Execute), Node("barrel", first);
    assert "main" in entries && (first.Execute? ==> "barrel" in entries);
    ChainStart(w, entries, "main");
    MainEdges(first, second, odd, barrel);
    trace := [main];
    assert Reached(w, entries, Elements(trace), barrel);
    ChainGrows(w, entries, trace, barrel);
    ElementsGrow(trace, barrel);
    trace := trace + [barrel];
  }

  lemma ChainAlongTwo(w: World, entries: seq<Path>, trace: seq<Node>, v: Node, a: Node, b: Node)
    requires Chain(w, entries, trace) && v in Elements(trace) && Edge(w, v, a) && Edge(w, a, b)
    requires a.file != b.file && forall n :: n in Elements(trace) ==> n.file != a.file && n.file != b.file
    ensures Chain(w, entries, trace + [a] + [b]) && Elements(trace + [a] + [b]) == Elements(trace) + {a} + {b}
  {
    ChainAlong(w, entries, trace, v, a);
    ChainAlong(w, entries, trace + [a], a, b);
  }

  lemma SeenLinks(first: Selection, second: Selection, odd: string)
    ensures Edge(LosingWorld(first, second, odd), Node("barrel", first), Node("side", SideEffect))
    ensures Edge(LosingWorld(first, second, odd), Node("side", SideEffect), Node("leaf", All))
  {
    BarrelEdges(first, second, odd, first, Node("side", SideEffect));
    SideEdges(first, second, odd, Node("leaf", All));
  }

  lemma NamesDiffer()
    ensures "side" !in {"main", "barrel"} && "leaf" !in {"main", "barrel", "side"}
  {
  }

  lemma SeenChain(first: Selection, second: Selection, odd: string) returns (trace: seq<Node>)
    requires OnlySecond(first, second, odd)
    ensures Chain(LosingWorld(first, second, odd), Entries(first), trace) && Elements(trace) == Seen(first)
  {
    var barrel, side, leaf := Node("barrel", first), Node("side", SideEffect), Node("leaf", All);
    trace := SeenStart(first, second, odd);
    SeenLinks(first, second, odd);
    NamesDiffer();
    ChainAlongTwo(LosingWorld(first, second, odd), Entries(first), trace, barrel, side, leaf);
    trace := trace + [side] + [leaf];
  }

  /** The nodes seen are a whole walk, so the program can return. */
  lemma SeenIsAWalk(first: Selection, second: Selection, odd: string)
    requires OnlySecond(first, second, odd) && Label(first) == Label(second)
    ensures Returns(LosingWorld(first, second, odd), Entries(first), Ok({"barrel", "side", "leaf"}))
  {
    var trace := SeenChain(first, second, odd);
    SeenIsKeyClosed(first, second, odd);
    SeenFiles(first, second, odd);
    assert Walk(LosingWorld(first, second, odd), Entries(first), trace);
  }

  lemma SeenIsKeyClosed(first: Selection, second: Selection, odd: string)
    requires OnlySecond(first, second, odd) && Label(first) == Label(second)
    ensures KeyClosed(LosingWorld(first, second, odd), Entries(first), Seen(first))
  {
    var w := LosingWorld(first, second, odd);
    assert Node("main", Execute) in Seen(first) && Node("barrel", first) in Seen(first);
    forall n | n in Seen(first) ensures Settled(w, NodeKeys(Seen(first)), n) {
      InUseIsFaultless(first, second, odd, n);
      forall m | Edge(w, n, m) ensures KeyOf(m) in NodeKeys(Seen(first)) {
        SeenEdges(first, second, odd, n, m);
        assert KeyOf(Node("barrel", second)) == KeyOf(Node("barrel", first));
      }
    }
  }

  /** Whatever is returned for a world over these selections is exact. */
  ghost predicate AlwaysExact(selections: iset<Selection>) {
    forall w, entries, r :: Asked(w) <= selections && Returns(w, entries, r) ==> Exact(w, entries, r)
  }

  lemma SelectionsOfLosingWorld(first: Selection, second: Selection, odd: string)
    ensures Asked(LosingWorld(first, second, odd)) <= iset{Execute, SideEffect, All, first, second}
  {
    var w := LosingWorld(first, second, odd);
    forall f, x | f in w.modules && x in ModuleSelections(w.modules[f])
      ensures x in {Execute, SideEffect, All, first, second}
    {
      ExportedNames(first, second, odd, odd);
    }
  }

  /** Of two selections that ask for different exports, one asks for an export that the other does not. */
  lemma OneAsksForMore(s: Selection, t: Selection) returns (first: Selection, second: Selection, odd: string)
    requires !SameWants(s, t)
    ensures (first == s && second == t) || (first == t && second == s)
    ensures OnlySecond(first, second, odd)
  {
    if s.All? || t.All? {
      first, second := if s.All? then t else s, if s.All? then s else t;
      odd := Join(ListOfNames(first)) + "'";
      JoinIsLongest(ListOfNames(first));
    } else if name :| name in Names(t) && name !in Names(s) {
      first, second, odd := s, t, name;
    } else {
      first, second := t, s;
      odd :| odd in Names(s) && odd !in Names(t);
    }
  }

  lemma {:induction false} JoinIsLongest(names: seq<string>)
    ensures forall n :: n in names ==> |n| <= |Join(names)|
  {
    if names != [] {
      JoinIsLongest(names[1..]);
      assert names == [names[0]] + names[1..];
    }
  }

  /**
    Discovery is exact on all worlds over the given selections if and only if any two of them with
    one memo label ask for the same exports. Every world has the three kinds of selection.
    */
  lemma AlwaysExactIff(selections: iset<Selection>)
    requires iset{Execute, SideEffect, All} <= selections
    ensures AlwaysExact(selections) <==> TellsApart(selections)
  {
    if TellsApart(selections) {
      forall w, entries, r | Asked(w) <= selections && Returns(w, entries, r) ensures Exact(w, entries, r) {
        ReturnsAreExact(w, entries, r);
      }
    } else {
      var s, t :| s in selections && t in selections && Label(s) == Label(t) && !SameWants(s, t);
      var first, second, odd := OneAsksForMore(s, t);
      NotAlwaysExact(selections, first, second, odd);
    }
  }

  lemma NotAlwaysExact(selections: iset<Selection>, first: Selection, second: Selection, odd: string)
    requires iset{Execute, SideEffect, All, first, second} <= selections
    requires OnlySecond(first, second, odd) && Label(first) == Label(second)
    ensures !AlwaysExact(selections)
  {
    var w, entries, r := LosingWorld(first, second, odd), Entries(first), Ok({"barrel", "side", "leaf"});
    SelectionsOfLosingWorld(first, second, odd);
    SeenIsAWalk(first, second, odd);
    LostIsUsed(first, second, odd);
    assert !Exact(w, entries, r) by {
      assert "lost" !in {"barrel", "side", "leaf"};
    }
  }

  /**
    Over the names of exports: discovery is exact exactly when no name is that of a selection kind and
    the lists of names that share a joined text hold the same names; without commas the first suffices.
    */
  lemma AlwaysExactOverNamesIff(names: set<string>)
    ensures AlwaysExact(Over(names)) <==> names !! KINDS && JoinsTell(names)
    ensures (forall n :: n in names ==> ',' !in n) ==> (AlwaysExact(Over(names)) <==> names !! KINDS)
  {
    AlwaysExactIff(Over(names));
    TellsApartIff(names);
  }
}
