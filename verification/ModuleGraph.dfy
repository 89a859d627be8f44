/**
  The module graph that shared-UI source discovery walks (apps/web/tooling/ui-tailwind-sources.ts),
  after parsing: which modules a module imports at run time, what it exports and re-exports, and
  what the bundler's resolver says.
  */
module ModuleGraph {
  import opened Sequences
  import opened Wrappers

  type Path = string

  /** What a module is visited for. */
  datatype Selection = Execute | SideEffect | All | Named(names: seq<string>)

  datatype Import = Import(specifier: string, selection: Selection)

  /** What a local name stands for in its module. */
  datatype Binding = Imported(origin: Import) | Declared | Unbound

  /** `export { source as exported } from …`, run-time elements only. */
  datatype Reexport = Reexport(exported: string, source: string)

  /** `export { local as exported }`, run-time elements only, with the local binding resolved. */
  datatype LocalElement = LocalElement(exported: string, binding: Binding)

  datatype Statement =
    | Declaration(names: seq<string>)
    | Star(specifier: string)
    | Namespace(specifier: string, name: string)
    | NamedFrom(specifier: string, elements: seq<Reexport>)
    | LocalList(locals: seq<LocalElement>)
    | DefaultExport(identifier: Option<Import>)

  /** `opaque` marks a dynamic import whose path is not a literal. */
  datatype Module = Module(imports: seq<Import>, opaqueImport: bool, statements: seq<Statement>)

  /**
    The world the walk sees. `modules` are the readable files; `code` the files with a code
    extension; `ui` and `workspace` the files below the shared UI source and the workspace sources.
    */
  datatype World = World(
    modules: map<Path, Module>,
    resolve: map<(string, Path), Path>,
    code: set<Path>,
    ui: set<Path>,
    workspace: set<Path>)

  datatype Node = Node(file: Path, selection: Selection)

  function Resolve(w: World, specifier: string, importer: Path): Option<Path> {
    if (specifier, importer) in w.resolve then Some(w.resolve[(specifier, importer)]) else None
  }

  const PUBLISHED := "@adea-ai/ui"

  predicate IsPublished(specifier: string) {
    specifier == PUBLISHED || PUBLISHED + "/" <= specifier
  }

  /** The package and the paths below it, but no package whose name only begins like it. */
  lemma PublishedMeans(specifier: string, name: string)
    ensures IsPublished(specifier) <==> specifier == "@adea-ai/ui" || exists path :: specifier == "@adea-ai/ui/" + path
    ensures name != "" && name[0] != '/' ==> !IsPublished("@adea-ai/ui" + name)
  {
    if IsPublished(specifier) && specifier != PUBLISHED {
      assert specifier == "@adea-ai/ui/" + specifier[|PUBLISHED| + 1..];
    }
    if name != "" && name[0] != '/' {
      assert ("@adea-ai/ui" + name)[|PUBLISHED|] == name[0];
    }
  }

  /** The files the walk enters. */
  predicate Traversed(w: World, f: Path) {
    f in w.code && (f in w.ui || f in w.workspace)
  }

  // ---------------------------------------------------------------------------------------
  // Memo keys
  // ---------------------------------------------------------------------------------------

  function Join(names: seq<string>): string {
    if names == [] then ""
    else if |names| == 1 then names[0]
    else names[0] + "," + Join(names[1..])
  }

  /** The part of the memo key that stands for the selection. */
  function Label(s: Selection): string {
    match s
    case Execute => "execute"
    case SideEffect => "side-effect"
    case All => "all"
    case Named(names) => Join(names)
  }

  type NodeKey = (Path, string)

  function KeyOf(n: Node): NodeKey {
    (n.file, Label(n.selection))
  }

  /** Labels identify selections whose names hold no comma and are not the name of a kind. */
  predicate Clean(s: Selection) {
    s.Named? ==>
      && s.names != []
      && (forall i :: 0 <= i < |s.names| ==> ',' !in s.names[i])
      && (|s.names| == 1 ==> s.names[0] !in {"execute", "side-effect", "all"})
  }

  lemma {:induction false} JoinHasComma(names: seq<string>)
    requires |names| >= 2
    ensures ',' in Join(names)
  {
    assert Join(names)[|names[0]|] == ',';
  }

  lemma CommaSplits(a: string, a': string, b: string, b': string)
    requires ',' !in a && ',' !in b
    requires a + "," + a' == b + "," + b'
    ensures a == b && a' == b'
  {
    var s := a + "," + a';
    assert s[|a|] == ',' && s[|b|] == ',';
    assert forall i :: 0 <= i < |a| ==> s[i] == a[i];
    assert forall i :: 0 <= i < |b| ==> s[i] == b[i];
    assert a == s[..|a|] && b == s[..|b|];
    assert a' == s[|a| + 1..] && b' == s[|b| + 1..];
  }

  lemma {:induction false} JoinInjective(a: seq<string>, b: seq<string>)
    requires a != [] && b != []
    requires forall i :: 0 <= i < |a| ==> ',' !in a[i]
    requires forall i :: 0 <= i < |b| ==> ',' !in b[i]
    requires Join(a) == Join(b)
    ensures a == b
  {
    if |a| >= 2 && |b| >= 2 {
      CommaSplits(a[0], Join(a[1..]), b[0], Join(b[1..]));
      JoinInjective(a[1..], b[1..]);
      assert a == [a[0]] + a[1..] && b == [b[0]] + b[1..];
    } else if |a| >= 2 {
      JoinHasComma(a);
    } else if |b| >= 2 {
      JoinHasComma(b);
    }
  }

  lemma LabelIsInjective(s: Selection, s': Selection)
    requires Clean(s) && Clean(s') && Label(s) == Label(s')
    ensures s == s'
  {
    if s.Named? && s'.Named? {
      JoinInjective(s.names, s'.names);
    } else if s.Named? {
      KindIsNoJoin(s, s');
    } else if s'.Named? {
      KindIsNoJoin(s', s);
    }
  }

  lemma KindIsNoJoin(named: Selection, kind: Selection)
    requires Clean(named) && named.Named? && !kind.Named?
    ensures Label(named) != Label(kind)
  {
    if |named.names| >= 2 {
      JoinHasComma(named.names);
    }
  }

  const KINDS: set<string> := {"execute", "side-effect", "all"}

  /** The selections whose names come from `names`. */
  ghost function Over(names: set<string>): iset<Selection> {
    iset s: Selection | s.Named? ==> s.names != [] && forall n :: n in s.names ==> n in names
  }

  /** Two lists of these names with the same joined text are the same list. */
  ghost predicate JoinsIdentify(names: set<string>) {
    forall a, b :: ListOf(a, names) && ListOf(b, names) && Join(a) == Join(b) ==> a == b
  }

  /** Two lists of these names with the same joined text hold the same names. */
  ghost predicate JoinsTell(names: set<string>) {
    forall a, b :: ListOf(a, names) && ListOf(b, names) && Join(a) == Join(b) ==> Elements(a) == Elements(b)
  }

  ghost predicate ListOf(list: seq<string>, names: set<string>) {
    list != [] && Elements(list) <= names
  }

  ghost predicate MemoIdentifies(selections: iset<Selection>) {
    forall s, t :: s in selections && t in selections && Label(s) == Label(t) ==> s == t
  }

  /** Two selections that ask for the same exports of every module. */
  predicate SameWants(s: Selection, t: Selection) {
    s.All? == t.All? && Names(s) == Names(t)
  }

  function Names(s: Selection): set<string> {
    if s.Named? then Elements(s.names) else {}
  }

  /** Selections with one memo label ask for the same. */
  ghost predicate TellsApart(selections: iset<Selection>) {
    forall s, t :: s in selections && t in selections && Label(s) == Label(t) ==> SameWants(s, t)
  }

  /** A selection kind and a list of names have one label exactly when the kind's name is the whole list. */
  lemma KindCollidesIff(kind: Selection, list: seq<string>)
    requires !kind.Named?
    ensures Label(kind) in KINDS
    ensures Join(list) == Label(kind) <==> list == [Label(kind)]
  {
    if |list| >= 2 {
      JoinHasComma(list);
    }
  }

  /** Every name of a kind is the label of that kind. */
  lemma KindOfName(name: string) returns (kind: Selection)
    requires name in KINDS
    ensures !kind.Named? && Label(kind) == name
  {
    kind := if name == "execute" then Execute else if name == "all" then All else SideEffect;
  }

  /**
    The memo tells all selections over `names` apart exactly when no name is that of a kind and the
    commas between the names mark where they end. Names may hold commas themselves, as quoted export
    names do.
    */
  lemma MemoIdentifiesIff(names: set<string>)
    ensures MemoIdentifies(Over(names)) <==> names !! KINDS && JoinsIdentify(names)
    ensures (forall n :: n in names ==> ',' !in n) ==> (MemoIdentifies(Over(names)) <==> names !! KINDS)
  {
    if names !! KINDS && JoinsIdentify(names) {
      forall s, t | s in Over(names) && t in Over(names) && Label(s) == Label(t) ensures s == t {
        LabelsMeet(names, s, t);
      }
    }
    if name :| name in names && name in KINDS {
      var kind := KindOfName(name);
      NameOver(names, name);
      assert kind in Over(names) && Label(Named([name])) == Label(kind);
    }
    forall a, b | MemoIdentifies(Over(names)) && ListOf(a, names) && ListOf(b, names) && Join(a) == Join(b)
      ensures a == b
    {
      assert Named(a) in Over(names) && Named(b) in Over(names) && Label(Named(a)) == Label(Named(b));
    }
    CommaFreeJoins(names);
  }

  /**
    The same for what selections ask for: lists that differ but hold the same names do no harm.
    */
  lemma TellsApartIff(names: set<string>)
    ensures TellsApart(Over(names)) <==> names !! KINDS && JoinsTell(names)
    ensures (forall n :: n in names ==> ',' !in n) ==> (TellsApart(Over(names)) <==> names !! KINDS)
  {
    if names !! KINDS && JoinsTell(names) {
      forall s, t | s in Over(names) && t in Over(names) && Label(s) == Label(t) ensures SameWants(s, t) {
        LabelsMeet(names, s, t);
      }
    }
    if name :| name in names && name in KINDS {
      var kind := KindOfName(name);
      NameOver(names, name);
      assert name in Names(Named([name])) && name !in Names(kind);
      assert kind in Over(names) && Label(Named([name])) == Label(kind);
    }
    forall a, b | TellsApart(Over(names)) && ListOf(a, names) && ListOf(b, names) && Join(a) == Join(b)
      ensures Elements(a) == Elements(b)
    {
      assert Named(a) in Over(names) && Named(b) in Over(names) && Label(Named(a)) == Label(Named(b));
      assert SameWants(Named(a), Named(b));
    }
    CommaFreeJoins(names);
  }

  lemma NameOver(names: set<string>, name: string)
    requires name in names
    ensures Named([name]) in Over(names)
  {
  }

  /** One label over names that are no kinds: one kind, or two lists with one join. */
  lemma LabelsMeet(names: set<string>, s: Selection, t: Selection)
    requires names !! KINDS && s in Over(names) && t in Over(names) && Label(s) == Label(t)
    ensures s == t
      || (s.Named? && t.Named? && ListOf(s.names, names) && ListOf(t.names, names) && Join(s.names) == Join(t.names))
  {
    if s.Named? && !t.Named? {
      NamedIsNoKind(names, s, t);
    } else if !s.Named? && t.Named? {
      NamedIsNoKind(names, t, s);
    }
  }

  lemma NamedIsNoKind(names: set<string>, named: Selection, kind: Selection)
    requires names !! KINDS && named in Over(names) && named.Named? && !kind.Named?
    ensures Label(named) != Label(kind)
  {
    KindCollidesIff(kind, named.names);
    assert named.names[0] in named.names;
  }

  lemma CommaFreeJoins(names: set<string>)
    ensures (forall n :: n in names ==> ',' !in n) ==> JoinsIdentify(names)
    ensures JoinsIdentify(names) ==> JoinsTell(names)
  {
    if forall n :: n in names ==> ',' !in n {
      forall a, b | ListOf(a, names) && ListOf(b, names) && Join(a) == Join(b) ensures a == b {
        forall i | 0 <= i < |a| ensures ',' !in a[i] { assert a[i] in Elements(a); }
        forall i | 0 <= i < |b| ensures ',' !in b[i] { assert b[i] in Elements(b); }
        JoinInjective(a, b);
      }
    }
  }

  /** A quoted name that holds the comma of a list is taken for that list. */
  lemma QuotedCommaCollides(a: string, b: string, names: set<string>)
    requires a in names && b in names && a + "," + b in names
    ensures !JoinsTell(names) && !TellsApart(Over(names))
  {
    var both, list := a + "," + b, [a, b];
    assert list[1..] == [b];
    assert ListOf(list, names) && ListOf([both], names) && Join(list) == Join([both]) == both;
    assert both in Elements([both]) && |both| > |a| && |both| > |b|;
    TellsApartIff(names);
  }

  // ---------------------------------------------------------------------------------------
  // Star re-exports
  // ---------------------------------------------------------------------------------------

  /** Some `export *` of `f` resolves to `g`. */
  ghost predicate StarEdge(w: World, f: Path, g: Path) {
    f in w.modules && exists i :: 0 <= i < |w.modules[f].statements| && StarTo(w, f, w.modules[f].statements[i], g)
  }

  predicate StarTo(w: World, f: Path, s: Statement, g: Path) {
    s.Star? && Resolve(w, s.specifier, f) == Some(g)
  }

  /** A walk along star re-exports that stays out of `avoid`. */
  ghost predicate StarWalk(w: World, walk: seq<Path>, avoid: set<Path>) {
    && walk != []
    && (forall i :: 0 <= i < |walk| ==> walk[i] !in avoid)
    && (forall i :: 0 <= i < |walk| - 1 ==> StarEdge(w, walk[i], walk[i + 1]))
  }

  ghost predicate WalkFromTo(w: World, walk: seq<Path>, avoid: set<Path>, f: Path, g: Path) {
    StarWalk(w, walk, avoid) && walk[0] == f && walk[|walk| - 1] == g
  }

  /** `g` can be reached from `f` along star re-exports outside `avoid`. */
  ghost predicate StarReach(w: World, f: Path, g: Path, avoid: set<Path>) {
    exists walk :: WalkFromTo(w, walk, avoid, f, g)
  }

  /** From the last visit of `f` on, the walk never returns to `f`. */
  lemma {:induction false} LeaveForGood(w: World, walk: seq<Path>, avoid: set<Path>, f: Path, g: Path)
    returns (rest: seq<Path>)
    requires WalkFromTo(w, walk, avoid, f, g)
    ensures WalkFromTo(w, rest, avoid, f, g)
    ensures forall i :: 1 <= i < |rest| ==> rest[i] != f
    decreases |walk|
  {
    if i :| 1 <= i < |walk| && walk[i] == f {
      rest := LeaveForGood(w, walk[i..], avoid, f, g);
    } else {
      rest := walk;
    }
  }

  /**
    The chain cut-off loses nothing: whatever can be reached from `f` can be reached without
    coming back to `f`, so it is `f` itself or reached from a star target avoiding `f` as well.
    */
  lemma StarReachUnfold(w: World, f: Path, g: Path, avoid: set<Path>)
    requires f !in avoid
    ensures StarReach(w, f, g, avoid)
      <==> g == f || exists h :: StarEdge(w, f, h) && StarReach(w, h, g, avoid + {f})
  {
    if StarReach(w, f, g, avoid) && g != f {
      var walk :| WalkFromTo(w, walk, avoid, f, g);
      var rest := LeaveForGood(w, walk, avoid, f, g);
      var h := rest[1];
      assert StarEdge(w, rest[0], rest[0 + 1]);
      var tail := rest[1..];
      forall i | 0 <= i < |tail| - 1 ensures StarEdge(w, tail[i], tail[i + 1]) {
        assert StarEdge(w, rest[i + 1], rest[i + 1 + 1]);
      }
      assert WalkFromTo(w, tail, avoid + {f}, h, g);
    }
    if g == f {
      assert WalkFromTo(w, [f], avoid, f, f);
    } else if h :| StarEdge(w, f, h) && StarReach(w, h, g, avoid + {f}) {
      var tail :| WalkFromTo(w, tail, avoid + {f}, h, g);
      var walk := [f] + tail;
      assert forall i :: 0 <= i < |walk| - 1 ==> StarEdge(w, walk[i], walk[i + 1]);
      assert WalkFromTo(w, walk, avoid, f, g);
    }
  }

  // ---------------------------------------------------------------------------------------
  // Exports of one module
  // ---------------------------------------------------------------------------------------

  predicate DeclaresOwn(s: Statement, name: string) {
    match s
    case Declaration(names) => name in names
    case DefaultExport(_) => name == "default"
    case _ => false
  }

  /** `t` is a target of statement `s` of `f` for export `name`; star re-exports aside. */
  ghost predicate StatementTarget(w: World, f: Path, s: Statement, name: string, t: Node) {
    match s
    case Declaration(names) => name in names && t == Node(f, Execute)
    case Star(_) => false
    case Namespace(specifier, n) => n == name && Resolve(w, specifier, f) == Some(t.file) && t.selection == All
    case NamedFrom(specifier, elements) =>
      Resolve(w, specifier, f) == Some(t.file)
      && exists e :: e in elements && e.exported == name && t.selection == Named([e.source])
    case LocalList(locals) => exists e :: e in locals && e.exported == name && BindingTarget(w, f, e.binding, t)
    case DefaultExport(identifier) =>
      name == "default" && (t == Node(f, Execute)
        || (identifier.Some? && BindingTarget(w, f, Imported(identifier.value), t)))
  }

  predicate BindingTarget(w: World, f: Path, b: Binding, t: Node) {
    match b
    case Imported(origin) => Resolve(w, origin.specifier, f) == Some(t.file) && t.selection == origin.selection
    case Declared => t == Node(f, Execute)
    case Unbound => false
  }

  ghost predicate LocalTarget(w: World, f: Path, name: string, t: Node) {
    f in w.modules
    && exists s :: s in w.modules[f].statements && StatementTarget(w, f, s, name, t)
  }

  predicate Unresolved(w: World, specifier: string, f: Path) {
    Resolve(w, specifier, f).None? && f in w.ui
  }

  /** Resolving `name` through statement `s` of `f` fails; a default export fails nothing. */
  ghost predicate StatementFault(w: World, f: Path, s: Statement, name: string) {
    match s
    case Star(specifier) => name != "default" && Unresolved(w, specifier, f)
    case NamedFrom(specifier, elements) =>
      Unresolved(w, specifier, f) && exists e :: e in elements && e.exported == name
    case LocalList(locals) =>
      exists e :: e in locals && e.exported == name && e.binding.Imported?
        && Unresolved(w, e.binding.origin.specifier, f)
    case _ => false
  }

  ghost predicate TargetFault(w: World, f: Path, name: string) {
    f !in w.modules || exists s :: s in w.modules[f].statements && StatementFault(w, f, s, name)
  }

  /** The default export is not passed on by star re-exports. */
  ghost predicate Provides(w: World, f: Path, g: Path, name: string, avoid: set<Path>) {
    StarReach(w, f, g, avoid) && (g == f || name != "default")
  }

  /** All run-time targets of one export, through any chain of star re-exports. */
  ghost predicate ExportTarget(w: World, f: Path, name: string, avoid: set<Path>, t: Node) {
    exists g :: Provides(w, f, g, name, avoid) && LocalTarget(w, g, name, t)
  }

  ghost predicate ExportFault(w: World, f: Path, name: string, avoid: set<Path>) {
    exists g :: Provides(w, f, g, name, avoid) && TargetFault(w, g, name)
  }

  /** `f` itself makes `name` available, as `runtimeExportNames` counts it. */
  ghost predicate StatementName(w: World, f: Path, s: Statement, name: string) {
    match s
    case Declaration(names) => name in names
    case Star(_) => false
    case Namespace(specifier, n) => n == name && Resolve(w, specifier, f).Some?
    case NamedFrom(specifier, elements) =>
      Resolve(w, specifier, f).Some? && exists e :: e in elements && e.exported == name
    case LocalList(locals) => exists e :: e in locals && e.exported == name
    case DefaultExport(_) => name == "default"
  }

  ghost predicate LocalName(w: World, f: Path, name: string) {
    f in w.modules && exists s :: s in w.modules[f].statements && StatementName(w, f, s, name)
  }

  ghost predicate ExportName(w: World, f: Path, avoid: set<Path>, name: string) {
    exists g :: Provides(w, f, g, name, avoid) && LocalName(w, g, name)
  }

  predicate NamesStatementFault(w: World, f: Path, s: Statement) {
    match s
    case Star(specifier) => Unresolved(w, specifier, f)
    case Namespace(specifier, _) => Unresolved(w, specifier, f)
    case NamedFrom(specifier, _) => Unresolved(w, specifier, f)
    case _ => false
  }

  ghost predicate NamesFaultAt(w: World, f: Path) {
    f !in w.modules || exists s :: s in w.modules[f].statements && NamesStatementFault(w, f, s)
  }

  ghost predicate NamesFault(w: World, f: Path, avoid: set<Path>) {
    exists g :: StarReach(w, f, g, avoid) && NamesFaultAt(w, g)
  }

  // ---------------------------------------------------------------------------------------
  // The graph of (file, selection) nodes
  // ---------------------------------------------------------------------------------------

  /** The exports a visit of `n` follows. */
  ghost predicate Wants(w: World, n: Node, name: string) {
    match n.selection
    case Named(names) => name in names
    case All => ExportName(w, n.file, {}, name)
    case _ => false
  }

  ghost predicate ImportEdge(w: World, n: Node, m: Node) {
    n.file in w.modules
    && exists i :: i in w.modules[n.file].imports
        && Resolve(w, i.specifier, n.file) == Some(m.file) && m.selection == i.selection
  }

  ghost predicate ExportEdge(w: World, n: Node, m: Node) {
    exists name :: Wants(w, n, name) && ExportTarget(w, n.file, name, {}, m)
  }

  /** A run-time dependency between visited nodes. */
  ghost predicate Edge(w: World, n: Node, m: Node) {
    Traversed(w, m.file) && (ImportEdge(w, n, m) || ExportEdge(w, n, m))
  }

  predicate ImportFault(w: World, f: Path, i: Import) {
    match Resolve(w, i.specifier, f)
    case None => IsPublished(i.specifier) || f in w.ui
    case Some(g) => g in w.code && IsPublished(i.specifier) && g !in w.ui
  }

  /** An export that is wanted but cannot be traced to any run-time target. */
  ghost predicate Untraceable(w: World, f: Path, name: string) {
    ExportFault(w, f, name, {}) || forall t :: !ExportTarget(w, f, name, {}, t)
  }

  /** Visiting `n` fails. */
  ghost predicate NodeFault(w: World, n: Node) {
    || n.file !in w.modules
    || w.modules[n.file].opaqueImport
    || (exists i :: i in w.modules[n.file].imports && ImportFault(w, n.file, i))
    || (n.selection.All? && NamesFault(w, n.file, {}))
    || (exists name :: Wants(w, n, name) && Untraceable(w, n.file, name))
  }

  ghost predicate Closed(w: World, entries: seq<Path>, nodes: set<Node>) {
    && (forall e :: e in entries && Traversed(w, e) ==> Node(e, Execute) in nodes)
    && (forall n, m :: n in nodes && Edge(w, n, m) ==> m in nodes)
  }

  /** The node belongs to every closed set, that is, to the least one. */
  ghost predicate InLeast(w: World, entries: seq<Path>, n: Node) {
    forall nodes :: Closed(w, entries, nodes) ==> n in nodes
  }
}
