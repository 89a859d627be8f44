/**
  Tracing exports through re-exports (`resolveExportTargets`, `runtimeExportNames`,
  `deduplicateTargets`, apps/web/tooling/ui-tailwind-sources.ts).
  */
module ExportResolution {
  import opened Wrappers
  import opened ModuleGraph

  datatype DiscoveryError =
    | Unreadable
    | OpaqueImport
    | UnresolvedImport
    | OutsidePublishedSource
    | UnresolvedReexport
    | UntraceableExport

  // ---------------------------------------------------------------------------------------
  // One level of the recursion
  // ---------------------------------------------------------------------------------------

  /** What statement `s` adds to the targets of `name`, with star re-exports traced further. */
  ghost predicate Contributes(w: World, f: Path, s: Statement, name: string, chain: set<Path>, t: Node) {
    || StatementTarget(w, f, s, name, t)
    || (s.Star? && name != "default" && Resolve(w, s.specifier, f).Some?
        && ExportTarget(w, Resolve(w, s.specifier, f).value, name, chain + {f}, t))
  }

  ghost predicate Breaks(w: World, f: Path, s: Statement, name: string, chain: set<Path>) {
    || StatementFault(w, f, s, name)
    || (s.Star? && name != "default" && Resolve(w, s.specifier, f).Some?
        && ExportFault(w, Resolve(w, s.specifier, f).value, name, chain + {f}))
  }

  ghost predicate AddsName(w: World, f: Path, s: Statement, chain: set<Path>, name: string) {
    || StatementName(w, f, s, name)
    || (s.Star? && name != "default" && Resolve(w, s.specifier, f).Some?
        && ExportName(w, Resolve(w, s.specifier, f).value, chain + {f}, name))
  }

  ghost predicate BreaksNames(w: World, f: Path, s: Statement, chain: set<Path>) {
    || NamesStatementFault(w, f, s)
    || (s.Star? && Resolve(w, s.specifier, f).Some?
        && NamesFault(w, Resolve(w, s.specifier, f).value, chain + {f}))
  }

  /** The star statement behind an edge. */
  lemma EdgeStatement(w: World, f: Path, h: Path) returns (s: Statement)
    requires StarEdge(w, f, h)
    ensures s in w.modules[f].statements && s.Star? && Resolve(w, s.specifier, f) == Some(h)
  {
    var i :| 0 <= i < |w.modules[f].statements| && StarTo(w, f, w.modules[f].statements[i], h);
    s := w.modules[f].statements[i];
  }

  lemma StatementEdge(w: World, f: Path, s: Statement, h: Path)
    requires f in w.modules && s in w.modules[f].statements && s.Star? && Resolve(w, s.specifier, f) == Some(h)
    ensures StarEdge(w, f, h)
  {
    var i :| 0 <= i < |w.modules[f].statements| && w.modules[f].statements[i] == s;
    assert StarTo(w, f, w.modules[f].statements[i], h);
  }

  /** `g` provides `name` to `f`: it is `f`, or it provides it to a star target of `f` off the chain. */
  lemma ProvidesUnfold(w: World, f: Path, g: Path, name: string, chain: set<Path>)
    requires f !in chain && f in w.modules
    ensures Provides(w, f, g, name, chain)
      <==> g == f || (name != "default" && exists h :: StarEdge(w, f, h) && Provides(w, h, g, name, chain + {f}))
  {
    StarReachUnfold(w, f, g, chain);
    if name != "default" {
      if h :| StarEdge(w, f, h) && StarReach(w, h, g, chain + {f}) {
        assert Provides(w, h, g, name, chain + {f});
      }
      if h :| StarEdge(w, f, h) && Provides(w, h, g, name, chain + {f}) {
        assert StarReach(w, h, g, chain + {f});
      }
    }
  }

  lemma ExportTargetUnfold(w: World, f: Path, name: string, chain: set<Path>, t: Node)
    requires f !in chain && f in w.modules
    ensures ExportTarget(w, f, name, chain, t)
      <==> exists s :: s in w.modules[f].statements && Contributes(w, f, s, name, chain, t)
  {
    if ExportTarget(w, f, name, chain, t) {
      var g :| Provides(w, f, g, name, chain) && LocalTarget(w, g, name, t);
      ProvidesUnfold(w, f, g, name, chain);
      if g == f {
        var s :| s in w.modules[f].statements && StatementTarget(w, f, s, name, t);
        assert Contributes(w, f, s, name, chain, t);
      } else {
        var h :| StarEdge(w, f, h) && Provides(w, h, g, name, chain + {f});
        var s := EdgeStatement(w, f, h);
        assert Contributes(w, f, s, name, chain, t);
      }
    }
    if s :| s in w.modules[f].statements && Contributes(w, f, s, name, chain, t) {
      if StatementTarget(w, f, s, name, t) {
        ProvidesUnfold(w, f, f, name, chain);
        assert LocalTarget(w, f, name, t);
      } else {
        var h := Resolve(w, s.specifier, f).value;
        StatementEdge(w, f, s, h);
        var g :| Provides(w, h, g, name, chain + {f}) && LocalTarget(w, g, name, t);
        ProvidesUnfold(w, f, g, name, chain);
      }
    }
  }

  lemma ExportFaultUnfold(w: World, f: Path, name: string, chain: set<Path>)
    requires f !in chain && f in w.modules
    ensures ExportFault(w, f, name, chain)
      <==> exists s :: s in w.modules[f].statements && Breaks(w, f, s, name, chain)
  {
    if ExportFault(w, f, name, chain) {
      var g :| Provides(w, f, g, name, chain) && TargetFault(w, g, name);
      ProvidesUnfold(w, f, g, name, chain);
      if g == f {
        var s :| s in w.modules[f].statements && StatementFault(w, f, s, name);
        assert Breaks(w, f, s, name, chain);
      } else {
        var h :| StarEdge(w, f, h) && Provides(w, h, g, name, chain + {f});
        var s := EdgeStatement(w, f, h);
        assert Breaks(w, f, s, name, chain);
      }
    }
    if s :| s in w.modules[f].statements && Breaks(w, f, s, name, chain) {
      if StatementFault(w, f, s, name) {
        ProvidesUnfold(w, f, f, name, chain);
        assert TargetFault(w, f, name);
      } else {
        var h := Resolve(w, s.specifier, f).value;
        StatementEdge(w, f, s, h);
        var g :| Provides(w, h, g, name, chain + {f}) && TargetFault(w, g, name);
        ProvidesUnfold(w, f, g, name, chain);
      }
    }
  }

  lemma ExportNameUnfold(w: World, f: Path, chain: set<Path>, name: string)
    requires f !in chain && f in w.modules
    ensures ExportName(w, f, chain, name)
      <==> exists s :: s in w.modules[f].statements && AddsName(w, f, s, chain, name)
  {
    if ExportName(w, f, chain, name) {
      var g :| Provides(w, f, g, name, chain) && LocalName(w, g, name);
      ProvidesUnfold(w, f, g, name, chain);
      if g == f {
        var s :| s in w.modules[f].statements && StatementName(w, f, s, name);
        assert AddsName(w, f, s, chain, name);
      } else {
        var h :| StarEdge(w, f, h) && Provides(w, h, g, name, chain + {f});
        var s := EdgeStatement(w, f, h);
        assert AddsName(w, f, s, chain, name);
      }
    }
    if s :| s in w.modules[f].statements && AddsName(w, f, s, chain, name) {
      if StatementName(w, f, s, name) {
        ProvidesUnfold(w, f, f, name, chain);
        assert LocalName(w, f, name);
      } else {
        var h := Resolve(w, s.specifier, f).value;
        StatementEdge(w, f, s, h);
        var g :| Provides(w, h, g, name, chain + {f}) && LocalName(w, g, name);
        ProvidesUnfold(w, f, g, name, chain);
      }
    }
  }

  lemma NamesFaultUnfold(w: World, f: Path, chain: set<Path>)
    requires f !in chain && f in w.modules
    ensures NamesFault(w, f, chain)
      <==> exists s :: s in w.modules[f].statements && BreaksNames(w, f, s, chain)
  {
    if NamesFault(w, f, chain) {
      var g :| StarReach(w, f, g, chain) && NamesFaultAt(w, g);
      StarReachUnfold(w, f, g, chain);
      if g == f {
        var s :| s in w.modules[f].statements && NamesStatementFault(w, f, s);
        assert BreaksNames(w, f, s, chain);
      } else {
        var h :| StarEdge(w, f, h) && StarReach(w, h, g, chain + {f});
        var s := EdgeStatement(w, f, h);
        assert BreaksNames(w, f, s, chain);
      }
    }
    if s :| s in w.modules[f].statements && BreaksNames(w, f, s, chain) {
      if NamesStatementFault(w, f, s) {
        StarReachUnfold(w, f, f, chain);
        assert NamesFaultAt(w, f);
      } else {
        var h := Resolve(w, s.specifier, f).value;
        StatementEdge(w, f, s, h);
        var g :| StarReach(w, h, g, chain + {f}) && NamesFaultAt(w, g);
        StarReachUnfold(w, f, g, chain);
      }
    }
  }

  /** On the chain itself nothing can be reached any more. */
  lemma NothingOnChain(w: World, f: Path, chain: set<Path>)
    requires f in chain
    ensures forall g :: !StarReach(w, f, g, chain)
  {
    forall walk, g ensures !WalkFromTo(w, walk, chain, f, g) {
    }
  }

  lemma FaultWhenUnreadable(w: World, f: Path, name: string, chain: set<Path>)
    requires f !in chain && f !in w.modules
    ensures ExportFault(w, f, name, chain) && NamesFault(w, f, chain)
  {
    StarReachUnfold(w, f, f, chain);
    assert Provides(w, f, f, name, chain) && TargetFault(w, f, name) && NamesFaultAt(w, f);
  }

  // ---------------------------------------------------------------------------------------
  // Targets up to memo keys
  // ---------------------------------------------------------------------------------------

  /** Some listed target has the memo key of `t`. */
  ghost predicate Covered(targets: seq<Node>, t: Node) {
    exists u :: u in targets && KeyOf(u) == KeyOf(t)
  }

  lemma CoveredMore(a: seq<Node>, b: seq<Node>)
    ensures forall t :: Covered(a, t) || Covered(b, t) ==> Covered(a + b, t)
  {
    forall t | Covered(a, t) || Covered(b, t) ensures Covered(a + b, t) {
      var u :| (u in a || u in b) && KeyOf(u) == KeyOf(t);
      assert u in a + b;
    }
  }

  /** Some target has the key of `a` before any has that of `b`. */
  ghost predicate KeyedBefore(targets: seq<Node>, a: Node, b: Node) {
    exists p :: 0 <= p < |targets| && KeyOf(targets[p]) == KeyOf(a)
      && forall q :: 0 <= q <= p ==> KeyOf(targets[q]) != KeyOf(b)
  }

  /** The last target of its key. */
  ghost predicate IsLast(targets: seq<Node>, t: Node) {
    exists k :: 0 <= k < |targets| && targets[k] == t && forall j :: k < j < |targets| ==> KeyOf(targets[j]) != KeyOf(t)
  }

  /** For every key the last target given, in the order in which the keys first occur. */
  ghost predicate Deduplicated(targets: seq<Node>, unique: seq<Node>) {
    && (forall k :: 0 <= k < |targets| ==> Covered(unique, targets[k]))
    && (forall i :: 0 <= i < |unique| ==> IsLast(targets, unique[i]))
    && (forall i, j :: 0 <= i < j < |unique| ==> KeyOf(unique[i]) != KeyOf(unique[j]) && KeyedBefore(targets, unique[i], unique[j]))
  }

  lemma KeyedFurther(targets: seq<Node>, target: Node, a: Node, b: Node)
    requires KeyedBefore(targets, a, b)
    ensures KeyedBefore(targets + [target], a, b)
  {
    var all := targets + [target];
    var p :| 0 <= p < |targets| && KeyOf(targets[p]) == KeyOf(a)
      && forall q :: 0 <= q <= p ==> KeyOf(targets[q]) != KeyOf(b);
    assert forall q :: 0 <= q <= p ==> all[q] == targets[q];
  }

  lemma LastFurther(targets: seq<Node>, target: Node, t: Node)
    requires IsLast(targets, t) && KeyOf(target) != KeyOf(t)
    ensures IsLast(targets + [target], t)
  {
    var all := targets + [target];
    var k :| 0 <= k < |targets| && targets[k] == t && forall j :: k < j < |targets| ==> KeyOf(targets[j]) != KeyOf(t);
    assert all[k] == t && forall j :: k < j < |all| ==> all[j] == if j < |targets| then targets[j] else target;
  }

  lemma LastIsLast(targets: seq<Node>, target: Node)
    ensures IsLast(targets + [target], target)
  {
    assert (targets + [target])[|targets|] == target;
  }

  lemma CoveredAt(targets: seq<Node>, i: nat, t: Node)
    requires i < |targets| && KeyOf(targets[i]) == KeyOf(t)
    ensures Covered(targets, t)
  {
    assert targets[i] in targets;
  }

  lemma PlaceOfKey(unique: seq<Node>, t: Node) returns (i: nat)
    requires Covered(unique, t)
    ensures i < |unique| && KeyOf(unique[i]) == KeyOf(t)
  {
    var u :| u in unique && KeyOf(u) == KeyOf(t);
    i :| 0 <= i < |unique| && unique[i] == u;
  }

  lemma ReplaceCovers(targets: seq<Node>, unique: seq<Node>, target: Node, i: nat)
    requires Deduplicated(targets, unique) && i < |unique| && KeyOf(unique[i]) == KeyOf(target)
    ensures forall k :: 0 <= k <= |targets| ==> Covered(unique[i := target], (targets + [target])[k])
  {
    var all, after := targets + [target], unique[i := target];
    forall k | 0 <= k < |all| ensures Covered(after, all[k]) {
      var j := i;
      if k < |targets| {
        j := PlaceOfKey(unique, targets[k]);
      }
      CoveredAt(after, j, all[k]);
    }
  }

  lemma ReplaceIsLast(targets: seq<Node>, unique: seq<Node>, target: Node, i: nat, j: nat)
    requires Deduplicated(targets, unique) && i < |unique| && KeyOf(unique[i]) == KeyOf(target) && j < |unique|
    ensures IsLast(targets + [target], unique[i := target][j])
  {
    if j == i {
      LastIsLast(targets, target);
    } else {
      LastFurther(targets, target, unique[j]);
    }
  }

  /** A target whose key is there takes the place of the one that is. */
  lemma ReplaceTarget(targets: seq<Node>, unique: seq<Node>, target: Node, i: nat)
    requires Deduplicated(targets, unique) && i < |unique| && KeyOf(unique[i]) == KeyOf(target)
    ensures Deduplicated(targets + [target], unique[i := target])
  {
    var all, after := targets + [target], unique[i := target];
    ReplaceCovers(targets, unique, target, i);
    forall j | 0 <= j < |after| ensures IsLast(all, after[j]) {
      ReplaceIsLast(targets, unique, target, i, j);
    }
    forall a, b | 0 <= a < b < |after| ensures KeyOf(after[a]) != KeyOf(after[b]) && KeyedBefore(all, after[a], after[b]) {
      ReplaceKeepsOrder(targets, unique, target, i, a, b);
    }
  }

  lemma ReplaceKeepsOrder(targets: seq<Node>, unique: seq<Node>, target: Node, i: nat, a: nat, b: nat)
    requires Deduplicated(targets, unique) && i < |unique| && KeyOf(unique[i]) == KeyOf(target) && a < b < |unique|
    ensures var after := unique[i := target];
      KeyOf(after[a]) != KeyOf(after[b]) && KeyedBefore(targets + [target], after[a], after[b])
  {
    KeyedFurther(targets, target, unique[a], unique[b]);
    SameKeysKeyed(targets + [target], unique[a], unique[b], unique[i := target][a], unique[i := target][b]);
  }

  lemma SameKeysKeyed(targets: seq<Node>, a: Node, b: Node, a': Node, b': Node)
    requires KeyedBefore(targets, a, b) && KeyOf(a) == KeyOf(a') && KeyOf(b) == KeyOf(b')
    ensures KeyedBefore(targets, a', b')
  {
  }

  /** A target with a new key comes last. */
  lemma AppendTarget(targets: seq<Node>, unique: seq<Node>, target: Node)
    requires Deduplicated(targets, unique) && forall i :: 0 <= i < |unique| ==> KeyOf(unique[i]) != KeyOf(target)
    ensures Deduplicated(targets + [target], unique + [target])
  {
    var all, after := targets + [target], unique + [target];
    forall k | 0 <= k < |all| ensures Covered(after, all[k]) {
      var j: nat := |unique|;
      if k < |targets| {
        j := PlaceOfKey(unique, targets[k]);
      }
      CoveredAt(after, j, all[k]);
    }
    forall j | 0 <= j < |after| ensures IsLast(all, after[j]) {
      if j == |unique| {
        LastIsLast(targets, target);
      } else {
        LastFurther(targets, target, unique[j]);
      }
    }
    forall a, b | 0 <= a < b < |after| ensures KeyOf(after[a]) != KeyOf(after[b]) && KeyedBefore(all, after[a], after[b]) {
      if b < |unique| {
        KeyedFurther(targets, target, unique[a], unique[b]);
      } else {
        NewKeyIsLater(targets, unique, target, a);
        KeyedFurther(targets, target, unique[a], target);
      }
    }
  }

  lemma NewKeyIsLater(targets: seq<Node>, unique: seq<Node>, target: Node, a: nat)
    requires Deduplicated(targets, unique) && a < |unique|
    requires forall i :: 0 <= i < |unique| ==> KeyOf(unique[i]) != KeyOf(target)
    ensures KeyedBefore(targets, unique[a], target)
  {
    assert IsLast(targets, unique[a]);
    var p :| 0 <= p < |targets| && targets[p] == unique[a];
    forall q | 0 <= q <= p ensures KeyOf(targets[q]) != KeyOf(target) {
      var i := PlaceOfKey(unique, targets[q]);
    }
  }

  /** `deduplicateTargets`: one target per key, the last one given, in order of first occurrence. */
  method DeduplicateTargets(targets: seq<Node>) returns (unique: seq<Node>)
    ensures Deduplicated(targets, unique)
    ensures forall t :: t in unique ==> t in targets
    ensures forall t :: t in targets ==> Covered(unique, t)
  {
    unique := [];
    for n := 0 to |targets|
      invariant Deduplicated(targets[..n], unique)
    {
      assert targets[..n + 1] == targets[..n] + [targets[n]];
      if i :| 0 <= i < |unique| && KeyOf(unique[i]) == KeyOf(targets[n]) {
        ReplaceTarget(targets[..n], unique, targets[n], i);
        unique := unique[i := targets[n]];
      } else {
        AppendTarget(targets[..n], unique, targets[n]);
        unique := unique + [targets[n]];
      }
    }
    assert targets[..|targets|] == targets;
    forall t | t in unique ensures t in targets {
      var i :| 0 <= i < |unique| && unique[i] == t;
      assert IsLast(targets, unique[i]);
    }
  }

  // ---------------------------------------------------------------------------------------
  // resolveExportTargets
  // ---------------------------------------------------------------------------------------

  /** The pass over the statements in which a statement is followed; 0 is the modifier check. */
  function PassOf(s: Statement): nat {
    match s
    case Declaration(_) => 0
    case Star(_) => 1
    case Namespace(_, _) => 1
    case NamedFrom(_, _) => 1
    case LocalList(_) => 2
    case DefaultExport(_) => 3
  }

  /** What the passes add beyond the modifier check. */
  ghost predicate Follows(w: World, f: Path, s: Statement, name: string, chain: set<Path>, t: Node) {
    Contributes(w, f, s, name, chain, t) && !(DeclaresOwn(s, name) && t == Node(f, Execute))
  }

  /** The statements of one pass are followed: `targets` covers what they add. */
  ghost predicate PassCovered(w: World, f: Path, statements: seq<Statement>, name: string, chain: set<Path>,
                              pass: nat, targets: seq<Node>) {
    forall s, t :: s in statements && PassOf(s) == pass && Follows(w, f, s, name, chain, t) ==> Covered(targets, t)
  }

  ghost predicate PassUnbroken(w: World, f: Path, statements: seq<Statement>, name: string, chain: set<Path>, pass: nat) {
    forall s :: s in statements && PassOf(s) == pass ==> !Breaks(w, f, s, name, chain)
  }

  ghost predicate SoundTargets(w: World, f: Path, name: string, chain: set<Path>, targets: seq<Node>) {
    forall t :: t in targets ==> ExportTarget(w, f, name, chain, t)
  }

  /** Targets through the elements of one `export { … } from`. */
  method ElementTargets(file: Path, elements: seq<Reexport>, name: string, resolved: Path) returns (targets: seq<Node>)
    ensures forall t :: t in targets <==>
      t.file == resolved && exists e :: e in elements && e.exported == name && t.selection == Named([e.source])
  {
    targets := [];
    for i := 0 to |elements|
      invariant forall t :: t in targets <==>
        t.file == resolved && exists e :: e in elements[..i] && e.exported == name && t.selection == Named([e.source])
    {
      assert elements[..i + 1] == elements[..i] + [elements[i]];
      if elements[i].exported == name {
        targets := targets + [Node(resolved, Named([elements[i].source]))];
      }
    }
    assert elements[..|elements|] == elements;
  }

  ghost predicate LocalElementFault(w: World, file: Path, locals: seq<LocalElement>, name: string) {
    exists e :: e in locals && e.exported == name && e.binding.Imported?
      && Unresolved(w, e.binding.origin.specifier, file)
  }

  /** Targets through the elements of one local `export { … }`. */
  method LocalElementTargets(w: World, file: Path, locals: seq<LocalElement>, name: string)
    returns (r: Result<seq<Node>, DiscoveryError>)
    ensures r.Ok? ==> forall t :: t in r.value <==>
      exists e :: e in locals && e.exported == name && BindingTarget(w, file, e.binding, t)
    ensures r.Err? <==> LocalElementFault(w, file, locals, name)
    ensures r.Err? ==> r.error in {Unreadable, UnresolvedReexport}
  {
    var targets: seq<Node> := [];
    for i := 0 to |locals|
      invariant forall t :: t in targets <==>
        exists e :: e in locals[..i] && e.exported == name && BindingTarget(w, file, e.binding, t)
      invariant !LocalElementFault(w, file, locals[..i], name)
    {
      var e := locals[i];
      assert locals[..i + 1] == locals[..i] + [e];
      ghost var before := targets;
      if e.exported == name {
        match e.binding
        case Imported(origin) =>
          var resolved := Resolve(w, origin.specifier, file);
          if resolved.Some? {
            targets := targets + [Node(resolved.value, origin.selection)];
          } else if file in w.ui {
            assert e in locals;
            return Err(UnresolvedReexport);
          }
        case Declared => targets := targets + [Node(file, Execute)];
        case Unbound =>
      }
      assert forall t :: t in targets <==>
        t in before || (e.exported == name && BindingTarget(w, file, e.binding, t));
    }
    assert locals[..|locals|] == locals;
    return Ok(targets);
  }

  /** Follow one statement; only its own pass does. */
  method StatementTargets(w: World, file: Path, s: Statement, name: string, chain: set<Path>)
    returns (r: Result<seq<Node>, DiscoveryError>)
    requires chain <= w.modules.Keys && file in w.modules && file !in chain
    decreases w.modules.Keys - chain, 1
    ensures r.Ok? ==> forall t :: t in r.value ==> Contributes(w, file, s, name, chain, t)
    ensures r.Ok? ==> forall t :: Follows(w, file, s, name, chain, t) ==> Covered(r.value, t)
    ensures r.Err? <==> Breaks(w, file, s, name, chain)
    ensures r.Err? ==> r.error in {Unreadable, UnresolvedReexport}
  {
    match s
    case Declaration(_) => return Ok([]);
    case Star(specifier) =>
      if name == "default" {
        return Ok([]);
      }
      var resolved := Resolve(w, specifier, file);
      if resolved.None? {
        return if file in w.ui then Err(UnresolvedReexport) else Ok([]);
      }
      r := ResolveExportTargets(w, resolved.value, name, chain + {file});
    case Namespace(specifier, n) =>
      var resolved := Resolve(w, specifier, file);
      if n == name && resolved.Some? {
        var target := Node(resolved.value, All);
        assert target in [target];
        return Ok([target]);
      }
      return Ok([]);
    case NamedFrom(specifier, elements) =>
      var resolved := Resolve(w, specifier, file);
      if resolved.None? {
        if file in w.ui && exists i :: 0 <= i < |elements| && elements[i].exported == name {
          return Err(UnresolvedReexport);
        }
        return Ok([]);
      }
      var targets := ElementTargets(file, elements, name, resolved.value);
      MembersAreCovered(targets);
      return Ok(targets);
    case LocalList(locals) =>
      r := LocalElementTargets(w, file, locals, name);
      if r.Ok? {
        MembersAreCovered(r.value);
      }
    case DefaultExport(identifier) =>
      if name != "default" || identifier.None? {
        return Ok([]);
      }
      var resolved := Resolve(w, identifier.value.specifier, file);
      if resolved.None? {
        return Ok([]);
      }
      var target := Node(resolved.value, identifier.value.selection);
      assert target in [target];
      return Ok([target]);
  }

  lemma MembersAreCovered(targets: seq<Node>)
    ensures forall t :: t in targets ==> Covered(targets, t)
  {
  }

  /** All statements of one pass, in order. */
  method PassTargets(w: World, file: Path, name: string, chain: set<Path>, pass: nat)
    returns (r: Result<seq<Node>, DiscoveryError>)
    requires chain <= w.modules.Keys && file in w.modules && file !in chain
    decreases w.modules.Keys - chain, 2
    ensures r.Ok? ==> SoundTargets(w, file, name, chain, r.value)
    ensures r.Ok? ==> PassCovered(w, file, w.modules[file].statements, name, chain, pass, r.value)
    ensures r.Ok? ==> PassUnbroken(w, file, w.modules[file].statements, name, chain, pass)
    ensures r.Err? ==> ExportFault(w, file, name, chain)
    ensures r.Err? ==> r.error in {Unreadable, UnresolvedReexport}
  {
    var statements := w.modules[file].statements;
    var targets: seq<Node> := [];
    for i := 0 to |statements|
      invariant SoundTargets(w, file, name, chain, targets)
      invariant PassCovered(w, file, statements[..i], name, chain, pass, targets)
      invariant PassUnbroken(w, file, statements[..i], name, chain, pass)
    {
      var s := statements[i];
      assert statements[..i + 1] == statements[..i] + [s];
      if PassOf(s) != pass {
        continue;
      }
      var found := StatementTargets(w, file, s, name, chain);
      if found.Err? {
        ExportFaultUnfold(w, file, name, chain);
        return Err(found.error);
      }
      forall t | t in found.value ensures ExportTarget(w, file, name, chain, t) {
        ExportTargetUnfold(w, file, name, chain, t);
      }
      CoveredMore(targets, found.value);
      targets := targets + found.value;
    }
    assert statements[..|statements|] == statements;
    return Ok(targets);
  }

  /**
    `resolveExportTargets`. Up to memo keys the result is exactly the set of run-time targets of
    the export through all chains of star re-exports, cyclic ones included.
    */
  method ResolveExportTargets(w: World, file: Path, name: string, chain: set<Path>)
    returns (r: Result<seq<Node>, DiscoveryError>)
    requires chain <= w.modules.Keys
    decreases w.modules.Keys - chain, 3
    ensures r.Ok? ==> SoundTargets(w, file, name, chain, r.value)
    ensures r.Ok? ==> forall t :: ExportTarget(w, file, name, chain, t) ==> Covered(r.value, t)
    ensures r.Err? <==> ExportFault(w, file, name, chain)
    ensures r.Err? ==> r.error in {Unreadable, UnresolvedReexport}
  {
    if file in chain {
      NothingOnChain(w, file, chain);
      return Ok([]);
    }
    if file !in w.modules {
      FaultWhenUnreadable(w, file, name, chain);
      return Err(Unreadable);
    }
    var statements := w.modules[file].statements;
    var own: seq<Node> := [];
    if exists i :: 0 <= i < |statements| && DeclaresOwn(statements[i], name) {
      own := [Node(file, Execute)];
      var i :| 0 <= i < |statements| && DeclaresOwn(statements[i], name);
      assert Contributes(w, file, statements[i], name, chain, own[0]);
      ExportTargetUnfold(w, file, name, chain, own[0]);
    }
    var first := PassTargets(w, file, name, chain, 1);
    if first.Err? {
      return first;
    }
    var second := PassTargets(w, file, name, chain, 2);
    if second.Err? {
      return second;
    }
    var third := PassTargets(w, file, name, chain, 3);
    if third.Err? {
      return third;
    }
    var targets := own + first.value + second.value + third.value;
    AssembleTargets(w, file, name, chain, own, first.value, second.value, third.value);
    var unique := DeduplicateTargets(targets);
    forall t | ExportTarget(w, file, name, chain, t) ensures Covered(unique, t) {
      assert Covered(targets, t);
      var u :| u in targets && KeyOf(u) == KeyOf(t);
      assert Covered(unique, u);
    }
    ExportFaultUnfold(w, file, name, chain);
    forall s | s in statements ensures !Breaks(w, file, s, name, chain) {
      assert PassOf(s) in {0, 1, 2, 3};
    }
    return Ok(unique);
  }

  /** The modifier check and the three passes together cover every target. */
  lemma AssembleTargets(w: World, file: Path, name: string, chain: set<Path>,
                        own: seq<Node>, first: seq<Node>, second: seq<Node>, third: seq<Node>)
    requires file in w.modules && file !in chain
    requires (exists s :: s in w.modules[file].statements && DeclaresOwn(s, name)) ==> own == [Node(file, Execute)]
    requires PassCovered(w, file, w.modules[file].statements, name, chain, 1, first)
    requires PassCovered(w, file, w.modules[file].statements, name, chain, 2, second)
    requires PassCovered(w, file, w.modules[file].statements, name, chain, 3, third)
    ensures forall t :: ExportTarget(w, file, name, chain, t) ==> Covered(own + first + second + third, t)
  {
    CoveredMore(own, first);
    CoveredMore(own + first, second);
    CoveredMore(own + first + second, third);
    forall t | ExportTarget(w, file, name, chain, t) ensures Covered(own + first + second + third, t) {
      ExportTargetUnfold(w, file, name, chain, t);
      var s :| s in w.modules[file].statements && Contributes(w, file, s, name, chain, t);
      if DeclaresOwn(s, name) && t == Node(file, Execute) {
        assert t in own;
      } else {
        assert Follows(w, file, s, name, chain, t);
      }
    }
  }

  // ---------------------------------------------------------------------------------------
  // runtimeExportNames
  // ---------------------------------------------------------------------------------------

  function DeclaredNames(s: Statement): set<string> {
    match s
    case Declaration(names) => set n | n in names
    case Namespace(_, n) => {n}
    case NamedFrom(_, elements) => set e | e in elements :: e.exported
    case LocalList(locals) => set e | e in locals :: e.exported
    case DefaultExport(_) => {"default"}
    case Star(_) => {}
  }

  method StatementNames(w: World, file: Path, s: Statement, chain: set<Path>)
    returns (r: Result<set<string>, DiscoveryError>)
    requires chain <= w.modules.Keys && file in w.modules && file !in chain
    decreases w.modules.Keys - chain, 0
    ensures r.Ok? ==> forall n :: n in r.value <==> AddsName(w, file, s, chain, n)
    ensures r.Err? <==> BreaksNames(w, file, s, chain)
    ensures r.Err? ==> r.error in {Unreadable, UnresolvedReexport}
  {
    if s.Declaration? || s.LocalList? || s.DefaultExport? {
      return Ok(DeclaredNames(s));
    }
    var resolved := Resolve(w, s.specifier, file);
    if resolved.None? {
      return if file in w.ui then Err(UnresolvedReexport) else Ok({});
    }
    if !s.Star? {
      return Ok(DeclaredNames(s));
    }
    var names := RuntimeExportNames(w, resolved.value, chain + {file});
    if names.Err? {
      return names;
    }
    return Ok(names.value - {"default"});
  }

  /** `runtimeExportNames`: exactly the names available through all chains of star re-exports. */
  method RuntimeExportNames(w: World, file: Path, chain: set<Path>) returns (r: Result<set<string>, DiscoveryError>)
    requires chain <= w.modules.Keys
    decreases w.modules.Keys - chain, 1
    ensures r.Ok? ==> forall n :: n in r.value <==> ExportName(w, file, chain, n)
    ensures r.Err? <==> NamesFault(w, file, chain)
    ensures r.Err? ==> r.error in {Unreadable, UnresolvedReexport}
  {
    if file in chain {
      NothingOnChain(w, file, chain);
      return Ok({});
    }
    if file !in w.modules {
      FaultWhenUnreadable(w, file, "", chain);
      return Err(Unreadable);
    }
    var statements := w.modules[file].statements;
    var names: set<string> := {};
    for i := 0 to |statements|
      invariant forall n :: n in names <==> exists k :: 0 <= k < i && AddsName(w, file, statements[k], chain, n)
      invariant forall k :: 0 <= k < i ==> !BreaksNames(w, file, statements[k], chain)
    {
      var found := StatementNames(w, file, statements[i], chain);
      if found.Err? {
        NamesFaultUnfold(w, file, chain);
        return found;
      }
      names := names + found.value;
    }
    NamesFaultUnfold(w, file, chain);
    forall n ensures n in names <==> ExportName(w, file, chain, n) {
      ExportNameUnfold(w, file, chain, n);
    }
    return Ok(names);
  }
}
