/**
  The Tailwind source directives for a set of discovered files (`formatUiSourceDirectives`,
  `inside`, apps/web/tooling/ui-tailwind-sources.ts). A positive directive makes Tailwind scan
  the whole directory tree of its file, so every other file in those trees is negated.
  */
module Directives {
  import opened Sequences
  import opened Wrappers

  /** An absolute, normalised path; the root of the file system is the empty path. */
  type Path = string

  // ---------------------------------------------------------------------------------------
  // Paths and their order
  // ---------------------------------------------------------------------------------------

  /** `inside`: the path is the root or lies below it. */
  predicate Inside(path: Path, root: Path) {
    path == root || root + "/" <= path
  }

  /** `dirname` */
  function DirectoryOf(path: Path): Path {
    if path == "" then ""
    else if path[|path| - 1] == '/' then path[..|path| - 1]
    else DirectoryOf(path[..|path| - 1])
  }

  /** Inside are exactly the path itself and what continues it after a slash, so no sibling whose name it begins. */
  lemma InsideMeans(path: Path, root: Path, name: string)
    ensures Inside(path, root) <==> path == root || exists rest :: path == root + "/" + rest
    ensures name != "" && '/' !in name ==> !Inside(root + name, root)
  {
    if path != root && Inside(path, root) {
      assert path == root + "/" + path[|root| + 1..];
    }
    if name != "" && '/' !in name {
      assert (root + name)[|root|] == name[0] && name[0] in name;
    }
  }

  /** The directory of a path is what stands before its last name. */
  lemma {:induction false} DirectoryIsParent(directory: Path, name: string)
    requires '/' !in name
    ensures DirectoryOf(directory + "/" + name) == directory
  {
    var path := directory + "/" + name;
    if name != "" {
      var front := name[..|name| - 1];
      assert path[|path| - 1] == name[|name| - 1] && name[|name| - 1] in name;
      assert path[..|path| - 1] == directory + "/" + front;
      DirectoryIsParent(directory, front);
    }
  }

  /** Code unit order, as the default sort compares strings. */
  predicate Leq(a: string, b: string) {
    a == "" || (b != "" && (a[0] < b[0] || (a[0] == b[0] && Leq(a[1..], b[1..]))))
  }

  lemma {:induction false} LeqTotal(a: string, b: string)
    ensures Leq(a, b) || Leq(b, a)
  {
    if a != "" && b != "" && a[0] == b[0] {
      LeqTotal(a[1..], b[1..]);
    }
  }

  lemma {:induction false} LeqAntisymmetric(a: string, b: string)
    requires Leq(a, b) && Leq(b, a)
    ensures a == b
  {
    if a != "" && b != "" {
      LeqAntisymmetric(a[1..], b[1..]);
      assert a == [a[0]] + a[1..] && b == [b[0]] + b[1..];
    }
  }

  lemma {:induction false} LeqTransitive(a: string, b: string, c: string)
    requires Leq(a, b) && Leq(b, c)
    ensures Leq(a, c)
  {
    if a != "" && a[0] == b[0] == c[0] {
      LeqTransitive(a[1..], b[1..], c[1..]);
    }
  }

  lemma {:induction false} PrefixIsLeq(a: string, b: string)
    requires a <= b
    ensures Leq(a, b)
  {
    if a != "" {
      assert a[0] == b[0] && a[1..] <= b[1..];
      PrefixIsLeq(a[1..], b[1..]);
    }
  }

  /** A directory sorts before everything inside it. */
  lemma InsideIsLater(path: Path, root: Path)
    requires Inside(path, root)
    ensures Leq(root, path)
  {
    assert root <= path;
    PrefixIsLeq(root, path);
  }

  lemma InsideTransitive(a: Path, b: Path, c: Path)
    requires Inside(a, b) && Inside(b, c)
    ensures Inside(a, c)
  {
    if a != b && b != c {
      assert c + "/" <= b && b <= a;
    }
  }

  /** Two directories that contain the same path are nested. */
  lemma CommonDescendant(path: Path, a: Path, b: Path)
    requires Inside(path, a) && Inside(path, b)
    ensures Inside(a, b) || Inside(b, a)
  {
    if path != a && path != b {
      if |a| < |b| {
        assert b[..|a| + 1] == path[..|a| + 1] == a + "/";
      } else if |b| < |a| {
        assert a[..|b| + 1] == path[..|b| + 1] == b + "/";
      } else {
        assert a == path[..|a|] == b;
      }
    }
  }

  lemma {:induction false} InsideOwnDirectory(file: Path)
    requires '/' in file
    ensures Inside(file, DirectoryOf(file))
  {
    var n := |file| - 1;
    if file[n] == '/' {
      assert file == file[..n] + "/";
    } else {
      assert file == file[..n] + [file[n]];
      assert '/' in file[..n];
      InsideOwnDirectory(file[..n]);
      var d := DirectoryOf(file[..n]);
      if file[..n] == d {
        OwnDirectoryIsShorter(d);
      }
    }
  }

  lemma {:induction false} OwnDirectoryIsShorter(path: Path)
    requires path != ""
    ensures |DirectoryOf(path)| < |path|
  {
    if path[|path| - 1] != '/' && |path| > 1 {
      OwnDirectoryIsShorter(path[..|path| - 1]);
    }
  }

  // ---------------------------------------------------------------------------------------
  // List operations
  // ---------------------------------------------------------------------------------------

  ghost predicate Ascending(s: seq<string>) {
    forall i, j :: 0 <= i < j < |s| ==> Leq(s[i], s[j])
  }

  function Insert(x: string, s: seq<string>): seq<string> {
    if s == [] || Leq(x, s[0]) then [x] + s else [s[0]] + Insert(x, s[1..])
  }

  /** `toSorted` */
  function Sorted(s: seq<string>): seq<string> {
    if s == [] then [] else Insert(s[0], Sorted(s[1..]))
  }

  lemma {:induction false} InsertKeeps(x: string, s: seq<string>)
    requires Ascending(s)
    ensures Ascending(Insert(x, s))
    ensures multiset(Insert(x, s)) == multiset{x} + multiset(s)
  {
    if s == [] {
    } else if Leq(x, s[0]) {
      forall i | 0 <= i < |s| ensures Leq(x, s[i]) {
        if i > 0 {
          LeqTransitive(x, s[0], s[i]);
        }
      }
    } else {
      LeqTotal(x, s[0]);
      assert s == [s[0]] + s[1..];
      InsertKeeps(x, s[1..]);
      var rest := Insert(x, s[1..]);
      forall i | 0 <= i < |rest| ensures Leq(s[0], rest[i]) {
        assert rest[i] in multiset(rest);
        assert rest[i] == x || rest[i] in s[1..];
      }
    }
  }

  lemma {:induction false} SortedIsSorted(s: seq<string>)
    ensures Ascending(Sorted(s)) && multiset(Sorted(s)) == multiset(s)
  {
    if s != [] {
      SortedIsSorted(s[1..]);
      InsertKeeps(s[0], Sorted(s[1..]));
      assert s == [s[0]] + s[1..];
    }
  }

  lemma SortedMembers(s: seq<string>)
    ensures forall x :: x in Sorted(s) <==> x in s
    ensures |Sorted(s)| == |s|
  {
    SortedIsSorted(s);
    forall x ensures x in Sorted(s) <==> x in s {
      assert x in Sorted(s) <==> x in multiset(Sorted(s));
      assert x in s <==> x in multiset(s);
    }
    assert |multiset(Sorted(s))| == |multiset(s)|;
  }

  lemma {:induction false} DistinctByCount(s: seq<string>)
    ensures Distinct(s) <==> forall x :: multiset(s)[x] <= 1
  {
    if s != [] {
      var rest := s[1..];
      DistinctByCount(rest);
      assert s == [s[0]] + rest;
      if Distinct(s) {
        assert s[0] !in rest;
        assert s[0] !in multiset(rest);
      } else if Distinct(rest) {
        assert s[0] in rest;
        assert s[0] in multiset(rest);
        assert multiset(s)[s[0]] >= 2;
      } else {
        var x :| multiset(rest)[x] > 1;
        assert multiset(s)[x] > 1;
      }
    }
  }

  lemma SortedDistinct(s: seq<string>)
    requires Distinct(s)
    ensures Distinct(Sorted(s))
  {
    SortedIsSorted(s);
    DistinctByCount(s);
    DistinctByCount(Sorted(s));
  }

  /** `[...new Set(s)]` */
  function Unique(s: seq<string>): seq<string> {
    if s == [] then []
    else
      var front := Unique(s[..|s| - 1]);
      if s[|s| - 1] in front then front else front + [s[|s| - 1]]
  }

  lemma {:induction false} UniqueMembers(s: seq<string>)
    ensures Distinct(Unique(s))
    ensures forall x :: x in Unique(s) <==> x in s
  {
    if s != [] {
      UniqueMembers(s[..|s| - 1]);
      assert s == s[..|s| - 1] + [s[|s| - 1]];
    }
  }

  function SortedUnique(s: seq<string>): seq<string> {
    Sorted(Unique(s))
  }

  lemma SortedUniqueMembers(s: seq<string>)
    ensures Ascending(SortedUnique(s)) && Distinct(SortedUnique(s))
    ensures forall x :: x in SortedUnique(s) <==> x in s
  {
    UniqueMembers(s);
    SortedIsSorted(Unique(s));
    SortedMembers(Unique(s));
    SortedDistinct(Unique(s));
  }

  function Directories(files: seq<Path>): seq<Path> {
    seq(|files|, i requires 0 <= i < |files| => DirectoryOf(files[i]))
  }

  // ---------------------------------------------------------------------------------------
  // The pipeline
  // ---------------------------------------------------------------------------------------

  /** Keep the directories of `all` below index `n` that lie in no earlier one. */
  function Topmost(all: seq<Path>, n: nat): seq<Path>
    requires n <= |all|
  {
    if n == 0 then []
    else
      var front := Topmost(all, n - 1);
      if exists i :: 0 <= i < n - 1 && Inside(all[n - 1], all[i]) then front else front + [all[n - 1]]
  }

  function ScannedTrees(included: seq<Path>): seq<Path> {
    var all := SortedUnique(Directories(included));
    Topmost(all, |all|)
  }

  /** `filesBelow`: the files of the tree `disk` below a directory. */
  function FilesBelow(disk: seq<Path>, directory: Path): seq<Path> {
    if disk == [] then []
    else
      var front := FilesBelow(disk[..|disk| - 1], directory);
      var last := disk[|disk| - 1];
      if last != directory && Inside(last, directory) then front + [last] else front
  }

  /** The files below the scanned trees that were not discovered. */
  function NotIncluded(disk: seq<Path>, trees: seq<Path>, included: set<Path>): seq<Path> {
    if trees == [] then []
    else
      NotIncluded(disk, trees[..|trees| - 1], included)
      + Without(FilesBelow(disk, trees[|trees| - 1]), included)
  }

  function Without(files: seq<Path>, drop: set<Path>): seq<Path> {
    if files == [] then []
    else
      var front := Without(files[..|files| - 1], drop);
      if files[|files| - 1] in drop then front else front + [files[|files| - 1]]
  }

  datatype Directive = Source(path: Path) | NotSource(path: Path)

  datatype DirectiveError = OutsidePackage

  /** `formatUiSourceDirectives`, without the spelling of the lines. */
  function FormatDirectives(disk: seq<Path>, packageRoot: Path, files: seq<Path>): Result<seq<Directive>, DirectiveError> {
    var included := SortedUnique(files);
    var excluded := Sorted(NotIncluded(disk, ScannedTrees(included), set f | f in included));
    if forall f :: f in included + excluded ==> Inside(f, packageRoot) then
      Ok(Positive(included) + Negative(excluded))
    else
      Err(OutsidePackage)
  }

  function Positive(files: seq<Path>): (r: seq<Directive>)
    ensures |r| == |files|
  {
    seq(|files|, i requires 0 <= i < |files| => Source(files[i]))
  }

  function Negative(files: seq<Path>): (r: seq<Directive>)
    ensures |r| == |files|
  {
    seq(|files|, i requires 0 <= i < |files| => NotSource(files[i]))
  }

  // ---------------------------------------------------------------------------------------
  // Exactness
  // ---------------------------------------------------------------------------------------

  /** No directory of the list lies in another one. */
  ghost predicate Antichain(trees: seq<Path>) {
    forall i, j :: 0 <= i < |trees| && 0 <= j < |trees| && Inside(trees[i], trees[j]) ==> i == j
  }

  /** `t` is listed below index `n` and lies in no directory listed before it. */
  ghost predicate IsTopmost(all: seq<Path>, n: nat, t: Path)
    requires n <= |all|
  {
    exists k :: 0 <= k < n && all[k] == t && forall i :: 0 <= i < k ==> !Inside(t, all[i])
  }

  lemma {:induction false} TopmostMembers(all: seq<Path>, n: nat)
    requires n <= |all|
    ensures forall t :: t in Topmost(all, n) <==> IsTopmost(all, n, t)
  {
    if n > 0 {
      TopmostMembers(all, n - 1);
    }
  }

  lemma {:induction false} TopmostDistinct(all: seq<Path>, n: nat)
    requires n <= |all| && Distinct(all)
    ensures Distinct(Topmost(all, n))
  {
    if n > 0 {
      TopmostDistinct(all, n - 1);
      TopmostMembers(all, n - 1);
      assert all[n - 1] !in Topmost(all, n - 1);
    }
  }

  /** Every directory lies in a topmost one. */
  lemma {:induction false} TopmostCovers(all: seq<Path>, k: nat) returns (root: Path)
    requires k < |all|
    ensures root in Topmost(all, |all|) && Inside(all[k], root)
  {
    TopmostMembers(all, |all|);
    if i :| 0 <= i < k && Inside(all[k], all[i]) {
      root := TopmostCovers(all, i);
      InsideTransitive(all[k], all[i], root);
    } else {
      root := all[k];
    }
  }

  /** Neither of two scanned trees lies in the other. */
  lemma TreesAreApart(included: seq<Path>)
    ensures Antichain(ScannedTrees(included)) && Distinct(ScannedTrees(included))
  {
    var all, trees := SortedUnique(Directories(included)), ScannedTrees(included);
    SortedUniqueMembers(Directories(included));
    TopmostMembers(all, |all|);
    TopmostDistinct(all, |all|);
    forall i, j | 0 <= i < |trees| && 0 <= j < |trees| && Inside(trees[i], trees[j]) ensures i == j {
      assert trees[i] in trees && trees[j] in trees;
      var k :| 0 <= k < |all| && all[k] == trees[i] && forall x :: 0 <= x < k ==> !Inside(trees[i], all[x]);
      var l :| 0 <= l < |all| && all[l] == trees[j];
      InsideIsLater(trees[i], trees[j]);
      if l > k {
        LeqAntisymmetric(all[k], all[l]);
      }
    }
  }

  lemma TreesAreDirectories(included: seq<Path>, t: Path)
    requires t in ScannedTrees(included)
    ensures exists f :: f in included && DirectoryOf(f) == t
  {
    var dirs := Directories(included);
    SortedUniqueMembers(dirs);
    TopmostMembers(SortedUnique(dirs), |SortedUnique(dirs)|);
    assert t in dirs;
    var i :| 0 <= i < |dirs| && dirs[i] == t;
    assert included[i] in included;
  }

  lemma TreesHoldFiles(included: seq<Path>, f: Path)
    requires f in included
    ensures exists t :: t in ScannedTrees(included) && Inside(DirectoryOf(f), t)
  {
    var dirs := Directories(included);
    var all := SortedUnique(dirs);
    SortedUniqueMembers(dirs);
    var i :| 0 <= i < |included| && included[i] == f;
    assert dirs[i] in all;
    var k :| 0 <= k < |all| && all[k] == dirs[i];
    var root := TopmostCovers(all, k);
  }

  /**
    The scanned trees are the topmost directories of the included files: an antichain, each the
    directory of an included file, and every included file's directory lies in one of them.
    */
  lemma ScannedTreesAreTopmost(included: seq<Path>)
    ensures var trees := ScannedTrees(included);
      && Antichain(trees) && Distinct(trees)
      && (forall t :: t in trees ==> exists f :: f in included && DirectoryOf(f) == t)
      && (forall f :: f in included ==> exists t :: t in trees && Inside(DirectoryOf(f), t))
  {
    TreesAreApart(included);
    forall t | t in ScannedTrees(included) ensures exists f :: f in included && DirectoryOf(f) == t {
      TreesAreDirectories(included, t);
    }
    forall f | f in included ensures exists t :: t in ScannedTrees(included) && Inside(DirectoryOf(f), t) {
      TreesHoldFiles(included, f);
    }
  }

  lemma {:induction false} FilesBelowMembers(disk: seq<Path>, directory: Path)
    ensures forall f :: f in FilesBelow(disk, directory) <==> f in disk && f != directory && Inside(f, directory)
    ensures Distinct(disk) ==> Distinct(FilesBelow(disk, directory))
  {
    if disk != [] {
      FilesBelowMembers(disk[..|disk| - 1], directory);
      assert disk == disk[..|disk| - 1] + [disk[|disk| - 1]];
    }
  }

  lemma {:induction false} WithoutMembers(files: seq<Path>, drop: set<Path>)
    ensures forall f :: f in Without(files, drop) <==> f in files && f !in drop
    ensures Distinct(files) ==> Distinct(Without(files, drop))
  {
    if files != [] {
      WithoutMembers(files[..|files| - 1], drop);
      assert files == files[..|files| - 1] + [files[|files| - 1]];
    }
  }

  lemma {:induction false} NotIncludedMembers(disk: seq<Path>, trees: seq<Path>, included: set<Path>)
    ensures forall f :: f in NotIncluded(disk, trees, included) <==>
      f in disk && f !in included && exists t :: t in trees && f != t && Inside(f, t)
  {
    if trees != [] {
      var front, last := trees[..|trees| - 1], trees[|trees| - 1];
      assert trees == front + [last];
      NotIncludedMembers(disk, front, included);
      FilesBelowMembers(disk, last);
      WithoutMembers(FilesBelow(disk, last), included);
    }
  }

  lemma DistinctConcat(a: seq<Path>, b: seq<Path>)
    requires Distinct(a) && Distinct(b) && forall f :: f in a ==> f !in b
    ensures Distinct(a + b)
  {
    forall i, j | 0 <= i < j < |a + b| ensures (a + b)[i] != (a + b)[j] {
      if i < |a| <= j {
        assert a[i] in a && b[j - |a|] in b;
      }
    }
  }

  lemma {:induction false} NotIncludedDistinct(disk: seq<Path>, trees: seq<Path>, included: set<Path>)
    requires Distinct(disk) && Antichain(trees)
    ensures Distinct(NotIncluded(disk, trees, included))
  {
    if trees != [] {
      var n := |trees| - 1;
      var front, last := trees[..n], trees[n];
      assert Antichain(front) by {
        assert forall i :: 0 <= i < n ==> front[i] == trees[i];
      }
      NotIncludedDistinct(disk, front, included);
      NotIncludedMembers(disk, front, included);
      FilesBelowMembers(disk, last);
      WithoutMembers(FilesBelow(disk, last), included);
      var a, b := NotIncluded(disk, front, included), Without(FilesBelow(disk, last), included);
      forall f | f in a ensures f !in b {
        var t :| t in front && f != t && Inside(f, t);
        var i :| 0 <= i < n && trees[i] == t;
        if Inside(f, last) {
          CommonDescendant(f, t, last);
        }
      }
      DistinctConcat(a, b);
    }
  }

  /** What Tailwind scans: the trees of the positive files, without the negated files. */
  ghost predicate Scanned(disk: seq<Path>, directives: seq<Directive>, f: Path) {
    && f in disk
    && (exists g :: Source(g) in directives && Inside(f, DirectoryOf(g)))
    && NotSource(f) !in directives
  }

  lemma DirectiveMembers(included: seq<Path>, excluded: seq<Path>)
    ensures var all := Positive(included) + Negative(excluded);
      && (forall f :: Source(f) in all <==> f in included)
      && (forall f :: NotSource(f) in all <==> f in excluded)
  {
    var p, n := Positive(included), Negative(excluded);
    forall f ensures Source(f) in p + n <==> f in included {
      if f in included {
        var i :| 0 <= i < |included| && included[i] == f;
        assert p[i] == Source(f) && (p + n)[i] == p[i];
      }
    }
    forall f ensures NotSource(f) in p + n <==> f in excluded {
      if f in excluded {
        var i :| 0 <= i < |excluded| && excluded[i] == f;
        assert n[i] == NotSource(f) && (p + n)[|p| + i] == n[i];
      }
    }
  }

  ghost predicate OnDisk(disk: seq<Path>, files: seq<Path>) {
    Distinct(disk) && (forall f :: f in files ==> f in disk && '/' in f) && forall f, g :: f in disk && g in files ==> f != DirectoryOf(g)
  }

  /** The negated files, as the pipeline computes them. */
  function Excluded(disk: seq<Path>, files: seq<Path>): seq<Path> {
    var included := SortedUnique(files);
    Sorted(NotIncluded(disk, ScannedTrees(included), set f | f in included))
  }

  /** The file would be scanned because of some discovered file. */
  ghost predicate Swept(files: seq<Path>, f: Path) {
    exists g :: g in files && Inside(f, DirectoryOf(g))
  }

  /** Exactly the undiscovered files that would be swept in are negated, each once. */
  lemma ExcludedMembers(disk: seq<Path>, files: seq<Path>)
    requires OnDisk(disk, files)
    ensures forall f :: f in Excluded(disk, files) <==> f in disk && f !in files && Swept(files, f)
    ensures Distinct(Excluded(disk, files))
  {
    var included := SortedUnique(files);
    var drop := set f | f in included;
    var trees := ScannedTrees(included);
    var rest := NotIncluded(disk, trees, drop);
    SortedUniqueMembers(files);
    ScannedTreesAreTopmost(included);
    NotIncludedMembers(disk, trees, drop);
    NotIncludedDistinct(disk, trees, drop);
    SortedMembers(rest);
    SortedDistinct(rest);
    forall f | f in disk ensures Swept(files, f) <==> exists t :: t in trees && f != t && Inside(f, t) {
      SweptByTree(included, f);
    }
  }

  lemma SweptByTree(included: seq<Path>, f: Path)
    ensures Swept(included, f) <==> exists t :: t in ScannedTrees(included) && Inside(f, t)
  {
    if t :| t in ScannedTrees(included) && Inside(f, t) {
      TreesAreDirectories(included, t);
    }
    if g :| g in included && Inside(f, DirectoryOf(g)) {
      TreesHoldFiles(included, g);
      var t :| t in ScannedTrees(included) && Inside(DirectoryOf(g), t);
      InsideTransitive(f, DirectoryOf(g), t);
    }
  }

  /**
    Exactness: with the directives Tailwind scans the discovered files and nothing else, no path
    is both included and negated, and no directive is emitted twice.
    */
  lemma DirectivesAreExact(disk: seq<Path>, packageRoot: Path, files: seq<Path>)
    requires OnDisk(disk, files) && FormatDirectives(disk, packageRoot, files).Ok?
    ensures var out := FormatDirectives(disk, packageRoot, files).value;
      && (forall f :: Scanned(disk, out, f) <==> f in files)
      && (forall f :: !(Source(f) in out && NotSource(f) in out))
      && (forall i, j :: 0 <= i < j < |out| ==> out[i] != out[j])
  {
    var included, excluded := SortedUnique(files), Excluded(disk, files);
    var out := FormatDirectives(disk, packageRoot, files).value;
    assert out == Positive(included) + Negative(excluded);
    SortedUniqueMembers(files);
    ExcludedMembers(disk, files);
    DirectiveMembers(included, excluded);
    forall f ensures Scanned(disk, out, f) <==> f in files {
      if f in files {
        InsideOwnDirectory(f);
      }
    }
  }

  /** First the discovered files, then the negated ones, each in ascending order. */
  lemma DirectivesAreOrdered(disk: seq<Path>, packageRoot: Path, files: seq<Path>)
    requires OnDisk(disk, files) && FormatDirectives(disk, packageRoot, files).Ok?
    ensures var out := FormatDirectives(disk, packageRoot, files).value;
      forall i, j :: 0 <= i < j < |out| ==>
        (out[j].Source? ==> out[i].Source?) && (out[i].Source? == out[j].Source? ==> Leq(out[i].path, out[j].path))
  {
    SortedUniqueMembers(files);
    SortedIsSorted(NotIncluded(disk, ScannedTrees(SortedUnique(files)), set f | f in SortedUnique(files)));
  }

  /** The formatting fails exactly when some discovered or swept file lies outside the package. */
  lemma FailsOnlyOutside(disk: seq<Path>, packageRoot: Path, files: seq<Path>)
    requires OnDisk(disk, files)
    ensures FormatDirectives(disk, packageRoot, files).Err?
      <==> exists f :: f in disk && (f in files || Swept(files, f)) && !Inside(f, packageRoot)
  {
    SortedUniqueMembers(files);
    ExcludedMembers(disk, files);
    var included, excluded := SortedUnique(files), Excluded(disk, files);
    assert forall f :: f in included + excluded <==> f in disk && (f in files || Swept(files, f));
  }
}
