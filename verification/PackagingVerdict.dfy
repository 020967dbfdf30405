/** What the staging walk packages, read off the source tree path by path, and what the later
    validator says of it. */
module PackagingVerdict {
  import opened Text
  import opened Packaging

  // ----- the walk against the flat filter

  /** Prune equals filter: a path is staged, as file or directory, exactly when the tree has a
      file or directory there and every component of the path passes the filter. */
  lemma AssetIsFilter(name: string, entries: seq<Entry>, path: Path, f: Filter)
    requires WellFormed(entries) && path != []
    ensures ItemAt(Asset(name, entries, f), [name] + path) == FlatItem(entries, [name], path, f)
  {
    PruneIsFilter(entries, [name], path, f);
  }

  ghost predicate LinkOnIncludedPath(entries: seq<Entry>, at: Path, f: Filter)
    requires at != []
  {
    exists path: Path :: path != [] && Lookup(entries, path) == Some(Symlink) && Included(at + path, f)
  }

  /** The copy aborts exactly when a symlink lies on an included path. */
  lemma AbortsIff(entries: seq<Entry>, at: Path, f: Filter)
    requires at != [] && WellFormed(entries)
    ensures !NoLinks(Visit(entries, at, f)) <==> LinkOnIncludedPath(entries, at, f)
  {
    var tree := Visit(entries, at, f);
    if !NoLinks(tree) {
      var p :| p in tree && tree[p] == Link;
      VisitPaths(entries, at, f, p);
      var path := p[|at|..];
      assert p == at + path;
      PruneIsFilter(entries, at, path, f);
      assert Lookup(entries, path) == Some(Symlink);
    }
    if LinkOnIncludedPath(entries, at, f) {
      var path: Path :| path != [] && Lookup(entries, path) == Some(Symlink) && Included(at + path, f);
      PruneIsFilter(entries, at, path, f);
      assert tree[at + path] == Link;
    }
  }

  // ----- everything staged passes the validator's own filter

  lemma VisitIsIncluded(entries: seq<Entry>, at: Path, f: Filter, p: Path)
    requires at != [] && WellFormed(entries) && p in Visit(entries, at, f)
    ensures |p| > |at| && p[0] == at[0] && Included(p, f)
  {
    VisitPaths(entries, at, f, p);
    assert p[0] == p[..|at|][0];
    var path := p[|at|..];
    assert p == at + path;
    PruneIsFilter(entries, at, path, f);
  }

  /** A name too short for, or ending unlike, the excluded suffixes. */
  predicate PlainEnd(name: string) {
    name != [] && (|name| < 4 || (name[|name| - 1] != 'c' && name[|name| - 1] != 'o'))
  }

  lemma PlainName(name: string)
    requires name !in EXCLUDED_NAMES && PlainEnd(name)
    ensures !EndsWithAny(name, EXCLUDED_SUFFIXES) && !Excluded(name, NO_EXTRA)
  {
  }

  lemma StagedNames()
    ensures !Excluded("prime-agent", NO_EXTRA) && !Excluded("models.bundled.json", NO_EXTRA)
    ensures !Excluded("mcp-services.bundled.json", NO_EXTRA) && !Excluded("README.md", NO_EXTRA)
    ensures !Excluded("LICENSE", NO_EXTRA) && !Excluded("package.json", NO_EXTRA)
    ensures !Excluded("prime-agent-runtime", NO_EXTRA) && !Excluded("skills", NO_EXTRA)
  {
    PlainName("prime-agent");
    PlainName("models.bundled.json");
    PlainName("mcp-services.bundled.json");
    PlainName("README.md");
    PlainName("LICENSE");
    PlainName("package.json");
    PlainName("prime-agent-runtime");
    PlainName("skills");
  }

  lemma AssetIsClean(name: string, entries: seq<Entry>, f: Filter)
    requires WellFormed(entries) && !Excluded(name, NO_EXTRA) && NoLinks(Visit(entries, [name], f))
    ensures Clean(Asset(name, entries, f))
    ensures forall p | p in Asset(name, entries, f) :: p[0] == name
  {
    forall p | p in Asset(name, entries, f)
      ensures p != [] && p[0] == name && IncludePath(p, NO_EXTRA) && Asset(name, entries, f)[p] != Link
    {
      if p in Visit(entries, [name], f) {
        VisitIsIncluded(entries, [name], f, p);
      }
    }
  }

  /** No symlink, and every path through the base filter. */
  predicate Clean(tree: Tree) {
    forall p | p in tree :: p != [] && IncludePath(p, NO_EXTRA) && tree[p] != Link
  }

  lemma CleanCat(a: Tree, b: Tree)
    requires Clean(a) && Clean(b)
    ensures Clean(a + b)
  {
  }

  /** The staged tree has nothing the validator would call unexpected. */
  lemma StagedIsClean(root: Root)
    requires root.Listed() && root.Packs()
    ensures Clean(root.Staged())
  {
    StagedNames();
    var a, b, c := Single("prime-agent", root.Program()), Single("models.bundled.json", root.models),
                   Single("mcp-services.bundled.json", root.services);
    var d := Asset("prime-agent-runtime", root.runtime.value, RUNTIME_EXTRA);
    var e := Asset("skills", root.skills.value, NO_EXTRA);
    var g, h, i := Single("README.md", root.readme.value), Single("LICENSE", root.license.value),
                   Single("package.json", root.PackageJson());
    AssetIsClean("prime-agent-runtime", root.runtime.value, RUNTIME_EXTRA);
    AssetIsClean("skills", root.skills.value, NO_EXTRA);
    CleanCat(a, b);
    CleanCat(a + b, c);
    CleanCat(a + b + c, d);
    CleanCat(a + b + c + d, e);
    CleanCat(a + b + c + d + e, g);
    CleanCat(a + b + c + d + e + g, h);
    CleanCat(a + b + c + d + e + g + h, i);
  }

  // ----- the validator

  const RUNTIME: string := "prime-agent-runtime"

  const REQUIRED_DIRS: seq<Path> := [[RUNTIME, "src", "rlm"], ["skills"]]

  const REQUIRED_FILES: seq<Path> := [
    ["prime-agent"], ["package.json"], ["README.md"], ["LICENSE"], ["models.bundled.json"],
    ["mcp-services.bundled.json"], [RUNTIME, "pyproject.toml"], [RUNTIME, "src", "rlm", "repl.py"]]

  predicate IsFolder(tree: Tree, p: Path) { ItemAt(tree, p) == Some(Folder) }

  predicate IsLeaf(tree: Tree, p: Path) { p in tree && tree[p].Leaf? }

  predicate HasRequired(tree: Tree) {
    && (forall k | 0 <= k < |REQUIRED_DIRS| :: IsFolder(tree, REQUIRED_DIRS[k]))
    && (forall k | 0 <= k < |REQUIRED_FILES| :: IsLeaf(tree, REQUIRED_FILES[k]))
    && IsProgram(tree)
  }

  predicate IsProgram(tree: Tree) {
    IsLeaf(tree, ["prime-agent"]) && tree[["prime-agent"]].data.executable
  }

  predicate DirsUpTo(tree: Tree, n: nat)
    requires n <= |REQUIRED_DIRS|
  {
    forall k | 0 <= k < n :: IsFolder(tree, REQUIRED_DIRS[k])
  }

  predicate FilesUpTo(tree: Tree, n: nat)
    requires n <= |REQUIRED_FILES|
  {
    forall k | 0 <= k < n :: IsLeaf(tree, REQUIRED_FILES[k])
  }

  /** What an error of the validator says of the tree: which check failed first. */
  predicate Blames(tree: Tree, error: Error) {
    match error
    case MissingDirectory(name) =>
      exists n | 0 <= n < |REQUIRED_DIRS| ::
        DirsUpTo(tree, n) && !IsFolder(tree, REQUIRED_DIRS[n]) && name == Join(REQUIRED_DIRS[n], '/')
    case MissingAsset(name) =>
      DirsUpTo(tree, |REQUIRED_DIRS|)
      && exists n | 0 <= n < |REQUIRED_FILES| ::
           FilesUpTo(tree, n) && !IsLeaf(tree, REQUIRED_FILES[n]) && name == Join(REQUIRED_FILES[n], '/')
    case NotExecutable =>
      DirsUpTo(tree, |REQUIRED_DIRS|) && FilesUpTo(tree, |REQUIRED_FILES|) && !IsProgram(tree)
    case SymlinkAt(p) => HasRequired(tree) && p in tree && tree[p] == Link
    case UnexpectedAsset(p) => HasRequired(tree) && p in tree && tree[p] != Link && !IncludePath(p, NO_EXTRA)
  }

  method Validate(tree: Tree) returns (error: Option<Error>)
    requires [] !in tree
    ensures error.None? <==> HasRequired(tree) && Clean(tree)
    ensures error.Some? ==> Blames(tree, error.value)
  {
    for k := 0 to |REQUIRED_DIRS|
      invariant forall j | 0 <= j < k :: IsFolder(tree, REQUIRED_DIRS[j])
    {
      if !IsFolder(tree, REQUIRED_DIRS[k]) {
        return Some(MissingDirectory(Join(REQUIRED_DIRS[k], '/')));
      }
    }
    for k := 0 to |REQUIRED_FILES|
      invariant forall j | 0 <= j < k :: IsLeaf(tree, REQUIRED_FILES[j])
    {
      if !IsLeaf(tree, REQUIRED_FILES[k]) {
        return Some(MissingAsset(Join(REQUIRED_FILES[k], '/')));
      }
    }
    assert IsLeaf(tree, REQUIRED_FILES[0]);
    if !tree[["prime-agent"]].data.executable {
      return Some(NotExecutable);
    }
    var todo := tree.Keys;
    while todo != {}
      invariant todo <= tree.Keys
      invariant forall p | p in tree && p !in todo :: IncludePath(p, NO_EXTRA) && tree[p] != Link
      decreases |todo|
    {
      var p :| p in todo;
      if tree[p] == Link {
        return Some(SymlinkAt(p));
      }
      if !IncludePath(p, NO_EXTRA) {
        return Some(UnexpectedAsset(p));
      }
      todo := todo - {p};
    }
    return None;
  }

  // ----- when a staged tree validates

  /** The parts of the runtime sources the validator asks for. */
  predicate RuntimeComplete(entries: seq<Entry>) {
    && (var dir := Lookup(entries, ["src", "rlm"]); dir.Some? && dir.value.Dir?)
    && (var toml := Lookup(entries, ["pyproject.toml"]); toml.Some? && toml.value.File?)
    && (var repl := Lookup(entries, ["src", "rlm", "repl.py"]); repl.Some? && repl.value.File?)
  }

  lemma RuntimeNames()
    ensures IncludePath(["src", "rlm"], RUNTIME_EXTRA) && IncludePath(["src", "rlm", "repl.py"], RUNTIME_EXTRA)
    ensures IncludePath(["pyproject.toml"], RUNTIME_EXTRA)
  {
    PlainName("src");
    PlainName("rlm");
    PlainName("pyproject.toml");
    PlainName("repl.py");
  }

  lemma ItemAtCat(a: Tree, b: Tree, p: Path)
    ensures ItemAt(a + b, p) == if p in b then ItemAt(b, p) else ItemAt(a, p)
  {
  }

  /** One name at the top holds one asset: nothing else is staged under it. */
  lemma OneAsset(name: string, entries: seq<Entry>, f: Filter, p: Path)
    requires WellFormed(entries) && p != [] && p[0] != name
    ensures p !in Asset(name, entries, f)
  {
    if p in Visit(entries, [name], f) {
      VisitIsIncluded(entries, [name], f, p);
    }
  }

  lemma ItemAtSum(a: Tree, b: Tree, c: Tree, d: Tree, p: Path)
    ensures ItemAt(a + b + c + d, p)
            == if p in d then ItemAt(d, p) else if p in c then ItemAt(c, p) else ItemAt(a + b, p)
  {
    ItemAtCat(a + b + c, d, p);
    ItemAtCat(a + b, c, p);
  }

  /** The trees of two assets between files: which one a path is in. */
  lemma ItemAtParts(a: Tree, d: Tree, e: Tree, g: Tree, h: Tree, i: Tree, p: Path)
    ensures var files := a + g + h + i;
            var staged := a + d + e + g + h + i;
            ItemAt(staged, p)
            == if p in i || p in h || p in g || (p !in d && p !in e) then ItemAt(files, p)
               else if p in e then ItemAt(e, p) else ItemAt(d, p)
  {
    ItemAtSum(a + d + e, g, h, i, p);
    ItemAtCat(a + d + e, g, p);
    ItemAtCat(a + d, e, p);
    ItemAtCat(a, d, p);
    ItemAtSum(a, g, h, i, p);
    ItemAtCat(a, g, p);
  }

  /** The staged tree, seen at one path. */
  lemma StagedAt(root: Root, p: Path)
    requires root.Listed() && root.Packs() && p != []
    ensures p[0] == RUNTIME ==> ItemAt(root.Staged(), p) == ItemAt(Asset(RUNTIME, root.runtime.value, RUNTIME_EXTRA), p)
    ensures p[0] == "skills" ==> ItemAt(root.Staged(), p) == ItemAt(Asset("skills", root.skills.value, NO_EXTRA), p)
    ensures p[0] != RUNTIME && p[0] != "skills" ==> ItemAt(root.Staged(), p) == ItemAt(Files(root), p)
  {
    var a := Single("prime-agent", root.Program()) + Single("models.bundled.json", root.models)
             + Single("mcp-services.bundled.json", root.services);
    var d := Asset(RUNTIME, root.runtime.value, RUNTIME_EXTRA);
    var e := Asset("skills", root.skills.value, NO_EXTRA);
    ItemAtParts(a, d, e, Single("README.md", root.readme.value), Single("LICENSE", root.license.value),
                Single("package.json", root.PackageJson()), p);
    if p[0] != RUNTIME {
      OneAsset(RUNTIME, root.runtime.value, RUNTIME_EXTRA, p);
    }
    if p[0] != "skills" {
      OneAsset("skills", root.skills.value, NO_EXTRA, p);
    }
  }

  const SINGLE_FILES: set<string> := {
    "prime-agent", "models.bundled.json", "mcp-services.bundled.json", "README.md", "LICENSE", "package.json"}

  /** The single files beside the two asset trees. */
  function Files(root: Root): Tree
    requires root.Packs()
  {
    Single("prime-agent", root.Program()) + Single("models.bundled.json", root.models)
    + Single("mcp-services.bundled.json", root.services)
    + Single("README.md", root.readme.value) + Single("LICENSE", root.license.value)
    + Single("package.json", root.PackageJson())
  }

  lemma FilesAreLeaves(root: Root, name: string)
    requires root.Packs()
    requires name in SINGLE_FILES
    ensures IsLeaf(Files(root), [name])
  {
    var p := [name];
    var a := Single("prime-agent", root.Program());
    var b := a + Single("models.bundled.json", root.models);
    var c := b + Single("mcp-services.bundled.json", root.services);
    var d := c + Single("README.md", root.readme.value);
    var e := d + Single("LICENSE", root.license.value);
    AddSingle(a, "models.bundled.json", root.models, p);
    AddSingle(b, "mcp-services.bundled.json", root.services, p);
    AddSingle(c, "README.md", root.readme.value, p);
    AddSingle(d, "LICENSE", root.license.value, p);
    AddSingle(e, "package.json", root.PackageJson(), p);
  }

  lemma AddSingle(tree: Tree, name: string, data: Content, p: Path)
    ensures IsLeaf(tree, p) || p == [name] ==> IsLeaf(tree + Single(name, data), p)
  {
  }

  lemma SingleNames(name: string)
    requires name in SINGLE_FILES
    ensures name != RUNTIME && name != "skills"
  {
    assert RUNTIME[11] == '-' && "skills"[0] == 's';
  }

  lemma StagedFile(root: Root, name: string)
    requires root.Listed() && root.Packs()
    requires name in SINGLE_FILES
    ensures IsLeaf(root.Staged(), [name])
  {
    FilesAreLeaves(root, name);
    SingleNames(name);
    StagedAt(root, [name]);
  }

  lemma StagedFiles(root: Root)
    requires root.Listed() && root.Packs()
    ensures forall k | 0 <= k < 6 :: IsLeaf(root.Staged(), REQUIRED_FILES[k])
  {
    var staged := root.Staged();
    forall k | 0 <= k < 6
      ensures IsLeaf(staged, REQUIRED_FILES[k])
    {
      StagedFile(root, REQUIRED_FILES[k][0]);
    }
  }

  lemma OtherFile(tree: Tree, name: string, data: Content)
    requires name != "prime-agent"
    ensures ItemAt(tree + Single(name, data), ["prime-agent"]) == ItemAt(tree, ["prime-agent"])
  {
    assert [name][0] != ["prime-agent"][0];
  }

  lemma StagedProgram(root: Root)
    requires root.Listed() && root.Packs()
    ensures IsProgram(root.Staged())
  {
    var a := Single("prime-agent", root.Program());
    var b := a + Single("models.bundled.json", root.models);
    var c := b + Single("mcp-services.bundled.json", root.services);
    var d := c + Single("README.md", root.readme.value);
    var e := d + Single("LICENSE", root.license.value);
    OtherFile(a, "models.bundled.json", root.models);
    OtherFile(b, "mcp-services.bundled.json", root.services);
    OtherFile(c, "README.md", root.readme.value);
    OtherFile(d, "LICENSE", root.license.value);
    OtherFile(e, "package.json", root.PackageJson());
    StagedAt(root, ["prime-agent"]);
    StagedFile(root, "prime-agent");
  }

  lemma StagedSkills(root: Root)
    requires root.Listed() && root.Packs()
    ensures IsFolder(root.Staged(), ["skills"])
  {
    StagedAt(root, ["skills"]);
    FolderApart(root.skills.value, ["skills"], NO_EXTRA);
  }

  lemma StagedRuntime(root: Root, path: Path)
    requires root.Listed() && root.Packs() && path != [] && IncludePath(path, RUNTIME_EXTRA)
    ensures var node := Lookup(root.runtime.value, path);
            && (IsFolder(root.Staged(), [RUNTIME] + path) <==> node.Some? && node.value.Dir?)
            && (IsLeaf(root.Staged(), [RUNTIME] + path) <==> node.Some? && node.value.File?)
  {
    StagedAt(root, [RUNTIME] + path);
    AssetIsFilter(RUNTIME, root.runtime.value, path, RUNTIME_EXTRA);
    assert ([RUNTIME] + path)[1..] == path;
  }

  lemma RequiredOneByOne(tree: Tree)
    requires forall k | 0 <= k < 6 :: IsLeaf(tree, REQUIRED_FILES[k])
    requires IsFolder(tree, ["skills"]) && IsProgram(tree)
    ensures HasRequired(tree)
            <==> && IsFolder(tree, [RUNTIME] + ["src", "rlm"])
                 && IsLeaf(tree, [RUNTIME] + ["pyproject.toml"])
                 && IsLeaf(tree, [RUNTIME] + ["src", "rlm", "repl.py"])
  {
    assert [RUNTIME] + ["src", "rlm"] == REQUIRED_DIRS[0] && REQUIRED_DIRS[1] == ["skills"];
    assert [RUNTIME] + ["pyproject.toml"] == REQUIRED_FILES[6];
    assert [RUNTIME] + ["src", "rlm", "repl.py"] == REQUIRED_FILES[7];
  }

  lemma StagedRequired(root: Root)
    requires root.Listed() && root.Packs()
    ensures HasRequired(root.Staged())
            <==> && IsFolder(root.Staged(), [RUNTIME] + ["src", "rlm"])
                 && IsLeaf(root.Staged(), [RUNTIME] + ["pyproject.toml"])
                 && IsLeaf(root.Staged(), [RUNTIME] + ["src", "rlm", "repl.py"])
  {
    StagedSkills(root);
    StagedFiles(root);
    StagedProgram(root);
    RequiredOneByOne(root.Staged());
  }

  /** A package that staged is validated exactly when the runtime sources are complete; it is
      never rejected for an unexpected asset or symlink. */
  lemma StagedValidatesIff(root: Root)
    requires root.Listed() && root.Packs()
    ensures Clean(root.Staged())
    ensures HasRequired(root.Staged()) <==> RuntimeComplete(root.runtime.value)
  {
    StagedIsClean(root);
    StagedRequired(root);
    RuntimeNames();
    StagedRuntime(root, ["src", "rlm"]);
    StagedRuntime(root, ["pyproject.toml"]);
    StagedRuntime(root, ["src", "rlm", "repl.py"]);
  }

  /** Staging and validating a package, end to end. */
  method Package(root: Root) returns (error: Option<Error>)
    requires root.Listed()
    ensures error.None? <==> root.Packs() && RuntimeComplete(root.runtime.value)
    ensures root.Packs() && error.Some? ==>
              (error.value.MissingDirectory? || error.value.MissingAsset?) && Blames(root.Staged(), error.value)
    ensures !root.Packs() ==> root.FirstFailure(error.value)
  {
    var stage := new StageDir();
    error := stage.Stage(root);
    if error.Some? {
      return;
    }
    error := ValidateStaged(root, stage.tree);
  }

  method ValidateStaged(root: Root, tree: Tree) returns (error: Option<Error>)
    requires root.Listed() && root.Packs() && tree == root.Staged()
    ensures error.None? <==> RuntimeComplete(root.runtime.value)
    ensures error.Some? ==>
              (error.value.MissingDirectory? || error.value.MissingAsset?) && Blames(tree, error.value)
  {
    StagedValidatesIff(root);
    StagedProgram(root);
    error := Validate(tree);
  }
}
