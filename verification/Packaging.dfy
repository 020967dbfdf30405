/** The staging walk and the staged-tree validator of scripts/package_release.py. */
module Packaging {
  import opened Text

  /** A regular file's bytes and its executable bit; a copy keeps both. */
  datatype Content = Content(bytes: string, executable: bool)

  type Path = seq<string>

  /** A directory is its listing in name order; `Other` is neither link, directory nor file. */
  datatype Node = File(data: Content) | Dir(entries: seq<Entry>) | Symlink | Other

  datatype Entry = Entry(name: string, node: Node)

  // ----- the filter

  const EXCLUDED_NAMES: set<string> := {
    "node_modules", ".venv", "__pycache__", ".pytest_cache", ".ruff_cache", ".mypy_cache", ".git", ".DS_Store"}
  const EXCLUDED_SUFFIXES: seq<string> := [".pyc", ".egg-info"]

  /** The extra exclusions of one asset. */
  datatype Filter = Filter(names: set<string>, suffixes: seq<string>)

  const NO_EXTRA: Filter := Filter({}, [])
  const RUNTIME_EXTRA: Filter := Filter(EXCLUDED_NAMES + {"test", "uv.lock"}, EXCLUDED_SUFFIXES)

  predicate EndsWith(s: string, suffix: string) {
    |suffix| <= |s| && s[|s| - |suffix|..] == suffix
  }

  predicate EndsWithAny(s: string, suffixes: seq<string>) {
    exists k | 0 <= k < |suffixes| :: EndsWith(s, suffixes[k])
  }

  predicate Excluded(part: string, f: Filter) {
    || part in EXCLUDED_NAMES
    || part in f.names
    || EndsWithAny(part, EXCLUDED_SUFFIXES)
    || EndsWithAny(part, f.suffixes)
  }

  predicate IncludePath(parts: Path, f: Filter) { forall k | 0 <= k < |parts| :: !Excluded(parts[k], f) }

  // ----- the pruning walk

  /** What the walk meets at a path. */
  datatype Item = Leaf(data: Content) | Folder | Link

  type Tree = map<Path, Item>

  /** Paths carry the asset's own name in front, which the filter does not look at. */
  predicate Included(path: Path, f: Filter)
    requires path != []
  {
    IncludePath(path[1..], f)
  }

  function VisitOne(e: Entry, at: Path, f: Filter): Tree
    requires at != []
    decreases e
  {
    var path := at + [e.name];
    if !Included(path, f) then map[]
    else match e.node
      case Symlink => map[path := Link]
      case Dir(entries) => map[path := Folder] + Visit(entries, path, f)
      case File(data) => map[path := Leaf(data)]
      case Other => map[]
  }

  function Visit(entries: seq<Entry>, at: Path, f: Filter): Tree
    requires at != []
    decreases entries
  {
    if entries == [] then map[] else VisitOne(entries[0], at, f) + Visit(entries[1..], at, f)
  }

  predicate NoLinks(tree: Tree) { forall p | p in tree :: tree[p] != Link }

  datatype Error =
    | MissingDirectory(name: string)
    | MissingAsset(name: string)
    | NotExecutable
    | SymlinkAt(path: Path)
    | UnexpectedAsset(path: Path)

  lemma NoLinksCat(a: Tree, b: Tree)
    requires a.Keys !! b.Keys
    ensures NoLinks(a + b) <==> NoLinks(a) && NoLinks(b)
  {
    assert forall p | p in a :: (a + b)[p] == a[p];
    assert forall p | p in b :: (a + b)[p] == b[p];
  }

  lemma MapCatAssociates(a: Tree, b: Tree, c: Tree)
    ensures (a + b) + c == a + (b + c)
  {
  }

  predicate LinkIn(tree: Tree, error: Error) { error.SymlinkAt? && error.path in tree && tree[error.path] == Link }

  // ----- well-formed directories

  predicate DistinctNames(entries: seq<Entry>) {
    forall i, j | 0 <= i < j < |entries| :: entries[i].name != entries[j].name
  }

  predicate WellFormed(entries: seq<Entry>)
    decreases entries
  {
    && DistinctNames(entries)
    && forall k | 0 <= k < |entries| && entries[k].node.Dir? :: WellFormed(entries[k].node.entries)
  }

  /** Every path of a visit continues `at` with the name of one of the entries. */
  lemma {:induction false} VisitPaths(entries: seq<Entry>, at: Path, f: Filter, p: Path)
    requires at != [] && p in Visit(entries, at, f)
    ensures |p| > |at| && p[..|at|] == at && exists e :: e in entries && e.name == p[|at|]
    decreases entries
  {
    if p in Visit(entries[1..], at, f) {
      VisitPaths(entries[1..], at, f, p);
      var e :| e in entries[1..] && e.name == p[|at|];
      assert e in entries;
    } else {
      OnePaths(entries[0], at, f, p);
      assert entries[0] in entries;
    }
  }

  lemma {:induction false} OnePaths(e: Entry, at: Path, f: Filter, p: Path)
    requires at != [] && p in VisitOne(e, at, f)
    ensures |p| > |at| && p[..|at|] == at && p[|at|] == e.name
    decreases e
  {
    var path := at + [e.name];
    if p != path {
      VisitPaths(e.node.entries, path, f, p);
      assert p[..|at|] == p[..|path|][..|at|];
      assert p[|at|] == p[..|path|][|at|];
    }
  }

  lemma VisitPartsDisjoint(entries: seq<Entry>, at: Path, f: Filter)
    requires at != [] && WellFormed(entries) && entries != []
    ensures VisitOne(entries[0], at, f).Keys !! Visit(entries[1..], at, f).Keys
  {
    forall p | p in Visit(entries[1..], at, f)
      ensures p !in VisitOne(entries[0], at, f)
    {
      VisitPaths(entries[1..], at, f, p);
      if p in VisitOne(entries[0], at, f) {
        OnePaths(entries[0], at, f, p);
      }
    }
  }

  // ----- the order of the walk

  /** What the walk meets, in order: a directory before its entries, entries in name order. */
  function Listing(entries: seq<Entry>, at: Path, f: Filter): seq<(Path, Item)>
    requires at != []
    decreases entries
  {
    if entries == [] then [] else OneListing(entries[0], at, f) + Listing(entries[1..], at, f)
  }

  function OneListing(e: Entry, at: Path, f: Filter): seq<(Path, Item)>
    requires at != []
    decreases e
  {
    var path := at + [e.name];
    if !Included(path, f) then []
    else match e.node
      case Symlink => [(path, Link)]
      case Dir(entries) => [(path, Folder)] + Listing(entries, path, f)
      case File(data) => [(path, Leaf(data))]
      case Other => []
  }

  function TreeOf(list: seq<(Path, Item)>): Tree {
    if list == [] then map[] else map[list[0].0 := list[0].1] + TreeOf(list[1..])
  }

  /** The items in front of the first symlink. */
  function BeforeLink(list: seq<(Path, Item)>): (front: seq<(Path, Item)>)
    ensures front <= list
    ensures |front| < |list| ==> list[|front|].1 == Link
  {
    if list == [] || list[0].1 == Link then [] else [list[0]] + BeforeLink(list[1..])
  }

  lemma {:induction false} TreeOfCat(a: seq<(Path, Item)>, b: seq<(Path, Item)>)
    ensures TreeOf(a + b) == TreeOf(a) + TreeOf(b)
  {
    if a == [] {
      assert a + b == b;
    } else {
      DropCat(a, b, 1);
      TreeOfCat(a[1..], b);
      MapCatAssociates(map[a[0].0 := a[0].1], TreeOf(a[1..]), TreeOf(b));
    }
  }

  lemma {:induction false} BeforeLinkCat(a: seq<(Path, Item)>, b: seq<(Path, Item)>)
    ensures BeforeLink(a + b) == if BeforeLink(a) == a then a + BeforeLink(b) else BeforeLink(a)
  {
    if a == [] {
      assert a + b == b && [] + BeforeLink(b) == BeforeLink(b);
    } else {
      DropCat(a, b, 1);
      BeforeLinkCat(a[1..], b);
      assert a == [a[0]] + a[1..];
      if a[0].1 != Link && BeforeLink(a[1..]) == a[1..] {
        CatAssociates([a[0]], a[1..], BeforeLink(b));
      }
    }
  }

  /** The listing holds exactly what is visited. */
  lemma {:induction false} ListingIsVisit(entries: seq<Entry>, at: Path, f: Filter)
    requires at != []
    ensures TreeOf(Listing(entries, at, f)) == Visit(entries, at, f)
    decreases entries
  {
    if entries != [] {
      OneListingIsVisit(entries[0], at, f);
      ListingIsVisit(entries[1..], at, f);
      TreeOfCat(OneListing(entries[0], at, f), Listing(entries[1..], at, f));
    }
  }

  lemma {:induction false} OneListingIsVisit(e: Entry, at: Path, f: Filter)
    requires at != []
    ensures TreeOf(OneListing(e, at, f)) == VisitOne(e, at, f)
    decreases e
  {
    var path := at + [e.name];
    if Included(path, f) {
      match e.node
      case Dir(entries) =>
        ListingIsVisit(entries, path, f);
        TreeOfCat([(path, Folder)], Listing(entries, path, f));
        TreeOfOne(path, Folder);
      case Symlink => TreeOfOne(path, Link);
      case File(data) => TreeOfOne(path, Leaf(data));
      case Other =>
    }
  }

  lemma TreeOfOne(path: Path, item: Item)
    ensures TreeOf([(path, item)]) == map[path := item]
  {
    assert [(path, item)][1..] == [];
  }

  /** The walk's outcome over one listing: what it adds, and the first symlink, if any. */
  predicate Walked(list: seq<(Path, Item)>, before: Tree, after: Tree, error: Option<Error>) {
    && after == before + TreeOf(BeforeLink(list))
    && (error.None? <==> BeforeLink(list) == list)
    && (error.Some? ==> |BeforeLink(list)| < |list| && error.value == SymlinkAt(list[|BeforeLink(list)|].0))
  }

  lemma WalkedCat(a: seq<(Path, Item)>, b: seq<(Path, Item)>, before: Tree, mid: Tree, after: Tree,
                  first: Option<Error>, error: Option<Error>)
    requires Walked(a, before, mid, first)
    requires if first.Some? then after == mid && error == first else Walked(b, mid, after, error)
    ensures Walked(a + b, before, after, error)
  {
    BeforeLinkCat(a, b);
    if first.Some? {
      var k := |BeforeLink(a)|;
      assert (a + b)[k] == a[k];
      assert BeforeLink(a) != a + b;
    } else {
      TreeOfCat(a, BeforeLink(b));
      MapCatAssociates(before, TreeOf(a), TreeOf(BeforeLink(b)));
      var k := |BeforeLink(b)|;
      assert BeforeLink(b) != b ==> k < |b|;
      assert k < |b| ==> (a + b)[|a| + k] == b[k];
      assert BeforeLink(b) == b <==> a + BeforeLink(b) == a + b by {
        if a + BeforeLink(b) == a + b {
          assert |BeforeLink(b)| == |b|;
        }
      }
    }
  }

  // ----- the copy, step by step

  class StageDir {
    var tree: Tree

    constructor ()
      ensures tree == map[]
    {
      tree := map[];
    }

    method Walk(entries: seq<Entry>, at: Path, f: Filter) returns (error: Option<Error>)
      requires at != [] && WellFormed(entries)
      modifies this
      ensures error.None? <==> NoLinks(Visit(entries, at, f))
      ensures error.None? ==> tree == old(tree) + Visit(entries, at, f)
      ensures error.Some? ==> error.value.SymlinkAt?
                              && error.value.path in Visit(entries, at, f)
                              && Visit(entries, at, f)[error.value.path] == Link
      ensures Walked(Listing(entries, at, f), old(tree), tree, error)
      decreases entries
    {
      if entries == [] {
        return None;
      }
      VisitPartsDisjoint(entries, at, f);
      NoLinksCat(VisitOne(entries[0], at, f), Visit(entries[1..], at, f));
      ghost var a, b := OneListing(entries[0], at, f), Listing(entries[1..], at, f);
      error := WalkEntry(entries[0], at, f);
      if error.Some? {
        WalkedCat(a, b, old(tree), tree, tree, error, error);
        return;
      }
      ghost var mid := tree;
      MapCatAssociates(old(tree), VisitOne(entries[0], at, f), Visit(entries[1..], at, f));
      error := Walk(entries[1..], at, f);
      WalkedCat(a, b, old(tree), mid, tree, None, error);
    }

    method WalkEntry(entry: Entry, at: Path, f: Filter) returns (error: Option<Error>)
      requires at != [] && (entry.node.Dir? ==> WellFormed(entry.node.entries))
      modifies this
      ensures error.None? <==> NoLinks(VisitOne(entry, at, f))
      ensures error.None? ==> tree == old(tree) + VisitOne(entry, at, f)
      ensures error.Some? ==> error.value.SymlinkAt?
                              && error.value.path in VisitOne(entry, at, f)
                              && VisitOne(entry, at, f)[error.value.path] == Link
      ensures Walked(OneListing(entry, at, f), old(tree), tree, error)
      decreases entry
    {
      var destination := at + [entry.name];
      if !Included(destination, f) {
        return None;
      }
      if entry.node.Symlink? {
        assert VisitOne(entry, at, f)[destination] == Link;
        return Some(SymlinkAt(destination));
      }
      if entry.node.Dir? {
        var inside := Visit(entry.node.entries, destination, f);
        FolderApart(entry.node.entries, destination, f);
        NoLinksCat(map[destination := Folder], inside);
        MapCatAssociates(tree, map[destination := Folder], inside);
        tree := tree[destination := Folder];
        TreeOfOne(destination, Folder);
        ghost var mid := tree;
        assert Walked([(destination, Folder)], old(tree), mid, None);
        error := Walk(entry.node.entries, destination, f);
        ghost var inner := Listing(entry.node.entries, destination, f);
        WalkedCat([(destination, Folder)], inner, old(tree), mid, tree, None, error);
        return;
      }
      if entry.node.File? {
        tree := tree[destination := Leaf(entry.node.data)];
        TreeOfOne(destination, Leaf(entry.node.data));
      }
      return None;
    }

    /** `source` is `None` when it is not a directory. */
    method CopyTree(name: string, source: Option<seq<Entry>>, f: Filter) returns (error: Option<Error>)
      requires source.Some? ==> WellFormed(source.value)
      modifies this
      ensures error.None? <==> source.Some? && NoLinks(Visit(source.value, [name], f))
      ensures source.None? ==> error == Some(MissingDirectory(name))
      ensures error.None? ==> tree == old(tree) + Asset(name, source.value, f)
      ensures source.None? ==> tree == old(tree)
      ensures source.Some? && error.Some? ==> LinkIn(Visit(source.value, [name], f), error.value)
      ensures source.Some? ==> Walked([([name], Folder)] + Listing(source.value, [name], f), old(tree), tree, error)
    {
      if source.None? {
        return Some(MissingDirectory(name));
      }
      MapCatAssociates(tree, map[[name] := Folder], Visit(source.value, [name], f));
      tree := tree[[name] := Folder];
      TreeOfOne([name], Folder);
      ghost var mid, list := tree, Listing(source.value, [name], f);
      assert Walked([([name], Folder)], old(tree), mid, None);
      error := Walk(source.value, [name], f);
      WalkedCat([([name], Folder)], list, old(tree), mid, tree, None, error);
    }

    /** One copied or written file. */
    method Put(name: string, data: Content)
      modifies this
      ensures tree == old(tree) + Single(name, data)
    {
      tree := tree[[name] := Leaf(data)];
    }

    method Stage(root: Root) returns (error: Option<Error>)
      requires tree == map[]
      requires root.Listed()
      modifies this
      ensures error.None? <==> root.Packs()
      ensures error.None? ==> tree == root.Staged()
      ensures error.Some? ==> root.FirstFailure(error.value)
    {
      Put("prime-agent", root.Program());
      assert tree == Single("prime-agent", root.Program());
      Put("models.bundled.json", root.models);
      Put("mcp-services.bundled.json", root.services);
      error := CopyTree("prime-agent-runtime", root.runtime, RUNTIME_EXTRA);
      if error.Some? {
        return;
      }
      error := CopyTree("skills", root.skills, NO_EXTRA);
      if error.Some? {
        return;
      }
      if root.readme.None? {
        return Some(MissingAsset("README.md"));
      }
      Put("README.md", root.readme.value);
      if root.license.None? {
        return Some(MissingAsset("LICENSE"));
      }
      Put("LICENSE", root.license.value);
      Put("package.json", root.PackageJson());
    }
  }

  function Single(name: string, data: Content): Tree { map[[name] := Leaf(data)] }

  lemma FolderApart(entries: seq<Entry>, path: Path, f: Filter)
    requires path != []
    ensures map[path := Folder].Keys !! Visit(entries, path, f).Keys
  {
    forall p | p in Visit(entries, path, f)
      ensures p != path
    {
      VisitPaths(entries, path, f, p);
    }
  }

  function Asset(name: string, entries: seq<Entry>, f: Filter): Tree {
    map[[name] := Folder] + Visit(entries, [name], f)
  }

  /** What is packaged: the two asset trees and the single files. */
  datatype Root = Root(
    runtime: Option<seq<Entry>>, skills: Option<seq<Entry>>, readme: Option<Content>, license: Option<Content>,
    binary: Content, models: Content, services: Content, manifest: string)
  {
    predicate Listed() {
      (runtime.Some? ==> WellFormed(runtime.value)) && (skills.Some? ==> WellFormed(skills.value))
    }

    /** Does staging go through? */
    predicate Packs() {
      && runtime.Some? && skills.Some? && readme.Some? && license.Some?
      && NoLinks(Visit(runtime.value, ["prime-agent-runtime"], RUNTIME_EXTRA))
      && NoLinks(Visit(skills.value, ["skills"], NO_EXTRA))
    }

    predicate RuntimeCopies() { runtime.Some? && NoLinks(Visit(runtime.value, ["prime-agent-runtime"], RUNTIME_EXTRA)) }

    predicate SkillsCopy() { skills.Some? && NoLinks(Visit(skills.value, ["skills"], NO_EXTRA)) }

    /** Which step of the staging fails first, and how. */
    predicate FirstFailure(error: Error) {
      if runtime.None? then error == MissingDirectory("prime-agent-runtime")
      else if !RuntimeCopies() then LinkIn(Visit(runtime.value, ["prime-agent-runtime"], RUNTIME_EXTRA), error)
      else if skills.None? then error == MissingDirectory("skills")
      else if !SkillsCopy() then LinkIn(Visit(skills.value, ["skills"], NO_EXTRA), error)
      else if readme.None? then error == MissingAsset("README.md")
      else license.None? && error == MissingAsset("LICENSE")
    }

    /** The binary after `chmod(0o755)`. */
    function Program(): Content { binary.(executable := true) }

    function PackageJson(): Content { Content(manifest, false) }

    function Staged(): Tree
      requires Packs()
    {
      Single("prime-agent", Program()) + Single("models.bundled.json", models)
      + Single("mcp-services.bundled.json", services)
      + Asset("prime-agent-runtime", runtime.value, RUNTIME_EXTRA)
      + Asset("skills", skills.value, NO_EXTRA)
      + Single("README.md", readme.value) + Single("LICENSE", license.value) + Single("package.json", PackageJson())
    }
  }

  // ----- the flat reading of the filter

  function Child(entries: seq<Entry>, name: string): Option<Node> {
    if entries == [] then None
    else if entries[0].name == name then Some(entries[0].node)
    else Child(entries[1..], name)
  }

  /** The node at a path below a directory, through real directories only. */
  function Lookup(entries: seq<Entry>, path: Path): Option<Node>
    decreases path
  {
    if path == [] then None
    else
      var child := Child(entries, path[0]);
      if child.None? || |path| == 1 then child
      else if child.value.Dir? then Lookup(child.value.entries, path[1..])
      else None
  }

  function ItemOf(node: Node): Option<Item> {
    match node
    case File(data) => Some(Leaf(data))
    case Dir(_) => Some(Folder)
    case Symlink => Some(Link)
    case Other => None
  }

  /** What a flat filter over all paths finds at `path`. */
  function FlatItem(entries: seq<Entry>, at: Path, path: Path, f: Filter): Option<Item>
    requires at != []
  {
    var node := Lookup(entries, path);
    if node.Some? && Included(at + path, f) then ItemOf(node.value) else None
  }

  function ItemAt(tree: Tree, p: Path): Option<Item> { if p in tree then Some(tree[p]) else None }

  lemma IncludedPrefix(at: Path, path: Path, f: Filter)
    requires at != [] && path != [] && Included(at + path, f)
    ensures Included(at + [path[0]], f)
  {
    var whole, part := (at + path)[1..], (at + [path[0]])[1..];
    assert forall k | 0 <= k < |part| :: part[k] == whole[k];
  }

  lemma {:induction false} PruneIsFilter(entries: seq<Entry>, at: Path, path: Path, f: Filter)
    requires at != [] && path != [] && WellFormed(entries)
    ensures ItemAt(Visit(entries, at, f), at + path) == FlatItem(entries, at, path, f)
    decreases entries
  {
    if entries != [] {
      var e, rest := entries[0], entries[1..];
      PruneIsFilter(rest, at, path, f);
      if e.name == path[0] {
        assert at + path !in Visit(rest, at, f) by {
          NotInOthers(rest, at, path, f);
        }
        OnePruneIsFilter(e, at, path, f);
        assert at + path == (at + [e.name]) + path[1..];
      } else {
        if at + path in VisitOne(e, at, f) {
          OnePaths(e, at, f, at + path);
        }
      }
    }
  }

  lemma NotInOthers(rest: seq<Entry>, at: Path, path: Path, f: Filter)
    requires at != [] && path != [] && forall e | e in rest :: e.name != path[0]
    ensures at + path !in Visit(rest, at, f)
  {
    if at + path in Visit(rest, at, f) {
      VisitPaths(rest, at, f, at + path);
    }
  }

  lemma {:induction false} OnePruneIsFilter(e: Entry, at: Path, path: Path, f: Filter)
    requires at != [] && path != [] && e.name == path[0]
    requires e.node.Dir? ==> WellFormed(e.node.entries)
    ensures ItemAt(VisitOne(e, at, f), at + path)
            == if |path| == 1 then (if Included(at + path, f) then ItemOf(e.node) else None)
               else if e.node.Dir? then FlatItem(e.node.entries, at + [e.name], path[1..], f) else None
    decreases e
  {
    var here := at + [e.name];
    if |path| == 1 {
      assert path == [e.name];
      if e.node.Dir? {
        FolderApart(e.node.entries, here, f);
      }
    } else {
      assert at + path == here + path[1..];
      assert |at + path| > |here|;
      if Included(at + path, f) {
        IncludedPrefix(at, path, f);
      }
      if e.node.Dir? {
        PruneIsFilter(e.node.entries, here, path[1..], f);
      }
    }
  }
}
