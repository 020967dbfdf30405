/** Every path of a staged package, and what is there: read off the source trees and the single
    files by name. */
module PackagingContents {
  import opened Text
  import opened Packaging
  import opened PackagingVerdict

  predicate Ends(name: string, suffix: string) { |suffix| <= |name| && name[|name| - |suffix|..] == suffix }

  /** Is a file or directory of this name shipped? The runtime tree leaves out two more. */
  predicate Ships(name: string, runtime: bool) {
    && name != "node_modules" && name != ".venv" && name != "__pycache__" && name != ".pytest_cache"
    && name != ".ruff_cache" && name != ".mypy_cache" && name != ".git" && name != ".DS_Store"
    && !Ends(name, ".pyc") && !Ends(name, ".egg-info")
    && (runtime ==> name != "test" && name != "uv.lock")
  }

  function FilterOf(runtime: bool): Filter { if runtime then RUNTIME_EXTRA else NO_EXTRA }

  lemma ShipsIff(name: string, runtime: bool)
    ensures Ships(name, runtime) <==> !Excluded(name, FilterOf(runtime))
  {
    assert EndsWithAny(name, EXCLUDED_SUFFIXES) <==> Ends(name, ".pyc") || Ends(name, ".egg-info") by {
      assert EXCLUDED_SUFFIXES[0] == ".pyc" && EXCLUDED_SUFFIXES[1] == ".egg-info";
    }
    assert !EndsWithAny(name, []);
  }

  lemma AllShipIff(path: Path, runtime: bool)
    ensures (forall k | 0 <= k < |path| :: Ships(path[k], runtime)) <==> IncludePath(path, FilterOf(runtime))
  {
    forall k | 0 <= k < |path|
      ensures Ships(path[k], runtime) <==> !Excluded(path[k], FilterOf(runtime))
    {
      ShipsIff(path[k], runtime);
    }
  }

  /** What is staged of a source tree: files with their bytes and mode, and directories, wherever
      every name on the way ships. */
  function Shipped(entries: seq<Entry>, path: Path, runtime: bool): Option<Item> {
    if exists k | 0 <= k < |path| :: !Ships(path[k], runtime) then None
    else
      var node := Lookup(entries, path);
      if node.None? then None
      else if node.value.File? then Some(Leaf(Content(node.value.data.bytes, node.value.data.executable)))
      else if node.value.Dir? then Some(Folder)
      else if node.value.Symlink? then Some(Link)
      else None
  }

  lemma ShippedIs(name: string, entries: seq<Entry>, path: Path, runtime: bool)
    requires WellFormed(entries) && path != []
    ensures ItemAt(Asset(name, entries, FilterOf(runtime)), [name] + path) == Shipped(entries, path, runtime)
  {
    AssetIsFilter(name, entries, path, FilterOf(runtime));
    AllShipIff(path, runtime);
    assert ([name] + path)[1..] == path;
  }

  lemma AssetTop(name: string, entries: seq<Entry>, f: Filter)
    ensures ItemAt(Asset(name, entries, f), [name]) == Some(Folder)
  {
    FolderApart(entries, [name], f);
  }

  // ----- the single files

  function SingleFile(root: Root, p: Path): Option<Item>
    requires root.Packs()
  {
    if p == ["package.json"] then Some(Leaf(Content(root.manifest, false)))
    else if p == ["LICENSE"] then Some(Leaf(root.license.value))
    else if p == ["README.md"] then Some(Leaf(root.readme.value))
    else if p == ["mcp-services.bundled.json"] then Some(Leaf(root.services))
    else if p == ["models.bundled.json"] then Some(Leaf(root.models))
    else if p == ["prime-agent"] then Some(Leaf(Content(root.binary.bytes, true)))
    else None
  }

  lemma Added(tree: Tree, name: string, data: Content, p: Path)
    ensures ItemAt(tree + Single(name, data), p) == if p == [name] then Some(Leaf(data)) else ItemAt(tree, p)
  {
  }

  lemma FilesAre(root: Root, p: Path)
    requires root.Packs()
    ensures ItemAt(Files(root), p) == SingleFile(root, p)
  {
    var a := Single("prime-agent", root.Program());
    var b := a + Single("models.bundled.json", root.models);
    var c := b + Single("mcp-services.bundled.json", root.services);
    var d := c + Single("README.md", root.readme.value);
    var e := d + Single("LICENSE", root.license.value);
    Added(map[], "prime-agent", root.Program(), p);
    assert map[] + a == a;
    Added(a, "models.bundled.json", root.models, p);
    Added(b, "mcp-services.bundled.json", root.services, p);
    Added(c, "README.md", root.readme.value, p);
    Added(d, "LICENSE", root.license.value, p);
    Added(e, "package.json", root.PackageJson(), p);
  }

  // ----- the package

  function Packed(root: Root, p: Path): Option<Item>
    requires root.Packs()
  {
    if p == [] then None
    else if p[0] == "prime-agent-runtime" then
      if |p| == 1 then Some(Folder) else Shipped(root.runtime.value, p[1..], true)
    else if p[0] == "skills" then
      if |p| == 1 then Some(Folder) else Shipped(root.skills.value, p[1..], false)
    else SingleFile(root, p)
  }

  lemma AssetAt(name: string, entries: seq<Entry>, runtime: bool, p: Path)
    requires WellFormed(entries) && p != [] && p[0] == name
    ensures ItemAt(Asset(name, entries, FilterOf(runtime)), p)
            == if |p| == 1 then Some(Folder) else Shipped(entries, p[1..], runtime)
  {
    assert p == [name] + p[1..];
    if |p| == 1 {
      assert p == [name];
      AssetTop(name, entries, FilterOf(runtime));
    } else {
      ShippedIs(name, entries, p[1..], runtime);
    }
  }

  lemma NothingAtRoot(root: Root)
    requires root.Listed() && root.Packs()
    ensures [] !in root.Staged()
  {
    StagedIsClean(root);
  }

  /** The staged package, exactly: at every path what the sources have there, and nothing else. */
  lemma StagedExactly(root: Root, p: Path)
    requires root.Listed() && root.Packs()
    ensures ItemAt(root.Staged(), p) == Packed(root, p)
  {
    if p == [] {
      NothingAtRoot(root);
    } else {
      StagedAt(root, p);
      FilesAre(root, p);
      if p[0] == "prime-agent-runtime" {
        AssetAt("prime-agent-runtime", root.runtime.value, true, p);
      } else if p[0] == "skills" {
        AssetAt("skills", root.skills.value, false, p);
      }
    }
  }
}
