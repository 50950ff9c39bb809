/** Comparing two directories on disk: collecting each into a tree and listing the changes
    (`collectFileInfo` and `ChangesDirs` in `archive/changes.go`). */
module ChangesDirs {
  import opened Wrappers
  import opened Filesystem
  import opened Changes

  /** The entry, if any, that a layer holds for path `p`. */
  function Expected(newDisk: Disk, oldDisk: Disk, p: Path): Option<ChangeKind> {
    if p == [] then None
    else if p in newDisk && p !in oldDisk then Some(Add)
    else if p in newDisk && p in oldDisk then
      if Differs(oldDisk[p], newDisk[p]) then Some(Modify) else None
    else if p in oldDisk && Parent(p) in newDisk && (Parent(p) == [] || newDisk[Parent(p)].IsDir()) then Some(Delete)
    else None
  }

  /** `cs` holds exactly the expected entries, each path once, no entry after one below it. */
  ghost predicate IsChangeList(cs: seq<Change>, newDisk: Disk, oldDisk: Disk) {
    && (forall c :: c in cs ==> Expected(newDisk, oldDisk, c.path) == Some(c.kind))
    && (forall p :: Expected(newDisk, oldDisk, p).Some? ==> Change(p, Expected(newDisk, oldDisk, p).value) in cs)
    && AncestorsFirst(cs)
  }

  datatype Meta = Meta(stat: Stat, capability: Option<Bytes>)

  function MetaOf(info: Option<FileInfo>): Option<Meta> {
    if info.Some? then Some(Meta(info.value.stat, info.value.capability)) else None
  }

  /** The tree has a node for every path, with the metadata found on disk (the root has none). */
  ghost predicate Mirrors(root: FileInfo, paths: set<Path>, d: Disk)
    requires paths <= d.Keys
  {
    forall p :: if p == [] then [] in paths
                else MetaOf(At(root, p)) == if p in paths then Some(Meta(d[p].stat, d[p].capability)) else None
  }

  /** `parent.children[info.name] = info` for the parent found by `LookUp`. */
  function Put(root: FileInfo, path: Path, info: FileInfo): FileInfo
    requires path != []
  {
    if |path| == 1 then root.(children := root.children[path[0] := info])
    else if path[0] in root.children then
      root.(children := root.children[path[0] := Put(root.children[path[0]], path[1..], info)])
    else root
  }

  lemma {:induction false} PutAt(root: FileInfo, path: Path, info: FileInfo, q: Path)
    requires path != [] && At(root, Parent(path)).Some? && At(root, path) == None && info.children == map[]
    ensures MetaOf(At(Put(root, path, info), q)) == if q == path then MetaOf(Some(info)) else MetaOf(At(root, q))
    decreases |path|
  {
    if q != [] && q[0] == path[0] {
      assert q == [path[0]] + q[1..] && path == [path[0]] + path[1..];
      if |path| > 1 {
        assert Parent(path)[0] == path[0] && Parent(path)[1..] == Parent(path[1..]);
        PutAt(root.children[path[0]], path[1..], info, q[1..]);
      }
    }
  }

  /** Every path once, each after its parent: what a walk of the directory yields. */
  ghost predicate IsWalk(walk: seq<Path>, d: Disk) {
    && (forall p :: p in walk <==> p in d)
    && (forall i, j :: 0 <= i < j < |walk| ==> walk[i] != walk[j])
    && (forall i :: 0 <= i < |walk| ==> ParentVisited(walk, i))
  }

  ghost predicate ParentVisited(walk: seq<Path>, i: nat)
    requires i < |walk|
  {
    walk[i] != [] ==> Parent(walk[i]) in walk[..i]
  }

  const ROOT_STAT := Stat(Regular, 0, 0, 0, 0, 0, Timespec(0, 0))

  lemma PutMirrors(root: FileInfo, seen: set<Path>, d: Disk, p: Path)
    requires seen <= d.Keys && Mirrors(root, seen, d)
    requires p in d && p != [] && p !in seen && Parent(p) in seen
    ensures At(root, Parent(p)).Some?
    ensures Mirrors(Put(root, p, FileInfo(d[p].stat, d[p].capability, map[])), seen + {p}, d)
  {
    assert Parent(p) == [] || MetaOf(At(root, Parent(p))).Some?;
    assert MetaOf(At(root, p)) == None;
    forall q {
      PutAt(root, p, FileInfo(d[p].stat, d[p].capability, map[]), q);
    }
  }

  /** The visits of `filepath.Walk`, each filed under its parent's node. */
  method CollectFileInfo(d: Disk, walk: seq<Path>) returns (root: Option<FileInfo>)
    requires ValidDisk(d) && IsWalk(walk, d)
    ensures root.Some? && Mirrors(root.value, d.Keys, d) && ValidTree([], root.value)
  {
    var tree := FileInfo(ROOT_STAT, None, map[]);
    ghost var seen: set<Path> := {[]};
    for i := 0 to |walk|
      invariant seen <= d.Keys && Mirrors(tree, seen, d)
      invariant forall p :: p in seen <==> p == [] || p in walk[..i]
    {
      var relPath := walk[i];
      assert walk[..i + 1] == walk[..i] + [relPath];
      assert relPath !in walk[..i];
      assert ParentVisited(walk, i);
      if relPath != [] {
        PutMirrors(tree, seen, d, relPath);
        var parent := LookUp(tree, Parent(relPath));
        if parent == None {
          assert false;
          return None;
        }
        tree := Put(tree, relPath, FileInfo(d[relPath].stat, d[relPath].capability, map[]));
        seen := seen + {relPath};
      }
    }
    assert seen == d.Keys by {
      assert walk[..|walk|] == walk;
    }
    forall r ensures SameBelow(tree, [], tree, r) {
      assert [] + r == r;
    }
    MirrorIsValid(tree, [], tree, d);
    return Some(tree);
  }

  /** `info` is the node at `path`, as far as `r` below it tells. */
  ghost predicate SameBelow(root: FileInfo, path: Path, info: FileInfo, r: Path) {
    At(root, path + r) == At(info, r)
  }

  ghost predicate IsNodeAt(root: FileInfo, path: Path, info: FileInfo) {
    forall r :: SameBelow(root, path, info, r)
  }

  lemma ChildIsNode(root: FileInfo, path: Path, info: FileInfo, name: Name)
    requires IsNodeAt(root, path, info) && name in info.children
    ensures IsNodeAt(root, path + [name], info.children[name])
    ensures At(root, path) == Some(info) && At(root, path + [name]) == Some(info.children[name])
  {
    assert SameBelow(root, path, info, []) && path + [] == path;
    forall r ensures SameBelow(root, path + [name], info.children[name], r) {
      assert SameBelow(root, path, info, [name] + r);
      AtBelow(info, name, r);
      assert path + ([name] + r) == path + [name] + r;
    }
    assert SameBelow(root, path + [name], info.children[name], []) && path + [name] + [] == path + [name];
  }

  lemma ParentIsDir(root: FileInfo, path: Path, info: FileInfo, name: Name, d: Disk)
    requires ValidDisk(d) && Mirrors(root, d.Keys, d)
    requires At(root, path) == Some(info) && At(root, path + [name]).Some?
    ensures IsDir(path, info)
  {
    assert Parent(path + [name]) == path;
    assert MetaOf(At(root, path + [name])).Some?;
    assert path == [] || MetaOf(At(root, path)) == Some(Meta(d[path].stat, d[path].capability));
  }

  lemma {:induction false} MirrorIsValid(root: FileInfo, path: Path, info: FileInfo, d: Disk)
    requires ValidDisk(d) && Mirrors(root, d.Keys, d) && IsNodeAt(root, path, info)
    ensures ValidTree(path, info)
    decreases info
  {
    forall name | name in info.children
      ensures IsDir(path, info) && ValidTree(path + [name], info.children[name])
    {
      ChildIsNode(root, path, info, name);
      ParentIsDir(root, path, info, name, d);
      MirrorIsValid(root, path + [name], info.children[name], d);
    }
  }

  lemma OwedIsExpected(newRoot: FileInfo, oldRoot: FileInfo, newDisk: Disk, oldDisk: Disk, p: Path)
    requires Mirrors(newRoot, newDisk.Keys, newDisk) && Mirrors(oldRoot, oldDisk.Keys, oldDisk)
    ensures Owed([], newRoot, Some(oldRoot), p) == Expected(newDisk, oldDisk, p)
  {
    if p != [] {
      assert MetaOf(At(newRoot, p)).Some? <==> p in newDisk;
      assert MetaOf(At(oldRoot, p)).Some? <==> p in oldDisk;
      if Parent(p) != [] {
        assert MetaOf(At(newRoot, Parent(p))).Some? <==> Parent(p) in newDisk;
      }
      assert [] + Parent(p) == Parent(p);
    }
  }

  /** `ChangesDirs`: the changes that turn the old directory into the new one. */
  method CompareDirs(newDisk: Disk, newWalk: seq<Path>, oldDisk: Disk, oldWalk: seq<Path>)
    returns (changes: Option<seq<Change>>)
    requires ValidDisk(newDisk) && IsWalk(newWalk, newDisk)
    requires ValidDisk(oldDisk) && IsWalk(oldWalk, oldDisk)
    ensures changes.Some? && IsChangeList(changes.value, newDisk, oldDisk)
  {
    var oldRoot := CollectFileInfo(oldDisk, oldWalk);
    var newRoot := CollectFileInfo(newDisk, newWalk);
    if oldRoot.None? || newRoot.None? {
      return None;
    }
    var cs, listed := AddChanges([], newRoot.value, oldRoot, []);
    assert cs == listed == cs[0..];
    forall p ensures Owed([], newRoot.value, oldRoot, p) == Expected(newDisk, oldDisk, p) {
      OwedIsExpected(newRoot.value, oldRoot.value, newDisk, oldDisk, p);
    }
    assert forall c :: c in cs ==> c.path[0..] == c.path;
    assert forall p: Path :: [] + p == p;
    return Some(cs);
  }
}
