/** The recursive comparison of two directory trees (`archive/changes.go`). */
module Changes {
  import opened Sequences
  import opened Wrappers
  import opened Filesystem

  datatype ChangeKind = Modify | Add | Delete

  datatype Change = Change(path: Path, kind: ChangeKind)

  /** What `collectFileInfo` keeps of an entry. The path of a node is passed along instead of being
      rebuilt from parent pointers. */
  datatype FileInfo = FileInfo(stat: Stat, capability: Option<Bytes>, children: map<Name, FileInfo>)

  /** The root carries no metadata, so it counts as a directory whatever its stat says. */
  predicate IsDir(path: Path, info: FileInfo) {
    path == [] || info.stat.kind.Directory?
  }

  /** Only directories have children. */
  ghost predicate ValidTree(path: Path, info: FileInfo)
    decreases info
  {
    && (!IsDir(path, info) ==> info.children == map[])
    && (forall name :: name in info.children ==> ValidTree(path + [name], info.children[name]))
  }

  function At(info: FileInfo, path: Path): Option<FileInfo> {
    if path == [] then Some(info)
    else if path[0] in info.children then At(info.children[path[0]], path[1..])
    else None
  }

  function AtOption(info: Option<FileInfo>, path: Path): Option<FileInfo> {
    if info.Some? then At(info.value, path) else None
  }

  /** The loop of `LookUp` over the elements of a path. */
  method LookUp(root: FileInfo, path: Path) returns (found: Option<FileInfo>)
    ensures found == At(root, path)
  {
    var parent := root;
    for i := 0 to |path|
      invariant At(root, path) == At(parent, path[i..])
    {
      if path[i] !in parent.children {
        return None;
      }
      parent := parent.children[path[i]];
    }
    return Some(parent);
  }

  /** The one entry, if any, that comparing `info` at `path` with `oldInfo` owes to the relative
      path `r` below it. The node itself (`r == []`) is reported here only when it is new: its
      modification is reported by the comparison of its parent. */
  function Owed(path: Path, info: FileInfo, oldInfo: Option<FileInfo>, r: Path): Option<ChangeKind> {
    var n := At(info, r);
    var o := AtOption(oldInfo, r);
    if n.Some? && o.None? then Some(Add)
    else if r == [] then None
    else if n.Some? && o.Some? then
      if StatDiffers(o.value.stat, o.value.capability, n.value.stat, n.value.capability) then Some(Modify) else None
    else if o.Some? then
      var parent := At(info, Parent(r));
      if parent.Some? && IsDir(path + Parent(r), parent.value) then Some(Delete) else None
    else None
  }

  /** No path is listed twice, and none after an entry below it. */
  ghost predicate AncestorsFirst(cs: seq<Change>) {
    forall i, j :: 0 <= i < j < |cs| ==> MayPrecede(cs, i, j)
  }

  ghost predicate MayPrecede(cs: seq<Change>, i: nat, j: nat)
    requires i < j < |cs|
  {
    !(cs[j].path <= cs[i].path)
  }

  /** `cs` lists exactly what is owed below `path`, for the relative paths that `scope` admits. */
  ghost predicate Lists(cs: seq<Change>, path: Path, info: FileInfo, oldInfo: Option<FileInfo>, scope: iset<Path>) {
    && (forall c :: c in cs ==> path <= c.path && c.path[|path|..] in scope
                                && Owed(path, info, oldInfo, c.path[|path|..]) == Some(c.kind))
    && (forall r :: r in scope && Owed(path, info, oldInfo, r).Some? ==>
                      Change(path + r, Owed(path, info, oldInfo, r).value) in cs)
    && AncestorsFirst(cs)
  }

  /** The relative paths at or below one of `names`, with the node itself. */
  ghost function Below(names: set<Name>): iset<Path> {
    iset r: Path | r == [] || r[0] in names
  }

  ghost const Everywhere: iset<Path> := iset r: Path | true

  lemma AtBelow(info: FileInfo, name: Name, r: Path)
    ensures At(info, [name] + r) == (if name in info.children then At(info.children[name], r) else None)
  {
    assert ([name] + r)[0] == name && ([name] + r)[1..] == r;
  }

  /** Comparing a child is what the comparison of its parent owes below that child. */
  lemma OwedBelow(path: Path, info: FileInfo, oldInfo: Option<FileInfo>, name: Name, r: Path)
    requires name in info.children
    ensures var child := info.children[name];
            var oldChild := AtOption(oldInfo, [name]);
            Owed(path, info, oldInfo, [name] + r) ==
            if r == [] && oldChild.Some? then
              if StatDiffers(oldChild.value.stat, oldChild.value.capability, child.stat, child.capability)
              then Some(Modify) else None
            else Owed(path + [name], child, oldChild, r)
  {
    AtBelow(info, name, r);
    AtBelow(info, name, []);
    assert [name] + [] == [name];
    if oldInfo.Some? {
      AtBelow(oldInfo.value, name, r);
      AtBelow(oldInfo.value, name, []);
    }
    if r != [] {
      assert Parent([name] + r) == [name] + Parent(r);
      AtBelow(info, name, Parent(r));
      assert path + ([name] + Parent(r)) == path + [name] + Parent(r);
    }
  }

  /** The entry that a comparison reports for a child before descending into it. */
  function OwnEntry(path: Path, child: FileInfo, oldChild: Option<FileInfo>): seq<Change> {
    if oldChild.Some? && StatDiffers(oldChild.value.stat, oldChild.value.capability, child.stat, child.capability)
    then [Change(path, Modify)] else []
  }

  /** Adding the listing of one child, preceded by the entry for the child itself. */
  lemma ListsChild(cs: seq<Change>, below: seq<Change>, path: Path, info: FileInfo,
                   oldInfo: Option<FileInfo>, done: set<Name>, name: Name)
    requires name in info.children && name !in done
    requires Lists(cs, path, info, oldInfo, Below(done))
    requires Lists(below, path + [name], info.children[name], AtOption(oldInfo, [name]), Everywhere)
    ensures Lists(cs + OwnEntry(path + [name], info.children[name], AtOption(oldInfo, [name])) + below,
                  path, info, oldInfo, Below(done + {name}))
  {
    var own := OwnEntry(path + [name], info.children[name], AtOption(oldInfo, [name]));
    var all := cs + own + below;
    forall c | c in all
      ensures path <= c.path && c.path[|path|..] in Below(done + {name})
      ensures Owed(path, info, oldInfo, c.path[|path|..]) == Some(c.kind)
    {
      if c !in cs {
        ListsChildSound(below, path, info, oldInfo, name, c);
      }
    }
    forall r | r in Below(done + {name}) && Owed(path, info, oldInfo, r).Some?
      ensures Change(path + r, Owed(path, info, oldInfo, r).value) in all
    {
      if r !in Below(done) {
        ListsChildComplete(below, path, info, oldInfo, name, r);
      }
    }
    ListsChildOrder(cs, own, below, path, name, done);
  }

  lemma ListsChildSound(below: seq<Change>, path: Path, info: FileInfo, oldInfo: Option<FileInfo>, name: Name,
                        c: Change)
    requires name in info.children
    requires Lists(below, path + [name], info.children[name], AtOption(oldInfo, [name]), Everywhere)
    requires c in OwnEntry(path + [name], info.children[name], AtOption(oldInfo, [name])) + below
    ensures path + [name] <= c.path && c.path[|path|] == name
    ensures Owed(path, info, oldInfo, c.path[|path|..]) == Some(c.kind)
  {
    assert path + [name] <= c.path;
    var r := c.path[|path + [name]|..];
    assert c.path[|path|..] == [name] + r;
    OwedBelow(path, info, oldInfo, name, r);
    if c in below {
      assert r in Everywhere;
    }
  }

  lemma ListsChildComplete(below: seq<Change>, path: Path, info: FileInfo, oldInfo: Option<FileInfo>, name: Name,
                           r: Path)
    requires name in info.children
    requires Lists(below, path + [name], info.children[name], AtOption(oldInfo, [name]), Everywhere)
    requires r != [] && r[0] == name && Owed(path, info, oldInfo, r).Some?
    ensures Change(path + r, Owed(path, info, oldInfo, r).value)
            in OwnEntry(path + [name], info.children[name], AtOption(oldInfo, [name])) + below
  {
    assert r == [name] + r[1..];
    OwedBelow(path, info, oldInfo, name, r[1..]);
    assert path + r == path + [name] + r[1..];
    assert r[1..] in Everywhere;
    if r[1..] == [] {
      assert path + r == path + [name];
    }
  }

  lemma ListsChildOrder(cs: seq<Change>, own: seq<Change>, below: seq<Change>, path: Path, name: Name, done: set<Name>)
    requires name !in done
    requires AncestorsFirst(cs) && AncestorsFirst(below)
    requires forall c :: c in cs ==> path <= c.path && c.path[|path|..] in Below(done)
    requires forall c :: c in below ==> path + [name] <= c.path
    requires own == [] || own == [Change(path + [name], Modify)]
    requires own != [] ==> forall c :: c in below ==> c.path != path + [name]
    ensures AncestorsFirst(cs + own + below)
  {
    var all := cs + own + below;
    forall i, j | 0 <= i < j < |all|
      ensures MayPrecede(all, i, j)
    {
      if j < |cs| {
        assert MayPrecede(cs, i, j);
      } else if |cs| + |own| <= i {
        assert MayPrecede(below, i - |cs| - |own|, j - |cs| - |own|);
      } else if i < |cs| {
        assert all[i] in cs;
        assert all[j] in own || all[j] in below;
        assert all[j].path[|path|] == name;
        var r := all[i].path[|path|..];
        assert r == [] || all[i].path[|path|] == r[0];
      } else {
        assert all[i].path == path + [name];
        assert all[j] == below[j - |cs| - |own|];
      }
    }
  }

  /** A node's own entry: it is listed when there is nothing to compare it with. */
  lemma ListsNode(cs: seq<Change>, path: Path, info: FileInfo, oldInfo: Option<FileInfo>)
    requires cs == if oldInfo.None? then [Change(path, Add)] else []
    ensures Lists(cs, path, info, oldInfo, Below({}))
  {
    assert path[|path|..] == [];
    assert path + [] == path;
  }

  /** Adding the deletion of an old child that has no new counterpart. */
  lemma ListsDeletion(cs: seq<Change>, path: Path, info: FileInfo, oldInfo: FileInfo, done: set<Name>, name: Name)
    requires ValidTree(path, info)
    requires info.children.Keys <= done && name !in done && name in oldInfo.children && IsDir(path, info)
    requires Lists(cs, path, info, Some(oldInfo), Below(done))
    ensures Lists(cs + [Change(path + [name], Delete)], path, info, Some(oldInfo), Below(done + {name}))
  {
    var e := Change(path + [name], Delete);
    var all := cs + [e];
    forall r: Path | r != [] && r[0] == name
      ensures Owed(path, info, Some(oldInfo), r) == if r == [name] then Some(Delete) else None
    {
      assert r == [name] + r[1..];
      AtBelow(info, name, r[1..]);
      AtBelow(oldInfo, name, r[1..]);
      if r[1..] == [] {
        assert path + [] == path;
      } else {
        assert Parent(r) == [name] + Parent(r[1..]);
        AtBelow(info, name, Parent(r[1..]));
      }
    }
    assert e.path[|path|..] == [name];
    forall i, j | 0 <= i < j < |all|
      ensures MayPrecede(all, i, j)
    {
      assert all[i] in cs;
      if j < |cs| {
        assert MayPrecede(cs, i, j);
      } else {
        var r := all[i].path[|path|..];
        assert r == [] || all[i].path[|path|] == r[0];
      }
    }
  }

  /** Once every name on either side is dealt with, nothing is left to list. */
  lemma ListsAll(cs: seq<Change>, path: Path, info: FileInfo, oldInfo: Option<FileInfo>, done: set<Name>)
    requires ValidTree(path, info)
    requires info.children.Keys <= done
    requires Remaining(path, info, oldInfo, done) == map[]
    requires Lists(cs, path, info, oldInfo, Below(done))
    ensures Lists(cs, path, info, oldInfo, Everywhere)
  {
    assert oldInfo.Some? && IsDir(path, info) ==>
        forall name :: name in oldInfo.value.children && name !in done ==> name in Remaining(path, info, oldInfo, done);
    forall r: Path | r !in Below(done)
      ensures Owed(path, info, oldInfo, r) == None
    {
      assert At(info, r) == None;
      if |r| > 1 {
        assert Parent(r)[0] == r[0];
        assert At(info, Parent(r)) == None;
      } else {
        assert path + Parent(r) == path;
      }
    }
  }

  /** The copy of the old children from which the names already dealt with have been deleted. */
  function Remaining(path: Path, info: FileInfo, oldInfo: Option<FileInfo>, done: set<Name>): map<Name, FileInfo> {
    if oldInfo.Some? && IsDir(path, info) then oldInfo.value.children - done else map[]
  }

  lemma RemainingIsOld(path: Path, info: FileInfo, oldInfo: Option<FileInfo>, done: set<Name>, name: Name)
    requires ValidTree(path, info) && name in info.children && name !in done
    ensures var rest := Remaining(path, info, oldInfo, done);
            (if name in rest then Some(rest[name]) else None) == AtOption(oldInfo, [name])
  {
    assert [name] + [] == [name];
    if oldInfo.Some? {
      AtBelow(oldInfo.value, name, []);
    }
  }

  lemma RemainingShrinks(path: Path, info: FileInfo, oldInfo: Option<FileInfo>, done: set<Name>, name: Name)
    ensures Remaining(path, info, oldInfo, done) - {name} == Remaining(path, info, oldInfo, done + {name})
  {
  }

  /** `addChanges`: the listing of everything at and below `info` is appended to `changes`. The two
      loops visit the maps in any order. */
  method AddChanges(path: Path, info: FileInfo, oldInfo: Option<FileInfo>, changes: seq<Change>)
    returns (changes': seq<Change>, ghost listed: seq<Change>)
    requires ValidTree(path, info)
    ensures changes' == changes + listed
    ensures changes <= changes' && Lists(changes'[|changes|..], path, info, oldInfo, Everywhere)
    decreases info
  {
    changes', listed := changes, [];
    if oldInfo == None {
      changes', listed := changes' + [Change(path, Add)], [Change(path, Add)];
    }
    ghost var done: set<Name> := {};
    ListsNode(listed, path, info, oldInfo);

    var oldChildren: map<Name, FileInfo> := map[];
    if oldInfo.Some? && IsDir(path, info) {
      oldChildren := oldInfo.value.children;
    }

    var todo := info.children.Keys;
    while todo != {}
      invariant todo !! done && todo + done == info.children.Keys
      invariant changes' == changes + listed
      invariant Lists(listed, path, info, oldInfo, Below(done))
      invariant oldChildren == Remaining(path, info, oldInfo, done)
      decreases todo
    {
      var name :| name in todo;
      todo := todo - {name};
      var newChild := info.children[name];
      RemainingIsOld(path, info, oldInfo, done, name);
      RemainingShrinks(path, info, oldInfo, done, name);
      var oldChild := if name in oldChildren then Some(oldChildren[name]) else None;
      ghost var own := OwnEntry(path + [name], newChild, oldChild);
      Regroup(changes, listed, own);
      if oldChild.Some? &&
         StatDiffers(oldChild.value.stat, oldChild.value.capability, newChild.stat, newChild.capability) {
        changes' := changes' + [Change(path + [name], Modify)];
      } else {
        assert changes' == changes' + own;
      }
      oldChildren := oldChildren - {name};
      ghost var below;
      ghost var before := changes';
      changes', below := AddChanges(path + [name], newChild, oldChild, changes');
      assert (before + below)[|before|..] == below;
      Regroup(changes, listed + own, below);
      ListsChild(listed, below, path, info, oldInfo, done, name);
      listed := listed + own + below;
      done := done + {name};
    }

    while oldChildren != map[]
      invariant info.children.Keys <= done
      invariant changes' == changes + listed
      invariant Lists(listed, path, info, oldInfo, Below(done))
      invariant oldChildren == Remaining(path, info, oldInfo, done)
      decreases oldChildren.Keys
    {
      var name :| name in oldChildren;
      Regroup(changes, listed, [Change(path + [name], Delete)]);
      changes' := changes' + [Change(path + [name], Delete)];
      oldChildren := oldChildren - {name};
      ListsDeletion(listed, path, info, oldInfo.value, done, name);
      RemainingShrinks(path, info, oldInfo, done, name);
      listed := listed + [Change(path + [name], Delete)];
      done := done + {name};
    }
    ListsAll(listed, path, info, oldInfo, done);
    assert changes'[|changes|..] == listed;
  }
}
