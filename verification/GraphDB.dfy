/** The entity graph of `pkg/graphdb/graphdb.go`: two tables, a unique (parent, name) index, and
    entities found by walking named edges from the root. */
module GraphDB {
  import opened Wrappers
  import opened GraphPaths

  type Id = string

  /** A row of the edge table; only the root's own row has no parent. */
  datatype Edge = Edge(parent: Option<Id>, name: string, entity: Id)

  const ROOT: Id := "0"
  const ROOT_EDGE := Edge(None, "/", ROOT)

  /** The index `name_parent_ix`: absent parents are all distinct to it. */
  ghost predicate Unique(edges: set<Edge>) {
    forall e, f :: e in edges && f in edges && e.parent.Some? && e.parent == f.parent && e.name == f.name ==> e == f
  }

  /** The only row without a parent is the root's own. */
  ghost predicate OneRoot(edges: set<Edge>) {
    forall e :: e in edges && e.parent.None? ==> e == ROOT_EDGE
  }

  predicate HasChild(edges: set<Edge>, parent: Id, name: string) {
    exists e :: e in edges && e.parent == Some(parent) && e.name == name
  }

  /** The entity at the end of the edge `name` of `parent`. */
  ghost function Child(edges: set<Edge>, parent: Id, name: string): (c: Option<Id>)
    ensures c.Some? ==> Edge(Some(parent), name, c.value) in edges
    ensures c.None? ==> !HasChild(edges, parent, name)
  {
    if HasChild(edges, parent, name) then
      var e :| e in edges && e.parent == Some(parent) && e.name == name;
      Some(e.entity)
    else None
  }

  /** Walking the components of a path from an entity. */
  ghost function Resolve(edges: set<Edge>, from: Id, comps: seq<string>): Option<Id>
    decreases |comps|
  {
    if comps == [] then Some(from)
    else
      var next := Child(edges, from, comps[0]);
      if next.None? then None else Resolve(edges, next.value, comps[1..])
  }

  /** The walk along `comps` takes the step `name` at entity `parent`. */
  ghost predicate Takes(edges: set<Edge>, from: Id, comps: seq<string>, parent: Id, name: string)
    decreases |comps|
  {
    comps != [] &&
    ((from == parent && comps[0] == name) ||
     (var next := Child(edges, from, comps[0]);
      next.Some? && Takes(edges, next.value, comps[1..], parent, name)))
  }

  lemma ChildIsUnique(edges: set<Edge>, parent: Id, name: string, entity: Id)
    requires Unique(edges) && Edge(Some(parent), name, entity) in edges
    ensures Child(edges, parent, name) == Some(entity)
  {
  }

  lemma {:induction false} ResolveAppend(edges: set<Edge>, from: Id, a: seq<string>, b: seq<string>)
    ensures Resolve(edges, from, a + b) ==
            (var mid := Resolve(edges, from, a); if mid.None? then None else Resolve(edges, mid.value, b))
    decreases |a|
  {
    if a == [] {
      assert a + b == b;
    } else {
      assert (a + b)[1..] == a[1..] + b;
      var next := Child(edges, from, a[0]);
      if next.Some? {
        ResolveAppend(edges, next.value, a[1..], b);
      }
    }
  }

  // ---------------------------------------------------------------- the four updates

  /** A new edge changes no walk that did not lack it. */
  lemma {:induction false} InsertKeeps(edges: set<Edge>, parent: Id, name: string, entity: Id, from: Id,
                                       comps: seq<string>)
    requires Unique(edges) && !HasChild(edges, parent, name)
    requires Resolve(edges, from, comps).Some?
    ensures Resolve(edges + {Edge(Some(parent), name, entity)}, from, comps) == Resolve(edges, from, comps)
    decreases |comps|
  {
    if comps == [] {
    } else {
      var next := Child(edges, from, comps[0]);
      var edges' := edges + {Edge(Some(parent), name, entity)};
      assert Unique(edges');
      ChildIsUnique(edges', from, comps[0], next.value);
      InsertKeeps(edges, parent, name, entity, next.value, comps[1..]);
    }
  }

  lemma InsertKeepsIndex(edges: set<Edge>, parent: Id, name: string, entity: Id)
    requires Unique(edges) && OneRoot(edges) && !HasChild(edges, parent, name)
    ensures Unique(edges + {Edge(Some(parent), name, entity)}) && OneRoot(edges + {Edge(Some(parent), name, entity)})
  {
  }

  /** `Set`: the path now leads to the entity, and every path that led somewhere still does. */
  lemma SetLaw(edges: set<Edge>, parentComps: seq<string>, parent: Id, name: string, entity: Id)
    requires Unique(edges) && !HasChild(edges, parent, name)
    requires Resolve(edges, ROOT, parentComps) == Some(parent)
    ensures var edges' := edges + {Edge(Some(parent), name, entity)};
            && Resolve(edges', ROOT, parentComps + [name]) == Some(entity)
            && forall q :: Resolve(edges, ROOT, q).Some? ==> Resolve(edges', ROOT, q) == Resolve(edges, ROOT, q)
  {
    var edges' := edges + {Edge(Some(parent), name, entity)};
    forall q | Resolve(edges, ROOT, q).Some?
      ensures Resolve(edges', ROOT, q) == Resolve(edges, ROOT, q)
    {
      InsertKeeps(edges, parent, name, entity, ROOT, q);
    }
    assert Unique(edges');
    ChildIsUnique(edges', parent, name, entity);
    ResolveAppend(edges', ROOT, parentComps, [name]);
  }

  /** The rows that `DELETE FROM edge WHERE parent_id = ? AND name = ?` leaves. */
  function Cut(edges: set<Edge>, parent: Id, name: string): set<Edge> {
    set e | e in edges && !(e.parent == Some(parent) && e.name == name)
  }

  /** `Delete`: exactly the walks that took the edge are lost. */
  lemma {:induction false} DeleteLaw(edges: set<Edge>, parent: Id, name: string, from: Id, comps: seq<string>)
    requires Unique(edges)
    ensures Resolve(Cut(edges, parent, name), from, comps) ==
            if Takes(edges, from, comps, parent, name) then None else Resolve(edges, from, comps)
    decreases |comps|
  {
    if comps == [] {
    } else {
      var edges' := Cut(edges, parent, name);
      var next := Child(edges, from, comps[0]);
      if from == parent && comps[0] == name {
        assert Child(edges', from, comps[0]).None?;
      } else if next.Some? {
        ChildIsUnique(edges', from, comps[0], next.value);
        DeleteLaw(edges, parent, name, next.value, comps[1..]);
      }
    }
  }

  /** The path with every step `name` taken at `parent` replaced by `newName`. */
  ghost function Relabel(edges: set<Edge>, from: Id, comps: seq<string>, parent: Id, name: string,
                         newName: string): seq<string>
    decreases |comps|
  {
    if comps == [] then []
    else
      var next := Child(edges, from, comps[0]);
      [if from == parent && comps[0] == name then newName else comps[0]] +
      if next.None? then comps[1..] else Relabel(edges, next.value, comps[1..], parent, name, newName)
  }

  ghost function Relabelled(edges: set<Edge>, parent: Id, name: string, newName: string, entity: Id): set<Edge> {
    Cut(edges, parent, name) + {Edge(Some(parent), newName, entity)}
  }

  lemma RelabelledIsUnique(edges: set<Edge>, parent: Id, name: string, newName: string, entity: Id)
    requires Unique(edges) && Edge(Some(parent), name, entity) in edges
    requires newName != name ==> !HasChild(edges, parent, newName)
    ensures Unique(Relabelled(edges, parent, name, newName, entity))
  {
    forall e | e in Cut(edges, parent, name)
      ensures !(e.parent == Some(parent) && e.name == newName)
    {
      assert e in edges;
    }
  }

  /** `Rename`: what a path led to, its relabelled form leads to. */
  lemma {:induction false} RenameLaw(edges: set<Edge>, parent: Id, name: string, newName: string, entity: Id, from: Id,
                                     comps: seq<string>)
    requires Unique(edges) && Edge(Some(parent), name, entity) in edges
    requires newName != name ==> !HasChild(edges, parent, newName)
    requires Resolve(edges, from, comps).Some?
    ensures Resolve(Relabelled(edges, parent, name, newName, entity), from,
                    Relabel(edges, from, comps, parent, name, newName)) == Resolve(edges, from, comps)
    decreases |comps|
  {
    if comps == [] {
    } else {
      var edges' := Relabelled(edges, parent, name, newName, entity);
      var next := Child(edges, from, comps[0]).value;
      RelabelledIsUnique(edges, parent, name, newName, entity);
      ChildIsUnique(edges, parent, name, entity);
      var out := Relabel(edges, from, comps, parent, name, newName);
      ChildIsUnique(edges', from, out[0], next);
      assert out[1..] == Relabel(edges, next, comps[1..], parent, name, newName);
      RenameLaw(edges, parent, name, newName, entity, next, comps[1..]);
    }
  }

  /** A walk that does not take the renamed edge keeps its path and its end; one that does is lost. */
  lemma {:induction false} RenameElsewhere(edges: set<Edge>, parent: Id, name: string, newName: string, entity: Id,
                                           from: Id, comps: seq<string>)
    requires Unique(edges) && Edge(Some(parent), name, entity) in edges
    requires newName != name && !HasChild(edges, parent, newName)
    requires Resolve(edges, from, comps).Some?
    ensures Resolve(Relabelled(edges, parent, name, newName, entity), from, comps) ==
            if Takes(edges, from, comps, parent, name) then None else Resolve(edges, from, comps)
    decreases |comps|
  {
    if comps == [] {
    } else {
      var edges' := Relabelled(edges, parent, name, newName, entity);
      var next := Child(edges, from, comps[0]).value;
      RelabelledIsUnique(edges, parent, name, newName, entity);
      if from == parent && comps[0] == name {
        assert Child(edges', from, comps[0]).None?;
      } else {
        ChildIsUnique(edges', from, comps[0], next);
        RenameElsewhere(edges, parent, name, newName, entity, next, comps[1..]);
      }
    }
  }

  /** The rows that point at an entity. */
  function RowsTo(edges: set<Edge>, entity: Id): set<Edge> {
    set e | e in edges && e.entity == entity
  }

  function Steps(rows: set<Edge>): set<(Option<Id>, string)> {
    set e | e in rows :: (e.parent, e.name)
  }

  /** The steps that lead to an entity, each a parent and a name; the root's own row has no parent. */
  function StepsTo(edges: set<Edge>, entity: Id): set<(Option<Id>, string)> {
    Steps(RowsTo(edges, entity))
  }

  lemma StepIsChild(edges: set<Edge>, entity: Id, parent: Id, name: string)
    requires Unique(edges)
    ensures (Some(parent), name) in StepsTo(edges, entity) <==> Child(edges, parent, name) == Some(entity)
  {
    if (Some(parent), name) in StepsTo(edges, entity) {
      ChildIsUnique(edges, parent, name, entity);
    }
  }

  /** Every row is a step of its own. */
  lemma {:induction false} OneRowPerStep(rows: set<Edge>)
    requires Unique(rows) && OneRoot(rows)
    ensures |rows| == |Steps(rows)|
    decreases rows
  {
    if rows == {} {
    } else {
      var e :| e in rows;
      var rest := rows - {e};
      OneRowPerStep(rest);
      assert Steps(rows) == Steps(rest) + {(e.parent, e.name)};
    }
  }

  /** No path leads to an entity without a row, other than the root. */
  lemma NoRowsNoPath(edges: set<Edge>, entity: Id, q: seq<string>)
    requires Unique(edges) && RowsTo(edges, entity) == {} && entity != ROOT
    ensures Resolve(edges, ROOT, q) != Some(entity)
  {
    assert edges - RowsTo(edges, entity) == edges;
    PurgeLaw(edges, entity, ROOT, q);
  }

  /** The walk from `from` (excluded) passes through `entity`. */
  ghost predicate Enters(edges: set<Edge>, from: Id, comps: seq<string>, entity: Id)
    decreases |comps|
  {
    comps != [] &&
    (var next := Child(edges, from, comps[0]);
     next.Some? && (next.value == entity || Enters(edges, next.value, comps[1..], entity)))
  }

  /** `Purge`: exactly the walks that enter the entity are lost. */
  lemma {:induction false} PurgeLaw(edges: set<Edge>, entity: Id, from: Id, comps: seq<string>)
    requires Unique(edges)
    ensures Resolve(edges - RowsTo(edges, entity), from, comps) ==
            if Enters(edges, from, comps, entity) then None else Resolve(edges, from, comps)
    ensures from != entity ==> Resolve(edges - RowsTo(edges, entity), from, comps) != Some(entity)
    decreases |comps|
  {
    if comps == [] {
    } else {
      var edges' := edges - RowsTo(edges, entity);
      var next := Child(edges, from, comps[0]);
      if next.Some? {
        if next.value == entity {
          assert !HasChild(edges', from, comps[0]);
        } else {
          ChildIsUnique(edges', from, comps[0], next.value);
          PurgeLaw(edges, entity, next.value, comps[1..]);
        }
      }
    }
  }

  /** Nothing leads to a purged entity, unless it is the root, to which "/" always leads. */
  lemma PurgeLeavesNoPath(edges: set<Edge>, entity: Id)
    requires Unique(edges)
    ensures (forall q :: Resolve(edges - RowsTo(edges, entity), ROOT, q) != Some(entity)) <==> entity != ROOT
  {
    if entity == ROOT {
      assert Resolve(edges - RowsTo(edges, entity), ROOT, []) == Some(entity);
    } else {
      forall q { PurgeLaw(edges, entity, ROOT, q); }
    }
  }

  // ---------------------------------------------------------------- the database

  /** The entity that owns the last component of a path. */
  ghost function ParentOf(edges: set<Edge>, path: string): Option<Id>
    requires path != ""
  {
    Resolve(edges, ROOT, Components(SplitPath(path).0))
  }

  /** An absolute path reaches the entity set at it, unless its last component is empty. */
  lemma SetReaches(edges: set<Edge>, path: string, id: Id)
    requires Unique(edges) && path != "" && path[0] == '/'
    requires ParentOf(edges, path).Some? && ParentOf(edges, path).value != id
    requires !HasChild(edges, ParentOf(edges, path).value, SplitPath(path).1)
    ensures Resolve(edges + {Edge(ParentOf(edges, path), SplitPath(path).1, id)}, ROOT, Components(path)) == Some(id)
            <==> SplitPath(path).1 != ""
  {
    var (parentPath, name) := SplitPath(path);
    var comps, parent := Components(parentPath), ParentOf(edges, path).value;
    AbsoluteSplit(path);
    SetLaw(edges, comps, parent, name, id);
    if name == "" {
      assert Components(path) == comps;
    } else {
      assert NonEmpty([name]) == [name];
    }
  }

  /** An absolute path is lost when its edge is deleted, unless its last component is empty. */
  lemma DeleteReaches(edges: set<Edge>, path: string)
    requires Unique(edges) && path != "" && path[0] == '/' && ParentOf(edges, path).Some?
    ensures Resolve(Cut(edges, ParentOf(edges, path).value, SplitPath(path).1), ROOT, Components(path)).None?
            <==> SplitPath(path).1 != ""
  {
    var (parentPath, name) := SplitPath(path);
    var comps, parent := Components(parentPath), ParentOf(edges, path).value;
    AbsoluteSplit(path);
    DeleteLaw(edges, parent, name, ROOT, Components(path));
    if name == "" {
      assert Components(path) == comps;
      NoEmptyStep(edges, ROOT, comps, parent);
    } else {
      assert NonEmpty([name]) == [name];
      TakesLast(edges, ROOT, comps, parent, name);
    }
  }

  class Database {
    var entities: set<Id>
    var edges: set<Edge>

    /** What every reachable database satisfies. */
    ghost predicate Valid()
      reads this
    {
      && Unique(edges) && OneRoot(edges)
      && (forall e :: e in edges && e.parent.Some? ==> '/' !in e.name)
    }

    /** `NewDatabase`: the root entity and its row. */
    constructor ()
      ensures Valid() && entities == {ROOT} && edges == {ROOT_EDGE}
    {
      entities, edges := {ROOT}, {ROOT_EDGE};
    }

    method ChildOf(parent: Id, name: string) returns (c: Option<Id>)
      requires Valid()
      ensures c == Child(edges, parent, name)
    {
      if !HasChild(edges, parent, name) {
        return None;
      }
      var e :| e in edges && e.parent == Some(parent) && e.name == name;
      ChildIsUnique(edges, parent, name, e.entity);
      return Some(e.entity);
    }

    method Get(name: string) returns (found: Option<Id>)
      requires Valid()
      ensures found == Resolve(edges, ROOT, Components(name))
    {
      if name == "/" {
        assert "/"[1..] == "";
        return Some(ROOT);
      }
      var parts := Split(name);
      var e := ROOT;
      for i := 1 to |parts|
        invariant Resolve(edges, ROOT, Components(name)) == Resolve(edges, e, NonEmpty(parts[i..]))
      {
        assert parts[i..][1..] == parts[i + 1..];
        if parts[i] == "" {
          assert NonEmpty(parts[i..]) == NonEmpty(parts[i + 1..]);
          continue;
        }
        assert NonEmpty(parts[i..])[1..] == NonEmpty(parts[i + 1..]);
        var next := ChildOf(e, parts[i]);
        if next == None {
          return None;
        }
        e := next.value;
      }
      return Some(e);
    }

    /** `Set`: in one transaction, the entity exists and an edge with the path's last component
        leads to it. A path that led somewhere still leads there; a failure changes nothing. */
    method Set(fullPath: string, id: Id) returns (ok: bool)
      requires Valid() && fullPath != ""
      modifies this
      ensures Valid()
      ensures var parent, name := ParentOf(old(edges), fullPath), SplitPath(fullPath).1;
              ok <==> parent.Some? && parent.value != id && !HasChild(old(edges), parent.value, name)
      ensures ok ==> entities == old(entities) + {id} &&
                     edges == old(edges) + {Edge(ParentOf(old(edges), fullPath), SplitPath(fullPath).1, id)}
      ensures ok && fullPath[0] == '/' ==>
                (Resolve(edges, ROOT, Components(fullPath)) == Some(id) <==> SplitPath(fullPath).1 != "")
      ensures forall q :: Resolve(old(edges), ROOT, q).Some? ==> Resolve(edges, ROOT, q) == Resolve(old(edges), ROOT, q)
      ensures !ok ==> entities == old(entities) && edges == old(edges)
    {
      var savedEntities, savedEdges := entities, edges;
      if id !in entities {
        entities := entities + {id};
      }
      var (parentPath, name) := SplitPath(fullPath);
      var parent := Get(parentPath);
      if parent == None || parent.value == id || HasChild(edges, parent.value, name) {
        entities, edges := savedEntities, savedEdges;
        return false;
      }
      if fullPath[0] == '/' {
        SetReaches(edges, fullPath, id);
      }
      SetLaw(edges, Components(parentPath), parent.value, name, id);
      InsertKeepsIndex(edges, parent.value, name, id);
      edges := edges + {Edge(parent, name, id)};
      return true;
    }

    /** `Refs`: in how many ways one step leads to the entity. Without any, no path does. */
    method Refs(id: Id) returns (count: nat)
      requires Valid()
      ensures count == |StepsTo(edges, id)|
      ensures forall parent, name ::
                (Some(parent), name) in StepsTo(edges, id) <==> Child(edges, parent, name) == Some(id)
      ensures count == 0 && id != ROOT ==> forall q :: Resolve(edges, ROOT, q) != Some(id)
    {
      OneRowPerStep(RowsTo(edges, id));
      forall parent, name
        ensures (Some(parent), name) in StepsTo(edges, id) <==> Child(edges, parent, name) == Some(id)
      {
        StepIsChild(edges, id, parent, name);
      }
      if RowsTo(edges, id) == {} && id != ROOT {
        forall q {
          NoRowsNoPath(edges, id, q);
        }
      }
      count := |RowsTo(edges, id)|;
    }

    /** `Delete`: the paths lost are those whose walk took the edge. Deleting an absent edge is no error. */
    method Delete(name: string) returns (ok: bool)
      requires Valid() && name != ""
      modifies this
      ensures Valid() && entities == old(entities)
      ensures ok <==> name != "/" && ParentOf(old(edges), name).Some?
      ensures ok ==> (forall q :: Resolve(edges, ROOT, q) ==
                        if Takes(old(edges), ROOT, q, ParentOf(old(edges), name).value, SplitPath(name).1) then None
                        else Resolve(old(edges), ROOT, q))
      ensures ok ==> edges == Cut(old(edges), ParentOf(old(edges), name).value, SplitPath(name).1)
      ensures ok && name[0] == '/' ==> (Resolve(edges, ROOT, Components(name)).None? <==> SplitPath(name).1 != "")
      ensures !ok ==> edges == old(edges)
    {
      if name == "/" {
        return false;
      }
      var (parentPath, n) := SplitPath(name);
      var parent := Get(parentPath);
      if parent == None {
        return false;
      }
      forall q { DeleteLaw(edges, parent.value, n, ROOT, q); }
      if name[0] == '/' {
        DeleteReaches(edges, name);
      }
      edges := Cut(edges, parent.value, n);
      return true;
    }

    /** `Purge`: the number of references removed, and exactly the paths through the entity lost. */
    method Purge(id: Id) returns (removed: nat)
      requires Valid()
      modifies this
      ensures Valid() && entities == old(entities) - {id}
      ensures removed == |StepsTo(old(edges), id)| && edges == old(edges) - RowsTo(old(edges), id)
      ensures forall q :: Resolve(edges, ROOT, q) ==
                if Enters(old(edges), ROOT, q, id) then None else Resolve(old(edges), ROOT, q)
      ensures (forall q :: Resolve(edges, ROOT, q) != Some(id)) <==> id != ROOT
    {
      var rows := RowsTo(edges, id);
      OneRowPerStep(RowsTo(edges, id));
      forall q { PurgeLaw(edges, id, ROOT, q); }
      PurgeLeavesNoPath(edges, id);
      edges := edges - rows;
      entities := entities - {id};
      return |rows|;
    }

    /** `Rename`: the last component of one path, under the same parent. Paths through the edge move
        with it, and no other path that led somewhere changes. */
    method Rename(currentName: string, newName: string) returns (ok: bool)
      requires Valid() && currentName != "" && newName != ""
      modifies this
      ensures Valid() && entities == old(entities)
      ensures var parent := ParentOf(old(edges), currentName);
              var name, newEdgeName := SplitPath(currentName).1, SplitPath(newName).1;
              && (ok <==> && SplitPath(currentName).0 == SplitPath(newName).0
                          && parent.Some? && HasChild(old(edges), parent.value, name)
                          && (newEdgeName != name ==> !HasChild(old(edges), parent.value, newEdgeName)))
              && (ok ==> forall q :: Resolve(old(edges), ROOT, q).Some? ==>
                    && Resolve(edges, ROOT, Relabel(old(edges), ROOT, q, parent.value, name, newEdgeName)) ==
                       Resolve(old(edges), ROOT, q)
                    && (newEdgeName != name ==>
                          Resolve(edges, ROOT, q) ==
                          if Takes(old(edges), ROOT, q, parent.value, name) then None
                          else Resolve(old(edges), ROOT, q)))
              && (ok && newEdgeName == name ==> edges == old(edges))
      ensures !ok ==> edges == old(edges)
    {
      var (parentPath, name) := SplitPath(currentName);
      var (newParentPath, newEdgeName) := SplitPath(newName);
      if parentPath != newParentPath {
        return false;
      }
      var parent := Get(parentPath);
      if parent == None {
        return false;
      }
      var entity := ChildOf(parent.value, name);
      if entity == None || (newEdgeName != name && HasChild(edges, parent.value, newEdgeName)) {
        return false;
      }
      RelabelledIsUnique(edges, parent.value, name, newEdgeName, entity.value);
      forall q | Resolve(edges, ROOT, q).Some?
        ensures Resolve(Relabelled(edges, parent.value, name, newEdgeName, entity.value), ROOT,
                        Relabel(edges, ROOT, q, parent.value, name, newEdgeName)) == Resolve(edges, ROOT, q)
      {
        RenameLaw(edges, parent.value, name, newEdgeName, entity.value, ROOT, q);
      }
      if newEdgeName != name {
        forall q | Resolve(edges, ROOT, q).Some?
          ensures Resolve(Relabelled(edges, parent.value, name, newEdgeName, entity.value), ROOT, q) ==
                  if Takes(edges, ROOT, q, parent.value, name) then None else Resolve(edges, ROOT, q)
        {
          RenameElsewhere(edges, parent.value, name, newEdgeName, entity.value, ROOT, q);
        }
      }
      edges := Cut(edges, parent.value, name) + {Edge(parent, newEdgeName, entity.value)};
      return true;
    }
  }

  lemma {:induction false} TakesLast(edges: set<Edge>, from: Id, comps: seq<string>, parent: Id, name: string)
    requires Resolve(edges, from, comps) == Some(parent)
    ensures Takes(edges, from, comps + [name], parent, name)
    decreases |comps|
  {
    if comps == [] {
    } else {
      assert (comps + [name])[1..] == comps[1..] + [name];
      TakesLast(edges, Child(edges, from, comps[0]).value, comps[1..], parent, name);
    }
  }

  lemma {:induction false} NoEmptyStep(edges: set<Edge>, from: Id, comps: seq<string>, parent: Id)
    requires "" !in comps
    ensures !Takes(edges, from, comps, parent, "")
    decreases |comps|
  {
    if comps == [] {
    } else {
      var next := Child(edges, from, comps[0]);
      if next.Some? {
        NoEmptyStep(edges, next.value, comps[1..], parent);
      }
    }
  }
}
