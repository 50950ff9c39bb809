/** Listing the descendants of an entity: the recursive `children` of `pkg/graphdb/graphdb.go`. */
module GraphWalks {
  import opened Wrappers
  import opened Sequences
  import opened GraphPaths
  import opened CleanPaths
  import opened GraphDB

  /** Edges, each leaving the entity that the one before enters. */
  type Walk = seq<Edge>

  datatype WalkMeta = WalkMeta(parent: Id, entity: Id, fullPath: string, edge: Edge)

  ghost predicate IsWalk(edges: set<Edge>, from: Id, w: Walk)
    decreases |w|
  {
    && w != []
    && w[0] in edges && w[0].parent == Some(from)
    && (|w| > 1 ==> IsWalk(edges, w[0].entity, w[1..]))
  }

  /** A depth counts the levels below the first; a negative one sets no limit. */
  predicate Within(depth: int, length: nat) {
    depth >= 0 ==> length <= depth + 1
  }

  function Deeper(depth: int): int {
    if depth == -1 then depth else depth - 1
  }

  function MetaOf(from: Id, name: string, w: Walk): WalkMeta
    requires w != []
    decreases |w|
  {
    if |w| == 1 then WalkMeta(from, w[0].entity, Join(name, w[0].name), w[0])
    else MetaOf(w[0].entity, Join(name, w[0].name), w[1..])
  }

  ghost predicate NonTrivial(walks: seq<Walk>) {
    forall i :: 0 <= i < |walks| ==> walks[i] != []
  }

  ghost function MetasOf(from: Id, name: string, walks: seq<Walk>): seq<WalkMeta>
    requires NonTrivial(walks)
  {
    seq(|walks|, i requires 0 <= i < |walks| => MetaOf(from, name, walks[i]))
  }

  /** Every edge leads to an entity of smaller rank, so no walk returns to where it was. */
  ghost predicate Ranked(edges: set<Edge>, rank: Id -> nat) {
    forall e :: e in edges && e.parent.Some? ==> rank(e.parent.value) > rank(e.entity)
  }

  /** `walks` holds each walk from `from` within the depth whose first edge is in `first`, once. */
  ghost predicate Enumerates(walks: seq<Walk>, edges: set<Edge>, from: Id, depth: int, first: set<Edge>) {
    && NonTrivial(walks)
    && (forall w :: w in walks <==> IsWalk(edges, from, w) && Within(depth, |w|) && w[0] in first)
    && Distinct(walks)
  }

  ghost predicate Distinct(walks: seq<Walk>) {
    forall i, j :: 0 <= i < j < |walks| ==> Apart(walks, i, j)
  }

  ghost predicate Apart(walks: seq<Walk>, i: nat, j: nat)
    requires i < j < |walks|
  {
    walks[i] != walks[j]
  }

  lemma DistinctAppend(a: seq<Walk>, b: seq<Walk>)
    requires Distinct(a) && Distinct(b) && forall w :: w in a ==> w !in b
    ensures Distinct(a + b)
  {
    forall i, j | 0 <= i < j < |a + b|
      ensures Apart(a + b, i, j)
    {
      if j < |a| {
        assert Apart(a, i, j);
      } else if |a| <= i {
        assert Apart(b, i - |a|, j - |a|);
      } else {
        assert a[i] in a && b[j - |a|] in b;
      }
    }
  }

  /** The walks that begin with edge `e`, given those that continue from its end. */
  ghost function Prefixed(e: Edge, walks: seq<Walk>): seq<Walk> {
    seq(|walks|, i requires 0 <= i < |walks| => [e] + walks[i])
  }

  lemma PrefixedMetas(from: Id, name: string, e: Edge, walks: seq<Walk>)
    requires NonTrivial(walks)
    ensures NonTrivial(Prefixed(e, walks))
    ensures MetasOf(from, name, Prefixed(e, walks)) == MetasOf(e.entity, Join(name, e.name), walks)
  {
    forall i | 0 <= i < |walks|
      ensures MetaOf(from, name, Prefixed(e, walks)[i]) == MetaOf(e.entity, Join(name, e.name), walks[i])
    {
      assert ([e] + walks[i])[1..] == walks[i];
    }
  }

  lemma PrefixedDistinct(e: Edge, walks: seq<Walk>)
    requires Distinct(walks)
    ensures Distinct(Prefixed(e, walks))
  {
    forall i, j | 0 <= i < j < |walks|
      ensures Apart(Prefixed(e, walks), i, j)
    {
      assert Apart(walks, i, j);
      assert ([e] + walks[i])[1..] == walks[i] && ([e] + walks[j])[1..] == walks[j];
    }
  }

  lemma InPrefixed(e: Edge, walks: seq<Walk>, w: Walk)
    ensures w in Prefixed(e, walks) <==> w != [] && w[0] == e && w[1..] in walks
  {
    if w in Prefixed(e, walks) {
      var i :| 0 <= i < |walks| && w == [e] + walks[i];
      assert w[1..] == walks[i];
    }
    if w != [] && w[0] == e && w[1..] in walks {
      var i :| 0 <= i < |walks| && walks[i] == w[1..];
      assert w == [e] + w[1..];
      assert Prefixed(e, walks)[i] == w;
    }
  }

  /** The walks that begin with `e`: that edge alone, and its continuations if there is depth left. */
  lemma EnumeratesOne(below: seq<Walk>, edges: set<Edge>, from: Id, depth: int, e: Edge)
    requires e in edges && e.parent == Some(from)
    requires if depth == 0 then below == [] else Enumerates(below, edges, e.entity, Deeper(depth), edges)
    ensures Enumerates([[e]] + Prefixed(e, below), edges, from, depth, {e})
  {
    var more := [[e]] + Prefixed(e, below);
    forall w
      ensures w in more <==> IsWalk(edges, from, w) && Within(depth, |w|) && w[0] in {e}
    {
      InPrefixed(e, below, w);
      if w != [] && w[0] == e {
        if |w| == 1 {
          assert w == [e];
        } else if depth != 0 {
          assert w[1..] in below <==>
                   IsWalk(edges, e.entity, w[1..]) && Within(Deeper(depth), |w[1..]|) && w[1..][0] in edges;
        }
      }
    }
    InPrefixed(e, below, [e]);
    assert [e][1..] == [];
    assert [] !in below;
    PrefixedDistinct(e, below);
    DistinctAppend([[e]], Prefixed(e, below));
  }

  lemma EnumeratesUnion(a: seq<Walk>, b: seq<Walk>, edges: set<Edge>, from: Id, depth: int, first: set<Edge>,
                        second: set<Edge>)
    requires first !! second
    requires Enumerates(a, edges, from, depth, first) && Enumerates(b, edges, from, depth, second)
    ensures Enumerates(a + b, edges, from, depth, first + second)
  {
    DistinctAppend(a, b);
  }

  lemma MetasAppend(from: Id, name: string, a: seq<Walk>, b: seq<Walk>)
    requires NonTrivial(a) && NonTrivial(b)
    ensures NonTrivial(a + b) && MetasOf(from, name, a + b) == MetasOf(from, name, a) + MetasOf(from, name, b)
  {
  }

  /** What one row adds to the result. */
  lemma ChildrenStep(edges: set<Edge>, from: Id, name: string, depth: int, out: seq<WalkMeta>, entities: seq<WalkMeta>,
                     walks: seq<Walk>, below: seq<Walk>, first: set<Edge>, e: Edge) returns (walks': seq<Walk>)
    requires e in edges && e.parent == Some(from) && e !in first
    requires Enumerates(walks, edges, from, depth, first) && out == entities + MetasOf(from, name, walks)
    requires if depth == 0 then below == [] else Enumerates(below, edges, e.entity, Deeper(depth), edges)
    ensures Enumerates(walks', edges, from, depth, first + {e})
    ensures out + [WalkMeta(from, e.entity, Join(name, e.name), e)] + MetasOf(e.entity, Join(name, e.name), below)
         == entities + MetasOf(from, name, walks')
  {
    var more := [[e]] + Prefixed(e, below);
    EnumeratesOne(below, edges, from, depth, e);
    EnumeratesUnion(walks, more, edges, from, depth, first, {e});
    PrefixedMetas(from, name, e, below);
    MetasAppend(from, name, [[e]], Prefixed(e, below));
    MetasAppend(from, name, walks, more);
    var own := [WalkMeta(from, e.entity, Join(name, e.name), e)];
    assert MetasOf(from, name, [[e]]) == own;
    var old_, deep := MetasOf(from, name, walks), MetasOf(e.entity, Join(name, e.name), below);
    Regroup(entities + old_, own, deep);
    Regroup(entities, old_, own + deep);
    walks' := walks + more;
  }

  /** `children`: one entry for each walk, whatever order the rows come in. It terminates when the
      depth is limited, and on every acyclic graph. */
  method Children(db: Database, e: Id, name: string, depth: int, entities: seq<WalkMeta>, ghost rank: Id -> nat)
    returns (out: seq<WalkMeta>, ghost walks: seq<Walk>)
    requires depth >= 0 || Ranked(db.edges, rank)
    ensures Enumerates(walks, db.edges, e, depth, db.edges)
    ensures out == entities + MetasOf(e, name, walks)
    decreases if depth >= 0 then depth else rank(e)
  {
    out, walks := entities, [];
    var rows := set x | x in db.edges && x.parent == Some(e);
    ghost var first: set<Edge> := {};
    while rows != {}
      invariant rows !! first && rows + first == set x | x in db.edges && x.parent == Some(e)
      invariant Enumerates(walks, db.edges, e, depth, first)
      invariant out == entities + MetasOf(e, name, walks)
      decreases rows
    {
      var edge :| edge in rows;
      rows := rows - {edge};
      assert edge in rows + {edge} && edge.parent == Some(e);
      ghost var before := out;
      out := out + [WalkMeta(e, edge.entity, Join(name, edge.name), edge)];
      ghost var below: seq<Walk> := [];
      if depth != 0 {
        out, below := Children(db, edge.entity, Join(name, edge.name), Deeper(depth), out, rank);
      }
      walks := ChildrenStep(db.edges, e, name, depth, before, entities, walks, below, first, edge);
      first := first + {edge};
    }
    AllFirst(walks, db.edges, e, depth, first);
  }

  lemma AllFirst(walks: seq<Walk>, edges: set<Edge>, from: Id, depth: int, first: set<Edge>)
    requires Enumerates(walks, edges, from, depth, first)
    requires first == set x | x in edges && x.parent == Some(from)
    ensures Enumerates(walks, edges, from, depth, edges)
  {
  }

  // ---------------------------------------------------------------- the reported paths

  /** `Children`: the listing of what a path leads to. */
  method ChildrenOf(db: Database, name: string, depth: int, ghost rank: Id -> nat)
    returns (out: Option<seq<WalkMeta>>, ghost walks: seq<Walk>)
    requires db.Valid() && (depth >= 0 || Ranked(db.edges, rank))
    ensures var from := Resolve(db.edges, ROOT, Components(name));
            if from == None then out == None
            else Enumerates(walks, db.edges, from.value, depth, db.edges)
                 && out == Some(MetasOf(from.value, name, walks))
  {
    walks := [];
    var e := db.Get(name);
    if e == None {
      return None, walks;
    }
    var metas;
    metas, walks := Children(db, e.value, name, depth, [], rank);
    assert [] + MetasOf(e.value, name, walks) == MetasOf(e.value, name, walks);
    return Some(metas), walks;
  }

  ghost predicate NamesHaveNoSlash(edges: set<Edge>) {
    forall e :: e in edges && e.parent.Some? ==> '/' !in e.name
  }

  /** A lookup of the reported path finds the entity. */
  ghost predicate Resolves(edges: set<Edge>, m: WalkMeta) {
    Resolve(edges, ROOT, Components(m.fullPath)) == Some(m.entity)
  }

  /** The path has a part that a lookup does not skip, or a root to start from. */
  predicate Grounded(name: string) {
    ShapeOf(name).rooted || ShapeOf(name).stack != []
  }

  /** Cleaning the path does not change what it leads to. */
  ghost predicate LeadsTo(edges: set<Edge>, name: string, from: Id) {
    Grounded(name) && Resolve(edges, ROOT, Components(Clean(name))) == Some(from)
  }

  lemma CleanComponents(name: string)
    ensures Components(Clean(name)) == Lead(ShapeOf(name))
  {
    NormalShape(name);
    ComponentsOfText(ShapeOf(name));
  }

  /** A plain name is one more step of the cleaned path; without a root and a first part it is no step at all. */
  lemma JoinPlain(name: string, elem: string)
    requires IsPlain(elem) && '/' !in elem
    ensures Grounded(name) ==> Components(Join(name, elem)) == Components(Clean(name)) + [elem]
    ensures !Grounded(name) ==> Components(Join(name, elem)) == []
    ensures Components(Clean(Join(name, elem))) == Components(Join(name, elem)) && Grounded(Join(name, elem))
  {
    JoinPushes(name, elem);
    CleanComponents(name);
    CleanComponents(Join(name, elem));
    LeadPlain(ShapeOf(name), elem);
  }

  /** A path from which the listing starts right: every walk over plain names is reported under a path that
      leads to its last entity. */
  lemma {:induction false} PlainPathResolves(edges: set<Edge>, from: Id, name: string, w: Walk)
    requires Unique(edges) && NamesHaveNoSlash(edges) && LeadsTo(edges, name, from)
    requires IsWalk(edges, from, w) && forall e :: e in w ==> IsPlain(e.name)
    ensures Resolves(edges, MetaOf(from, name, w))
    ensures MetaOf(from, name, w).edge == w[|w| - 1] && MetaOf(from, name, w).entity == w[|w| - 1].entity
    decreases |w|
  {
    assert w[0] in w;
    FirstStep(edges, from, name, w[0], from);
    if |w| <= 1 {
    } else {
      PlainPathResolves(edges, w[0].entity, Join(name, w[0].name), w[1..]);
    }
  }

  /** The first step, for a start whose cleaned path leads to `clean`: right if that has the same child. */
  lemma FirstStep(edges: set<Edge>, from: Id, name: string, e: Edge, clean: Id)
    requires Unique(edges) && NamesHaveNoSlash(edges) && LeadsTo(edges, name, clean)
    requires e in edges && e.parent == Some(from) && IsPlain(e.name)
    ensures Child(edges, from, e.name) == Some(e.entity)
    ensures Resolve(edges, ROOT, Components(Join(name, e.name))) == Child(edges, clean, e.name)
    ensures Child(edges, clean, e.name) == Some(e.entity) ==> LeadsTo(edges, Join(name, e.name), e.entity)
  {
    ChildIsUnique(edges, from, e.name, e.entity);
    JoinPlain(name, e.name);
    ResolveAppend(edges, ROOT, Components(Clean(name)), [e.name]);
    OneStep(edges, clean, e.name);
  }

  lemma OneStep(edges: set<Edge>, from: Id, name: string)
    ensures Resolve(edges, from, [name]) == Child(edges, from, name)
  {
    var next := Child(edges, from, name);
    assert next.Some? ==> Resolve(edges, next.value, [name][1..]) == next;
  }

  /** A walk leads down. */
  lemma {:induction false} RankFalls(edges: set<Edge>, from: Id, comps: seq<string>, rank: Id -> nat)
    requires Ranked(edges, rank) && Resolve(edges, from, comps).Some?
    ensures rank(Resolve(edges, from, comps).value) <= rank(from)
    ensures comps != [] ==> rank(Resolve(edges, from, comps).value) < rank(from)
    decreases |comps|
  {
    if comps == [] {
    } else {
      RankFalls(edges, Child(edges, from, comps[0]).value, comps[1..], rank);
    }
  }

  /** Under an absolute path, a name that is empty or made of dots is reported under a path that leads to the
      entity itself or further up, and not to the child. */
  lemma DottedStepFails(edges: set<Edge>, from: Id, name: string, e: Edge, rank: Id -> nat)
    requires Unique(edges) && NamesHaveNoSlash(edges) && Ranked(edges, rank)
    requires Rooted(name) && LeadsTo(edges, name, from)
    requires e in edges && e.parent == Some(from) && !IsPlain(e.name)
    ensures Resolve(edges, ROOT, Components(Join(name, e.name))) != Some(e.entity)
  {
    JoinPushes(name, e.name);
    CleanComponents(name);
    NormalShape(name);
    RootedShape(name);
    LeadDotted(ShapeOf(name), e.name);
    var stack := ShapeOf(name).stack;
    if e.name == ".." && stack != [] {
      UpIsHigher(edges, stack, rank);
    }
  }

  lemma UpIsHigher(edges: set<Edge>, comps: seq<string>, rank: Id -> nat)
    requires Ranked(edges, rank) && comps != [] && Resolve(edges, ROOT, comps).Some?
    ensures var up := Resolve(edges, ROOT, comps[..|comps| - 1]);
            up.Some? && rank(Resolve(edges, ROOT, comps).value) < rank(up.value)
  {
    var init, last := comps[..|comps| - 1], comps[|comps| - 1];
    assert comps == init + [last];
    ResolveAppend(edges, ROOT, init, [last]);
    RankFalls(edges, Resolve(edges, ROOT, init).value, [last], rank);
  }

  /** So a name that is not plain spoils the listing under an absolute path. */
  lemma {:induction false} DottedPathFails(edges: set<Edge>, from: Id, name: string, depth: int, w: Walk,
                                           rank: Id -> nat)
    returns (bad: Walk)
    requires Unique(edges) && NamesHaveNoSlash(edges) && Ranked(edges, rank)
    requires Rooted(name) && LeadsTo(edges, name, from)
    requires IsWalk(edges, from, w) && Within(depth, |w|) && exists e :: e in w && !IsPlain(e.name)
    ensures IsWalk(edges, from, bad) && Within(depth, |bad|) && !Resolves(edges, MetaOf(from, name, bad))
    decreases |w|
  {
    if !IsPlain(w[0].name) {
      bad := [w[0]];
      DottedStepFails(edges, from, name, w[0], rank);
    } else {
      FirstStep(edges, from, name, w[0], from);
      JoinIsRooted(name, w[0].name);
      var rest := DottedPathFails(edges, w[0].entity, Join(name, w[0].name), Deeper(depth), w[1..], rank);
      bad := [w[0]] + rest;
      assert bad[1..] == rest;
    }
  }

  lemma JoinIsRooted(name: string, elem: string)
    requires Rooted(name) && '/' !in elem
    ensures Rooted(Join(name, elem))
  {
    JoinPushes(name, elem);
    RootedShape(name);
    RootedShape(Join(name, elem));
  }

  ghost predicate AllResolve(edges: set<Edge>, from: Id, name: string, depth: int) {
    forall w :: IsWalk(edges, from, w) && Within(depth, |w|) ==> Resolves(edges, MetaOf(from, name, w))
  }

  ghost predicate AllPlain(edges: set<Edge>, from: Id, depth: int) {
    forall w: Walk, e: Edge :: IsWalk(edges, from, w) && Within(depth, |w|) && e in w ==> IsPlain(e.name)
  }

  /** What the cleaned path leads to has each child that the entity has. */
  ghost predicate StartAgrees(edges: set<Edge>, name: string, from: Id) {
    forall e :: e in edges && e.parent == Some(from) ==>
      && Grounded(name) && Resolve(edges, ROOT, Components(Clean(name))).Some?
      && Child(edges, Resolve(edges, ROOT, Components(Clean(name))).value, e.name) == Some(e.entity)
  }

  /** When the listing of an acyclic graph reports only paths that lead to their entities. From an absolute
      path that leads to the same entity when it is cleaned, as every clean one does: exactly when every name
      met is plain. Over plain names, from any path: exactly when the cleaned path has the same children. */
  lemma ListingResolves(edges: set<Edge>, from: Id, name: string, depth: int, rank: Id -> nat)
    requires Unique(edges) && NamesHaveNoSlash(edges) && Ranked(edges, rank)
    requires Resolve(edges, ROOT, Components(name)) == Some(from)
    ensures Rooted(name) && (Clean(name) == name || LeadsTo(edges, name, from)) ==>
              (AllResolve(edges, from, name, depth) <==> AllPlain(edges, from, depth))
    ensures AllPlain(edges, from, depth) ==>
              (AllResolve(edges, from, name, depth) <==> StartAgrees(edges, name, from))
  {
    if Rooted(name) && LeadsTo(edges, name, from) && !AllPlain(edges, from, depth) {
      var w: Walk, e: Edge :| IsWalk(edges, from, w) && Within(depth, |w|) && e in w && !IsPlain(e.name);
      var bad := DottedPathFails(edges, from, name, depth, w, rank);
    }
    if AllPlain(edges, from, depth) {
      if LeadsTo(edges, name, from) {
        LeadingAgrees(edges, from, name);
      }
      if StartAgrees(edges, name, from) {
        AgreeingResolves(edges, from, name, depth);
      }
      if AllResolve(edges, from, name, depth) {
        ResolvingAgrees(edges, from, name, depth, rank);
      }
    }
  }

  lemma LeadingAgrees(edges: set<Edge>, from: Id, name: string)
    requires Unique(edges) && LeadsTo(edges, name, from)
    ensures StartAgrees(edges, name, from)
  {
    forall e | e in edges && e.parent == Some(from)
      ensures Child(edges, from, e.name) == Some(e.entity)
    {
      ChildIsUnique(edges, from, e.name, e.entity);
    }
  }

  lemma AgreeingResolves(edges: set<Edge>, from: Id, name: string, depth: int)
    requires Unique(edges) && NamesHaveNoSlash(edges)
    requires AllPlain(edges, from, depth) && StartAgrees(edges, name, from)
    ensures AllResolve(edges, from, name, depth)
  {
    forall w: Walk | IsWalk(edges, from, w) && Within(depth, |w|)
      ensures Resolves(edges, MetaOf(from, name, w))
    {
      assert w[0] in w && w[0].parent == Some(from);
      assert forall e :: e in w ==> IsPlain(e.name);
      FirstStep(edges, from, name, w[0], Resolve(edges, ROOT, Components(Clean(name))).value);
      if |w| > 1 {
        PlainPathResolves(edges, w[0].entity, Join(name, w[0].name), w[1..]);
      }
    }
  }

  lemma ResolvingAgrees(edges: set<Edge>, from: Id, name: string, depth: int, rank: Id -> nat)
    requires Unique(edges) && NamesHaveNoSlash(edges) && Ranked(edges, rank)
    requires Resolve(edges, ROOT, Components(name)) == Some(from)
    requires AllPlain(edges, from, depth) && AllResolve(edges, from, name, depth)
    ensures StartAgrees(edges, name, from)
  {
    RankFalls(edges, ROOT, Components(name), rank);
    forall e | e in edges && e.parent == Some(from)
      ensures Grounded(name) && Resolve(edges, ROOT, Components(Clean(name))).Some?
      ensures Child(edges, Resolve(edges, ROOT, Components(Clean(name))).value, e.name) == Some(e.entity)
    {
      var w := [e];
      assert IsWalk(edges, from, w) && Within(depth, |w|) && e in w;
      assert Resolves(edges, MetaOf(from, name, w));
      JoinPlain(name, e.name);
      ResolveAppend(edges, ROOT, Components(Clean(name)), [e.name]);
      if Resolve(edges, ROOT, Components(Clean(name))).Some? {
        OneStep(edges, Resolve(edges, ROOT, Components(Clean(name))).value, e.name);
      }
    }
  }

  /** A start that cleaning changes: the entity at "/.." can be set and listed, but its children are reported as
      children of the root. */
  lemma UncleanStartFails(edges: set<Edge>, from: Id, depth: int, e: Edge)
    requires Unique(edges) && NamesHaveNoSlash(edges) && Resolve(edges, ROOT, Components("/..")) == Some(from)
    requires e in edges && e.parent == Some(from) && IsPlain(e.name) && Child(edges, ROOT, e.name) != Some(e.entity)
    ensures !AllResolve(edges, from, "/..", depth)
  {
    SplitWord("..");
    SplitAppend("", "..");
    assert "" + "/" + ".." == "/.." && Split("") + [".."] == ["", ".."];
    assert ["", ".."][..1] == [""] && [""][..0] == [];
    var root := Shape(true, []);
    assert PushAll(root, []) == root && PushAll(root, [""]) == root;
    assert ShapeOf("/..") == root;
    CleanComponents("/..");
    FirstStep(edges, from, "/..", e, ROOT);
    var w := [e];
    assert IsWalk(edges, from, w) && Within(depth, |w|);
    assert !Resolves(edges, MetaOf(from, "/..", w));
  }
}
