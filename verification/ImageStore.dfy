/** The image graph and the tags that point into it (`image/image.go`, `graph/graph.go`, `graph/tags.go`). */
module ImageStore {
  import opened Wrappers
  import opened RepoTags

  type Id = string

  /** An image without a parent has the empty id as its parent. */
  datatype Image = Image(id: Id, parent: Id)

  type Images = map<Id, Image>
  type Repository = map<string, Id>
  type Repositories = map<string, Repository>

  const DEFAULT_TAG := "latest"

  predicate ValidId(id: Id) {
    id != "" && ':' !in id
  }

  ghost predicate ValidImages(images: Images) {
    forall id :: id in images ==> images[id].id == id && ValidId(id)
  }

  ghost predicate ValidRepositories(repos: Repositories) {
    forall r :: r in repos ==> r != "" && repos[r] != map[] && forall t :: t in repos[r] ==> ValidTag(t)
  }

  /** Parents have smaller ranks: the graph has no cycle. */
  ghost predicate Ranked(images: Images, rank: Id -> nat) {
    forall id :: id in images && images[id].parent in images ==> rank(images[id].parent) < rank(id)
  }

  /** Every parent named exists. */
  ghost predicate Closed(images: Images) {
    forall id :: id in images && images[id].parent != "" ==> images[id].parent in images
  }

  /** Every tag points at an image. */
  ghost predicate TagsResolve(repos: Repositories, images: Images) {
    forall r, t :: r in repos && t in repos[r] ==> repos[r][t] in images
  }

  /** The image and its ancestors, nearest first, as far as they resolve. */
  function Chain(images: Images, id: Id, rank: Id -> nat): (chain: seq<Id>)
    requires Ranked(images, rank)
    ensures id in images ==> chain != [] && chain[0] == id
    ensures id !in images ==> chain == []
    decreases if id in images then rank(id) + 1 else 0
  {
    if id in images then [id] + Chain(images, images[id].parent, rank) else []
  }

  ghost function TagsOf(repos: Repositories, id: Id): set<(string, string)> {
    set r, t | r in repos && t in repos[r] && repos[r][t] == id :: (r, t)
  }

  function ChildrenOf(images: Images, id: Id): set<Id> {
    set c | c in images && images[c].parent == id
  }

  /** The possible results of a lookup by name: a tag, an id that a tag of the repository starts
      with, or an image id. Which of several matching tags is found depends on the map order. */
  ghost predicate Finds(repos: Repositories, images: Images, name: string, found: Option<Image>) {
    var (repo, parsed) := ParseRepositoryTag(name);
    var tag := if parsed == "" then DEFAULT_TAG else parsed;
    if repo in repos && tag in repos[repo] then found == Get(images, repos[repo][tag])
    else if repo in repos && exists t :: t in repos[repo] && tag <= repos[repo][t] then
      exists t :: t in repos[repo] && tag <= repos[repo][t] && found == Get(images, repos[repo][t])
    else found == Get(images, name)
  }

  function Get(images: Images, id: Id): Option<Image> {
    if id in images then Some(images[id]) else None
  }

  lemma {:induction false} ParseId(id: Id)
    requires ValidId(id)
    ensures ParseRepositoryTag(id) == (id, "")
  {
    var n := LastIndex(id, ':');
  }

  /** No repository is named like this id, so a lookup of the id finds the image of that id. */
  lemma FindsById(repos: Repositories, images: Images, id: Id, found: Option<Image>)
    requires ValidId(id) && id !in repos
    ensures Finds(repos, images, id, found) <==> found == Get(images, id)
  {
    ParseId(id);
  }

  /** Looking up an existing id always finds something; the image itself, if no repository has that name. */
  lemma FindsSome(repos: Repositories, images: Images, id: Id, found: Option<Image>)
    requires ValidImages(images) && TagsResolve(repos, images) && id in images && Finds(repos, images, id, found)
    ensures found.Some? && (id !in repos ==> found == Some(images[id]))
  {
    ParseId(id);
  }

  /** What an image that is found through a tag and not by its id has: a tag. */
  lemma FoundByTag(repos: Repositories, images: Images, name: string, found: Option<Image>)
    requires ValidImages(images) && Finds(repos, images, name, found) && found.Some?
    ensures found == Get(images, name) || TagsOf(repos, found.value.id) != {}
  {
    var (repo, parsed) := ParseRepositoryTag(name);
    var tag := if parsed == "" then DEFAULT_TAG else parsed;
    if repo in repos && tag in repos[repo] {
      assert (repo, tag) in TagsOf(repos, found.value.id);
    } else if repo in repos && exists t :: t in repos[repo] && tag <= repos[repo][t] {
      var t :| t in repos[repo] && tag <= repos[repo][t] && found == Get(images, repos[repo][t]);
      assert (repo, t) in TagsOf(repos, found.value.id);
    }
  }

  /** Ancestors are the same in any smaller graph that is still closed. */
  lemma {:induction false} ChainInPart(images: Images, part: Images, id: Id, rank: Id -> nat)
    requires Ranked(images, rank) && Ranked(part, rank) && Closed(part)
    requires ValidImages(images) && ValidImages(part)
    requires id in part && forall i :: i in part ==> i in images && part[i] == images[i]
    ensures Chain(part, id, rank) == Chain(images, id, rank)
    decreases rank(id)
  {
    if images[id].parent != "" {
      ChainInPart(images, part, images[id].parent, rank);
    } else {
      assert "" !in images && "" !in part;
    }
  }

  /** `WalkHistory` with a handler that looks for one image: found, not found, or a parent is missing. */
  method HistoryHas(images: Images, img: Image, wanted: Id, ghost rank: Id -> nat) returns (has: Option<bool>)
    requires ValidImages(images) && Ranked(images, rank) && img.id in images && images[img.id] == img
    ensures has.Some? ==> (has.value <==> wanted in Chain(images, img.id, rank))
    ensures has.None? ==> !Closed(images)
  {
    var current := img;
    ghost var rest := Chain(images, img.id, rank);
    while true
      invariant current.id in images && images[current.id] == current
      invariant rest == Chain(images, current.id, rank)
      invariant wanted in Chain(images, img.id, rank) <==> wanted in rest
      decreases rank(current.id)
    {
      if current.id == wanted {
        return Some(true);
      }
      if current.parent == "" {
        assert "" !in images;
        assert Chain(images, "", rank) == [];
        return Some(false);
      }
      if current.parent !in images {
        return None;
      }
      current := images[current.parent];
      rest := Chain(images, current.id, rank);
    }
  }

  /** `Depth`: the length of the chain. */
  method Depth(images: Images, img: Image, ghost rank: Id -> nat) returns (count: Option<nat>)
    requires ValidImages(images) && Ranked(images, rank) && Closed(images) && img.id in images && images[img.id] == img
    ensures count == Some(|Chain(images, img.id, rank)|)
  {
    var n := 0;
    var parent := Some(img);
    while parent.Some?
      invariant parent.Some? ==> parent.value.id in images && images[parent.value.id] == parent.value
      invariant n + (if parent.Some? then |Chain(images, parent.value.id, rank)| else 0) ==
                  |Chain(images, img.id, rank)|
      decreases if parent.Some? then rank(parent.value.id) + 1 else 0
    {
      n := n + 1;
      var up := parent.value.parent;
      assert up == "" ==> up !in images;
      parent := Get(images, up);
    }
    return Some(n);
  }

  ghost function ChildrenAmong(images: Images, done: set<Id>, id: Id): set<Id> {
    set c | c in done && c in images && images[c].parent == id
  }

  /** `list` holds the elements of `s`, once each. */
  ghost predicate ListsOnce(list: seq<Id>, s: set<Id>) {
    (forall c :: c in list <==> c in s) && |list| == |s|
  }

  /** The table has a row for exactly the images with children among those visited. */
  ghost predicate Indexes(byParent: map<Id, seq<Id>>, images: Images, done: set<Id>) {
    forall p :: RowFor(byParent, images, done, p)
  }

  ghost predicate RowFor(byParent: map<Id, seq<Id>>, images: Images, done: set<Id>, p: Id) {
    && (p in byParent <==> p in images && ChildrenAmong(images, done, p) != {})
    && (p in byParent ==> ListsOnce(byParent[p], ChildrenAmong(images, done, p)))
  }

  function WithChild(byParent: map<Id, seq<Id>>, images: Images, id: Id): map<Id, seq<Id>>
    requires id in images
  {
    var parent := images[id].parent;
    if parent !in images then byParent
    else byParent[parent := (if parent in byParent then byParent[parent] else []) + [id]]
  }

  lemma IndexesMore(byParent: map<Id, seq<Id>>, images: Images, done: set<Id>, id: Id)
    requires Indexes(byParent, images, done) && id in images && id !in done
    ensures Indexes(WithChild(byParent, images, id), images, done + {id})
  {
    forall p
      ensures RowFor(WithChild(byParent, images, id), images, done + {id}, p)
    {
      assert RowFor(byParent, images, done, p);
      var before := ChildrenAmong(images, done, p);
      if p == images[id].parent {
        assert ChildrenAmong(images, done + {id}, p) == before + {id};
        if p in images {
          ListsOnceMore(if p in byParent then byParent[p] else [], before, id);
        }
      } else {
        assert ChildrenAmong(images, done + {id}, p) == before;
      }
    }
  }

  lemma ListsOnceMore(list: seq<Id>, s: set<Id>, id: Id)
    requires ListsOnce(list, s) && id !in s
    ensures ListsOnce(list + [id], s + {id})
  {
  }

  /** `ByParent`: for each image that is a parent, its children, once each. */
  method ByParent(images: Images) returns (byParent: map<Id, seq<Id>>)
    ensures forall p :: p in byParent <==> p in images && ChildrenOf(images, p) != {}
    ensures forall p :: p in byParent ==> ListsOnce(byParent[p], ChildrenOf(images, p))
  {
    byParent := map[];
    var todo := images.Keys;
    ghost var done: set<Id> := {};
    while todo != {}
      invariant todo !! done && todo + done == images.Keys
      invariant Indexes(byParent, images, done)
      decreases todo
    {
      var id :| id in todo;
      todo := todo - {id};
      var parent := images[id].parent;
      IndexesMore(byParent, images, done, id);
      if parent in images {
        if parent in byParent {
          byParent := byParent[parent := byParent[parent] + [id]];
        } else {
          byParent := byParent[parent := [] + [id]];
        }
      }
      done := done + {id};
    }
    forall p
      ensures p in byParent <==> p in images && ChildrenOf(images, p) != {}
      ensures p in byParent ==> ListsOnce(byParent[p], ChildrenOf(images, p))
    {
      assert RowFor(byParent, images, done, p);
      assert ChildrenAmong(images, done, p) == ChildrenOf(images, p);
    }
  }
}
