/** Tagging, untagging and deleting images (`graph/tags.go`, `daemon/image_delete.go`). */
module ImageDelete {
  import opened Sequences
  import opened Wrappers
  import opened RepoTags
  import opened ImageStore

  datatype Container = Container(id: string, image: Id, running: bool)

  datatype Event = Untagged(name: string) | Deleted(id: Id)

  datatype Failure = NoSuchImage | NoSuchTag | MultipleRepositories | InUse | BadName

  /** The repositories after some tags of one of them are removed: an empty repository goes too. */
  function Untag(repos: Repositories, repo: string, tags: set<string>): Repositories {
    if repo !in repos then repos
    else
      var left := repos[repo] - tags;
      if left == map[] then repos - {repo} else repos[repo := left]
  }

  function EffectiveTag(tag: string): string {
    if tag == "" then DEFAULT_TAG else tag
  }

  /** The repositories with one tag set, in a new repository if need be. */
  function Tagged(repos: Repositories, repo: string, tag: string, id: Id): Repositories {
    repos[repo := (if repo in repos then repos[repo] else map[])[tag := id]]
  }

  lemma TaggedIsValid(repos: Repositories, images: Images, repo: string, tag: string, id: Id)
    requires ValidRepositories(repos) && TagsResolve(repos, images)
    requires repo != "" && ValidTag(tag) && id in images
    ensures var repos' := Tagged(repos, repo, tag, id);
            && ValidRepositories(repos') && TagsResolve(repos', images)
            && TagsOf(repos', id) == TagsOf(repos, id) + {(repo, tag)}
  {
    assert tag in Tagged(repos, repo, tag, id)[repo];
  }

  /** The container stands in the way of deleting image `id`: its image is gone, or `id` is in the
      history of its image and it is running, or not forced. */
  ghost predicate Blocks(images: Images, c: Container, id: Id, force: bool, rank: Id -> nat)
    requires Ranked(images, rank)
  {
    c.image !in images || (id in Chain(images, c.image, rank) && (c.running || !force))
  }

  /** The same of the image that the lookup of the container's image found, if it found one. */
  ghost predicate Objects(images: Images, found: Option<Image>, c: Container, id: Id, force: bool, rank: Id -> nat)
    requires Ranked(images, rank)
  {
    found == None || (id in Chain(images, found.value.id, rank) && (c.running || !force))
  }

  /** Some lookup of the container's image lets image `id` be deleted. */
  ghost predicate MayAllow(repos: Repositories, images: Images, c: Container, id: Id, force: bool, rank: Id -> nat)
    requires Ranked(images, rank)
  {
    exists found :: Finds(repos, images, c.image, found) && !Objects(images, found, c, id, force, rank)
  }

  ghost predicate MayRefuse(repos: Repositories, images: Images, c: Container, id: Id, force: bool, rank: Id -> nat)
    requires Ranked(images, rank)
  {
    exists found :: Finds(repos, images, c.image, found) && Objects(images, found, c, id, force, rank)
  }

  ghost predicate AllMayAllow(repos: Repositories, images: Images, containers: seq<Container>, id: Id, force: bool,
                              rank: Id -> nat)
    requires Ranked(images, rank)
  {
    forall c :: c in containers ==> MayAllow(repos, images, c, id, force, rank)
  }

  ghost predicate SomeMayRefuse(repos: Repositories, images: Images, containers: seq<Container>, id: Id, force: bool,
                                rank: Id -> nat)
    requires Ranked(images, rank)
  {
    exists c :: c in containers && MayRefuse(repos, images, c, id, force, rank)
  }

  /** Every lookup of the container's image finds an image that has it in its history. */
  ghost predicate Shown(repos: Repositories, images: Images, c: Container, rank: Id -> nat)
    requires Ranked(images, rank)
  {
    c.image in images ==> forall found :: Finds(repos, images, c.image, found) ==> Shows(images, c, found, rank)
  }

  ghost predicate Shows(images: Images, c: Container, found: Option<Image>, rank: Id -> nat)
    requires Ranked(images, rank)
  {
    found.Some? ==> c.image in Chain(images, found.value.id, rank)
  }

  /** That holds for every container that matters. */
  ghost predicate AllShown(repos: Repositories, images: Images, containers: seq<Container>, force: bool,
                           rank: Id -> nat)
    requires Ranked(images, rank)
  {
    forall c :: c in containers && (c.running || !force) ==> Shown(repos, images, c, rank)
  }

  /** Every lookup of the container's image finds that image, or nothing if there is none. */
  ghost predicate NamesItself(repos: Repositories, images: Images, c: Container) {
    forall found :: Finds(repos, images, c.image, found) ==> found == Get(images, c.image)
  }

  /** Without a repository of that name, it does. */
  lemma UnshadowedNamesItself(repos: Repositories, images: Images, c: Container, rank: Id -> nat)
    requires ValidImages(images) && Ranked(images, rank) && c.image !in repos && ValidId(c.image)
    ensures NamesItself(repos, images, c) && Shown(repos, images, c, rank)
  {
    forall found | Finds(repos, images, c.image, found)
      ensures found == Get(images, c.image)
    {
      FindsById(repos, images, c.image, found);
    }
  }

  /** The ancestors of an ancestor. */
  lemma {:induction false} ChainHoldsChain(images: Images, id: Id, x: Id, rank: Id -> nat)
    requires Ranked(images, rank) && x in Chain(images, id, rank)
    ensures x in images && rank(x) <= rank(id) && (rank(x) == rank(id) ==> x == id)
    ensures forall y :: y in Chain(images, x, rank) ==> y in Chain(images, id, rank)
    decreases rank(id)
  {
    if x == id {
    } else {
      ChainHoldsChain(images, images[id].parent, x, rank);
    }
  }

  /** What a container uses is safe from every deletion that its lookups allow, exactly when every lookup of
      its image finds an image with that one in its history. */
  lemma SparedIffShown(repos: Repositories, images: Images, c: Container, force: bool, rank: Id -> nat)
    requires ValidImages(images) && Ranked(images, rank) && (c.running || !force)
    ensures (forall id :: MayAllow(repos, images, c, id, force, rank) ==> id !in Chain(images, c.image, rank))
            <==> Shown(repos, images, c, rank)
  {
    if Shown(repos, images, c, rank) {
      forall id | MayAllow(repos, images, c, id, force, rank)
        ensures id !in Chain(images, c.image, rank)
      {
        var found :| Finds(repos, images, c.image, found) && !Objects(images, found, c, id, force, rank);
        if c.image in images {
          assert Shows(images, c, found, rank);
          ChainHoldsChain(images, found.value.id, c.image, rank);
        }
      }
    } else {
      assert MayAllow(repos, images, c, c.image, force, rank);
    }
  }

  /** And the verdict on each image is right, exactly when every lookup finds the container's own image. */
  lemma VerdictIffNamed(repos: Repositories, images: Images, c: Container, force: bool, rank: Id -> nat)
    requires ValidImages(images) && Ranked(images, rank) && (c.running || !force)
    ensures (forall id, found :: Finds(repos, images, c.image, found) ==>
               (Objects(images, found, c, id, force, rank) <==> Blocks(images, c, id, force, rank)))
            <==> NamesItself(repos, images, c)
  {
    if forall id, found :: Finds(repos, images, c.image, found) ==>
         (Objects(images, found, c, id, force, rank) <==> Blocks(images, c, id, force, rank)) {
      forall found | Finds(repos, images, c.image, found)
        ensures found == Get(images, c.image)
      {
        OutsideChain(images, c.image, rank);
        assert Objects(images, found, c, "", force, rank) <==> Blocks(images, c, "", force, rank);
        assert Objects(images, found, c, c.image, force, rank) <==> Blocks(images, c, c.image, force, rank);
        if found.Some? {
          OutsideChain(images, found.value.id, rank);
          assert Objects(images, found, c, found.value.id, force, rank) <==>
                   Blocks(images, c, found.value.id, force, rank);
          ChainHoldsChain(images, found.value.id, c.image, rank);
          ChainHoldsChain(images, c.image, found.value.id, rank);
        }
      }
    }
  }

  /** The empty id is no image's. */
  lemma {:induction false} OutsideChain(images: Images, id: Id, rank: Id -> nat)
    requires ValidImages(images) && Ranked(images, rank)
    ensures "" !in Chain(images, id, rank)
    decreases if id in images then rank(id) + 1 else 0
  {
    if id !in images {
    } else {
      OutsideChain(images, images[id].parent, rank);
    }
  }

  /** What is shown stays shown while other images are deleted that are allowed to go. */
  lemma ShownLater(repos: Repositories, images0: Images, id: Id, c: Container, force: bool, rank: Id -> nat)
    requires ValidImages(images0) && Ranked(images0, rank) && Closed(images0) && TagsResolve(repos, images0 - {id})
    requires Ranked(images0 - {id}, rank) && Closed(images0 - {id})
    requires (c.running || !force) && Shown(repos, images0, c, rank) && MayAllow(repos, images0, c, id, force, rank)
    ensures Shown(repos, images0 - {id}, c, rank)
    ensures c.image in images0 ==> c.image in images0 - {id}
  {
    SparedIffShown(repos, images0, c, force, rank);
    var images1 := images0 - {id};
    forall found | c.image in images1 && Finds(repos, images1, c.image, found)
      ensures Shows(images1, c, found, rank)
    {
      if found.Some? {
        StillFound(repos, images0, images1, c.image, found);
        assert Shows(images0, c, found, rank);
        FoundIsImage(repos, images1, c.image, found);
        ChainInPart(images0, images1, found.value.id, rank);
      }
    }
  }

  lemma FoundIsImage(repos: Repositories, images: Images, name: string, found: Option<Image>)
    requires ValidImages(images) && Finds(repos, images, name, found) && found.Some?
    ensures found.value.id in images && images[found.value.id] == found.value
  {
  }

  /** What a lookup finds in part of the graph, it may find in the whole. */
  lemma StillFound(repos: Repositories, images: Images, part: Images, name: string, found: Option<Image>)
    requires forall i :: i in part ==> i in images && part[i] == images[i]
    requires Finds(repos, part, name, found) && found.Some?
    ensures Finds(repos, images, name, found)
  {
    var (repo, parsed) := ParseRepositoryTag(name);
    var tag := if parsed == "" then DEFAULT_TAG else parsed;
    if repo in repos && tag !in repos[repo] && exists t :: t in repos[repo] && tag <= repos[repo][t] {
      var t :| t in repos[repo] && tag <= repos[repo][t] && found == Get(part, repos[repo][t]);
      assert found == Get(images, repos[repo][t]);
    }
  }

  /** With lookups that find the containers' own images, a deletion is allowed exactly when no container
      stands in the way. */
  lemma AllowedIfNoneBlocks(repos: Repositories, images: Images, containers: seq<Container>, id: Id, force: bool,
                            rank: Id -> nat)
    requires ValidImages(images) && Ranked(images, rank)
    requires forall c :: c in containers ==> NamesItself(repos, images, c)
    ensures AllMayAllow(repos, images, containers, id, force, rank) ==>
              forall c :: c in containers ==> !Blocks(images, c, id, force, rank)
    ensures SomeMayRefuse(repos, images, containers, id, force, rank) ==>
              exists c :: c in containers && Blocks(images, c, id, force, rank)
  {
    forall c | c in containers
      ensures MayAllow(repos, images, c, id, force, rank) ==> !Blocks(images, c, id, force, rank)
      ensures MayRefuse(repos, images, c, id, force, rank) ==> Blocks(images, c, id, force, rank)
    {
      assert NamesItself(repos, images, c);
    }
  }

  /** An initial part of the ancestor chain of `id`. */
  ghost predicate IsRun(images: Images, id: Id, run: seq<Id>)
    decreases |run|
  {
    run != [] ==>
      && run[0] == id && id in images
      && (|run| > 1 ==> IsRun(images, images[id].parent, run[1..]))
  }

  function Elements(s: seq<Id>): set<Id> {
    set x | x in s
  }

  /** The images that a prune may take with it: each without a tag, and without a child except the
      one deleted just before it. */
  ghost predicate IsBare(repos: Repositories, images: Images, run: seq<Id>) {
    && (run != [] ==> ChildrenOf(images, run[0]) == {})
    && (forall i :: 0 < i < |run| ==> TagsOf(repos, run[i]) == {} && ChildrenOf(images, run[i]) == {run[i - 1]})
  }

  /** Nothing in the history of a container that matters is deleted. */
  ghost predicate SparesContainers(images: Images, containers: seq<Container>, run: seq<Id>, force: bool,
                                   rank: Id -> nat)
    requires Ranked(images, rank)
  {
    forall c, id :: c in containers && (c.running || !force) && id in run ==> id !in Chain(images, c.image, rank)
  }

  function DeletedEvents(run: seq<Id>): seq<Event> {
    if run == [] then [] else [Deleted(run[0])] + DeletedEvents(run[1..])
  }

  class Daemon {
    var images: Images
    var repos: Repositories
    const containers: seq<Container>
    ghost const rank: Id -> nat

    ghost predicate Valid()
      reads this
    {
      && ValidImages(images) && Ranked(images, rank) && Closed(images)
      && ValidRepositories(repos) && TagsResolve(repos, images)
    }

    constructor (images: Images, repos: Repositories, containers: seq<Container>, ghost rank: Id -> nat)
      requires ValidImages(images) && Ranked(images, rank) && Closed(images)
      requires ValidRepositories(repos) && TagsResolve(repos, images)
      ensures Valid() && this.images == images && this.repos == repos && this.containers == containers
    {
      this.images, this.repos, this.containers, this.rank := images, repos, containers, rank;
    }

    method LookupImage(name: string) returns (found: Option<Image>)
      ensures Finds(repos, images, name, found)
    {
      var (repo, parsed) := ParseRepositoryTag(name);
      var tag := if parsed == "" then DEFAULT_TAG else parsed;
      if repo in repos {
        if tag in repos[repo] {
          return Get(images, repos[repo][tag]);
        }
        var matching := set t | t in repos[repo] && tag <= repos[repo][t];
        if matching != {} {
          var t :| t in matching;
          assert t in repos[repo] && tag <= repos[repo][t];
          return Get(images, repos[repo][t]);
        }
        assert forall t :: t in repos[repo] && tag <= repos[repo][t] ==> t in matching;
      }
      return Get(images, name);
    }

    /** `TagStore.Set`. The source means to report a conflict without force, but looks the repository
        up only where it is missing: an existing tag is always moved. */
    method SetTag(repoName: string, tag: string, imageName: string, force: bool)
      returns (failure: Option<Failure>, ghost found: Option<Image>)
      requires Valid()
      modifies this`repos
      ensures Valid() && Finds(old(repos), images, imageName, found)
      ensures failure == if found == None then Some(NoSuchImage)
                         else if repoName == "" || !ValidTag(EffectiveTag(tag)) then Some(BadName) else None
      ensures repos ==
              if failure.Some? then old(repos) else Tagged(old(repos), repoName, EffectiveTag(tag), found.value.id)
    {
      var img := LookupImage(imageName);
      found := img;
      if img == None {
        return Some(NoSuchImage), found;
      }
      if repoName == "" || !ValidTag(EffectiveTag(tag)) {
        return Some(BadName), found;
      }
      TaggedIsValid(repos, images, repoName, EffectiveTag(tag), img.value.id);
      repos := Tagged(repos, repoName, EffectiveTag(tag), img.value.id);
      return None, found;
    }

    /** `TagStore.Delete`: one tag, or the whole repository when no tag is named. */
    method DeleteTag(repoName: string, tag: string) returns (ok: bool)
      requires Valid()
      modifies this`repos
      ensures Valid()
      ensures ok <==> repoName in old(repos) && (tag == "" || tag in old(repos)[repoName])
      ensures repos == if !ok then old(repos)
                       else if tag == "" then old(repos) - {repoName}
                       else Untag(old(repos), repoName, {tag})
    {
      if repoName !in repos || (tag != "" && tag !in repos[repoName]) {
        return false;
      }
      var r := if tag == "" then map[] else repos[repoName] - {tag};
      if r == map[] {
        repos := repos - {repoName};
      } else {
        repos := repos[repoName := r];
      }
      return true;
    }

    /** The inner loop of `ByID`: the tags of one repository that refer to an image. */
    method NamesIn(repoName: string, id: Id, names0: seq<string>, ghost pairs0: seq<(string, string)>)
      returns (names: seq<string>, ghost pairs: seq<(string, string)>)
      requires repoName in repos && Names(names0, pairs0) && NoDuplicates(pairs0)
      requires forall p :: p in pairs0 ==> p.0 != repoName
      ensures Names(names, pairs) && NoDuplicates(pairs)
      ensures forall p :: p in pairs <==> p in pairs0 || (p in TagsOf(repos, id) && p.0 == repoName)
    {
      names, pairs := names0, pairs0;
      var repository := repos[repoName];
      var tags := repository.Keys;
      while tags != {}
        invariant tags <= repository.Keys && Names(names, pairs) && NoDuplicates(pairs)
        invariant forall p :: p in pairs <==>
                    p in pairs0 || (p.0 == repoName && p.1 in repository && p.1 !in tags && repository[p.1] == id)
        decreases tags
      {
        var tag :| tag in tags;
        tags := tags - {tag};
        if repository[tag] == id {
          assert (repoName, tag) !in pairs;
          names, pairs := names + [JoinTag(repoName, tag)], pairs + [(repoName, tag)];
        }
      }
    }

    /** The row of `ByID` for one image: every name that refers to it, once, in any order. */
    method NamesOf(id: Id) returns (names: seq<string>, ghost pairs: seq<(string, string)>)
      ensures Names(names, pairs) && NoDuplicates(pairs)
      ensures forall p :: p in pairs <==> p in TagsOf(repos, id)
      ensures forall n :: n in names <==> exists p :: p in TagsOf(repos, id) && n == JoinTag(p.0, p.1)
    {
      names, pairs := [], [];
      var repoNames := repos.Keys;
      while repoNames != {}
        invariant repoNames <= repos.Keys && Names(names, pairs) && NoDuplicates(pairs)
        invariant forall p :: p in pairs <==> p in TagsOf(repos, id) && p.0 !in repoNames
        decreases repoNames
      {
        var repoName :| repoName in repoNames;
        names, pairs := NamesIn(repoName, id, names, pairs);
        repoNames := repoNames - {repoName};
      }
      forall n { NameOfPair(names, pairs, n); }
    }

    /** `TagStore.DeleteAll`: each name is cut at every colon, which is harmless when there is none. */
    method DeleteAll(id: Id) returns (ok: bool)
      requires Valid()
      modifies this`repos
      ensures Valid()
      ensures TagsOf(old(repos), id) == {} ==> ok && repos == old(repos)
    {
      var names, pairs := NamesOf(id);
      assert names != [] ==> pairs[0] in pairs;
      for i := 0 to |names|
        invariant Valid()
        invariant names == [] ==> repos == old(repos)
      {
        var colon := FirstIndex(names[i], ':');
        var rest := names[i][colon + 1..];
        ok := DeleteTag(names[i][..colon], if ':' in rest then rest[..FirstIndex(rest, ':')] else rest);
        if !ok {
          return;
        }
      }
      return true;
    }

    /** One turn of the loop of `canDeleteImage`: the container's image is looked up by its id, like
        any name, and its history searched. */
    method Allows(c: Container, id: Id, force: bool) returns (ok: bool, ghost found: Option<Image>)
      requires Valid()
      ensures Finds(repos, images, c.image, found)
      ensures ok <==> !Objects(images, found, c, id, force, rank)
      ensures if ok then MayAllow(repos, images, c, id, force, rank) else MayRefuse(repos, images, c, id, force, rank)
    {
      var parent := LookupImage(c.image);
      found := parent;
      if parent == None {
        return false, found;
      }
      var has := HistoryHas(images, parent.value, id, rank);
      if has == None {
        return false, found;
      }
      ok := !(has.value && (c.running || !force));
    }

    /** `canDeleteImage`: every container allows it. */
    method CanDeleteImage(id: Id, force: bool) returns (ok: bool)
      requires Valid()
      ensures if ok then AllMayAllow(repos, images, containers, id, force, rank)
              else SomeMayRefuse(repos, images, containers, id, force, rank)
    {
      ok := true;
      for i := 0 to |containers|
        invariant AllMayAllow(repos, images, containers[..i], id, force, rank)
      {
        assert containers[..i + 1] == containers[..i] + [containers[i]];
        ghost var found;
        ok, found := Allows(containers[i], id, force);
        if !ok {
          return false;
        }
      }
      assert containers[..|containers|] == containers;
      return true;
    }

    /** The tags to remove when an image is named by its id: all of its tags in one repository. A
        second repository is a conflict without force. */
    method TagsToRemove(img: Id, force: bool) returns (conflict: bool, repoName: string, tags: seq<string>)
      requires Valid()
      ensures TagsChosen(repos, img, force, conflict, repoName, tags)
    {
      conflict, repoName, tags := false, "", [];
      var names, pairs := NamesOf(img);
      for i := 0 to |names|
        invariant Choosing(tags, pairs, i, repoName, force)
      {
        var (parsedRepo, parsedTag) := ParseRepositoryTag(names[i]);
        assert pairs[i] in pairs && pairs[i] in TagsOf(repos, img);
        ParseUndoesJoin(pairs[i].0, pairs[i].1);
        ChoosingMore(tags, pairs, i, repoName, force);
        if repoName == "" || repoName == parsedRepo {
          repoName := parsedRepo;
          tags := tags + [parsedTag];
        } else if !force {
          ConflictChosen(repos, img, tags, pairs, i, repoName);
          return true, repoName, tags;
        }
      }
      AllChosen(repos, img, tags, pairs, repoName, force);
    }

    /** Removing the tags, with an event for each. A tag that is missing stops it. */
    method RemoveTags(repoName: string, tags: seq<string>, imgs: seq<Event>) returns (imgs': seq<Event>, ok: bool)
      requires Valid() && NoDuplicates(tags) && "" !in tags
      requires |tags| > 1 ==> repoName in repos && forall t :: t in tags ==> t in repos[repoName]
      modifies this`repos
      ensures Valid()
      ensures ok <==> tags == [] || (repoName in old(repos) && forall t :: t in tags ==> t in old(repos)[repoName])
      ensures ok ==>
                repos == Untag(old(repos), repoName, TagSet(tags)) && imgs' == imgs + UntaggedEvents(repoName, tags)
      ensures !ok ==> repos == old(repos) && imgs' == imgs
    {
      imgs', ok := imgs, true;
      RemovedNone(repos, repoName, tags, imgs);
      for i := 0 to |tags|
        invariant Valid() && RemovedUpTo(old(repos), repos, repoName, tags, i, imgs, imgs')
        invariant i > 0 ==> repoName in old(repos)
        invariant forall k :: 0 <= k < i ==> tags[k] in old(repos)[repoName]
      {
        RemovedMore(old(repos), repos, repoName, tags, i, imgs, imgs');
        ok := DeleteTag(repoName, tags[i]);
        if !ok {
          return;
        }
        imgs' := imgs' + [Untagged(JoinTag(repoName, tags[i]))];
      }
      assert tags[..|tags|] == tags;
    }

    /** The image is found, and whether it was named by its id. */
    method FindTarget(name: string) returns (found: Option<Image>, byId: bool)
      requires Valid()
      ensures Finds(repos, images, name, found)
      ensures found.Some? ==> found.value.id in images && images[found.value.id] == found.value
      ensures found.Some? && !byId ==> TagsOf(repos, found.value.id) != {}
      ensures found.Some? ==> (byId <==> Contains(found.value.id, name) || ParseRepositoryTag(name).0 == "")
      ensures found.Some? && TagsOf(repos, found.value.id) == {} ==> found.value.id == name
      ensures name in images ==> found.Some? && (name !in repos ==> found == Some(images[name]))
    {
      found := LookupImage(name);
      if name in images {
        FindsSome(repos, images, name, found);
      }
      byId := false;
      if found.Some? {
        FoundByTag(repos, images, name, found);
        ContainsSelf(name);
        byId := Contains(found.value.id, name) || ParseRepositoryTag(name).0 == "";
      }
    }

    /** The first part of `DeleteImage`: which image is meant, and which of its tags to remove. */
    method Prepare(name: string, first: bool, force: bool) returns (plan: Plan, ghost target: Id)
      requires Valid()
      ensures PlanIsRight(repos, images, name, first, plan, target)
    {
      target := "";
      var found, byId := FindTarget(name);
      if found == None {
        return Stop(Some(NoSuchImage)), target;
      }
      var img := found.value;
      target := img.id;
      var conflict, repoName := false, ParseRepositoryTag(name).0;
      var tags := [EffectiveTag(ParseRepositoryTag(name).1)];
      if byId {
        conflict, repoName, tags := TagsToRemove(img.id, force);
        if conflict {
          return Stop(Some(MultipleRepositories)), target;
        }
        ChosenFits(repos, images, img, force, repoName, tags);
      } else {
        NamedFits(repos, images, name, img);
      }
      if !first && |tags| > 0 {
        return Stop(None), target;
      }
      plan := Proceed(img, repoName, tags);
    }

    /** Deleting one image that has neither tags nor children, unless a container stands in the way. */
    method RemoveImage(id: Id, force: bool) returns (ok: bool)
      requires Valid() && id in images && ChildrenOf(images, id) == {} && TagsOf(repos, id) == {}
      modifies this`images, this`repos
      ensures Valid() && repos == old(repos)
      ensures images == if ok then old(images) - {id} else old(images)
      ensures if ok then AllMayAllow(repos, old(images), containers, id, force, rank)
              else SomeMayRefuse(repos, old(images), containers, id, force, rank)
    {
      ok := CanDeleteImage(id, force);
      if ok {
        ok := DeleteAll(id);
        StillValid(images, repos, id, rank);
        images := images - {id};
      }
    }

    /** The second part of `DeleteImage`: an image left without tags and children is deleted, and the
        prune goes on with its parent. */
    method DeleteBare(img: Image, repoName: string, hasChildren: bool, first: bool, force: bool, noprune: bool,
                      imgs: seq<Event>)
      returns (imgs': seq<Event>, failure: Option<Failure>, ghost run: seq<Id>)
      requires Valid() && img.id in images && images[img.id] == img
      requires hasChildren == (ChildrenOf(images, img.id) != {})
      requires repoName == "" ==> TagsOf(repos, img.id) == {}
      modifies this`images, this`repos
      ensures Valid() && repos == old(repos)
      ensures imgs' == imgs + DeletedEvents(run)
      ensures Pruned(old(images), repos, images, containers, img.id, run, force, noprune, rank)
      ensures run == [] || !first ==> failure in {None, Some(InUse)}
      decreases |images|, 1
    {
      imgs', failure, run := imgs, None, [];
      var tags, pairs := NamesOf(img.id);
      PairsEmpty(pairs, TagsOf(repos, img.id));
      PrunedNot(images, repos, containers, img.id, force, noprune, rank);
      if !((|tags| <= 1 && repoName == "") || |tags| == 0) || hasChildren {
        return;
      }
      imgs', failure, run := RemoveAndPrune(img, first, force, noprune, imgs);
    }

    /** An image without tags and children is deleted, and then its parent, if the same holds for it. */
    method RemoveAndPrune(img: Image, first: bool, force: bool, noprune: bool, imgs: seq<Event>)
      returns (imgs': seq<Event>, failure: Option<Failure>, ghost run: seq<Id>)
      requires Valid() && img.id in images && images[img.id] == img
      requires ChildrenOf(images, img.id) == {} && TagsOf(repos, img.id) == {}
      modifies this`images, this`repos
      ensures Valid() && repos == old(repos)
      ensures imgs' == imgs + DeletedEvents(run)
      ensures Pruned(old(images), repos, images, containers, img.id, run, force, noprune, rank)
      ensures run == [] || !first ==> failure in {None, Some(InUse)}
      decreases |images|, 0
    {
      ghost var images0, repos0 := images, repos;
      PrunedNot(images, repos, containers, img.id, force, noprune, rank);
      var ok := RemoveImage(img.id, force);
      if !ok {
        imgs', failure, run := imgs, Some(InUse), [];
      } else if img.parent == "" || noprune {
        imgs', failure, run := imgs + [Deleted(img.id)], None, [img.id];
        PrunedOne(images0, repos, containers, img.id, force, noprune, rank);
      } else {
        ghost var d;
        imgs', failure, d := DeleteImage(img.parent, false, force, noprune, imgs + [Deleted(img.id)]);
        PrunedMore(images0, repos0, images, repos, containers, img.id, failure, d, force, rank);
        EventsMore(imgs, imgs + [Deleted(img.id)], img.id, d.run);
        run := [img.id] + d.run;
        if !first {
          failure := None;
        }
      }
    }

    /** `DeleteImage`: untag, and when no tag is left and no child exists, delete, then go on with the
        parent. An error from the parent's deletion reaches the caller of the first call only. */
    method DeleteImage(name: string, first: bool, force: bool, noprune: bool, imgs: seq<Event>)
      returns (imgs': seq<Event>, failure: Option<Failure>, ghost d: Deletion)
      requires Valid()
      modifies this`images, this`repos
      ensures Valid()
      ensures imgs' == imgs + UntaggedEvents(d.repo, d.tags) + DeletedEvents(d.run)
      ensures Outcome(old(images), old(repos), images, repos, containers, name, first, force, noprune, failure, d, rank)
      decreases |images|, 3
    {
      imgs' := imgs;
      var plan;
      ghost var target;
      plan, target := Prepare(name, first, force);
      if plan.Stop? {
        d := Deletion(target, "", [], []);
        Stopped(images, repos, containers, name, first, force, noprune, plan, target, rank);
        EventsMore(imgs, imgs + [Deleted("")], "", []);
        return imgs', plan.failure, d;
      }
      imgs', failure, d := Proceeding(name, first, plan, force, noprune, imgs);
    }

    /** The rest of `DeleteImage`, once the image and the tags to remove are known. */
    method Proceeding(ghost name: string, first: bool, plan: Plan, force: bool, noprune: bool, imgs: seq<Event>)
      returns (imgs': seq<Event>, failure: Option<Failure>, ghost d: Deletion)
      requires Valid() && plan.Proceed? && PlanIsRight(repos, images, name, first, plan, plan.img.id)
      modifies this`images, this`repos
      ensures Valid()
      ensures imgs' == imgs + UntaggedEvents(d.repo, d.tags) + DeletedEvents(d.run)
      ensures Outcome(old(images), old(repos), images, repos, containers, name, first, force, noprune, failure, d, rank)
      decreases |images|, 2
    {
      ghost var images0, repos0 := images, repos;
      var byParents := ByParent(images);
      PlanReady(repos, images, plan.img, plan.repoName, plan.tags);
      var ok;
      imgs', ok := RemoveTags(plan.repoName, plan.tags, imgs);
      if !ok {
        d := Deletion(plan.img.id, "", [], []);
        Missing(images, repos, containers, name, first, force, noprune, plan, rank);
        EventsMore(imgs, imgs + [Deleted("")], "", []);
        return imgs', Some(NoSuchTag), d;
      }
      ghost var run;
      var hasChildren := plan.img.id in byParents;
      imgs', failure, run := DeleteBare(plan.img, plan.repoName, hasChildren, first, force, noprune, imgs');
      d := Deletion(plan.img.id, plan.repoName, plan.tags, run);
      Completed(images0, repos0, images, repos, containers, name, first, force, noprune, plan, failure, run, rank);
    }
  }

  /** What `DeleteImage` did for `name`, as one statement about the stores before and after. */
  ghost predicate Outcome(images0: Images, repos0: Repositories, images1: Images, repos1: Repositories,
                          containers: seq<Container>, name: string, first: bool, force: bool, noprune: bool,
                          failure: Option<Failure>, d: Deletion, rank: Id -> nat)
    requires Ranked(images0, rank) && Ranked(images1, rank)
  {
    && Untags(d, repos0, repos1)
    && (d.run != [] || failure !in {Some(NoSuchImage), Some(NoSuchTag)} ==>
          PrunedFrom(images0, repos0, images1, repos1, containers, d.target, d.run, force, noprune, rank))
    && (d.run == [] ==> images1 == images0)
    && (!first ==> d.tags == [] && repos1 == repos0 && failure != Some(NoSuchTag))
    && (!first && d.run != [] ==> d.target == name)
    && (name in images0 && d.run == [] ==> failure != Some(NoSuchImage))
    && (name in images0 && name !in repos0 ==> d.target == name)
  }

  lemma Stopped(images: Images, repos: Repositories, containers: seq<Container>, name: string, first: bool, force: bool,
                noprune: bool, plan: Plan, target: Id, rank: Id -> nat)
    requires ValidRepositories(repos) && Ranked(images, rank)
    requires plan.Stop? && PlanIsRight(repos, images, name, first, plan, target)
    ensures Outcome(images, repos, images, repos, containers, name, first, force, noprune, plan.failure,
                    Deletion(target, "", [], []), rank)
  {
    UntagNone(repos, "");
    assert TagSet([]) == {};
    PrunedNot(images, repos, containers, target, force, noprune, rank);
  }

  /** A tag that does not exist: nothing has happened. */
  lemma Missing(images: Images, repos: Repositories, containers: seq<Container>, name: string, first: bool, force: bool,
                noprune: bool, plan: Plan, rank: Id -> nat)
    requires ValidRepositories(repos) && Ranked(images, rank)
    requires plan.Proceed? && plan.tags != [] && PlanIsRight(repos, images, name, first, plan, plan.img.id)
    ensures Outcome(images, repos, images, repos, containers, name, first, force, noprune, Some(NoSuchTag),
                    Deletion(plan.img.id, "", [], []), rank)
  {
    UntagNone(repos, "");
    assert TagSet([]) == {};
  }

  lemma Completed(images0: Images, repos0: Repositories, images1: Images, repos1: Repositories,
                  containers: seq<Container>, name: string, first: bool, force: bool, noprune: bool, plan: Plan,
                  failure: Option<Failure>, run: seq<Id>, rank: Id -> nat)
    requires ValidRepositories(repos0) && Ranked(images0, rank) && Ranked(images1, rank)
    requires plan.Proceed? && PlanIsRight(repos0, images0, name, first, plan, plan.img.id)
    requires forall t :: t in plan.tags ==> (plan.repoName, t) in TagsOf(repos0, plan.img.id)
    requires repos1 == Untag(repos0, plan.repoName, TagSet(plan.tags))
    requires Pruned(images0, repos1, images1, containers, plan.img.id, run, force, noprune, rank)
    requires run == [] || !first ==> failure in {None, Some(InUse)}
    ensures Outcome(images0, repos0, images1, repos1, containers, name, first, force, noprune, failure,
                    Deletion(plan.img.id, plan.repoName, plan.tags, run), rank)
  {
    RemovesBefore(repos0, images0, images1, plan.img.id, plan.repoName, plan.tags, run);
    PlanReady(repos0, images0, plan.img, plan.repoName, plan.tags);
    assert Elements([]) == {};
  }

  lemma ChosenFits(repos: Repositories, images: Images, img: Image, force: bool, repoName: string, tags: seq<string>)
    requires ValidRepositories(repos) && img.id in images && images[img.id] == img
    requires TagsChosen(repos, img.id, force, false, repoName, tags)
    ensures PlanFits(repos, images, img, repoName, tags)
  {
    assert forall t :: t in tags ==> ValidTag(t);
    assert |tags| == 1 ==> tags[0] in tags;
  }

  /** An image that is not named by its id was found through a tag; if the tag itself exists, it is the one. */
  lemma NamedFits(repos: Repositories, images: Images, name: string, img: Image)
    requires ValidImages(images) && Finds(repos, images, name, Some(img)) && ParseRepositoryTag(name).0 != ""
    ensures PlanFits(repos, images, img, ParseRepositoryTag(name).0, [EffectiveTag(ParseRepositoryTag(name).1)])
  {
  }

  /** What a deletion did: the image it was about, the tags removed from one repository, and the
      images removed, from the target up. */
  datatype Deletion = Deletion(target: Id, repo: string, tags: seq<string>, run: seq<Id>)

  /** The images of `run` are gone: the start of the ancestor chain of `target`, each bare. */
  ghost predicate Removes(images0: Images, repos0: Repositories, images1: Images, target: Id, run: seq<Id>) {
    && Elements(run) <= images0.Keys && images1 == images0 - Elements(run)
    && IsRun(images0, target, run) && IsBare(repos0, images0, run)
  }

  /** The tags removed were tags of the target, and no other tag changed. */
  ghost predicate Untags(d: Deletion, repos0: Repositories, repos1: Repositories) {
    && repos1 == Untag(repos0, d.repo, TagSet(d.tags))
    && (forall t :: t in d.tags ==> (d.repo, t) in TagsOf(repos0, d.target))
  }

  /** The whole effect of a deletion on the images: what went, what was spared, and why it stopped.
      `repos0` is before the target lost its tags, `repos` after. */
  ghost predicate PrunedFrom(images0: Images, repos0: Repositories, images1: Images, repos: Repositories,
                             containers: seq<Container>, id: Id, run: seq<Id>, force: bool, noprune: bool,
                             rank: Id -> nat)
    requires Ranked(images0, rank) && Ranked(images1, rank)
  {
    && Removes(images0, repos0, images1, id, run)
    && (AllShown(repos, images0, containers, force, rank) ==> SparesContainers(images0, containers, run, force, rank))
    && (run == [] ==> Held(images1, repos, containers, force, id, rank))
    && (run != [] && noprune ==> |run| == 1)
    && (run != [] && !noprune ==> Stops(images1, repos, containers, force, images0[run[|run| - 1]].parent, rank))
  }

  ghost predicate Pruned(images0: Images, repos: Repositories, images1: Images, containers: seq<Container>,
                         id: Id, run: seq<Id>, force: bool, noprune: bool, rank: Id -> nat)
    requires Ranked(images0, rank) && Ranked(images1, rank)
  {
    PrunedFrom(images0, repos, images1, repos, containers, id, run, force, noprune, rank)
  }

  /** A reason not to delete the image. */
  ghost predicate Held(images: Images, repos: Repositories, containers: seq<Container>, force: bool, id: Id,
                       rank: Id -> nat)
    requires Ranked(images, rank)
  {
    || TagsOf(repos, id) != {}
    || ChildrenOf(images, id) != {}
    || SomeMayRefuse(repos, images, containers, id, force, rank)
  }

  lemma StillValid(images: Images, repos: Repositories, id: Id, rank: Id -> nat)
    requires ValidImages(images) && Ranked(images, rank) && Closed(images) && TagsResolve(repos, images)
    requires id in images && ChildrenOf(images, id) == {} && TagsOf(repos, id) == {}
    ensures ValidImages(images - {id}) && Ranked(images - {id}, rank) && Closed(images - {id}) &&
              TagsResolve(repos, images - {id})
  {
    forall i | i in images - {id} && images[i].parent != ""
      ensures images[i].parent != id
    {
      assert i !in ChildrenOf(images, id);
    }
    forall r, t | r in repos && t in repos[r]
      ensures repos[r][t] != id
    {
      assert (r, t) !in TagsOf(repos, id);
    }
  }

  /** A reason for a prune not to go on with the parent `id`. */
  ghost predicate Stops(images: Images, repos: Repositories, containers: seq<Container>, force: bool, id: Id,
                        rank: Id -> nat)
    requires Ranked(images, rank)
  {
    id == "" || id in repos || Held(images, repos, containers, force, id, rank)
  }

  lemma RemovesNothing(images: Images, repos: Repositories, target: Id)
    ensures Removes(images, repos, images, target, [])
  {
    assert Elements([]) == {};
  }

  lemma RemovesOne(images: Images, repos: Repositories, id: Id)
    requires id in images && ChildrenOf(images, id) == {}
    ensures Removes(images, repos, images - {id}, id, [id])
  {
    assert Elements([id]) == {id};
  }

  lemma SparesOne(repos: Repositories, images: Images, containers: seq<Container>, id: Id, force: bool, rank: Id -> nat)
    requires ValidImages(images) && Ranked(images, rank)
    requires AllMayAllow(repos, images, containers, id, force, rank) && AllShown(repos, images, containers, force, rank)
    ensures SparesContainers(images, containers, [id], force, rank)
  {
    forall c | c in containers && (c.running || !force)
      ensures id !in Chain(images, c.image, rank)
    {
      SparedIffShown(repos, images, c, force, rank);
    }
  }

  lemma ChildrenWithout(images: Images, id: Id, x: Id)
    requires id in images
    ensures ChildrenOf(images, x) == ChildrenOf(images - {id}, x) + (if images[id].parent == x then {id} else {})
  {
  }

  /** Nothing in a run has a tag once the run is deleted, and the run's first image has no child but
      the one deleted before it. */
  lemma BareMore(images0: Images, repos: Repositories, images2: Images, id: Id, run: seq<Id>)
    requires id in images0 && ChildrenOf(images0, id) == {}
    requires IsBare(repos, images0 - {id}, run) && images2.Keys !! Elements(run) && TagsResolve(repos, images2)
    requires run != [] ==> images0[id].parent == run[0]
    ensures IsBare(repos, images0, [id] + run)
  {
    var all := [id] + run;
    forall i | 0 < i < |all|
      ensures TagsOf(repos, all[i]) == {} && ChildrenOf(images0, all[i]) == {all[i - 1]}
    {
      assert run[i - 1] in Elements(run);
      assert run[i - 1] !in images2;
      ChildrenWithout(images0, id, run[i - 1]);
    }
  }

  /** The run of a prune, with the image deleted before it. */
  lemma RemovesMore(images0: Images, repos: Repositories, images1: Images, images2: Images, id: Id, parent: Id,
                    run: seq<Id>)
    requires id in images0 && ChildrenOf(images0, id) == {} && images1 == images0 - {id}
    requires Removes(images1, repos, images2, parent, run) && TagsResolve(repos, images2)
    requires run != [] ==> images0[id].parent == parent
    ensures Removes(images0, repos, images2, id, [id] + run)
  {
    var all := [id] + run;
    assert all[1..] == run;
    assert Elements(all) == {id} + Elements(run);
    RunInPart(images0, images1, parent, run);
    BareMore(images0, repos, images2, id, run);
  }

  /** The deleted images are the start of the target's ancestor chain. */
  lemma {:induction false} RunIsPrefix(images: Images, id: Id, run: seq<Id>, rank: Id -> nat)
    requires Ranked(images, rank) && IsRun(images, id, run)
    ensures run <= Chain(images, id, rank)
    decreases |run|
  {
    if |run| > 1 {
      RunIsPrefix(images, images[id].parent, run[1..], rank);
      assert run == [id] + run[1..];
    } else if |run| == 1 {
      assert run == [id];
    }
  }

  /** A repository named like the image id of a container hides that image: the lookup of the id
      finds the repository's image, and the image in use passes every check. */
  lemma ShadowedContainer(rank: Id -> nat) returns (images: Images, repos: Repositories, c: Container)
    ensures ValidImages(images) && Ranked(images, rank) && Closed(images) && ValidRepositories(repos) &&
              TagsResolve(repos, images)
    ensures c.running && (forall force :: Blocks(images, c, c.image, force, rank)) && !Shown(repos, images, c, rank)
    ensures ChildrenOf(images, c.image) == {} && TagsOf(repos, c.image) == {}
    ensures forall found :: Finds(repos, images, c.image, found) ==>
              found.Some? && c.image !in Chain(images, found.value.id, rank)
  {
    images := map["a" := Image("a", ""), "b" := Image("b", "")];
    repos := map["a" := map[DEFAULT_TAG := "b"]];
    c := Container("c", "a", true);
    ParseId("a");
    assert Chain(images, "", rank) == [];
    assert forall found :: Finds(repos, images, "a", found) ==> found == Get(images, repos["a"][DEFAULT_TAG]);
    assert Finds(repos, images, "a", Get(images, "b"));
    assert !Shows(images, c, Get(images, "b"), rank);
  }

  lemma {:induction false} RunInPart(images: Images, part: Images, id: Id, run: seq<Id>)
    requires IsRun(part, id, run) && forall i :: i in part ==> i in images && part[i] == images[i]
    ensures IsRun(images, id, run)
    decreases |run|
  {
    if |run| <= 1 {
    } else {
      RunInPart(images, part, part[id].parent, run[1..]);
    }
  }

  /** What was shown before an allowed deletion is shown after it, and what is spared then was spared before. */
  lemma SparesMore(repos: Repositories, images0: Images, containers: seq<Container>, id: Id, run: seq<Id>, force: bool,
                   rank: Id -> nat)
    requires ValidImages(images0) && Ranked(images0, rank) && Closed(images0) && id in images0
    requires Ranked(images0 - {id}, rank) && Closed(images0 - {id}) && TagsResolve(repos, images0 - {id})
    requires AllMayAllow(repos, images0, containers, id, force, rank) &&
               AllShown(repos, images0, containers, force, rank)
    ensures AllShown(repos, images0 - {id}, containers, force, rank)
    ensures SparesContainers(images0 - {id}, containers, run, force, rank) ==>
              SparesContainers(images0, containers, [id] + run, force, rank)
  {
    SparesOne(repos, images0, containers, id, force, rank);
    var images1 := images0 - {id};
    forall c | c in containers && (c.running || !force)
      ensures Shown(repos, images1, c, rank)
      ensures id !in Chain(images0, c.image, rank) && Chain(images0, c.image, rank) == Chain(images1, c.image, rank)
    {
      SparedIffShown(repos, images0, c, force, rank);
      ShownLater(repos, images0, id, c, force, rank);
      if c.image in images0 {
        ChainInPart(images0, images1, c.image, rank);
      }
    }
  }

  lemma EventsMore(imgs: seq<Event>, before: seq<Event>, id: Id, run: seq<Id>)
    requires before == imgs + [Deleted(id)]
    ensures before + DeletedEvents(run) == imgs + DeletedEvents([id] + run)
    ensures before + UntaggedEvents("", []) + DeletedEvents(run) == before + DeletedEvents(run)
  {
    assert ([id] + run)[1..] == run;
  }

  lemma UntagTags(repos: Repositories, repo: string, tags: set<string>, id: Id)
    ensures forall p :: p in TagsOf(Untag(repos, repo, tags), id) <==>
              p in TagsOf(repos, id) && !(p.0 == repo && p.1 in tags)
  {
    if repo in repos {
      var left := repos[repo] - tags;
      assert forall t :: t in left <==> t in repos[repo] && t !in tags;
    }
  }

  /** The tags of a plan can be removed, one of which may be missing; with none, nothing changes. */
  lemma PlanReady(repos: Repositories, images: Images, img: Image, repoName: string, tags: seq<string>)
    requires ValidRepositories(repos) && PlanFits(repos, images, img, repoName, tags)
    ensures |tags| > 1 ==> repoName in repos && forall t :: t in tags ==> t in repos[repoName]
    ensures repoName in repos && (forall t :: t in tags ==> t in repos[repoName]) ==>
              forall t :: t in tags ==> (repoName, t) in TagsOf(repos, img.id)
    ensures tags == [] ==> Untag(repos, repoName, TagSet(tags)) == repos
  {
    assert |tags| > 1 ==> tags[0] in tags;
    if tags == [] {
      assert TagSet(tags) == {};
      UntagNone(repos, repoName);
    }
  }

  /** Seen from before the tags of the target were removed, the run is as bare as after. */
  lemma RemovesBefore(repos: Repositories, images0: Images, images1: Images, target: Id, repoName: string,
                      tags: seq<string>, run: seq<Id>)
    requires forall t :: t in tags ==> (repoName, t) in TagsOf(repos, target)
    requires Removes(images0, Untag(repos, repoName, TagSet(tags)), images1, target, run)
    ensures Removes(images0, repos, images1, target, run)
  {
    forall i | 0 < i < |run|
      ensures TagsOf(repos, run[i]) == {}
    {
      assert run[i] != target by {
        assert ChildrenOf(images0, run[i]) == {run[i - 1]};
      }
      UntagTags(repos, repoName, TagSet(tags), run[i]);
      assert forall p :: p in TagsOf(repos, run[i]) ==> p !in TagsOf(repos, target);
      assert forall p :: p in TagsOf(repos, run[i]) ==> p in TagsOf(Untag(repos, repoName, TagSet(tags)), run[i]);
    }
  }

  lemma PrunedNot(images: Images, repos: Repositories, containers: seq<Container>, id: Id, force: bool, noprune: bool,
                  rank: Id -> nat)
    requires Ranked(images, rank)
    ensures Held(images, repos, containers, force, id, rank) ==>
              Pruned(images, repos, images, containers, id, [], force, noprune, rank)
  {
    RemovesNothing(images, repos, id);
  }

  lemma PrunedOne(images: Images, repos: Repositories, containers: seq<Container>, id: Id, force: bool, noprune: bool,
                  rank: Id -> nat)
    requires Ranked(images, rank) && Ranked(images - {id}, rank)
    requires id in images && ChildrenOf(images, id) == {} && TagsOf(repos, id) == {}
    requires ValidImages(images) && AllMayAllow(repos, images, containers, id, force, rank)
    ensures noprune || images[id].parent == "" ==>
              Pruned(images, repos, images - {id}, containers, id, [id], force, noprune, rank)
  {
    RemovesOne(images, repos, id);
    if AllShown(repos, images, containers, force, rank) {
      SparesOne(repos, images, containers, id, force, rank);
    }
  }

  /** A prune that went on with the parent, seen from before the child was deleted. */
  lemma PrunedMore(images0: Images, repos: Repositories, images2: Images, repos2: Repositories,
                   containers: seq<Container>, id: Id, failure: Option<Failure>, d: Deletion, force: bool,
                   rank: Id -> nat)
    requires ValidImages(images0) && Ranked(images0, rank) && Closed(images0) && id in images0 &&
               images0[id].parent != ""
    requires ChildrenOf(images0, id) == {} && TagsOf(repos, id) == {} && TagsResolve(repos, images0 - {id})
    requires Ranked(images0 - {id}, rank) && Closed(images0 - {id}) && TagsResolve(repos2, images2) &&
               Ranked(images2, rank)
    requires AllMayAllow(repos, images0, containers, id, force, rank)
    requires Outcome(images0 - {id}, repos, images2, repos2, containers, images0[id].parent, false, force, false,
                     failure, d, rank)
    ensures repos2 == repos
    ensures Pruned(images0, repos, images2, containers, id, [id] + d.run, force, false, rank)
  {
    var target, run := d.target, d.run;
    var all := [id] + run;
    RemovesMore(images0, repos, images0 - {id}, images2, id, target, run);
    if AllShown(repos, images0, containers, force, rank) {
      SparesMore(repos, images0, containers, id, run, force, rank);
    }
    if run == [] {
      assert all[|all| - 1] == id;
    } else {
      assert all[|all| - 1] == run[|run| - 1] && run[|run| - 1] in Elements(run);
    }
  }

  lemma PairsEmpty(pairs: seq<(string, string)>, s: set<(string, string)>)
    requires forall p :: p in pairs <==> p in s
    ensures pairs == [] <==> s == {}
  {
    if pairs != [] {
      assert pairs[0] in pairs;
    }
  }

  datatype Plan = Stop(failure: Option<Failure>) | Proceed(img: Image, repoName: string, tags: seq<string>)

  ghost predicate PlanIsRight(repos: Repositories, images: Images, name: string, first: bool, plan: Plan, target: Id) {
    && (plan.Stop? ==>
          && plan.failure in {None, Some(NoSuchImage), Some(MultipleRepositories)}
          && (plan.failure != Some(NoSuchImage) ==> TagsOf(repos, target) != {})
          && (plan.failure == None ==> !first))
    && (plan.Proceed? ==>
          && target == plan.img.id && PlanFits(repos, images, plan.img, plan.repoName, plan.tags)
          && (!first ==> plan.tags == [] && target == name))
    && (name in images ==> plan != Stop(Some(NoSuchImage)) && (name !in repos ==> target == name))
  }

  /** The tags to remove are tags of the image, or one tag that does not exist; none at all only if
      the image has none. */
  ghost predicate PlanFits(repos: Repositories, images: Images, img: Image, repoName: string, tags: seq<string>) {
    && img.id in images && images[img.id] == img && NoDuplicates(tags) && "" !in tags
    && (tags == [] <==> repoName == "") && (tags == [] ==> TagsOf(repos, img.id) == {})
    && (|tags| != 1 ==> forall t :: t in tags ==> (repoName, t) in TagsOf(repos, img.id))
    && (|tags| == 1 && repoName in repos && tags[0] in repos[repoName] ==>
          (repoName, tags[0]) in TagsOf(repos, img.id))
  }

  /** The first `i` tags are removed and reported. */
  ghost predicate RemovedUpTo(repos0: Repositories, repos: Repositories, repoName: string, tags: seq<string>, i: nat,
                              imgs: seq<Event>, imgs': seq<Event>)
    requires i <= |tags|
  {
    repos == Untag(repos0, repoName, TagSet(tags[..i])) && imgs' == imgs + UntaggedEvents(repoName, tags[..i])
  }

  lemma RemovedNone(repos: Repositories, repoName: string, tags: seq<string>, imgs: seq<Event>)
    requires ValidRepositories(repos)
    ensures RemovedUpTo(repos, repos, repoName, tags, 0, imgs, imgs)
  {
    UntagNone(repos, repoName);
    assert TagSet(tags[..0]) == {} && UntaggedEvents(repoName, tags[..0]) == [];
  }

  lemma RemovedMore(repos0: Repositories, repos: Repositories, repoName: string, tags: seq<string>, i: nat,
                    imgs: seq<Event>, imgs': seq<Event>)
    requires i < |tags| && NoDuplicates(tags) && RemovedUpTo(repos0, repos, repoName, tags, i, imgs, imgs')
    ensures RemovedUpTo(repos0, Untag(repos, repoName, {tags[i]}), repoName, tags, i + 1,
                        imgs, imgs' + [Untagged(JoinTag(repoName, tags[i]))])
    ensures repoName in repos && tags[i] in repos[repoName] <==> repoName in repos0 && tags[i] in repos0[repoName]
  {
    assert tags[..i + 1] == tags[..i] + [tags[i]];
    assert tags[i] !in tags[..i];
    assert TagSet(tags[..i + 1]) == TagSet(tags[..i]) + {tags[i]};
    UntagMore(repos0, repoName, TagSet(tags[..i]), tags[i]);
    UntaggedEventsMore(repoName, tags[..i], tags[i]);
  }

  function TagSet(tags: seq<string>): set<string> {
    set t | t in tags
  }

  function UntaggedEvents(repoName: string, tags: seq<string>): seq<Event> {
    seq(|tags|, i requires 0 <= i < |tags| => Untagged(JoinTag(repoName, tags[i])))
  }

  lemma UntaggedEventsMore(repoName: string, tags: seq<string>, tag: string)
    ensures UntaggedEvents(repoName, tags + [tag]) ==
              UntaggedEvents(repoName, tags) + [Untagged(JoinTag(repoName, tag))]
  {
  }

  lemma UntagNone(repos: Repositories, repo: string)
    requires ValidRepositories(repos)
    ensures Untag(repos, repo, {}) == repos
  {
    if repo in repos {
      assert repos[repo] - {} == repos[repo];
    }
  }

  lemma UntagMore(repos: Repositories, repo: string, tags: set<string>, tag: string)
    requires tag !in tags
    ensures var r := Untag(repos, repo, tags);
      && (repo in r && tag in r[repo] <==> repo in repos && tag in repos[repo])
      && Untag(r, repo, {tag}) == Untag(repos, repo, tags + {tag})
  {
    if repo in repos {
      assert tag in repos[repo] ==> tag in repos[repo] - tags;
      assert repos[repo] - tags - {tag} == repos[repo] - (tags + {tag});
    }
  }

  /** What `TagsToRemove` promises. */
  ghost predicate TagsChosen(repos: Repositories, img: Id, force: bool, conflict: bool, repoName: string,
                             tags: seq<string>) {
    && NoDuplicates(tags) && (tags == [] <==> TagsOf(repos, img) == {}) && (tags == [] <==> repoName == "")
    && (forall t :: t in tags ==> (repoName, t) in TagsOf(repos, img))
    && (!conflict ==> forall t :: (repoName, t) in TagsOf(repos, img) ==> t in tags)
    && (conflict ==> !force && exists p :: p in TagsOf(repos, img) && p.0 != repoName)
    && (!conflict && !force ==> forall p :: p in TagsOf(repos, img) ==> p.0 == repoName)
  }

  /** After the first `i` names. */
  ghost predicate Choosing(tags: seq<string>, pairs: seq<(string, string)>, i: nat, repoName: string, force: bool)
    requires i <= |pairs|
  {
    && (i > 0 <==> repoName != "") && (i > 0 <==> tags != []) && Collected(tags, pairs[..i], repoName)
    && (!force ==> forall p :: p in pairs[..i] ==> p.0 == repoName)
  }

  lemma ChoosingMore(tags: seq<string>, pairs: seq<(string, string)>, i: nat, repoName: string, force: bool)
    requires i < |pairs| && NoDuplicates(pairs) && pairs[i].0 != "" && Choosing(tags, pairs, i, repoName, force)
    ensures repoName == "" || repoName == pairs[i].0 ==> Choosing(tags + [pairs[i].1], pairs, i + 1, pairs[i].0, force)
    ensures repoName != "" && repoName != pairs[i].0 && force ==> Choosing(tags, pairs, i + 1, repoName, force)
  {
    assert pairs[..i + 1] == pairs[..i] + [pairs[i]];
    assert pairs[i] !in pairs[..i];
    CollectMore(tags, pairs[..i], pairs[i], repoName);
  }

  lemma ConflictChosen(repos: Repositories, img: Id, tags: seq<string>, pairs: seq<(string, string)>, i: nat,
                       repoName: string)
    requires forall p :: p in pairs <==> p in TagsOf(repos, img)
    requires i < |pairs| && Choosing(tags, pairs, i, repoName, false) && repoName != "" && repoName != pairs[i].0
    ensures TagsChosen(repos, img, false, true, repoName, tags)
  {
    assert pairs[i] in pairs;
    assert forall p :: p in pairs[..i] ==> p in pairs;
  }

  lemma AllChosen(repos: Repositories, img: Id, tags: seq<string>, pairs: seq<(string, string)>, repoName: string,
                  force: bool)
    requires forall p :: p in pairs <==> p in TagsOf(repos, img)
    requires Choosing(tags, pairs, |pairs|, repoName, force)
    ensures TagsChosen(repos, img, force, false, repoName, tags)
  {
    assert pairs[..|pairs|] == pairs;
    if pairs == [] {
      assert forall p :: p !in TagsOf(repos, img);
    } else {
      assert pairs[0] in pairs;
    }
  }

  /** The tags of the pairs that belong to one repository. */
  ghost predicate Collected(tags: seq<string>, pairs: seq<(string, string)>, repoName: string) {
    NoDuplicates(tags) && forall t :: t in tags <==> (repoName, t) in pairs
  }

  lemma CollectMore(tags: seq<string>, pairs: seq<(string, string)>, p: (string, string), repoName: string)
    requires Collected(tags, pairs, repoName) && p !in pairs
    ensures p.0 == repoName ==> Collected(tags + [p.1], pairs + [p], repoName)
    ensures p.0 != repoName ==> Collected(tags, pairs + [p], repoName)
    ensures pairs == [] ==> Collected(tags + [p.1], pairs + [p], p.0)
  {
    assert p.0 == repoName ==> p.1 !in tags;
    assert tags == [] || tags[0] in tags;
  }

  /** The names belong to the pairs, one by one. */
  ghost predicate Names(names: seq<string>, pairs: seq<(string, string)>) {
    |names| == |pairs| && forall i :: 0 <= i < |names| ==> names[i] == JoinTag(pairs[i].0, pairs[i].1)
  }

  lemma NameOfPair(names: seq<string>, pairs: seq<(string, string)>, n: string)
    requires Names(names, pairs)
    ensures n in names <==> exists p :: p in pairs && n == JoinTag(p.0, p.1)
  {
    if n in names {
      var i :| 0 <= i < |names| && names[i] == n;
      assert pairs[i] in pairs;
    }
  }

  function FirstIndex(s: string, c: char): (n: nat)
    requires c in s
    ensures n < |s| && s[n] == c
  {
    if s[0] == c then 0 else 1 + FirstIndex(s[1..], c)
  }
}
