/** The images that a push sends, and the index it registers (`graph/push.go`). */
module Push {
  import opened Sequences
  import opened Wrappers
  import opened ImageStore

  datatype ImgData = ImgData(id: Id, tag: string)

  predicate Selected(repo: Repository, requested: string, tag: string) {
    tag in repo && (requested == "" || requested == tag)
  }

  /** Every image of the list exists, and its parent, if that exists, stands before it. */
  ghost predicate ParentsFirst(images: Images, list: seq<Id>) {
    forall i :: 0 <= i < |list| ==> ParentBefore(images, list, i)
  }

  ghost predicate ParentBefore(images: Images, list: seq<Id>, i: nat)
    requires i < |list|
  {
    list[i] in images && (images[list[i]].parent in images ==> images[list[i]].parent in list[..i])
  }

  /** `list` holds exactly the images named by the tags, and their ancestors. */
  ghost predicate Covers(images: Images, repo: Repository, tags: set<string>, list: seq<Id>, rank: Id -> nat)
    requires Ranked(images, rank)
  {
    forall x :: x in list <==> Needed(images, repo, tags, x, rank)
  }

  ghost predicate Needed(images: Images, repo: Repository, tags: set<string>, x: Id, rank: Id -> nat)
    requires Ranked(images, rank)
  {
    exists tag :: tag in tags && tag in repo && x in Chain(images, repo[tag], rank)
  }

  /** The inverse of the tags among `tags`: for each image its tags, once each. */
  ghost predicate Inverts(tagsByImage: map<Id, seq<string>>, repo: Repository, tags: set<string>) {
    forall id :: InvertsAt(tagsByImage, repo, tags, id)
  }

  ghost predicate InvertsAt(tagsByImage: map<Id, seq<string>>, repo: Repository, tags: set<string>, id: Id) {
    && (id in tagsByImage <==> exists tag :: tag in tags && tag in repo && repo[tag] == id)
    && (id in tagsByImage ==> NoDuplicates(tagsByImage[id]))
    && (id in tagsByImage ==> forall tag :: tag in tagsByImage[id] <==> tag in tags && tag in repo && repo[tag] == id)
  }

  ghost function SelectedTags(repo: Repository, requested: string): set<string> {
    set tag | tag in repo && Selected(repo, requested, tag)
  }

  /** `getImageList`. The tags come in the map's order, which is arbitrary. */
  method GetImageList(images: Images, repo: Repository, requested: string, ghost rank: Id -> nat)
    returns (result: Option<(seq<Id>, map<Id, seq<string>>)>)
    requires ValidImages(images) && Ranked(images, rank)
    ensures result == None <==> forall tag :: tag in SelectedTags(repo, requested) ==> repo[tag] !in images
    ensures result.Some? ==>
              && NoDuplicates(result.value.0) && ParentsFirst(images, result.value.0)
              && Covers(images, repo, SelectedTags(repo, requested), result.value.0, rank)
              && Inverts(result.value.1, repo, SelectedTags(repo, requested))
  {
    var list: seq<Id>, seen: set<Id>, tagsByImage: map<Id, seq<string>> := [], {}, map[];
    var todo := repo.Keys;
    ghost var done: set<string> := {};
    while todo != {}
      invariant todo <= repo.Keys && done == SelectedTags(repo, requested) - todo
      invariant NoDuplicates(list) && ParentsFirst(images, list) && Covers(images, repo, done, list, rank)
      invariant forall x :: x in seen <==> x in list
      invariant Inverts(tagsByImage, repo, done)
      decreases todo
    {
      var tag :| tag in todo;
      ghost var before := todo;
      todo := todo - {tag};
      if requested != "" && requested != tag {
        assert done == SelectedTags(repo, requested) - todo;
        continue;
      }
      var id := repo[tag];
      InvertsMore(tagsByImage, repo, done, tag);
      tagsByImage := tagsByImage[id := (if id in tagsByImage then tagsByImage[id] else []) + [tag]];
      var forThisTag;
      ghost var chain, rest;
      forThisTag, seen, chain, rest := WalkUp(images, id, seen, rank);
      var reversed := Reverse(forThisTag);
      ListMore(images, repo, done, list, tag, forThisTag, reversed, rest, rank);
      list := list + reversed;
      done := done + {tag};
      assert done == SelectedTags(repo, requested) - todo;
    }
    assert done == SelectedTags(repo, requested);
    EmptyList(images, repo, done, list, rank);
    if list == [] {
      return None;
    }
    return Some((list, tagsByImage));
  }

  /** The inner loop: from the image upwards, until one that is on the list or has no parent. */
  method WalkUp(images: Images, id: Id, seen0: set<Id>, ghost rank: Id -> nat)
    returns (list: seq<Id>, seen: set<Id>, ghost chain: seq<Id>, ghost rest: seq<Id>)
    requires ValidImages(images) && Ranked(images, rank)
    ensures chain == Chain(images, id, rank) && chain == list + rest
    ensures rest != [] ==> rest[0] in seen0
    ensures NoDuplicates(list) && forall x :: x in list ==> x !in seen0
    ensures forall x :: x in seen <==> x in seen0 || x in list
  {
    list, seen := [], seen0;
    var img := Get(images, id);
    chain := Chain(images, id, rank);
    rest := chain;
    while img.Some?
      invariant img.Some? ==> img.value.id in images && images[img.value.id] == img.value
      invariant rest == (if img.Some? then Chain(images, img.value.id, rank) else [])
      invariant chain == list + rest && Fresh(list, seen0, seen)
      decreases if img.Some? then rank(img.value.id) + 1 else 0
    {
      ChainDistinct(images, id, rank);
      FreshMore(list, rest, seen0, seen);
      if img.value.id in seen {
        break;
      }
      seen := seen + {img.value.id};
      list := list + [img.value.id];
      var parent := img.value.parent;
      assert "" !in images;
      img := if parent == "" then None else Get(images, parent);
      rest := rest[1..];
    }
    ChainDistinct(images, id, rank);
    FreshPart(list, rest, seen0, seen);
  }

  /** `list` was not seen before, and is now. */
  ghost predicate Fresh(list: seq<Id>, seen0: set<Id>, seen: set<Id>) {
    && (forall x :: x in list ==> x !in seen0)
    && (forall x :: x in seen <==> x in seen0 || x in list)
  }

  lemma FreshMore(list: seq<Id>, rest: seq<Id>, seen0: set<Id>, seen: set<Id>)
    requires NoDuplicates(list + rest) && Fresh(list, seen0, seen) && rest != []
    ensures rest[0] in seen ==> rest[0] in seen0
    ensures rest[0] !in seen ==> Fresh(list + [rest[0]], seen0, seen + {rest[0]})
    ensures list + rest == list + [rest[0]] + rest[1..]
  {
    assert (list + rest)[|list|] == rest[0];
    forall k | 0 <= k < |list|
      ensures list[k] != rest[0]
    {
      assert (list + rest)[k] == list[k];
    }
  }

  lemma FreshPart(list: seq<Id>, rest: seq<Id>, seen0: set<Id>, seen: set<Id>)
    requires NoDuplicates(list + rest) && Fresh(list, seen0, seen)
    ensures NoDuplicates(list) && forall x :: x in list ==> x !in seen0
    ensures forall x :: x in seen <==> x in seen0 || x in list
  {
    assert forall k :: 0 <= k < |list| ==> (list + rest)[k] == list[k];
  }

  /** No image is its own ancestor. */
  lemma {:induction false} ChainDistinct(images: Images, id: Id, rank: Id -> nat)
    requires Ranked(images, rank)
    ensures NoDuplicates(Chain(images, id, rank))
    ensures id in images ==> forall x :: x in Chain(images, id, rank) ==> x in images && rank(x) <= rank(id)
    decreases if id in images then rank(id) + 1 else 0
  {
    if id !in images {
    } else {
      var up := Chain(images, images[id].parent, rank);
      ChainDistinct(images, images[id].parent, rank);
      assert id !in up;
    }
  }

  function Reversed(s: seq<Id>): (r: seq<Id>)
    ensures |r| == |s| && forall i :: 0 <= i < |s| ==> r[i] == s[|s| - 1 - i]
  {
    seq(|s|, i requires 0 <= i < |s| => s[|s| - 1 - i])
  }

  /** The reversal of a slice in place, from both ends. */
  method Reverse(list: seq<Id>) returns (reversed: seq<Id>)
    ensures reversed == Reversed(list)
  {
    var a := new Id[|list|](i requires 0 <= i < |list| => list[i]);
    var i, j := 0, a.Length - 1;
    while i < j
      invariant 0 <= i && i + j == a.Length - 1 && i <= j + 2
      invariant forall k :: 0 <= k < i || j < k < a.Length ==> a[k] == list[|list| - 1 - k]
      invariant forall k :: i <= k <= j ==> a[k] == list[k]
    {
      a[i], a[j] := a[j], a[i];
      i, j := i + 1, j - 1;
    }
    return a[..];
  }

  lemma InvertsMore(tagsByImage: map<Id, seq<string>>, repo: Repository, tags: set<string>, tag: string)
    requires Inverts(tagsByImage, repo, tags) && tag in repo && tag !in tags
    ensures var id := repo[tag];
            Inverts(tagsByImage[id := (if id in tagsByImage then tagsByImage[id] else []) + [tag]], repo, tags + {tag})
  {
    var id := repo[tag];
    var more := tagsByImage[id := (if id in tagsByImage then tagsByImage[id] else []) + [tag]];
    forall x
      ensures InvertsAt(more, repo, tags + {tag}, x)
    {
      assert InvertsAt(tagsByImage, repo, tags, x);
    }
  }

  /** An ancestor-closed list holds the whole chain of what it holds. */
  lemma {:induction false} ChainInList(images: Images, list: seq<Id>, id: Id, rank: Id -> nat)
    requires Ranked(images, rank) && ParentsFirst(images, list) && id in list
    ensures forall x :: x in Chain(images, id, rank) ==> x in list
    decreases rank(id)
  {
    var i :| 0 <= i < |list| && list[i] == id;
    assert ParentBefore(images, list, i);
    if images[id].parent !in images {
    } else {
      ChainInList(images, list, images[id].parent, rank);
    }
  }

  /** The end of a chain is a chain. */
  lemma {:induction false} ChainFrom(images: Images, id: Id, k: nat, rank: Id -> nat)
    requires Ranked(images, rank) && k < |Chain(images, id, rank)|
    ensures Chain(images, id, rank)[k] in images
    ensures Chain(images, id, rank)[k..] == Chain(images, Chain(images, id, rank)[k], rank)
    decreases k
  {
    if k == 0 {
    } else {
      var up := Chain(images, images[id].parent, rank);
      assert Chain(images, id, rank) == [id] + up;
      ChainFrom(images, images[id].parent, k - 1, rank);
      assert ([id] + up)[k..] == up[k - 1..];
    }
  }

  /** In a chain, the parent of each image follows it. */
  lemma ChainLinks(images: Images, id: Id, k: nat, rank: Id -> nat)
    requires Ranked(images, rank) && k < |Chain(images, id, rank)|
    ensures Chain(images, id, rank)[k] in images
    ensures var chain := Chain(images, id, rank);
            if k + 1 < |chain| then chain[k + 1] == images[chain[k]].parent else images[chain[k]].parent !in images
  {
    var chain := Chain(images, id, rank);
    ChainFrom(images, id, k, rank);
    var up := Chain(images, images[chain[k]].parent, rank);
    assert chain[k..] == [chain[k]] + up;
    if k + 1 < |chain| {
      assert chain[k + 1] == chain[k..][1] == up[0];
    }
  }

  lemma NoDuplicatesMore(list: seq<Id>, part: seq<Id>)
    requires NoDuplicates(list) && NoDuplicates(part) && forall x :: x in part ==> x !in list
    ensures NoDuplicates(list + Reversed(part)) && forall x :: x in Reversed(part) <==> x in part
  {
    var reversed := Reversed(part);
    forall x | x in part
      ensures x in reversed
    {
      var k :| 0 <= k < |part| && part[k] == x;
      assert reversed[|part| - 1 - k] == x;
    }
    var all := list + reversed;
    forall i, j | 0 <= i < j < |all|
      ensures all[i] != all[j]
    {
      if i < |list| <= j {
        assert list[i] in list && part[|part| - 1 - (j - |list|)] in part;
      }
    }
  }

  lemma ListMore(images: Images, repo: Repository, tags: set<string>, list: seq<Id>, tag: string,
                 part: seq<Id>, reversed: seq<Id>, rest: seq<Id>, rank: Id -> nat)
    requires Ranked(images, rank) && tag in repo
    requires NoDuplicates(list) && ParentsFirst(images, list) && Covers(images, repo, tags, list, rank)
    requires reversed == Reversed(part) && part + rest == Chain(images, repo[tag], rank)
    requires NoDuplicates(part) && (forall x :: x in part ==> x !in list) && (rest != [] ==> rest[0] in list)
    ensures NoDuplicates(list + reversed) && ParentsFirst(images, list + reversed)
    ensures Covers(images, repo, tags + {tag}, list + reversed, rank)
  {
    NoDuplicatesMore(list, part);
    PartFollowsParents(images, list, repo[tag], part, reversed, rest, rank);
    if rest != [] {
      ChainFrom(images, repo[tag], |part|, rank);
      assert (part + rest)[|part|..] == rest;
      ChainInList(images, list, rest[0], rank);
    }
    forall x
      ensures x in list + reversed <==> Needed(images, repo, tags + {tag}, x, rank)
    {
      CoversMore(images, repo, tags, list, tag, part, rest, x, rank);
    }
  }

  lemma CoversMore(images: Images, repo: Repository, tags: set<string>, list: seq<Id>, tag: string, part: seq<Id>,
                   rest: seq<Id>, x: Id, rank: Id -> nat)
    requires Ranked(images, rank) && tag in repo && Covers(images, repo, tags, list, rank)
    requires part + rest == Chain(images, repo[tag], rank) && forall y :: y in rest ==> y in list
    ensures x in list || x in part <==> Needed(images, repo, tags + {tag}, x, rank)
  {
    assert x in list <==> Needed(images, repo, tags, x, rank);
    assert x in part + rest <==> x in part || x in rest;
    assert Needed(images, repo, tags + {tag}, x, rank) <==> Needed(images, repo, tags, x, rank) || x in part + rest;
  }

  lemma PartFollowsParents(images: Images, list: seq<Id>, id: Id, part: seq<Id>, reversed: seq<Id>, rest: seq<Id>,
                           rank: Id -> nat)
    requires Ranked(images, rank) && ParentsFirst(images, list) && reversed == Reversed(part)
    requires part + rest == Chain(images, id, rank) && (rest != [] ==> rest[0] in list)
    ensures ParentsFirst(images, list + reversed)
  {
    var all := list + reversed;
    forall i | 0 <= i < |all|
      ensures ParentBefore(images, all, i)
    {
      if i < |list| {
        assert ParentBefore(images, list, i);
        assert all[..i] == list[..i];
      } else {
        var k := |part| - 1 - (i - |list|);
        assert all[i] == part[k] == (part + rest)[k];
        ChainLinks(images, id, k, rank);
        if k + 1 < |part| {
          assert all[i - 1] == part[k + 1];
          assert all[..i][i - 1] == part[k + 1];
        } else if rest != [] {
          assert (part + rest)[k + 1] == rest[0];
          assert list <= all[..i];
        }
      }
    }
  }

  lemma EmptyList(images: Images, repo: Repository, tags: set<string>, list: seq<Id>, rank: Id -> nat)
    requires Ranked(images, rank) && tags <= repo.Keys && Covers(images, repo, tags, list, rank)
    ensures list == [] <==> forall tag :: tag in tags ==> repo[tag] !in images
  {
    if list != [] {
      assert list[0] in list;
      assert Needed(images, repo, tags, list[0], rank);
    }
    forall tag | tag in tags && repo[tag] in images
      ensures list != []
    {
      assert Needed(images, repo, tags, repo[tag], rank);
    }
  }

  /** The entries for one image: one for each tag, or a single one without a tag. */
  ghost predicate IndexEntry(list: seq<Id>, tagsByImage: map<Id, seq<string>>, e: ImgData) {
    e.id in list && (if e.id in tagsByImage then e.tag in tagsByImage[e.id] else e.tag == "")
  }

  /** Entries of one image stand together, in the order of the list. */
  ghost predicate InListOrder(index: seq<ImgData>, list: seq<Id>) {
    forall i, j, a, b :: 0 <= i < j < |index| && 0 <= b < a < |list| ==>
      index[i].id != list[a] || index[j].id != list[b]
  }

  /** The loop of `pushRepository` that builds the index sent to the registry. */
  method BuildIndex(list: seq<Id>, tagsByImage: map<Id, seq<string>>) returns (index: seq<ImgData>)
    requires NoDuplicates(list) && forall id :: id in tagsByImage ==> NoDuplicates(tagsByImage[id])
    ensures NoDuplicates(index) && InListOrder(index, list)
    ensures forall e :: e in index <==> IndexEntry(list, tagsByImage, e)
  {
    index := [];
    for i := 0 to |list|
      invariant NoDuplicates(index) && InListOrder(index, list)
      invariant forall e :: e in index <==> IndexEntry(list[..i], tagsByImage, e)
    {
      var id := list[i];
      assert list[..i + 1] == list[..i] + [id];
      assert id !in list[..i];
      var entries := [ImgData(id, "")];
      if id in tagsByImage {
        entries := EntriesFor(id, tagsByImage[id]);
      }
      OrderMore(index, entries, list, i);
      index := index + entries;
    }
    assert list[..|list|] == list;
  }

  method EntriesFor(id: Id, tags: seq<string>) returns (entries: seq<ImgData>)
    requires NoDuplicates(tags)
    ensures NoDuplicates(entries) && forall e :: e in entries <==> e.id == id && e.tag in tags
  {
    entries := [];
    for j := 0 to |tags|
      invariant NoDuplicates(entries) && forall e :: e in entries <==> e.id == id && e.tag in tags[..j]
    {
      assert tags[..j + 1] == tags[..j] + [tags[j]];
      assert ImgData(id, tags[j]) !in entries;
      entries := entries + [ImgData(id, tags[j])];
    }
    assert tags[..|tags|] == tags;
  }

  lemma OrderMore(index: seq<ImgData>, entries: seq<ImgData>, list: seq<Id>, i: nat)
    requires NoDuplicates(list) && i < |list| && InListOrder(index, list)
    requires NoDuplicates(index) && NoDuplicates(entries)
    requires (forall e :: e in index ==> e.id in list[..i]) && forall e :: e in entries ==> e.id == list[i]
    ensures InListOrder(index + entries, list) && NoDuplicates(index + entries)
  {
    var all := index + entries;
    forall k, a | 0 <= k < |all| && 0 <= a < |list| && all[k].id == list[a]
      ensures if k < |index| then a < i else a == i
    {
      if k < |index| {
        assert index[k] in index;
      } else {
        assert all[k] in entries;
      }
    }
  }

  /** A selected tag is registered, with its own image, if and only if that image exists. */
  lemma TagIsSent(images: Images, repo: Repository, requested: string, list: seq<Id>, tagsByImage: map<Id, seq<string>>,
                  e: ImgData, rank: Id -> nat)
    requires Ranked(images, rank) && Selected(repo, requested, e.tag) && e.tag != ""
    requires Covers(images, repo, SelectedTags(repo, requested), list, rank)
    requires Inverts(tagsByImage, repo, SelectedTags(repo, requested))
    ensures IndexEntry(list, tagsByImage, e) <==> repo[e.tag] == e.id && e.id in images
  {
    assert InvertsAt(tagsByImage, repo, SelectedTags(repo, requested), e.id);
    assert e.id in list <==> Needed(images, repo, SelectedTags(repo, requested), e.id, rank);
    forall tag | tag in repo && e.id in Chain(images, repo[tag], rank)
      ensures e.id in images
    {
      ChainDistinct(images, repo[tag], rank);
    }
  }

  /** The parent of an image is registered before the image. */
  lemma ParentIsSentFirst(images: Images, repo: Repository, tags: set<string>, list: seq<Id>,
                          tagsByImage: map<Id, seq<string>>,
                          index: seq<ImgData>, i: nat) returns (j: nat)
    requires NoDuplicates(list) && ParentsFirst(images, list) && Inverts(tagsByImage, repo, tags)
    requires InListOrder(index, list) && forall e :: e in index <==> IndexEntry(list, tagsByImage, e)
    requires i < |index| && index[i].id in images && images[index[i].id].parent in images
    ensures j < i && index[j].id == images[index[i].id].parent
  {
    var id := index[i].id;
    var parent := images[id].parent;
    assert IndexEntry(list, tagsByImage, index[i]);
    var a :| 0 <= a < |list| && list[a] == id;
    assert ParentBefore(images, list, a);
    var b :| 0 <= b < a && list[b] == parent;
    assert InvertsAt(tagsByImage, repo, tags, parent);
    var tag :| if parent in tagsByImage then tag in tagsByImage[parent] else tag == "";
    assert IndexEntry(list, tagsByImage, ImgData(parent, tag));
    j :| 0 <= j < |index| && index[j] == ImgData(parent, tag);
  }
}
