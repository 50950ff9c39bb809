/** The order in which pulls and pushes take their keys (`graph/pull.go`, `graph/push.go`), and when a pull comes
    to wait for itself. */
module PullOrder {
  import opened Wrappers
  import opened Pool
  import opened PullLocks

  // ---------------------------------------------------------------- pulls and pushes

  /** An image to pull, with the history that each endpoint tried has for it, root first. */
  datatype ImagePlan = ImagePlan(id: string, attempts: seq<seq<string>>)

  const IMAGE_PREFIX := "img:"
  const LAYER_PREFIX := "layer:"

  /** `pullImage`: a layer in use is worked on after the wait, an error ends it; every key asked for is
      released at the end, the last one first. */
  function LayerOps(history: seq<string>): seq<Op> {
    if history == [] then []
    else
      var above := LayerOps(history[1..]);
      var key := LAYER_PREFIX + history[0];
      [Acquire(Pull, key, 0, |above| + 1)] + (above + [Release(Pull, key)])
  }

  function AttemptOps(attempts: seq<seq<string>>): seq<Op> {
    if attempts == [] then [] else LayerOps(attempts[0]) + AttemptOps(attempts[1..])
  }

  /** `downloadImage`: an image in use is left to the other client. */
  function ImageOps(image: ImagePlan): seq<Op> {
    var body := AttemptOps(image.attempts);
    var key := IMAGE_PREFIX + image.id;
    [Acquire(Pull, key, |body| + 1, |body| + 1)] + (body + [Release(Pull, key)])
  }

  function ImagesOps(images: seq<ImagePlan>): seq<Op> {
    if images == [] then [] else ImageOps(images[0]) + ImagesOps(images[1..])
  }

  /** `CmdPull`, one image after the other. */
  function PullOps(name: string, images: seq<ImagePlan>): seq<Op> {
    var body := ImagesOps(images);
    [Acquire(Pull, name, |body| + 1, |body| + 1)] + (body + [Release(Pull, name)])
  }

  /** `CmdPush`. */
  function PushOps(name: string): seq<Op> {
    [Acquire(Push, name, 1, 1), Release(Push, name)]
  }

  /** Repositories come first, then images, then layers from the root up. */
  function RankOf(depth: string -> nat): string -> nat {
    (key: string) =>
      if LAYER_PREFIX <= key then 2 + depth(key[|LAYER_PREFIX|..])
      else if IMAGE_PREFIX <= key then 1
      else 0
  }

  lemma LayerRank(id: string, depth: string -> nat)
    ensures RankOf(depth)(LAYER_PREFIX + id) == 2 + depth(id)
  {
    assert (LAYER_PREFIX + id)[|LAYER_PREFIX|..] == id;
  }

  lemma ImageRank(id: string, depth: string -> nat)
    ensures RankOf(depth)(IMAGE_PREFIX + id) == 1
  {
    assert (IMAGE_PREFIX + id)[0] == 'i' && LAYER_PREFIX[0] == 'l';
  }

  /** Each layer lies deeper than its parent. */
  ghost predicate Ascends(history: seq<string>, depth: string -> nat) {
    forall i, j :: 0 <= i < j < |history| ==> depth(history[i]) < depth(history[j])
  }

  ghost predicate AllAscend(images: seq<ImagePlan>, depth: string -> nat) {
    forall image, history :: image in images && history in image.attempts ==> Ascends(history, depth)
  }

  /** Steps that can stand in a program: those of an `Acquire` end within it, and every key has a higher rank. */
  ghost predicate Above(ops: seq<Op>, rank: string -> nat, low: int) {
    forall i :: 0 <= i < |ops| && ops[i].Acquire? ==> Inside(ops, i) && rank(ops[i].key) > low
  }

  predicate Inside(ops: seq<Op>, i: nat)
    requires i < |ops| && ops[i].Acquire?
  {
    i + 1 + ops[i].onBusy <= |ops| && i + 1 + ops[i].onError <= |ops|
  }

  lemma DropFirst(ops: seq<Op>, more: seq<Op>, n: nat)
    requires n <= |ops|
    ensures Drop(ops + more, n) == ops[n..] + more
  {
  }

  /** What is owed after each of the ways to go on from the first step. */
  lemma OwesFront(ops: seq<Op>, more: seq<Op>, kind: Kind, key: string, rank: string -> nat)
    requires ops != [] && Owes(ops[1..] + more, kind, key, rank)
    requires ops[0].Acquire? ==>
               && Inside(ops, 0) && rank(ops[0].key) > rank(key)
               && Owes(ops[1 + ops[0].onBusy..] + more, kind, key, rank)
               && Owes(ops[1 + ops[0].onError..] + more, kind, key, rank)
    ensures Owes(ops + more, kind, key, rank)
  {
    DropFirst(ops, more, 1);
    if ops[0].Acquire? {
      DropFirst(ops, more, 1 + ops[0].onBusy);
      DropFirst(ops, more, 1 + ops[0].onError);
    }
  }

  /** Such steps, with the release of a key after them, owe it. */
  lemma {:induction false} OwesAfter(ops: seq<Op>, more: seq<Op>, kind: Kind, key: string, rank: string -> nat)
    requires Above(ops, rank, rank(key)) && more != [] && more[0] == Release(kind, key)
    ensures Owes(ops + more, kind, key, rank)
    decreases |ops|
  {
    if ops == [] {
      assert ops + more == more;
    } else {
      AboveDrop(ops, 1, rank, rank(key));
      OwesAfter(ops[1..], more, kind, key, rank);
      if ops[0].Acquire? {
        assert Inside(ops, 0);
        AboveDrop(ops, 1 + ops[0].onBusy, rank, rank(key));
        OwesAfter(ops[1 + ops[0].onBusy..], more, kind, key, rank);
        AboveDrop(ops, 1 + ops[0].onError, rank, rank(key));
        OwesAfter(ops[1 + ops[0].onError..], more, kind, key, rank);
      }
      OwesFront(ops, more, kind, key, rank);
    }
  }

  lemma AboveDrop(ops: seq<Op>, n: nat, rank: string -> nat, low: int)
    requires n <= |ops| && Above(ops, rank, low)
    ensures Above(ops[n..], rank, low)
  {
    forall i | 0 <= i < |ops| - n && ops[n..][i].Acquire?
      ensures Inside(ops[n..], i) && rank(ops[n..][i].key) > low
    {
      assert Inside(ops, n + i);
    }
  }

  lemma AboveAppend(a: seq<Op>, b: seq<Op>, rank: string -> nat, low: int)
    requires Above(a, rank, low) && Above(b, rank, low)
    ensures Above(a + b, rank, low)
  {
    forall i | 0 <= i < |a + b| && (a + b)[i].Acquire?
      ensures Inside(a + b, i) && rank((a + b)[i].key) > low
    {
      if i < |a| {
        assert Inside(a, i);
      } else {
        assert Inside(b, i - |a|);
      }
    }
  }

  /** A debt is not touched by what comes after it is paid. */
  lemma {:induction false} OwesMore(ops: seq<Op>, more: seq<Op>, kind: Kind, key: string, rank: string -> nat)
    requires Owes(ops, kind, key, rank) && forall i :: 0 <= i < |ops| && ops[i].Acquire? ==> Inside(ops, i)
    ensures Owes(ops + more, kind, key, rank)
    decreases |ops|
  {
    if ops[0] == Release(kind, key) {
      assert (ops + more)[0] == ops[0];
    } else {
      InsideDrop(ops, 1);
      OwesMore(ops[1..], more, kind, key, rank);
      if ops[0].Acquire? {
        assert Inside(ops, 0);
        InsideDrop(ops, 1 + ops[0].onBusy);
        OwesMore(ops[1 + ops[0].onBusy..], more, kind, key, rank);
        InsideDrop(ops, 1 + ops[0].onError);
        OwesMore(ops[1 + ops[0].onError..], more, kind, key, rank);
      }
      OwesFront(ops, more, kind, key, rank);
    }
  }

  lemma InsideDrop(ops: seq<Op>, n: nat)
    requires n <= |ops| && forall i :: 0 <= i < |ops| && ops[i].Acquire? ==> Inside(ops, i)
    ensures forall i :: 0 <= i < |ops| - n && ops[n..][i].Acquire? ==> Inside(ops[n..], i)
  {
    forall i | 0 <= i < |ops| - n && ops[n..][i].Acquire?
      ensures Inside(ops[n..], i)
    {
      assert Inside(ops, n + i);
    }
  }

  /** Steps that stand alone: in order, and all above a rank. */
  ghost predicate Whole(ops: seq<Op>, rank: string -> nat, low: int) {
    Above(ops, rank, low) && InOrder(ops, rank)
  }

  lemma WholeAppend(a: seq<Op>, b: seq<Op>, rank: string -> nat, low: int)
    requires Whole(a, rank, low) && Whole(b, rank, low)
    ensures Whole(a + b, rank, low)
  {
    AboveAppend(a, b, rank, low);
    var ops := a + b;
    forall i | 0 <= i < |ops| && ops[i].Acquire?
      ensures Owes(ops[i + 1..], ops[i].kind, ops[i].key, rank)
    {
      if i < |a| {
        AboveDrop(a, i + 1, rank, low);
        OwesMore(a[i + 1..], b, a[i].kind, a[i].key, rank);
        assert ops[i + 1..] == a[i + 1..] + b;
      } else {
        assert ops[i + 1..] == b[i - |a| + 1..];
      }
    }
  }

  /** A key around steps that are all above it. */
  lemma WholeAround(body: seq<Op>, kind: Kind, key: string, onBusy: nat, rank: string -> nat, low: int)
    requires Whole(body, rank, rank(key)) && rank(key) > low && onBusy <= |body| + 1
    ensures Whole([Acquire(kind, key, onBusy, |body| + 1)] + (body + [Release(kind, key)]), rank, low)
  {
    var more, tail := [Release(kind, key)], body + [Release(kind, key)];
    var ops := [Acquire(kind, key, onBusy, |body| + 1)] + tail;
    OwesAfter(body, more, kind, key, rank);
    assert ops[1..] == tail;
    forall i | 0 <= i < |ops| && ops[i].Acquire?
      ensures Inside(ops, i) && rank(ops[i].key) > low && Owes(ops[i + 1..], ops[i].kind, ops[i].key, rank)
    {
      if i > 0 {
        assert ops[i] == body[i - 1] && Inside(body, i - 1);
        AboveDrop(body, i, rank, rank(key));
        OwesMore(body[i..], more, body[i - 1].kind, body[i - 1].key, rank);
        assert ops[i + 1..] == body[i..] + more;
        assert body[i - 1 + 1..] == body[i..];
      }
    }
  }

  lemma {:induction false} LayersInOrder(history: seq<string>, depth: string -> nat, low: int)
    requires Ascends(history, depth) && (history != [] ==> low < 2 + depth(history[0]))
    ensures Whole(LayerOps(history), RankOf(depth), low)
    decreases |history|
  {
    if history == [] {
    } else {
      var rank, key := RankOf(depth), LAYER_PREFIX + history[0];
      LayerRank(history[0], depth);
      LayersInOrder(history[1..], depth, rank(key));
      WholeAround(LayerOps(history[1..]), Pull, key, 0, rank, low);
    }
  }

  lemma {:induction false} AttemptsInOrder(attempts: seq<seq<string>>, depth: string -> nat)
    requires forall history :: history in attempts ==> Ascends(history, depth)
    ensures Whole(AttemptOps(attempts), RankOf(depth), 1)
    decreases |attempts|
  {
    if attempts == [] {
    } else {
      LayersInOrder(attempts[0], depth, 1);
      AttemptsInOrder(attempts[1..], depth);
      WholeAppend(LayerOps(attempts[0]), AttemptOps(attempts[1..]), RankOf(depth), 1);
    }
  }

  lemma {:induction false} ImagesInOrder(images: seq<ImagePlan>, depth: string -> nat)
    requires AllAscend(images, depth)
    ensures Whole(ImagesOps(images), RankOf(depth), 0)
    decreases |images|
  {
    if images == [] {
    } else {
      var rank, image := RankOf(depth), images[0];
      ImageRank(image.id, depth);
      AttemptsInOrder(image.attempts, depth);
      var body := AttemptOps(image.attempts);
      WholeAround(body, Pull, IMAGE_PREFIX + image.id, |body| + 1, rank, 0);
      ImagesInOrder(images[1..], depth);
      WholeAppend(ImageOps(image), ImagesOps(images[1..]), rank, 0);
    }
  }

  /** A repository that is named like no image and no layer. */
  predicate IsPlainName(name: string) {
    !(IMAGE_PREFIX <= name) && !(LAYER_PREFIX <= name)
  }

  lemma PullInOrder(name: string, images: seq<ImagePlan>, depth: string -> nat)
    requires IsPlainName(name) && AllAscend(images, depth)
    ensures InOrder(PullOps(name, images), RankOf(depth))
  {
    var body := ImagesOps(images);
    ImagesInOrder(images, depth);
    WholeAround(body, Pull, name, |body| + 1, RankOf(depth), -1);
  }

  lemma PushInOrder(name: string, rank: string -> nat)
    ensures InOrder(PushOps(name), rank)
  {
    assert PushOps(name)[1..] == [Release(Push, name)];
  }

  ghost predicate IsPullOrPush(ops: seq<Op>, depth: string -> nat) {
    || (exists name :: ops == PushOps(name))
    || (exists name, images :: IsPlainName(name) && AllAscend(images, depth) && ops == PullOps(name, images))
  }

  /** Any number of pulls and pushes, in any interleaving and with any failures, never block each other for good,
      where no repository is named like an image or a layer and parents come before children in every history. */
  lemma PullsNeverStuck(moves: seq<Move>, depth: string -> nat)
    requires WorldAfter(moves).Some? && forall m :: m in moves && m.Begin? ==> IsPullOrPush(m.ops, depth)
    ensures !Stuck(WorldAfter(moves).value)
  {
    forall m | m in moves && m.Begin?
      ensures InOrder(m.ops, RankOf(depth))
    {
      if name :| m.ops == PushOps(name) {
        PushInOrder(name, RankOf(depth));
      } else {
        var name, images :| IsPlainName(name) && AllAscend(images, depth) && m.ops == PullOps(name, images);
        PullInOrder(name, images, depth);
      }
    }
    NeverStuck(moves, RankOf(depth));
  }
  // ---------------------------------------------------------------- one pull in its own way

  ghost predicate AsksFor(ops: seq<Op>, key: string) {
    exists i :: 0 <= i < |ops| && ops[i].Acquire? && ops[i].key == key
  }

  /** Pulls only, and nothing is released before it is asked for. */
  ghost predicate Paired(ops: seq<Op>) {
    && (forall i :: 0 <= i < |ops| ==> ops[i].kind == Pull)
    && (forall i :: 0 <= i < |ops| && ops[i].Release? ==> AsksFor(ops[..i], ops[i].key))
  }

  lemma PairedAppend(a: seq<Op>, b: seq<Op>)
    requires Paired(a) && Paired(b)
    ensures Paired(a + b)
  {
    var ops := a + b;
    forall i | 0 <= i < |ops| && ops[i].Release?
      ensures AsksFor(ops[..i], ops[i].key)
    {
      if i < |a| {
        assert ops[..i] == a[..i];
      } else {
        assert ops[..i] == a + b[..i - |a|];
        var k :| 0 <= k < i - |a| && b[k].Acquire? && b[k].key == ops[i].key;
        assert ops[..i][|a| + k] == b[k];
      }
    }
  }

  lemma PairedAround(body: seq<Op>, key: string, onBusy: nat, onError: nat)
    requires Paired(body)
    ensures Paired([Acquire(Pull, key, onBusy, onError)] + (body + [Release(Pull, key)]))
  {
    var front := [Acquire(Pull, key, onBusy, onError)];
    PairedAppend(front, body);
    var ops := front + body + [Release(Pull, key)];
    assert ops == front + (body + [Release(Pull, key)]);
    forall i | 0 <= i < |ops| && ops[i].Release?
      ensures AsksFor(ops[..i], ops[i].key)
    {
      if i == |ops| - 1 {
        assert ops[..i][0] == front[0];
      } else {
        assert ops[..i] == (front + body)[..i];
      }
    }
  }

  lemma {:induction false} LayersPaired(history: seq<string>)
    ensures Paired(LayerOps(history))
    decreases |history|
  {
    if history == [] {
    } else {
      LayersPaired(history[1..]);
      PairedAround(LayerOps(history[1..]), LAYER_PREFIX + history[0], 0, |LayerOps(history[1..])| + 1);
    }
  }

  lemma {:induction false} AttemptsPaired(attempts: seq<seq<string>>)
    ensures Paired(AttemptOps(attempts))
    decreases |attempts|
  {
    if attempts == [] {
    } else {
      LayersPaired(attempts[0]);
      AttemptsPaired(attempts[1..]);
      PairedAppend(LayerOps(attempts[0]), AttemptOps(attempts[1..]));
    }
  }

  lemma {:induction false} ImagesPaired(images: seq<ImagePlan>)
    ensures Paired(ImagesOps(images))
    decreases |images|
  {
    if images == [] {
    } else {
      var body := AttemptOps(images[0].attempts);
      AttemptsPaired(images[0].attempts);
      PairedAround(body, IMAGE_PREFIX + images[0].id, |body| + 1, |body| + 1);
      ImagesPaired(images[1..]);
      PairedAppend(ImageOps(images[0]), ImagesOps(images[1..]));
    }
  }

  /** One client alone, which has the key and goes on towards a step that asks for it. */
  ghost predicate Towards(w: World, ops: seq<Op>, n: nat, key: string) {
    && n < |ops| && ops[n].Acquire? && ops[n].key == key
    && (forall i :: 0 <= i <= n ==> ops[i].kind == Pull)
    && (forall i :: 0 <= i < n && ops[i].Release? ==> ops[i].key != key)
    && w.clients == map[0 := Client(ops, None)] && Sound(w.pools) && key in w.pools.pulling
  }

  ghost predicate ByItself(moves: seq<Move>, ops: seq<Op>) {
    && moves != [] && moves[0] == Begin(0, ops)
    && forall i :: 0 < i < |moves| ==> !moves[i].Begin?
  }

  ghost predicate SticksAfter(moves: seq<Move>, ops: seq<Op>) {
    ByItself(moves, ops) && WorldAfter(moves).Some? && Stuck(WorldAfter(moves).value)
  }

  /** It comes to wait for itself. */
  lemma {:induction false} WaitsForItself(before: seq<Move>, w: World, program: seq<Op>, ops: seq<Op>, n: nat,
                                          key: string)
    returns (moves: seq<Move>)
    requires ByItself(before, program) && WorldAfter(before) == Some(w) && Towards(w, ops, n, key)
    ensures SticksAfter(moves, program)
    decreases n
  {
    moves := before + [Act(0)];
    assert moves[..|moves| - 1] == before;
    var w' := NextWorld(w, Act(0)).value;
    assert WorldAfter(moves) == Some(w');
    if ops[0].Acquire? && ops[0].key in w.pools.pulling {
      OwnWaitIsStuck(w, ops);
    } else if ops[0].Acquire? && ops[0].key in w.pools.pushing {
      OwnWaitIsStuck(w, ops);
    } else {
      GoesOnTowards(w, ops, n, key);
      moves := WaitsForItself(moves, w', program, ops[1..], n - 1, key);
    }
  }

  lemma OwnWaitIsStuck(w: World, ops: seq<Op>)
    requires ops != [] && ops[0].Acquire? && ops[0].kind == Pull && Sound(w.pools)
    requires w.clients == map[0 := Client(ops, None)]
    requires ops[0].key in w.pools.pulling || ops[0].key in w.pools.pushing
    ensures NextWorld(w, Act(0)).Some? && Stuck(NextWorld(w, Act(0)).value)
  {
    var w' := NextWorld(w, Act(0)).value;
    var c := if ops[0].key in w.pools.pulling then w.pools.pulling[ops[0].key] else w.pools.pushing[ops[0].key];
    assert OpenAt(w.pools, ops[0].key, c);
    assert w'.clients == map[0 := Client(ops, Some(c))];
    assert Unfinished(w', 0);
    assert forall t :: NextWorld(w', Act(t)).None?;
  }

  lemma GoesOnTowards(w: World, ops: seq<Op>, n: nat, key: string)
    requires Towards(w, ops, n, key) && n > 0
    requires ops[0].Acquire? ==> ops[0].key !in w.pools.pulling && ops[0].key !in w.pools.pushing
    ensures NextWorld(w, Act(0)).Some? && Towards(NextWorld(w, Act(0)).value, ops[1..], n - 1, key)
  {
    match ops[0]
    case Release(kind, k) => RemoveIsSound(w.pools, kind, k);
    case Acquire(kind, k, _, _) => AddIsSound(w.pools, kind, k);
  }

  lemma {:induction false} FirstAsked(ops: seq<Op>, i: nat, key: string) returns (n: nat)
    requires i < |ops| && ops[i].Acquire? && ops[i].key == key
    ensures n <= i && ops[n].Acquire? && ops[n].key == key && !AsksFor(ops[..n], key)
  {
    if k :| 0 <= k < i && ops[k].Acquire? && ops[k].key == key {
      n := FirstAsked(ops, k, key);
    } else {
      n := i;
    }
  }

  lemma AskedEarlier(ops: seq<Op>, k: nat, n: nat, key: string)
    requires k <= n <= |ops|
    ensures AsksFor(ops[..k], key) ==> AsksFor(ops[..n], key)
  {
    if i :| 0 <= i < k && ops[..k][i].Acquire? && ops[..k][i].key == key {
      assert ops[..n][i] == ops[..k][i];
    }
  }

  /** A repository named like one of the images or layers that are pulled for it: the pull waits for itself. */
  lemma PullGetsStuck(name: string, images: seq<ImagePlan>) returns (moves: seq<Move>)
    requires AsksFor(ImagesOps(images), name)
    ensures SticksAfter(moves, PullOps(name, images))
  {
    var program, body := PullOps(name, images), ImagesOps(images);
    var ops := body + [Release(Pull, name)];
    var w := TakesName(name, program, ops);
    var i :| 0 <= i < |body| && body[i].Acquire? && body[i].key == name;
    var n := FirstAsked(body, i, name);
    ImagesPaired(images);
    forall k | 0 <= k < n && ops[k].Release?
      ensures ops[k].key != name
    {
      AskedEarlier(body, k, n, body[k].key);
    }
    moves := WaitsForItself([Begin(0, program), Act(0)], w, program, ops, n, name);
  }

  lemma TakesName(name: string, program: seq<Op>, ops: seq<Op>) returns (w: World)
    requires program != [] && program[0].Acquire? && program[0].kind == Pull && program[0].key == name
    requires program[1..] == ops
    ensures WorldAfter([Begin(0, program), Act(0)]) == Some(w)
    ensures w.clients == map[0 := Client(ops, None)] && Sound(w.pools) && name in w.pools.pulling
  {
    var begun := World(EMPTY, map[0 := Client(program, None)]);
    w := World(AfterAdd(EMPTY, Pull, name), begun.clients[0 := Client(ops, None)]);
    AddIsSound(EMPTY, Pull, name);
    var one, two := [Begin(0, program)], [Begin(0, program), Act(0)];
    assert one[..0] == [] && two[..1] == one;
    assert WorldAfter(one) == Some(begun);
    assert AddResultOf(EMPTY, Pull, name) == Added(0);
    assert NextWorld(begun, Act(0)) == Some(w);
  }

  /** The name first, and everything else in its order after it. */
  function NameFirst(name: string, rank: string -> nat): string -> nat {
    (key: string) => if key == name then 0 else 1 + rank(key)
  }

  lemma {:induction false} OwesShifted(ops: seq<Op>, kind: Kind, key: string, rank: string -> nat, name: string)
    requires Owes(ops, kind, key, rank) && !AsksFor(ops, name)
    ensures Owes(ops, kind, key, NameFirst(name, rank))
    decreases |ops|
  {
    if ops[0] == Release(kind, key) {
    } else {
      NotAskedLater(ops, 1, name);
      OwesShifted(ops[1..], kind, key, rank, name);
      if ops[0].Acquire? {
        NotAskedLater(ops, 1 + ops[0].onBusy, name);
        OwesShifted(Drop(ops, 1 + ops[0].onBusy), kind, key, rank, name);
        NotAskedLater(ops, 1 + ops[0].onError, name);
        OwesShifted(Drop(ops, 1 + ops[0].onError), kind, key, rank, name);
      }
    }
  }

  lemma NotAskedLater(ops: seq<Op>, n: nat, name: string)
    requires !AsksFor(ops, name)
    ensures !AsksFor(Drop(ops, n), name)
  {
    forall i | 0 <= i < |Drop(ops, n)| && Drop(ops, n)[i].Acquire?
      ensures Drop(ops, n)[i].key != name
    {
      assert Drop(ops, n)[i] == ops[n + i];
    }
  }

  /** A pull by itself can get stuck exactly when its repository is named like one of the images or layers that
      are pulled for it, given histories with parents first. */
  lemma StuckIffNamedAlike(name: string, images: seq<ImagePlan>, depth: string -> nat)
    requires AllAscend(images, depth)
    ensures (exists moves :: SticksAfter(moves, PullOps(name, images))) <==> AsksFor(ImagesOps(images), name)
  {
    if AsksFor(ImagesOps(images), name) {
      var moves := PullGetsStuck(name, images);
      assert SticksAfter(moves, PullOps(name, images));
    } else {
      NameFirstInOrder(name, images, depth);
      forall moves | ByItself(moves, PullOps(name, images)) && WorldAfter(moves).Some?
        ensures !SticksAfter(moves, PullOps(name, images))
      {
        NeverStuck(moves, NameFirst(name, RankOf(depth)));
      }
    }
  }

  lemma NameFirstInOrder(name: string, images: seq<ImagePlan>, depth: string -> nat)
    requires AllAscend(images, depth) && !AsksFor(ImagesOps(images), name)
    ensures InOrder(PullOps(name, images), NameFirst(name, RankOf(depth)))
  {
    var rank, body := NameFirst(name, RankOf(depth)), ImagesOps(images);
    ImagesInOrder(images, depth);
    forall i | 0 <= i < |body| && body[i].Acquire?
      ensures Inside(body, i) && rank(body[i].key) > 0 && Owes(body[i + 1..], body[i].kind, body[i].key, rank)
    {
      NotAskedLater(body, i + 1, name);
      OwesShifted(body[i + 1..], body[i].kind, body[i].key, RankOf(depth), name);
    }
    WholeAround(body, Pull, name, |body| + 1, rank, -1);
  }
}
