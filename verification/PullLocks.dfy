/** Clients that hold keys of the pools while they wait for others: a pull takes its repository, then each image,
    then the layers of the image from the root up (`graph/pull.go`); a push takes one key and never waits. */
module PullLocks {
  import opened Wrappers
  import opened Pool

  /** What is left for a client to do with the pools. A key that is in use makes a pull wait and then leave out
      `onBusy` of its further steps; a push leaves them out at once. Where the work fails before a key is taken,
      the client leaves out `onError` of them. */
  datatype Op = Acquire(kind: Kind, key: string, onBusy: nat, onError: nat) | Release(kind: Kind, key: string)

  datatype Client = Client(ops: seq<Op>, waits: Option<Channel>)

  datatype World = World(pools: Pools, clients: map<nat, Client>)

  datatype Move = Begin(client: nat, ops: seq<Op>) | Act(client: nat) | Fail(client: nat)

  const NOBODY := World(EMPTY, map[])

  function Drop(ops: seq<Op>, n: nat): seq<Op> {
    if n <= |ops| then ops[n..] else []
  }

  function Acted(pools: Pools, client: Client): Option<(Pools, Client)> {
    if client.ops == [] then None
    else match client.ops[0]
      case Release(kind, key) => Some((AfterRemove(pools, kind, key), Client(client.ops[1..], None)))
      case Acquire(kind, key, onBusy, _) =>
        if client.waits.Some? then
          if client.waits.value in pools.closed then Some((pools, Client(Drop(client.ops, 1 + onBusy), None))) else None
        else match AddResultOf(pools, kind, key)
          case Added(_) => Some((AfterAdd(pools, kind, key), Client(client.ops[1..], None)))
          case Busy(c) =>
            if kind == Pull then Some((pools, client.(waits := Some(c))))
            else Some((pools, Client(Drop(client.ops, 1 + onBusy), None)))
          case UnknownPool => Some((pools, Client(Drop(client.ops, 1 + onBusy), None)))
  }

  function NextWorld(w: World, move: Move): Option<World> {
    match move
    case Begin(t, ops) =>
      if t in w.clients then None else Some(w.(clients := w.clients[t := Client(ops, None)]))
    case Act(t) =>
      if t !in w.clients then None
      else
        var acted := Acted(w.pools, w.clients[t]);
        if acted == None then None else Some(World(acted.value.0, w.clients[t := acted.value.1]))
    case Fail(t) =>
      if !Unfinished(w, t) || !w.clients[t].ops[0].Acquire? || w.clients[t].waits.Some? then None
      else
        var ops := w.clients[t].ops;
        Some(w.(clients := w.clients[t := Client(Drop(ops, 1 + ops[0].onError), None)]))
  }

  function WorldAfter(moves: seq<Move>): Option<World> {
    if moves == [] then Some(NOBODY)
    else
      var w := WorldAfter(moves[..|moves| - 1]);
      if w == None then None else NextWorld(w.value, moves[|moves| - 1])
  }

  predicate Unfinished(w: World, t: nat) {
    t in w.clients && w.clients[t].ops != []
  }

  /** Somebody has work left, and nobody can go on. */
  ghost predicate Stuck(w: World) {
    (exists t :: Unfinished(w, t)) && forall t :: NextWorld(w, Act(t)).None?
  }

  // ---------------------------------------------------------------- keys in order

  /** Whatever becomes of its further steps, the client releases the key, having asked only for keys of higher rank. */
  predicate Owes(ops: seq<Op>, kind: Kind, key: string, rank: string -> nat)
    decreases |ops|
  {
    ops != [] && match ops[0]
      case Release(k, x) => (k == kind && x == key) || Owes(ops[1..], kind, key, rank)
      case Acquire(_, x, onBusy, onError) =>
        && rank(x) > rank(key)
        && Owes(ops[1..], kind, key, rank)
        && Owes(Drop(ops, 1 + onBusy), kind, key, rank)
        && Owes(Drop(ops, 1 + onError), kind, key, rank)
  }

  /** Each key taken is owed from then on. */
  ghost predicate InOrder(ops: seq<Op>, rank: string -> nat) {
    forall i :: 0 <= i < |ops| && ops[i].Acquire? ==> Owes(ops[i + 1..], ops[i].kind, ops[i].key, rank)
  }

  predicate OpenIn(p: Pools, kind: Kind, key: string) {
    (kind == Pull && key in p.pulling) || (kind == Push && key in p.pushing)
  }

  ghost predicate OwedBySome(w: World, kind: Kind, key: string, rank: string -> nat) {
    exists t :: t in w.clients && Owes(w.clients[t].ops, kind, key, rank)
  }

  /** A client waits for a key that is in use, or for a channel that is closed. */
  predicate WaitsRight(p: Pools, client: Client) {
    client.waits.Some? ==>
      && client.ops != [] && client.ops[0].Acquire?
      && (client.waits.value in p.closed || OpenAt(p, client.ops[0].key, client.waits.value))
  }

  ghost predicate Inv(w: World, rank: string -> nat) {
    && Sound(w.pools)
    && (forall t :: t in w.clients ==> InOrder(w.clients[t].ops, rank) && WaitsRight(w.pools, w.clients[t]))
    && (forall kind, key :: OpenIn(w.pools, kind, key) ==> OwedBySome(w, kind, key, rank))
  }

  lemma DropKeepsOrder(ops: seq<Op>, n: nat, rank: string -> nat)
    requires InOrder(ops, rank)
    ensures InOrder(Drop(ops, n), rank)
  {
    if n <= |ops| {
      forall i | 0 <= i < |ops| - n && ops[n..][i].Acquire?
        ensures Owes(ops[n..][i + 1..], ops[n..][i].kind, ops[n..][i].key, rank)
      {
        assert ops[n..][i] == ops[n + i] && ops[n..][i + 1..] == ops[n + i + 1..];
      }
    }
  }

  /** A step leaves every debt but the one it pays, and a key that it takes is a new one. */
  lemma ActKeepsDebts(pools: Pools, client: Client, rank: string -> nat, kind: Kind, key: string)
    requires Acted(pools, client).Some? && InOrder(client.ops, rank)
    ensures var (pools', client') := Acted(pools, client).value;
            OpenIn(pools', kind, key) && (!OpenIn(pools, kind, key) || Owes(client.ops, kind, key, rank)) ==>
              Owes(client'.ops, kind, key, rank)
  {
    match client.ops[0]
    case Release(_, _) =>
    case Acquire(k, x, onBusy, _) =>
      assert client.ops[1..] == client.ops[0 + 1..];
      if client.waits.Some? || AddResultOf(pools, k, x) != Added(pools.made) {
        assert Acted(pools, client).value.0 == pools;
      } else {
        assert OpenIn(AfterAdd(pools, k, x), kind, key) ==> OpenIn(pools, kind, key) || (kind == k && key == x);
      }
  }

  lemma ActKeepsPools(pools: Pools, client: Client, other: Client)
    requires Sound(pools) && Acted(pools, client).Some? && WaitsRight(pools, other)
    ensures Sound(Acted(pools, client).value.0) && WaitsRight(Acted(pools, client).value.0, other)
  {
    match client.ops[0]
    case Release(kind, key) =>
      RemoveIsSound(pools, kind, key);
    case Acquire(kind, key, _, _) =>
      AddIsSound(pools, kind, key);
  }

  lemma ActWaitsRight(pools: Pools, client: Client)
    requires Sound(pools) && Acted(pools, client).Some? && WaitsRight(pools, client)
    ensures WaitsRight(Acted(pools, client).value.0, Acted(pools, client).value.1)
  {
  }

  lemma ActKeepsInv(w: World, t: nat, rank: string -> nat)
    requires Inv(w, rank) && NextWorld(w, Act(t)).Some?
    ensures Inv(NextWorld(w, Act(t)).value, rank)
  {
    var w', client := NextWorld(w, Act(t)).value, w.clients[t];
    ActKeepsPools(w.pools, client, client);
    ActWaitsRight(w.pools, client);
    forall u | u in w'.clients
      ensures InOrder(w'.clients[u].ops, rank) && WaitsRight(w'.pools, w'.clients[u])
    {
      if u == t {
        ActKeepsOrder(w.pools, client, rank);
      } else {
        ActKeepsPools(w.pools, client, w.clients[u]);
      }
    }
    forall kind, key | OpenIn(w'.pools, kind, key)
      ensures OwedBySome(w', kind, key, rank)
    {
      ActKeepsDebts(w.pools, client, rank, kind, key);
      if OpenIn(w.pools, kind, key) {
        var u :| u in w.clients && Owes(w.clients[u].ops, kind, key, rank);
        assert u in w'.clients && Owes(w'.clients[u].ops, kind, key, rank);
      } else {
        assert t in w'.clients && Owes(w'.clients[t].ops, kind, key, rank);
      }
    }
  }

  lemma ActKeepsOrder(pools: Pools, client: Client, rank: string -> nat)
    requires Acted(pools, client).Some? && InOrder(client.ops, rank)
    ensures InOrder(Acted(pools, client).value.1.ops, rank)
  {
    DropKeepsOrder(client.ops, 1, rank);
    if client.ops[0].Acquire? {
      DropKeepsOrder(client.ops, 1 + client.ops[0].onBusy, rank);
    }
  }

  lemma FailKeepsInv(w: World, t: nat, rank: string -> nat)
    requires Inv(w, rank) && NextWorld(w, Fail(t)).Some?
    ensures Inv(NextWorld(w, Fail(t)).value, rank)
  {
    var w', ops := NextWorld(w, Fail(t)).value, w.clients[t].ops;
    DropKeepsOrder(ops, 1 + ops[0].onError, rank);
    forall kind, key | OpenIn(w'.pools, kind, key)
      ensures OwedBySome(w', kind, key, rank)
    {
      var u :| u in w.clients && Owes(w.clients[u].ops, kind, key, rank);
      assert u in w'.clients && Owes(w'.clients[u].ops, kind, key, rank);
    }
  }

  lemma BeginKeepsInv(w: World, t: nat, ops: seq<Op>, rank: string -> nat)
    requires Inv(w, rank) && t !in w.clients && InOrder(ops, rank)
    ensures Inv(NextWorld(w, Begin(t, ops)).value, rank)
  {
    var w' := NextWorld(w, Begin(t, ops)).value;
    forall kind, key | OpenIn(w'.pools, kind, key)
      ensures OwedBySome(w', kind, key, rank)
    {
      var u :| u in w.clients && Owes(w.clients[u].ops, kind, key, rank);
      assert u in w'.clients && Owes(w'.clients[u].ops, kind, key, rank);
    }
  }

  lemma {:induction false} RunKeepsInv(moves: seq<Move>, rank: string -> nat)
    requires WorldAfter(moves).Some?
    requires forall m :: m in moves && m.Begin? ==> InOrder(m.ops, rank)
    ensures Inv(WorldAfter(moves).value, rank)
    decreases |moves|
  {
    if moves == [] {
    } else {
      var init, last := moves[..|moves| - 1], moves[|moves| - 1];
      RunKeepsInv(init, rank);
      match last
      case Begin(t, ops) => BeginKeepsInv(WorldAfter(init).value, t, ops, rank);
      case Act(t) => ActKeepsInv(WorldAfter(init).value, t, rank);
      case Fail(t) => FailKeepsInv(WorldAfter(init).value, t, rank);
    }
  }

  // ---------------------------------------------------------------- no deadlock

  function KeysAbove(p: Pools, key: string, rank: string -> nat): set<string> {
    set x | x in p.pulling.Keys + p.pushing.Keys && rank(x) > rank(key)
  }

  /** Following the keys waited for leads to a client that can go on. */
  lemma {:induction false} SomebodyGoesOn(w: World, t: nat, rank: string -> nat) returns (u: nat)
    requires Inv(w, rank) && Unfinished(w, t) && NextWorld(w, Act(t)).None?
    ensures NextWorld(w, Act(u)).Some?
    decreases KeysAbove(w.pools, w.clients[t].ops[0].key, rank)
  {
    var key := w.clients[t].ops[0].key;
    assert OpenAt(w.pools, key, w.clients[t].waits.value);
    var kind := if key in w.pools.pulling then Pull else Push;
    assert OpenIn(w.pools, kind, key);
    u :| u in w.clients && Owes(w.clients[u].ops, kind, key, rank);
    if NextWorld(w, Act(u)).None? {
      var next := w.clients[u].ops[0].key;
      assert OpenAt(w.pools, next, w.clients[u].waits.value);
      assert next in KeysAbove(w.pools, key, rank) && next !in KeysAbove(w.pools, next, rank);
      u := SomebodyGoesOn(w, u, rank);
    }
  }

  function StepsLeft(client: Client): nat {
    2 * |client.ops| + if client.waits == None then 1 else 0
  }

  /** Every step brings a client closer to its end. */
  lemma ActShortens(pools: Pools, client: Client)
    requires Acted(pools, client).Some?
    ensures StepsLeft(Acted(pools, client).value.1) < StepsLeft(client)
  {
  }

  /** If every client takes its keys in the order of some rank, no run ends in a deadlock. */
  lemma NeverStuck(moves: seq<Move>, rank: string -> nat)
    requires WorldAfter(moves).Some?
    requires forall m :: m in moves && m.Begin? ==> InOrder(m.ops, rank)
    ensures !Stuck(WorldAfter(moves).value)
  {
    RunKeepsInv(moves, rank);
    var w := WorldAfter(moves).value;
    if t :| Unfinished(w, t) {
      if NextWorld(w, Act(t)).None? {
        var u := SomebodyGoesOn(w, t, rank);
      }
    }
  }
}
