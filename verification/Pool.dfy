/** The pools of pulls and pushes in progress, and the clients that share them (`graph/tags.go`, `graph/pull.go`). */
module Pool {
  import opened Sequences
  import opened Wrappers

  /** A channel is known by the order in which it was made. */
  type Channel = nat

  datatype Kind = Pull | Push | Other(name: string)

  /** The two pools, the number of channels made so far, and the channels closed, in order. */
  datatype Pools = Pools(pulling: map<string, Channel>, pushing: map<string, Channel>, made: nat, closed: seq<Channel>)

  datatype AddResult = Added(channel: Channel) | Busy(channel: Channel) | UnknownPool

  const EMPTY := Pools(map[], map[], 0, [])

  function AddResultOf(p: Pools, kind: Kind, key: string): AddResult {
    if key in p.pulling then Busy(p.pulling[key])
    else if key in p.pushing then Busy(p.pushing[key])
    else if kind.Other? then UnknownPool
    else Added(p.made)
  }

  /** The pools after an addition; a channel made for an unknown kind is dropped at once. */
  function AfterAdd(p: Pools, kind: Kind, key: string): Pools {
    if key in p.pulling || key in p.pushing then p
    else match kind
      case Pull => p.(pulling := p.pulling[key := p.made], made := p.made + 1)
      case Push => p.(pushing := p.pushing[key := p.made], made := p.made + 1)
      case Other(_) => p
  }

  function AfterRemove(p: Pools, kind: Kind, key: string): Pools {
    if kind == Pull && key in p.pulling then
      p.(pulling := p.pulling - {key}, closed := p.closed + [p.pulling[key]])
    else if kind == Push && key in p.pushing then
      p.(pushing := p.pushing - {key}, closed := p.closed + [p.pushing[key]])
    else p
  }

  /** The key is in progress under this channel. */
  predicate OpenAt(p: Pools, key: string, c: Channel) {
    (key in p.pulling && p.pulling[key] == c) || (key in p.pushing && p.pushing[key] == c)
  }

  /** No key is in both pools; every channel made is either closed, once, or stands under one key. */
  ghost predicate Sound(p: Pools) {
    && p.pulling.Keys !! p.pushing.Keys
    && NoDuplicates(p.closed) && (forall c :: c in p.closed ==> c < p.made)
    && (forall key, c: Channel :: OpenAt(p, key, c) ==> c < p.made && c !in p.closed)
    && (forall key, key', c :: OpenAt(p, key, c) && OpenAt(p, key', c) ==> key == key')
    && (forall c: Channel :: c < p.made ==> c in p.closed || exists key :: OpenAt(p, key, c))
  }

  class TagStore {
    var pullingPool: map<string, Channel>
    var pushingPool: map<string, Channel>
    var made: nat
    var closed: seq<Channel>

    ghost function State(): Pools
      reads this
    {
      Pools(pullingPool, pushingPool, made, closed)
    }

    constructor ()
      ensures State() == EMPTY
    {
      pullingPool, pushingPool, made, closed := map[], map[], 0, [];
    }

    method PoolAdd(kind: Kind, key: string) returns (r: AddResult)
      modifies this
      ensures r == AddResultOf(old(State()), kind, key) && State() == AfterAdd(old(State()), kind, key)
    {
      if key in pullingPool {
        return Busy(pullingPool[key]);
      }
      if key in pushingPool {
        return Busy(pushingPool[key]);
      }
      match kind
      case Pull =>
        r := Added(made);
        pullingPool, made := pullingPool[key := made], made + 1;
      case Push =>
        r := Added(made);
        pushingPool, made := pushingPool[key := made], made + 1;
      case Other(_) =>
        r := UnknownPool;
    }

    /** Closing a channel twice would panic: it never happens. */
    method PoolRemove(kind: Kind, key: string) returns (ok: bool)
      requires Sound(State())
      modifies this
      ensures ok <==> !kind.Other?
      ensures State() == AfterRemove(old(State()), kind, key) && Sound(State())
    {
      RemoveIsSound(State(), kind, key);
      match kind
      case Pull =>
        if key in pullingPool {
          assert OpenAt(State(), key, pullingPool[key]);
          Close(pullingPool[key]);
          pullingPool := pullingPool - {key};
        }
        ok := true;
      case Push =>
        if key in pushingPool {
          assert OpenAt(State(), key, pushingPool[key]);
          Close(pushingPool[key]);
          pushingPool := pushingPool - {key};
        }
        ok := true;
      case Other(_) =>
        ok := false;
    }

    method Close(c: Channel)
      requires c !in closed
      modifies this`closed
      ensures closed == old(closed) + [c]
    {
      closed := closed + [c];
    }
  }

  lemma AddIsSound(p: Pools, kind: Kind, key: string)
    requires Sound(p)
    ensures Sound(AfterAdd(p, kind, key))
    ensures key !in p.pulling && key !in p.pushing && !kind.Other? ==>
              forall k, c :: OpenAt(AfterAdd(p, kind, key), k, c) <==> OpenAt(p, k, c) || (k == key && c == p.made)
  {
    var p' := AfterAdd(p, kind, key);
    if p' != p {
      forall k, c
        ensures OpenAt(p', k, c) <==> OpenAt(p, k, c) || (k == key && c == p.made)
      {
      }
      assert OpenAt(p', key, p.made);
      forall c: Channel | c < p.made && c !in p.closed
        ensures exists k :: OpenAt(p', k, c)
      {
        var k :| OpenAt(p, k, c);
        assert OpenAt(p', k, c);
      }
    }
  }

  lemma RemoveIsSound(p: Pools, kind: Kind, key: string)
    requires Sound(p)
    ensures Sound(AfterRemove(p, kind, key))
    ensures AfterRemove(p, kind, key) != p ==>
              forall k, c :: OpenAt(AfterRemove(p, kind, key), k, c) <==> OpenAt(p, k, c) && k != key
  {
    var p' := AfterRemove(p, kind, key);
    if p' != p {
      var gone := if kind == Pull then p.pulling[key] else p.pushing[key];
      assert OpenAt(p, key, gone);
      forall k, c
        ensures OpenAt(p', k, c) <==> OpenAt(p, k, c) && k != key
      {
      }
      forall c: Channel | c < p.made && c !in p'.closed
        ensures exists k :: OpenAt(p', k, c)
      {
        assert c !in p.closed && c != gone by {
          assert gone in [gone];
        }
        var k :| OpenAt(p, k, c);
        assert OpenAt(p', k, c);
      }
    }
  }

  /** One use of a key by a client: it adds the key and works, or waits for whoever does. */
  datatype Task = Working(kind: Kind, key: string, channel: Channel) | Waiting(key: string, channel: Channel) | Finished

  datatype System = System(pools: Pools, tasks: map<nat, Task>)

  datatype Step = Start(task: nat, kind: Kind, key: string) | Finish(task: nat) | Wake(task: nat)

  /** One step of one task; tasks take their steps in any order. A task starts once, removes its key
      after it added it, and wakes once the channel it waits for is closed. */
  function Next(s: System, step: Step): Option<System> {
    match step
    case Start(t, kind, key) =>
      if t in s.tasks then None
      else
        var task := match AddResultOf(s.pools, kind, key)
          case Added(c) => Working(kind, key, c)
          case Busy(c) => Waiting(key, c)
          case UnknownPool => Finished;
        Some(System(AfterAdd(s.pools, kind, key), s.tasks[t := task]))
    case Finish(t) =>
      if t !in s.tasks || !s.tasks[t].Working? then None
      else Some(System(AfterRemove(s.pools, s.tasks[t].kind, s.tasks[t].key), s.tasks[t := Finished]))
    case Wake(t) =>
      if t !in s.tasks || !s.tasks[t].Waiting? || s.tasks[t].channel !in s.pools.closed then None
      else Some(s.(tasks := s.tasks[t := Finished]))
  }

  function Run(s: System, steps: seq<Step>): Option<System>
    decreases |steps|
  {
    if steps == [] then Some(s)
    else match Next(s, steps[0])
      case None => None
      case Some(s') => Run(s', steps[1..])
  }

  const START := System(EMPTY, map[])

  predicate Holds(s: System, t: nat, key: string, c: Channel) {
    && t in s.tasks && s.tasks[t].Working? && s.tasks[t].key == key && s.tasks[t].channel == c
    && match s.tasks[t].kind
       case Pull => key in s.pools.pulling && s.pools.pulling[key] == c
       case Push => key in s.pools.pushing && s.pools.pushing[key] == c
       case Other(_) => false
  }

  /** Keys in progress and working tasks belong together, one to one. */
  ghost predicate Inv(s: System) {
    && Sound(s.pools)
    && (forall t :: t in s.tasks && s.tasks[t].Working? ==> Holds(s, t, s.tasks[t].key, s.tasks[t].channel))
    && (forall key, c :: OpenAt(s.pools, key, c) ==> exists t :: Holds(s, t, key, c))
    && (forall t, t', key, c, c' :: Holds(s, t, key, c) && Holds(s, t', key, c') ==> t == t')
    && (forall t :: t in s.tasks && s.tasks[t].Waiting? ==>
          s.tasks[t].channel in s.pools.closed || OpenAt(s.pools, s.tasks[t].key, s.tasks[t].channel))
  }

  lemma StartKeepsInv(s: System, t: nat, kind: Kind, key: string)
    requires Inv(s) && t !in s.tasks
    ensures Inv(Next(s, Start(t, kind, key)).value)
  {
    var s' := Next(s, Start(t, kind, key)).value;
    AddIsSound(s.pools, kind, key);
    forall u, k, c
      ensures Holds(s', u, k, c) <==> Holds(s, u, k, c) || (u == t && s'.tasks[t] == Working(kind, k, c) && k == key)
    {
    }
    forall k, c | OpenAt(s'.pools, k, c)
      ensures exists u :: Holds(s', u, k, c)
    {
      if OpenAt(s.pools, k, c) {
        var u :| Holds(s, u, k, c);
        assert Holds(s', u, k, c);
      } else {
        assert Holds(s', t, k, c);
      }
    }
    forall u, k, c | Holds(s, u, k, c)
      ensures OpenAt(s.pools, k, c)
    {
    }
  }

  lemma FinishKeepsInv(s: System, t: nat)
    requires Inv(s) && t in s.tasks && s.tasks[t].Working?
    ensures Inv(Next(s, Finish(t)).value)
    ensures Next(s, Finish(t)).value.pools.closed == s.pools.closed + [s.tasks[t].channel]
  {
    var s' := Next(s, Finish(t)).value;
    var key := s.tasks[t].key;
    assert Holds(s, t, key, s.tasks[t].channel);
    RemoveIsSound(s.pools, s.tasks[t].kind, key);
    forall u, k, c
      ensures Holds(s', u, k, c) <==> Holds(s, u, k, c) && u != t
    {
      if Holds(s, u, k, c) && u != t {
        assert k != key;
      }
    }
    forall k, c | OpenAt(s'.pools, k, c)
      ensures exists u :: Holds(s', u, k, c)
    {
      var u :| Holds(s, u, k, c);
      assert Holds(s', u, k, c);
    }
  }

  lemma WakeKeepsInv(s: System, t: nat)
    requires Inv(s) && t in s.tasks && s.tasks[t].Waiting?
    ensures Inv(s.(tasks := s.tasks[t := Finished]))
  {
    var s' := s.(tasks := s.tasks[t := Finished]);
    forall u, k, c
      ensures Holds(s', u, k, c) <==> Holds(s, u, k, c)
    {
    }
    forall k, c | OpenAt(s'.pools, k, c)
      ensures exists u :: Holds(s', u, k, c)
    {
      var u :| Holds(s, u, k, c);
      assert Holds(s', u, k, c);
    }
  }

  /** Every interleaving keeps the invariant. */
  lemma {:induction false} RunKeepsInv(s: System, steps: seq<Step>)
    requires Inv(s) && Run(s, steps).Some?
    ensures Inv(Run(s, steps).value)
    decreases |steps|
  {
    if steps == [] {
    } else {
      match steps[0] {
        case Start(t, kind, key) => StartKeepsInv(s, t, kind, key);
        case Finish(t) => FinishKeepsInv(s, t);
        case Wake(t) => WakeKeepsInv(s, t);
      }
      RunKeepsInv(Next(s, steps[0]).value, steps[1..]);
    }
  }

  lemma StartHasInv()
    ensures Inv(START)
  {
  }

  predicate WorksOn(s: System, t: nat, key: string) {
    t in s.tasks && s.tasks[t].Working? && s.tasks[t].key == key
  }

  /** In every run at most one task works on a key, in whichever pool; a key is in a pool if and only
      if some task works on it; and no channel is closed twice. */
  lemma AtMostOneWorker(steps: seq<Step>, t: nat, t': nat, key: string)
    requires Run(START, steps).Some?
    ensures var s := Run(START, steps).value;
            && (WorksOn(s, t, key) && WorksOn(s, t', key) ==> t == t')
            && (key in s.pools.pulling || key in s.pools.pushing <==> exists u :: WorksOn(s, u, key))
            && NoDuplicates(s.pools.closed)
  {
    StartHasInv();
    RunKeepsInv(START, steps);
    var s := Run(START, steps).value;
    if key in s.pools.pulling || key in s.pools.pushing {
      var c := if key in s.pools.pulling then s.pools.pulling[key] else s.pools.pushing[key];
      assert OpenAt(s.pools, key, c);
      var u :| Holds(s, u, key, c);
      assert WorksOn(s, u, key);
    }
  }

  /** No wake-up is lost: a waiting task can go on at once, or some task works on its key whose next
      step, which nothing can prevent, lets it go on. */
  lemma WaiterIsReleased(steps: seq<Step>, t: nat) returns (holder: nat)
    requires Run(START, steps).Some? && t in Run(START, steps).value.tasks && Run(START, steps).value.tasks[t].Waiting?
    ensures var s := Run(START, steps).value;
            if s.tasks[t].channel in s.pools.closed then Next(s, Wake(t)).Some?
            else Holds(s, holder, s.tasks[t].key, s.tasks[t].channel)
                 && Next(s, Finish(holder)).Some? && Next(Next(s, Finish(holder)).value, Wake(t)).Some?
  {
    StartHasInv();
    RunKeepsInv(START, steps);
    var s := Run(START, steps).value;
    holder := t;
    if s.tasks[t].channel !in s.pools.closed {
      holder :| Holds(s, holder, s.tasks[t].key, s.tasks[t].channel);
      FinishKeepsInv(s, holder);
      assert s.tasks[t].channel in [s.tasks[t].channel];
    }
  }

  /** And none comes early: only the end of the work on its key closes the channel of a waiting task. */
  lemma ClosedByHolder(steps: seq<Step>, step: Step, key: string, c: Channel)
    requires Run(START, steps).Some? && Next(Run(START, steps).value, step).Some?
    requires OpenAt(Run(START, steps).value.pools, key, c)
    ensures var s := Run(START, steps).value;
            c in Next(s, step).value.pools.closed <==> step.Finish? && Holds(s, step.task, key, c)
  {
    StartHasInv();
    RunKeepsInv(START, steps);
    var s := Run(START, steps).value;
    if step.Finish? {
      FinishKeepsInv(s, step.task);
      var task := s.tasks[step.task];
      assert Holds(s, step.task, task.key, task.channel);
      assert c in [task.channel] <==> c == task.channel;
      assert OpenAt(s.pools, task.key, task.channel);
    }
  }

  /** What `pullImage` does with a layer instead: having waited, it works without having added the key,
      and removes the key when it is done. */
  function Proceed(s: System, t: nat, kind: Kind): Option<System> {
    if t !in s.tasks || !s.tasks[t].Waiting? || s.tasks[t].channel !in s.pools.closed then None
    else Some(s.(tasks := s.tasks[t := Working(kind, s.tasks[t].key, s.tasks[t].channel)]))
  }
}
