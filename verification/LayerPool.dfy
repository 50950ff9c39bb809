/** The layers of a pull, which are worked on after a wait without being added to the pool (`graph/pull.go`). */
module LayerPool {
  import opened Wrappers
  import opened Sequences
  import opened Pool

  /** A step of a client that keeps to the pool, or of one that goes on with a layer after its wait. */
  datatype LayerStep = Plain(step: Step) | GoesOn(task: nat)

  function LayerNext(s: System, step: LayerStep): Option<System> {
    match step
    case Plain(p) => Next(s, p)
    case GoesOn(t) => Proceed(s, t, Pull)
  }

  function LayerRun(steps: seq<LayerStep>): Option<System> {
    if steps == [] then Some(START)
    else
      var s := LayerRun(steps[..|steps| - 1]);
      if s == None then None else LayerNext(s.value, steps[|steps| - 1])
  }

  ghost predicate Exclusive(s: System) {
    forall t, t', key :: WorksOn(s, t, key) && WorksOn(s, t', key) ==> t == t'
  }

  /** No two tasks work on one key, and none do after one more task starts. */
  ghost predicate SafeNow(s: System) {
    Exclusive(s) && forall u, kind, key :: u !in s.tasks ==> Exclusive(Next(s, Start(u, kind, key)).value)
  }

  ghost predicate StaysSafe(steps: seq<LayerStep>) {
    forall k :: 0 <= k <= |steps| && LayerRun(steps[..k]).Some? ==> SafeNow(LayerRun(steps[..k]).value)
  }

  lemma InvIsSafe(s: System)
    requires Inv(s)
    ensures SafeNow(s)
  {
    InvIsExclusive(s);
    forall u, kind, key | u !in s.tasks
      ensures Exclusive(Next(s, Start(u, kind, key)).value)
    {
      StartKeepsInv(s, u, kind, key);
      InvIsExclusive(Next(s, Start(u, kind, key)).value);
    }
  }

  lemma InvIsExclusive(s: System)
    requires Inv(s)
    ensures Exclusive(s)
  {
    forall t, t', key | WorksOn(s, t, key) && WorksOn(s, t', key)
      ensures t == t'
    {
      assert Holds(s, t, key, s.tasks[t].channel) && Holds(s, t', key, s.tasks[t'].channel);
    }
  }

  lemma {:induction false} PrefixRuns(steps: seq<LayerStep>, k: nat)
    requires LayerRun(steps).Some? && k <= |steps|
    ensures LayerRun(steps[..k]).Some?
  {
    if k == |steps| {
      assert steps[..k] == steps;
    } else {
      PrefixRuns(steps[..|steps| - 1], k);
      assert steps[..|steps| - 1][..k] == steps[..k];
    }
  }

  lemma {:induction false} PlainKeepsInv(steps: seq<LayerStep>)
    requires LayerRun(steps).Some? && forall i :: 0 <= i < |steps| ==> steps[i].Plain?
    ensures Inv(LayerRun(steps).value)
  {
    if steps == [] {
      StartHasInv();
    } else {
      var init := steps[..|steps| - 1];
      PlainKeepsInv(init);
      StepKeepsInv(LayerRun(init).value, steps[|steps| - 1].step);
    }
  }

  lemma StepKeepsInv(s: System, step: Step)
    requires Inv(s) && Next(s, step).Some?
    ensures Inv(Next(s, step).value)
  {
    match step
    case Start(t, kind, key) => StartKeepsInv(s, t, kind, key);
    case Finish(t) => FinishKeepsInv(s, t);
    case Wake(t) => WakeKeepsInv(s, t);
  }

  lemma {:induction false} Above(ks: set<nat>) returns (u: nat)
    ensures forall k :: k in ks ==> k < u
    decreases ks
  {
    if ks == {} {
      u := 0;
    } else {
      var one :| one in ks;
      var v := Above(ks - {one});
      u := if one < v then v else one + 1;
      assert forall k :: k in ks ==> k == one || k in ks - {one};
    }
  }

  /** Whoever goes on after a wait works beside another task on its key, or beside the next one that starts. */
  lemma GoingOnBreaks(s: System, t: nat)
    requires Inv(s) && Proceed(s, t, Pull).Some?
    ensures !SafeNow(Proceed(s, t, Pull).value)
  {
    var s' := Proceed(s, t, Pull).value;
    var key := s.tasks[t].key;
    assert WorksOn(s', t, key);
    if u :| WorksOn(s, u, key) {
      assert WorksOn(s', u, key);
    } else {
      assert key !in s.pools.pulling && key !in s.pools.pushing by {
        forall c | OpenAt(s.pools, key, c)
          ensures false
        {
          var u :| Holds(s, u, key, c);
          assert WorksOn(s, u, key);
        }
        assert key in s.pools.pulling ==> OpenAt(s.pools, key, s.pools.pulling[key]);
        assert key in s.pools.pushing ==> OpenAt(s.pools, key, s.pools.pushing[key]);
      }
      var u := Above(s'.tasks.Keys);
      var next := Next(s', Start(u, Pull, key)).value;
      assert WorksOn(next, u, key) && WorksOn(next, t, key);
    }
  }

  lemma {:induction false} FirstGoingOn(steps: seq<LayerStep>, i: nat) returns (k: nat)
    requires i < |steps| && steps[i].GoesOn?
    ensures k <= i && steps[k].GoesOn? && forall j :: 0 <= j < k ==> steps[j].Plain?
  {
    if forall j :: 0 <= j < i ==> steps[j].Plain? {
      k := i;
    } else {
      var j :| 0 <= j < i && !steps[j].Plain?;
      k := FirstGoingOn(steps, j);
    }
  }

  /** In every run, at most one task works on each key, then and after one more start, exactly when no task
      goes on with a layer after its wait. */
  lemma SafeIffNobodyGoesOn(steps: seq<LayerStep>)
    requires LayerRun(steps).Some?
    ensures StaysSafe(steps) <==> forall i :: 0 <= i < |steps| ==> steps[i].Plain?
  {
    if i :| 0 <= i < |steps| && steps[i].GoesOn? {
      var k := FirstGoingOn(steps, i);
      PrefixRuns(steps, k);
      PrefixRuns(steps, k + 1);
      PlainKeepsInv(steps[..k]);
      assert steps[..k + 1][..k] == steps[..k];
      GoingOnBreaks(LayerRun(steps[..k]).value, steps[k].task);
    } else {
      forall k | 0 <= k <= |steps| && LayerRun(steps[..k]).Some?
        ensures SafeNow(LayerRun(steps[..k]).value)
      {
        PlainKeepsInv(steps[..k]);
        InvIsSafe(LayerRun(steps[..k]).value);
      }
    }
  }

  lemma {:induction false} LayersKeepSound(steps: seq<LayerStep>)
    requires LayerRun(steps).Some?
    ensures Sound(LayerRun(steps).value.pools)
  {
    if steps == [] {
      StartHasInv();
    } else {
      var init, last := steps[..|steps| - 1], steps[|steps| - 1];
      LayersKeepSound(init);
      var s := LayerRun(init).value;
      if last.Plain? && last.step.Start? {
        AddIsSound(s.pools, last.step.kind, last.step.key);
      } else if last.Plain? && last.step.Finish? {
        RemoveIsSound(s.pools, s.tasks[last.step.task].kind, s.tasks[last.step.task].key);
      }
    }
  }

  /** A task that goes on has a closed channel. */
  lemma GoesOnWithClosed(s: System, t: nat)
    requires Proceed(s, t, Pull).Some?
    ensures var s' := Proceed(s, t, Pull).value;
            s'.tasks[t].Working? && s'.tasks[t].kind == Pull && s'.tasks[t].channel in s'.pools.closed
  {
  }

  /** And it has until it ends. */
  lemma {:induction false} StaysClosed(steps: seq<LayerStep>, t: nat)
    requires LayerRun(steps).Some? && GoesOn(t) in steps
    ensures var s := LayerRun(steps).value;
            && t in s.tasks && (s.tasks[t].Working? || s.tasks[t].Finished?)
            && (s.tasks[t].Working? ==> s.tasks[t].kind == Pull && s.tasks[t].channel in s.pools.closed)
  {
    var init, last := steps[..|steps| - 1], steps[|steps| - 1];
    assert steps == init + [last];
    var s := LayerRun(init).value;
    if GoesOn(t) in init {
      StaysClosed(init, t);
    } else {
      GoesOnWithClosed(s, t);
    }
  }

  /** In every run, the end of a task that went on closes no channel of its own, which is closed already, but
      that of whoever pulls the same key by then, if anyone does. No channel is closed twice even so. */
  lemma GoingOnClosesAnother(steps: seq<LayerStep>, t: nat)
    requires LayerRun(steps).Some? && GoesOn(t) in steps
    requires t in LayerRun(steps).value.tasks && LayerRun(steps).value.tasks[t].Working?
    ensures var s := LayerRun(steps).value;
            var key, pools := s.tasks[t].key, s.pools;
            && Next(s, Finish(t)).Some? && NoDuplicates(Next(s, Finish(t)).value.pools.closed)
            && s.tasks[t].channel in pools.closed
            && (key !in pools.pulling ==> Next(s, Finish(t)).value.pools == pools)
            && (key in pools.pulling ==>
                  && pools.pulling[key] != s.tasks[t].channel && pools.pulling[key] !in pools.closed
                  && Next(s, Finish(t)).value.pools.closed == pools.closed + [pools.pulling[key]])
  {
    LayersKeepSound(steps);
    StaysClosed(steps, t);
    var s := LayerRun(steps).value;
    var key := s.tasks[t].key;
    RemoveIsSound(s.pools, Pull, key);
    assert key in s.pools.pulling ==> OpenAt(s.pools, key, s.pools.pulling[key]);
  }
}
