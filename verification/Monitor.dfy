/** The monitor that runs a container's process and restarts it by policy (`daemon/monitor.go`). */
module Monitor {
  import opened Wrappers
  import State

  type Snapshot = State.Snapshot

  datatype Policy = Policy(name: string, max: int)

  /** Where the loop of `Start` is: before the next execution, in it, before the decision to restart,
      in the wait, before the check that follows the wait, or over. */
  datatype Place = Top | Executing | Deciding | Waiting | Checking | Over

  /** How an execution ended: its status, whether running it failed, and whether it took ten seconds or less. */
  datatype Exit = Exit(status: int, failed: bool, quick: bool)

  datatype Ending = NotYet | Normal | LogError | RunError

  /** The fields of the monitor and its container, with the history of exits and waits. */
  datatype Monitor = Monitor(policy: Policy, place: Place, failureCount: int, timeIncrement: int, shouldStop: bool,
                             closes: nat, restartCount: int, executions: nat, started: bool, exits: seq<Exit>,
                             waits: seq<int>, state: Snapshot, ending: Ending)

  const DEFAULT_TIME_INCREMENT := 100
  const MILLISECOND := 1_000_000
  const TWO_63 := 0x8000_0000_0000_0000
  const TWO_64 := 0x1_0000_0000_0000_0000

  /** A 64-bit signed integer after an overflow. */
  function Wrap64(x: int): (w: int)
    ensures -TWO_63 <= w < TWO_63 && (-TWO_63 <= x < TWO_63 ==> w == x)
  {
    (x + TWO_63) % TWO_64 - TWO_63
  }

  function Begin(policy: Policy, state: Snapshot): Monitor {
    Monitor(policy, Top, 0, DEFAULT_TIME_INCREMENT, false, 0, -1, 0, false, [], [], state, NotYet)
  }

  function AfterReset(m: Monitor, e: Exit): Monitor {
    m.(timeIncrement := if e.quick then Wrap64(m.timeIncrement * 2) else DEFAULT_TIME_INCREMENT,
       failureCount := if !e.failed && e.status == 0 then 0 else m.failureCount + 1)
  }

  predicate RestartsAfter(m: Monitor, status: int) {
    && !m.shouldStop
    && (m.policy.name == "always"
        || (m.policy.name == "on-failure" && !(m.policy.max != 0 && m.failureCount >= m.policy.max) && status != 0))
  }

  datatype Step = Loop(logged: bool) | Callback(pid: int, now: int) | Exits(exit: Exit) | Decide(now: int)
                | Timeout | StopWake | Check(now: int) | ExitOnNext

  /** One step. The steps of the loop follow each other; `ExitOnNext` may come at any time. */
  function Next(m: Monitor, step: Step): Option<Monitor> {
    match step
    case Loop(logged) =>
      if m.place != Top then None
      else if !logged then Some(m.(restartCount := m.restartCount + 1, place := Over, ending := LogError))
      else
        Some(m.(restartCount := m.restartCount + 1, place := Executing, executions := m.executions + 1,
                started := false))
    case Callback(pid, now) =>
      if m.place != Executing then None
      else Some(m.(started := true, state := State.Apply(m.state, State.ToRunning(pid), now)))
    case Exits(e) =>
      if m.place != Executing then None
      else if e.failed && m.restartCount == 0 then Some(m.(place := Over, ending := RunError))
      else Some(AfterReset(m, e).(place := Deciding, exits := m.exits + [e]))
    case Decide(now) =>
      if m.place != Deciding || m.exits == [] then None
      else
        var status := m.exits[|m.exits| - 1].status;
        if RestartsAfter(m, status) then
          Some(m.(place := Waiting, waits := m.waits + [Wrap64(m.timeIncrement * MILLISECOND)],
                  state := State.Apply(m.state, State.ToRestarting(status), now)))
        else Some(m.(place := Over, ending := Normal, state := State.Apply(m.state, State.ToStopped(status), now)))
    case Timeout =>
      if m.place != Waiting then None else Some(m.(place := Checking))
    case StopWake =>
      if m.place != Waiting || m.closes == 0 then None else Some(m.(place := Checking))
    case Check(now) =>
      if m.place != Checking || m.exits == [] then None
      else if m.shouldStop then
        Some(m.(place := Over, ending := Normal,
                state := State.Apply(m.state, State.ToStopped(m.exits[|m.exits| - 1].status), now)))
      else Some(m.(place := Top))
    case ExitOnNext =>
      if m.shouldStop then Some(m) else Some(m.(shouldStop := true, closes := m.closes + 1))
  }

  function Run(m: Monitor, steps: seq<Step>): Option<Monitor>
    decreases |steps|
  {
    if steps == [] then Some(m)
    else match Next(m, steps[0])
      case None => None
      case Some(m') => Run(m', steps[1..])
  }

  lemma {:induction false} RunMore(m: Monitor, steps: seq<Step>, step: Step)
    requires Run(m, steps).Some?
    ensures Run(m, steps + [step]) == Next(Run(m, steps).value, step)
    decreases |steps|
  {
    if steps == [] {
      assert steps + [step] == [step] && [step][1..] == [];
      var next := Next(m, step);
      assert next.Some? ==> Run(next.value, []) == next;
    } else {
      assert (steps + [step])[1..] == steps[1..] + [step];
      RunMore(Next(m, steps[0]).value, steps[1..], step);
    }
  }

  /** The loop goes on for sure: every exit so far was followed by the decision to restart. */
  predicate Continuing(m: Monitor) {
    m.place in {Top, Executing, Waiting, Checking}
  }

  /** Executions, exits and restarts are counted right, and the stop channel is closed once at most. */
  ghost predicate CountsRight(m: Monitor) {
    && m.closes == (if m.shouldStop then 1 else 0)
    && |m.exits| == m.executions - (if m.place == Executing || m.ending == RunError then 1 else 0)
    && m.restartCount == m.executions - 1 + (if m.ending == LogError then 1 else 0)
    && |m.waits| <= |m.exits| && (Continuing(m) ==> |m.waits| == |m.exits|)
    && (m.place == Deciding ==> |m.waits| == |m.exits| - 1)
    && (m.place in {Executing, Deciding, Waiting, Checking} ==> m.executions > 0)
    && (m.place == Over <==> m.ending != NotYet)
    && (m.ending == RunError ==> m.executions == 1)
  }

  /** How many of the last exits in a row were quick. */
  function QuickRun(exits: seq<Exit>): nat {
    if exits == [] || !exits[|exits| - 1].quick then 0 else 1 + QuickRun(exits[..|exits| - 1])
  }

  /** The time increment after `k` quick exits in a row. */
  function Increment(k: nat): int {
    if k == 0 then DEFAULT_TIME_INCREMENT else Wrap64(Increment(k - 1) * 2)
  }

  /** The wait, in nanoseconds, between exit `i` and the restart. */
  function WaitAfter(exits: seq<Exit>, i: nat): int
    requires i < |exits|
  {
    Wrap64(Increment(QuickRun(exits[..i + 1])) * MILLISECOND)
  }

  lemma WaitAfterMore(exits: seq<Exit>, e: Exit, i: nat)
    requires i < |exits|
    ensures WaitAfter(exits + [e], i) == WaitAfter(exits, i)
  {
    assert (exits + [e])[..i + 1] == exits[..i + 1];
  }

  ghost predicate WaitsRight(m: Monitor) {
    && |m.waits| <= |m.exits|
    && m.timeIncrement == Increment(QuickRun(m.exits))
    && forall i :: 0 <= i < |m.waits| ==> m.waits[i] == WaitAfter(m.exits, i)
  }

  /** The number of exits that a restart followed. */
  function Restarted(m: Monitor): int {
    if Continuing(m) then |m.exits| else |m.exits| - 1
  }

  ghost predicate PolicyKept(m: Monitor) {
    && (m.policy.name == "on-failure" ==>
          && (forall i :: 0 <= i < Restarted(m) ==> m.exits[i].status != 0)
          && (Continuing(m) ==> m.failureCount == |m.exits|)
          && (m.place == Deciding && m.exits != [] ==>
                m.failureCount == |m.exits| || m.exits[|m.exits| - 1].status == 0)
          && (Continuing(m) && m.policy.max != 0 && m.exits != [] ==> |m.exits| < m.policy.max)
          && (m.policy.max != 0 ==> m.executions <= 1 || m.executions <= m.policy.max))
    && (m.policy.name !in {"always", "on-failure"} ==> m.executions <= 1 && (Continuing(m) ==> m.exits == []))
  }

  /** The state of the container at each place. */
  ghost predicate StateRight(m: Monitor) {
    && State.Consistent(m.state)
    && (m.place == Top ==> if m.executions == 0 then !m.state.running else m.state.restarting)
    && (m.place == Executing ==> if m.started then m.state.running && !m.state.restarting
                                 else if m.executions == 1 then !m.state.running else m.state.restarting)
    && (m.place in {Waiting, Checking} ==> m.state.restarting)
    && (m.ending == Normal ==> !m.state.running)
    && (m.ending == LogError ==> if m.executions == 0 then !m.state.running else m.state.restarting)
    && (m.ending == RunError ==> m.state.running == m.started)
  }

  ghost predicate Inv(m: Monitor) {
    CountsRight(m) && WaitsRight(m) && PolicyKept(m) && StateRight(m)
  }

  lemma BeginHasInv(policy: Policy, state: Snapshot)
    requires !state.running && State.Consistent(state)
    ensures Inv(Begin(policy, state))
  {
  }

  lemma WaitsAfterExit(exits: seq<Exit>, waits: seq<int>, e: Exit)
    requires |waits| <= |exits| && forall i :: 0 <= i < |waits| ==> waits[i] == WaitAfter(exits, i)
    ensures forall i :: 0 <= i < |waits| ==> waits[i] == WaitAfter(exits + [e], i)
    ensures QuickRun(exits + [e]) == if e.quick then 1 + QuickRun(exits) else 0
  {
    assert (exits + [e])[..|exits|] == exits;
    forall i | 0 <= i < |waits|
      ensures waits[i] == WaitAfter(exits + [e], i)
    {
      WaitAfterMore(exits, e, i);
    }
  }

  lemma WaitsAfterDecision(exits: seq<Exit>, waits: seq<int>)
    requires |waits| < |exits| && forall i :: 0 <= i < |waits| ==> waits[i] == WaitAfter(exits, i)
    ensures |waits| == |exits| - 1 ==>
              var more := waits + [Wrap64(Increment(QuickRun(exits)) * MILLISECOND)];
              forall i :: 0 <= i < |more| ==> more[i] == WaitAfter(exits, i)
  {
    assert exits[..|exits|] == exits;
  }

  lemma WaitsStayRight(m: Monitor, step: Step)
    requires CountsRight(m) && WaitsRight(m) && Next(m, step).Some?
    ensures WaitsRight(Next(m, step).value)
  {
    if step.Exits? {
      WaitsAfterExit(m.exits, m.waits, step.exit);
    } else if step.Decide? && m.exits != [] && |m.waits| < |m.exits| {
      WaitsAfterDecision(m.exits, m.waits);
    }
  }

  lemma StepKeepsInv(m: Monitor, step: Step)
    requires Inv(m) && Next(m, step).Some?
    ensures Inv(Next(m, step).value) && Next(m, step).value.policy == m.policy
  {
    WaitsStayRight(m, step);
    CountsStayRight(m, step);
    PolicyStaysKept(m, step);
    StateStaysRight(m, step);
  }

  lemma CountsStayRight(m: Monitor, step: Step)
    requires CountsRight(m) && Next(m, step).Some?
    ensures CountsRight(Next(m, step).value)
  {
  }

  lemma ExitKeepsPolicy(m: Monitor, e: Exit)
    requires CountsRight(m) && PolicyKept(m) && Next(m, Exits(e)).Some?
    ensures PolicyKept(Next(m, Exits(e)).value)
  {
  }

  lemma PolicyStaysKept(m: Monitor, step: Step)
    requires CountsRight(m) && PolicyKept(m) && Next(m, step).Some?
    ensures PolicyKept(Next(m, step).value)
  {
    if step.Exits? {
      ExitKeepsPolicy(m, step.exit);
    }
  }

  lemma StateStaysRight(m: Monitor, step: Step)
    requires CountsRight(m) && StateRight(m) && Next(m, step).Some?
    ensures StateRight(Next(m, step).value)
  {
  }

  lemma {:induction false} RunKeepsInv(m: Monitor, steps: seq<Step>)
    requires Inv(m) && Run(m, steps).Some?
    ensures Inv(Run(m, steps).value) && Run(m, steps).value.policy == m.policy
    decreases |steps|
  {
    if steps == [] {
    } else {
      StepKeepsInv(m, steps[0]);
      RunKeepsInv(Next(m, steps[0]).value, steps[1..]);
    }
  }

  ghost predicate Reaches(policy: Policy, state: Snapshot, steps: seq<Step>, m: Monitor) {
    !state.running && State.Consistent(state) && Run(Begin(policy, state), steps) == Some(m)
  }

  /** In every run: with a maximum, the process is executed at most that often; each restart on failure
      follows an exit with a status other than 0; without a restart policy there is one execution. The
      stop channel is closed at most once. */
  lemma PolicyIsKept(policy: Policy, state: Snapshot, steps: seq<Step>, m: Monitor)
    requires Reaches(policy, state, steps, m)
    ensures policy.name == "on-failure" && policy.max > 0 ==> m.executions <= policy.max
    ensures policy.name == "on-failure" ==>
              forall i :: 0 <= i < m.executions - 1 ==> i < |m.exits| && m.exits[i].status != 0
    ensures policy.name !in {"always", "on-failure"} ==> m.executions <= 1
    ensures m.closes <= 1 && (m.closes == 1 <==> m.shouldStop)
  {
    BeginHasInv(policy, state);
    RunKeepsInv(Begin(policy, state), steps);
  }

  function Pow2(k: nat): nat {
    if k == 0 then 1 else 2 * Pow2(k - 1)
  }

  lemma {:induction false} Pow2Grows(j: nat, k: nat)
    requires j <= k
    ensures Pow2(j) <= Pow2(k)
    decreases k
  {
    if j == k {
    } else {
      Pow2Grows(j, k - 1);
    }
  }

  lemma Pow2Values()
    ensures Pow2(36) == 0x10_0000_0000 && Pow2(37) == 0x20_0000_0000
  {
    assert Pow2(4) == 0x10 && Pow2(8) == 0x100 && Pow2(12) == 0x1000;
    assert Pow2(16) == 0x1_0000 && Pow2(20) == 0x10_0000 && Pow2(24) == 0x100_0000;
    assert Pow2(28) == 0x1000_0000 && Pow2(32) == 0x1_0000_0000;
  }

  lemma {:induction false} IncrementIsExact(k: nat)
    requires k <= 36
    ensures Increment(k) == DEFAULT_TIME_INCREMENT * Pow2(k)
  {
    Pow2Grows(k, 36);
    Pow2Values();
    if k == 0 {
    } else {
      IncrementIsExact(k - 1);
    }
  }

  /** In every run, the wait after `k` quick exits in a row is 100 times 2 to the `k` milliseconds,
      exactly as long as that many nanoseconds fit 64 bits, which is up to `k` = 36. */
  lemma WaitsDouble(policy: Policy, state: Snapshot, steps: seq<Step>, m: Monitor, i: nat)
    requires Reaches(policy, state, steps, m) && i < |m.waits|
    ensures i < |m.exits|
    ensures var k := QuickRun(m.exits[..i + 1]);
            m.waits[i] == DEFAULT_TIME_INCREMENT * Pow2(k) * MILLISECOND <==> k <= 36
  {
    BeginHasInv(policy, state);
    RunKeepsInv(Begin(policy, state), steps);
    var k := QuickRun(m.exits[..i + 1]);
    Pow2Values();
    if k <= 36 {
      IncrementIsExact(k);
      Pow2Grows(k, 36);
    } else {
      Pow2Grows(37, k);
    }
  }

  /** Steps that remain for the loop once it is asked to stop, at most. */
  function StepsLeft(m: Monitor): nat {
    match m.place
    case Top => if m.shouldStop then 3 else 0
    case Executing => 2
    case Deciding => 1
    case Waiting => 2
    case Checking => 1
    case Over => 0
  }

  /** Once the loop is asked to stop, no execution begins any more, except the one it was about to begin. */
  lemma {:induction false} StopsSoon(m: Monitor, steps: seq<Step>)
    requires Inv(m) && m.shouldStop && Run(m, steps).Some?
    ensures var m' := Run(m, steps).value;
            m'.shouldStop && m'.executions <= m.executions + (if m.place == Top then 1 else 0)
    decreases |steps|
  {
    if steps == [] {
    } else {
      StepKeepsInv(m, steps[0]);
      StopsSoon(Next(m, steps[0]).value, steps[1..]);
    }
  }

  /** Nor does it take long: some step of the loop is possible, and each, but for the callback that
      reports the start, brings it closer to its end. */
  lemma StopMakesProgress(m: Monitor, step: Step)
    requires Inv(m) && m.shouldStop && m.place != Over
    ensures m.place == Waiting ==> Next(m, StopWake).Some?
    ensures exists s :: s != ExitOnNext && !s.Callback? && Next(m, s).Some?
    ensures Next(m, step).Some? && step != ExitOnNext && !step.Callback? ==>
              StepsLeft(Next(m, step).value) < StepsLeft(m)
  {
    var s := match m.place
      case Top => Loop(true)
      case Executing => Exits(Exit(0, false, true))
      case Deciding => Decide(0)
      case Waiting => StopWake
      case _ => Check(0);
    assert Next(m, s).Some?;
  }

  /** In every run that has ended, the container counts as stopped, except where logging failed before a
      restart, or where the first execution failed after it was reported as started. */
  lemma StoppedAtTheEnd(policy: Policy, state: Snapshot, steps: seq<Step>, m: Monitor)
    requires Reaches(policy, state, steps, m) && m.place == Over
    ensures m.state.running <==> (m.ending == LogError && m.executions > 0) || (m.ending == RunError && m.started)
    ensures m.ending == LogError && m.executions > 0 ==> m.state.restarting
  {
    BeginHasInv(policy, state);
    RunKeepsInv(Begin(policy, state), steps);
  }

  /** What happens to the loop in one round: whether logging starts, whether the start is reported, how
      the execution ends, and at which places a request to stop comes in. */
  datatype Round = Round(logged: bool, started: bool, pid: int, exit: Exit, timeout: bool, now: int, stops: set<Place>)

  class ContainerMonitor {
    const policy: Policy
    var failureCount: int
    var timeIncrement: int
    var shouldStop: bool
    var stopChan: nat
    var restartCount: int
    var state: Snapshot
    ghost var place: Place
    ghost var executions: nat
    ghost var started: bool
    ghost var exits: seq<Exit>
    ghost var waits: seq<int>
    ghost var ending: Ending

    ghost function Value(): Monitor
      reads this
    {
      Monitor(policy, place, failureCount, timeIncrement, shouldStop, stopChan, restartCount, executions, started,
              exits, waits, state, ending)
    }

    constructor (policy: Policy, state: Snapshot)
      ensures Value() == Begin(policy, state).(restartCount := 0)
    {
      this.policy, this.state := policy, state;
      failureCount, timeIncrement, shouldStop, stopChan, restartCount := 0, DEFAULT_TIME_INCREMENT, false, 0, 0;
      place, executions, started, exits, waits, ending := Top, 0, false, [], [], NotYet;
    }

    /** Closing the stop channel twice would panic. */
    method ExitOnNext()
      requires stopChan == (if shouldStop then 1 else 0)
      modifies this
      ensures Next(old(Value()), Step.ExitOnNext) == Some(Value())
    {
      if !shouldStop {
        shouldStop := true;
        stopChan := stopChan + 1;
        assert stopChan == 1;
      }
    }

    method ResetMonitor(successful: bool, quick: bool)
      modifies this`timeIncrement, this`failureCount
      ensures forall e: Exit :: e.quick == quick && (successful <==> !e.failed && e.status == 0) ==>
                                Value() == AfterReset(old(Value()), e)
    {
      if !quick {
        timeIncrement := DEFAULT_TIME_INCREMENT;
      } else {
        timeIncrement := Wrap64(timeIncrement * 2);
      }
      if successful {
        failureCount := 0;
      } else {
        failureCount := failureCount + 1;
      }
    }

    method ShouldRestart(status: int) returns (restart: bool)
      ensures restart <==> RestartsAfter(Value(), status)
    {
      if shouldStop {
        return false;
      }
      if policy.name == "always" {
        return true;
      }
      if policy.name == "on-failure" {
        if policy.max != 0 && failureCount >= policy.max {
          return false;
        }
        return status != 0;
      }
      return false;
    }

    /** The steps taken lead from the beginning to here. */
    ghost predicate Came(state0: Snapshot, steps: seq<Step>)
      reads this
    {
      Reaches(policy, state0, steps, Value())
    }

    /** A request to stop, if one comes in here. */
    method Interrupt(comes: bool, ghost state0: Snapshot, ghost steps0: seq<Step>) returns (ghost steps: seq<Step>)
      requires Came(state0, steps0)
      modifies this
      ensures Came(state0, steps) && place == old(place) && exits == old(exits)
    {
      steps := steps0;
      if comes {
        PolicyIsKept(policy, state0, steps, Value());
        RunMore(Begin(policy, state0), steps, Step.ExitOnNext);
        ExitOnNext();
        steps := steps + [Step.ExitOnNext];
      }
    }

    /** One execution of the process, up to the reset of the counters. */
    method Execute(r: Round, ghost state0: Snapshot, ghost steps0: seq<Step>)
      returns (over: bool, ghost steps: seq<Step>)
      requires Came(state0, steps0) && place == Top
      modifies this
      ensures Came(state0, steps) && place == if over then Over else Deciding
      ensures !over ==> exits != [] && exits[|exits| - 1].status == r.exit.status
    {
      steps := Interrupt(Top in r.stops, state0, steps0);
      ghost var begin := Begin(policy, state0);
      restartCount := restartCount + 1;
      RunMore(begin, steps, Loop(r.logged));
      steps := steps + [Loop(r.logged)];
      if !r.logged {
        place, ending := Over, LogError;
        return true, steps;
      }
      place, executions, started := Executing, executions + 1, false;
      if r.started {
        RunMore(begin, steps, Callback(r.pid, r.now));
        state := State.Apply(state, State.ToRunning(r.pid), r.now);
        started := true;
        steps := steps + [Callback(r.pid, r.now)];
      }
      steps := Interrupt(Executing in r.stops, state0, steps);
      over, steps := Finish(r, state0, steps);
    }

    /** The execution ends. */
    method Finish(r: Round, ghost state0: Snapshot, ghost steps0: seq<Step>)
      returns (over: bool, ghost steps: seq<Step>)
      requires Came(state0, steps0) && place == Executing
      modifies this
      ensures Came(state0, steps) && place == if over then Over else Deciding
      ensures !over ==> exits != [] && exits[|exits| - 1].status == r.exit.status
    {
      RunMore(Begin(policy, state0), steps0, Exits(r.exit));
      steps := steps0 + [Exits(r.exit)];
      if r.exit.failed && restartCount == 0 {
        place, ending := Over, RunError;
        return true, steps;
      }
      ResetMonitor(!r.exit.failed && r.exit.status == 0, r.exit.quick);
      place, exits := Deciding, exits + [r.exit];
      over := false;
    }

    /** Deciding whether to restart, and the wait before it. */
    method Settle(r: Round, ghost state0: Snapshot, ghost steps0: seq<Step>)
      returns (over: bool, ghost steps: seq<Step>)
      requires Came(state0, steps0) && place == Deciding && exits != [] && exits[|exits| - 1].status == r.exit.status
      modifies this
      ensures Came(state0, steps) && place == if over then Over else Top
    {
      steps := Interrupt(Deciding in r.stops, state0, steps0);
      RunMore(Begin(policy, state0), steps, Decide(r.now));
      var restart := ShouldRestart(r.exit.status);
      steps := steps + [Decide(r.now)];
      if restart {
        state := State.Apply(state, State.ToRestarting(r.exit.status), r.now);
        waits := waits + [Wrap64(timeIncrement * MILLISECOND)];
        place := Waiting;
        over, steps := Wait(r, state0, steps);
      } else {
        state := State.Apply(state, State.ToStopped(r.exit.status), r.now);
        place, ending, over := Over, Normal, true;
      }
    }

    /** `waitForNextRestart`, and the check that follows it. */
    method Wait(r: Round, ghost state0: Snapshot, ghost steps0: seq<Step>) returns (over: bool, ghost steps: seq<Step>)
      requires Came(state0, steps0) && place == Waiting && exits != [] && exits[|exits| - 1].status == r.exit.status
      modifies this
      ensures Came(state0, steps) && place == if over then Over else Top
    {
      steps := Interrupt(Waiting in r.stops, state0, steps0);
      ghost var woken := if stopChan > 0 && !r.timeout then StopWake else Timeout;
      RunMore(Begin(policy, state0), steps, woken);
      steps := steps + [woken];
      place := Checking;
      over, steps := CheckStop(r, state0, steps);
    }

    method CheckStop(r: Round, ghost state0: Snapshot, ghost steps0: seq<Step>)
      returns (over: bool, ghost steps: seq<Step>)
      requires Came(state0, steps0) && place == Checking && exits != [] && exits[|exits| - 1].status == r.exit.status
      modifies this
      ensures Came(state0, steps) && place == if over then Over else Top
    {
      steps := Interrupt(Checking in r.stops, state0, steps0);
      RunMore(Begin(policy, state0), steps, Check(r.now));
      steps := steps + [Check(r.now)];
      if shouldStop {
        state := State.Apply(state, State.ToStopped(r.exit.status), r.now);
        place, ending, over := Over, Normal, true;
      } else {
        place, over := Top, false;
      }
    }

    /** `Start`, for as many rounds as are given: whatever happens, it is a run of the steps above. */
    method Start(rounds: seq<Round>) returns (over: bool, ghost steps: seq<Step>)
      requires Value().(restartCount := -1) == Begin(policy, state) && !state.running && State.Consistent(state)
      modifies this
      ensures Reaches(policy, old(state), steps, Value())
      ensures place == if over then Over else Top
    {
      restartCount, steps, over := -1, [], false;
      var i := 0;
      while i < |rounds| && !over
        invariant Came(old(state), steps) && place == if over then Over else Top
        decreases |rounds| - i
      {
        over, steps := Execute(rounds[i], old(state), steps);
        if !over {
          over, steps := Settle(rounds[i], old(state), steps);
        }
        i := i + 1;
      }
    }
  }
}
