/** A container's state, and those who wait for it to change (`daemon/state.go`). */
module State {
  import opened Wrappers

  datatype Op = ToRunning(pid: int) | ToStopped(exitCode: int) | ToRestarting(exitCode: int) | Pause | Unpause

  /** The fields of the state. The generation counts the wait channels used up so far. */
  datatype Snapshot = Snapshot(running: bool, paused: bool, restarting: bool, pid: int, exitCode: int,
                               startedAt: int, finishedAt: int, generation: nat)

  const NEVER := 0
  const NEW := Snapshot(false, false, false, 0, 0, NEVER, NEVER, 0)

  /** Pausing is not a transition: it wakes nobody. */
  predicate Transition(op: Op) {
    op.ToRunning? || op.ToStopped? || op.ToRestarting?
  }

  function Apply(s: Snapshot, op: Op, now: int): Snapshot {
    match op
    case ToRunning(pid) =>
      s.(running := true, paused := false, restarting := false, exitCode := 0, pid := pid, startedAt := now,
         generation := s.generation + 1)
    case ToStopped(code) =>
      s.(running := false, restarting := false, pid := 0, finishedAt := now, exitCode := code,
         generation := s.generation + 1)
    case ToRestarting(code) =>
      s.(running := true, restarting := true, pid := 0, finishedAt := now, exitCode := code,
         generation := s.generation + 1)
    case Pause => s.(paused := true)
    case Unpause => s.(paused := false)
  }

  datatype Wanted = Running | Stopped

  /** What a wait returns at once, if what it waits for is the case already. */
  function AtOnce(s: Snapshot, wanted: Wanted): Option<int> {
    match wanted
    case Running => if s.running then Some(s.pid) else None
    case Stopped => if s.running then None else Some(s.exitCode)
  }

  function Answer(s: Snapshot, wanted: Wanted): int {
    match wanted
    case Running => s.pid
    case Stopped => s.exitCode
  }

  class Channel {
    var closed: bool

    constructor ()
      ensures !closed
    {
      closed := false;
    }

    /** Closing twice would panic. */
    method Close()
      requires !closed
      modifies this
      ensures closed
    {
      closed := true;
    }
  }

  class ContainerState {
    var running: bool
    var paused: bool
    var restarting: bool
    var pid: int
    var exitCode: int
    var startedAt: int
    var finishedAt: int
    var waitChan: Channel
    ghost var made: seq<Channel>

    /** Of all channels made, the current one is open, and every earlier one is closed. */
    ghost predicate Valid()
      reads this, made
    {
      && made != [] && waitChan == made[|made| - 1] && !waitChan.closed
      && (forall i :: 0 <= i < |made| - 1 ==> made[i].closed)
    }

    ghost function Value(): Snapshot
      reads this
    {
      Snapshot(running, paused, restarting, pid, exitCode, startedAt, finishedAt, if made == [] then 0 else |made| - 1)
    }

    constructor ()
      ensures Valid() && Value() == NEW && fresh(made)
    {
      running, paused, restarting, pid, exitCode := false, false, false, 0, 0;
      startedAt, finishedAt := NEVER, NEVER;
      var c := new Channel();
      waitChan, made := c, [c];
    }

    /** Firing the waiters: the current channel is closed, and a new one takes its place. */
    method Fire()
      requires Valid()
      modifies this`waitChan, this`made, waitChan
      ensures Valid() && fresh(waitChan) && made == old(made) + [waitChan]
    {
      waitChan.Close();
      var c := new Channel();
      waitChan, made := c, made + [c];
    }

    method SetRunning(pid: int, now: int)
      requires Valid()
      modifies this, waitChan
      ensures Valid() && fresh(waitChan) && made == old(made) + [waitChan]
      ensures Value() == Apply(old(Value()), ToRunning(pid), now)
    {
      running, paused, restarting, exitCode, this.pid, startedAt := true, false, false, 0, pid, now;
      Fire();
    }

    method SetStopped(exitCode: int, now: int)
      requires Valid()
      modifies this, waitChan
      ensures Valid() && fresh(waitChan) && made == old(made) + [waitChan]
      ensures Value() == Apply(old(Value()), ToStopped(exitCode), now)
    {
      running, restarting, pid, finishedAt, this.exitCode := false, false, 0, now, exitCode;
      Fire();
    }

    method SetRestarting(exitCode: int, now: int)
      requires Valid()
      modifies this, waitChan
      ensures Valid() && fresh(waitChan) && made == old(made) + [waitChan]
      ensures Value() == Apply(old(Value()), ToRestarting(exitCode), now)
    {
      running, restarting, pid, finishedAt, this.exitCode := true, true, 0, now, exitCode;
      Fire();
    }

    method SetPaused()
      requires Valid()
      modifies this`paused
      ensures Valid() && Value() == Apply(old(Value()), Pause, 0)
    {
      paused := true;
    }

    method SetUnpaused()
      requires Valid()
      modifies this`paused
      ensures Valid() && Value() == Apply(old(Value()), Unpause, 0)
    {
      paused := false;
    }

    /** The first part of `WaitRunning` and `WaitStop`: an answer at once, or the channel to wait on,
        which is the one of the current generation. */
    method Capture(wanted: Wanted) returns (now: Option<int>, channel: Channel)
      requires Valid()
      ensures now == AtOnce(Value(), wanted) && channel == made[Value().generation]
    {
      channel := waitChan;
      if wanted == Running {
        now := if running then Some(pid) else None;
      } else {
        now := if !running then Some(exitCode) else None;
      }
    }

    /** A captured channel is closed if and only if its generation is over. */
    lemma ClosedIfOver(g: nat)
      requires Valid() && g < |made|
      ensures made[g].closed <==> g < Value().generation
    {
      if g < |made| - 1 {
        assert made[g].closed;
      }
    }
  }

  /** What can be relied on in every state. */
  predicate Consistent(s: Snapshot) {
    && (s.restarting ==> s.running && s.pid == 0)
    && (!s.running ==> !s.restarting && s.pid == 0)
  }

  datatype Waiter =
    Blocked(wanted: Wanted, generation: nat, forever: bool) | Awake(wanted: Wanted) | Returned(value: int) | TimedOut

  datatype System = System(state: Snapshot, waiters: map<nat, Waiter>)

  /** Setters and waiters take their steps in any order. A waiter first looks and captures the channel,
      under one lock; is woken by the channel or by its timeout; and reads its answer under another lock. */
  datatype Step =
    | Set(op: Op, now: int)
    | Enter(w: nat, wanted: Wanted, forever: bool)
    | Wake(w: nat)
    | Expire(w: nat)
    | Read(w: nat)

  function Next(s: System, step: Step): Option<System> {
    match step
    case Set(op, now) => Some(s.(state := Apply(s.state, op, now)))
    case Enter(w, wanted, forever) =>
      if w in s.waiters then None
      else Some(s.(waiters := s.waiters[w := match AtOnce(s.state, wanted)
        case Some(v) => Returned(v)
        case None => Blocked(wanted, s.state.generation, forever)]))
    case Wake(w) =>
      if w in s.waiters && s.waiters[w].Blocked? && s.waiters[w].generation < s.state.generation
      then Some(s.(waiters := s.waiters[w := Awake(s.waiters[w].wanted)]))
      else None
    case Expire(w) =>
      if w in s.waiters && s.waiters[w].Blocked? && !s.waiters[w].forever
      then Some(s.(waiters := s.waiters[w := TimedOut]))
      else None
    case Read(w) =>
      if w in s.waiters && s.waiters[w].Awake?
      then Some(s.(waiters := s.waiters[w := Returned(Answer(s.state, s.waiters[w].wanted))]))
      else None
  }

  function Run(s: System, steps: seq<Step>): Option<System>
    decreases |steps|
  {
    if steps == [] then Some(s)
    else match Next(s, steps[0])
      case None => None
      case Some(s') => Run(s', steps[1..])
  }

  const START := System(NEW, map[])

  lemma {:induction false} RunIsConsistent(s: System, steps: seq<Step>)
    requires Consistent(s.state) && Run(s, steps).Some?
    ensures Consistent(Run(s, steps).value.state)
    decreases |steps|
  {
    if steps == [] {
    } else {
      RunIsConsistent(Next(s, steps[0]).value, steps[1..]);
    }
  }

  /** The step changes the state in a way that waiters are told of. */
  predicate Fires(step: Step) {
    step.Set? && Transition(step.op)
  }

  predicate Concerns(step: Step, w: nat) {
    !step.Set? && step.w == w
  }

  /** A waiter that no step concerned is where it was; the generation has grown if and only if a step fired. */
  lemma {:induction false} Meanwhile(s: System, steps: seq<Step>, w: nat)
    requires w in s.waiters && Run(s, steps).Some?
    requires forall i :: 0 <= i < |steps| ==> !Concerns(steps[i], w)
    ensures var s' := Run(s, steps).value;
            && w in s'.waiters && s'.waiters[w] == s.waiters[w]
            && s.state.generation <= s'.state.generation
            && (s.state.generation < s'.state.generation <==> exists i :: 0 <= i < |steps| && Fires(steps[i]))
    decreases |steps|
  {
    if steps == [] {
    } else {
      var s1 := Next(s, steps[0]).value;
      assert !Concerns(steps[0], w);
      Meanwhile(s1, steps[1..], w);
      assert s.state.generation < s1.state.generation <==> Fires(steps[0]);
      if i :| 0 <= i < |steps| && Fires(steps[i]) {
        assert i > 0 ==> Fires(steps[1..][i - 1]);
      }
    }
  }

  /** No wake-up is lost and none is made up: in every run, a waiter that captured a channel can wake
      if and only if a transition came after the capture. */
  lemma WakesIfFired(before: seq<Step>, w: nat, wanted: Wanted, forever: bool, after: seq<Step>)
    requires Run(START, before).Some? && Next(Run(START, before).value, Enter(w, wanted, forever)).Some?
    requires AtOnce(Run(START, before).value.state, wanted) == None
    requires Run(Next(Run(START, before).value, Enter(w, wanted, forever)).value, after).Some?
    requires forall i :: 0 <= i < |after| ==> !Concerns(after[i], w)
    ensures var s := Run(Next(Run(START, before).value, Enter(w, wanted, forever)).value, after).value;
            Next(s, Wake(w)).Some? <==> exists i :: 0 <= i < |after| && Fires(after[i])
  {
    Meanwhile(Next(Run(START, before).value, Enter(w, wanted, forever)).value, after, w);
  }

  /** The first transition after the capture ends the wait, whatever it is: what was waited for is
      then the case if and only if that transition is of the right kind. */
  lemma FirstTransitionDecides(s: System, w: nat, quiet: seq<Step>, op: Op, now: int)
    requires w in s.waiters && s.waiters[w].Blocked? && s.waiters[w].generation == s.state.generation
    requires Run(s, quiet).Some? && Transition(op)
    requires forall i :: 0 <= i < |quiet| ==> !Concerns(quiet[i], w) && !Fires(quiet[i])
    ensures var s1 := Run(s, quiet).value;
            var s2 := Next(s1, Set(op, now)).value;
            && Next(s1, Wake(w)) == None && Next(s2, Wake(w)).Some?
            && (AtOnce(s2.state, s.waiters[w].wanted).Some? <==>
                  if s.waiters[w].wanted == Running then !op.ToStopped? else op.ToStopped?)
  {
    Meanwhile(s, quiet, w);
  }

  /** `WaitStop` is said to wait until the state is stopped, but returns when a restart is announced,
      with the container still counted as running. */
  lemma WaitStopReturnsEarly(code: int, now: int) returns (steps: seq<Step>)
    ensures forall i :: 0 <= i < |steps| && steps[i].Set? ==> !steps[i].op.ToStopped?
    ensures Run(START, steps).Some?
    ensures var s := Run(START, steps).value; s.state.running && 0 in s.waiters && s.waiters[0] == Returned(code)
  {
    steps := [Set(ToRunning(1), now), Enter(0, Stopped, true), Set(ToRestarting(code), now), Wake(0), Read(0)];
    RunFive(START, steps[0], steps[1], steps[2], steps[3], steps[4]);
  }

  /** `WaitRunning` likewise returns, with process id 0 and no error, when a start fails. */
  lemma WaitRunningReturnsStopped(code: int, now: int) returns (steps: seq<Step>)
    ensures forall i :: 0 <= i < |steps| && steps[i].Set? ==> !steps[i].op.ToRunning?
    ensures Run(START, steps).Some?
    ensures var s := Run(START, steps).value; !s.state.running && 0 in s.waiters && s.waiters[0] == Returned(0)
  {
    steps := [Enter(0, Running, true), Set(Pause, now), Set(ToStopped(code), now), Wake(0), Read(0)];
    RunFive(START, steps[0], steps[1], steps[2], steps[3], steps[4]);
  }

  lemma RunFive(s: System, a: Step, b: Step, c: Step, d: Step, e: Step)
    requires Next(s, a).Some? && Next(Next(s, a).value, b).Some?
    requires var s2 := Next(Next(s, a).value, b).value;
             Next(s2, c).Some? && Next(Next(s2, c).value, d).Some? && Next(Next(Next(s2, c).value, d).value, e).Some?
    ensures var s2 := Next(Next(s, a).value, b).value;
            Run(s, [a, b, c, d, e]) == Next(Next(Next(s2, c).value, d).value, e)
  {
    var s1 := Next(s, a).value;
    var s2 := Next(s1, b).value;
    var s3 := Next(s2, c).value;
    var s4 := Next(s3, d).value;
    assert [a, b, c, d, e][1..] == [b, c, d, e] && [b, c, d, e][1..] == [c, d, e];
    assert [c, d, e][1..] == [d, e] && [d, e][1..] == [e];
    assert Run(s, [a, b, c, d, e]) == Run(s1, [b, c, d, e]) == Run(s2, [c, d, e]);
    assert Run(s2, [c, d, e]) == Run(s3, [d, e]) == Run(s4, [e]);
    assert Run(s4, [e]) == Next(s4, e);
  }

  /** `WaitRunning` reads the state under a read lock, which it takes a second time inside `IsRunning`.
      How far it and a setter are with the lock; a setter that asks for it keeps new readers out. */
  datatype Locking = Locking(reader: nat, setter: nat)

  const TAKE_OUTER := 0
  const TAKE_INNER := 1
  const RELEASE_INNER := 2
  const RELEASE_OUTER := 3
  const READER_DONE := 4
  const ASK := 0
  const TAKE := 1
  const RELEASE := 2
  const SETTER_DONE := 3

  function ReadLocks(l: Locking): nat {
    if l.reader == TAKE_INNER || l.reader == RELEASE_OUTER then 1 else if l.reader == RELEASE_INNER then 2 else 0
  }

  function ReaderNext(l: Locking): Option<Locking> {
    if l.reader >= READER_DONE then None
    else if l.reader <= TAKE_INNER && (l.setter == TAKE || l.setter == RELEASE) then None
    else Some(l.(reader := l.reader + 1))
  }

  function SetterNext(l: Locking): Option<Locking> {
    if l.setter >= SETTER_DONE then None
    else if l.setter == TAKE && ReadLocks(l) > 0 then None
    else Some(l.(setter := l.setter + 1))
  }

  /** The turns are taken, true for the reader's; None if one was not possible. */
  function Turns(l: Locking, turns: seq<bool>): Option<Locking>
    decreases |turns|
  {
    if turns == [] then Some(l)
    else match if turns[0] then ReaderNext(l) else SetterNext(l)
      case None => None
      case Some(l') => Turns(l', turns[1..])
  }

  /** The two are stuck forever exactly when the setter asked between the two read locks, and that can happen. */
  lemma NestedReadLock(turns: seq<bool>)
    requires Turns(Locking(TAKE_OUTER, ASK), turns).Some?
    ensures var l := Turns(Locking(TAKE_OUTER, ASK), turns).value;
            l == Locking(TAKE_INNER, TAKE) <==>
              ReaderNext(l) == None && SetterNext(l) == None && l != Locking(READER_DONE, SETTER_DONE)
    ensures Turns(Locking(TAKE_OUTER, ASK), [true, false]) == Some(Locking(TAKE_INNER, TAKE))
  {
    LocksInRange(Locking(TAKE_OUTER, ASK), turns);
    assert [true, false][1..] == [false];
    assert Turns(Locking(TAKE_INNER, ASK), [false]) == Some(Locking(TAKE_INNER, TAKE));
  }

  lemma {:induction false} LocksInRange(l: Locking, turns: seq<bool>)
    requires l.reader <= READER_DONE && l.setter <= SETTER_DONE && !(l.setter == RELEASE && ReadLocks(l) > 0)
    requires Turns(l, turns).Some?
    ensures var l' := Turns(l, turns).value;
            l'.reader <= READER_DONE && l'.setter <= SETTER_DONE && !(l'.setter == RELEASE && ReadLocks(l') > 0)
    decreases |turns|
  {
    if turns == [] {
    } else {
      LocksInRange((if turns[0] then ReaderNext(l) else SetterNext(l)).value, turns[1..]);
    }
  }
}
