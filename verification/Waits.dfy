/**
 Waiting over whole runs (exception/synchronous/svc/svc.c:594-607; lib/schaduler.c:9-73, 164-178): what a waiting task
 waits for decides when it goes on, and nothing else does.
 */
module Waits {
  import opened Common
  import opened Flags
  import opened Rotation
  import opened Tasks
  import opened Scheduler
  import opened Interleavings
  import opened Effects
  import Sleepers

  /** The waiting queue as the step's scheduler call finds it: the caller of a wait has just been put at its back. */
  function FoundWaiting(s: State, step: Step): seq<nat>
    requires Shape(s)
  {
    s.queues[WaitingQ] +
      if step.Wait? && s.running[step.core].Some? then [s.running[step.core].value] else []
  }

  /** The step makes a scheduler call that looks at task `t`: one of the first three waiting, and not the last. */
  ghost predicate LookedAt(s: State, step: Step, t: nat)
    requires Shape(s)
  {
    SchedulerCall(step).Some? && Reached(FoundWaiting(s, step), t, 3)
  }

  /** What the step's scheduler call, if any, finds out about the waiting task `t`. */
  ghost function Finding(s: State, step: Step, t: nat): Verdict
    requires Shape(s) && t < TASKS
  {
    if LookedAt(s, step, t) then TaskWaiting(s.tasks[t], t, step.world) else Blocked
  }

  predicate WaitsFor(s: State, t: nat)
    requires |s.tasks| == TASKS
  {
    t < TASKS && Home(s.tasks[t]) == On(WaitingQ) && s.tasks[t].reason != TIMER_REASON
  }

  /** Task `t` was waiting, and went on by its own wait test: it is ready, or already running; or it is terminated. */
  ghost predicate WentOn(k: Task, k': Task, v: Verdict) {
    match v
    case Blocked => k' == k
    case Done =>
      && (k'.status == Ready || k'.status == Running) && (k'.status == Ready ==> k'.flags == k.flags)
      && k' == k.(status := k'.status, flags := k'.flags, pc := if k.reason == 8 then k.handler else k.pc)
    case Faulty(code) => k' == k.(status := Terminated, fault := code)
  }

  lemma RescheduleWaiting(s: State, c: Core, w: World, t: nat)
    requires Good(s) && WaitsFor(s, t)
    ensures
      var k, s' := s.tasks[t], Reschedule(s, c, w);
      && |s'.tasks| == TASKS
      && WentOn(k, s'.tasks[t], if Reached(s.queues[WaitingQ], t, 3) then TaskWaiting(k, t, w) else Blocked)
  {
    ScheduleWaiting(s, c, w, t);
    DispatchTask(Schedule(s, c, w), c, t);
  }

  lemma ScheduleWaiting(s: State, c: Core, w: World, t: nat)
    requires Good(s) && WaitsFor(s, t)
    ensures
      var k, s' := s.tasks[t], Schedule(s, c, w);
      && Good(s')
      && s'.tasks[t] ==
         match if Reached(s.queues[WaitingQ], t, 3) then TaskWaiting(k, t, w) else Blocked
         case Blocked => k
         case Done => k.(status := Ready, pc := if k.reason == 8 then k.handler else k.pc)
         case Faulty(code) => k.(status := Terminated, fault := code)
  {
    ScheduleTask(s, c, w, t);
    NotReached(s, t, CreatedQ);
    NotReached(s, t, TerminatedQ);
  }

  /** A step looks at a waiting task or leaves it as it is; its wait test decides what happens then. */
  lemma StepWaiting(s: State, step: Step, t: nat)
    requires Good(s) && WaitsFor(s, t)
    ensures
      var k, s' := s.tasks[t], Apply(s, step);
      && |s'.tasks| == TASKS
      && WentOn(k, s'.tasks[t], Finding(s, step, t))
  {
    match step
    case Tick(c, w) =>
      assert s.queues[WaitingQ] + [] == s.queues[WaitingQ];
      RescheduleWaiting(s, c, w, t);
    case Wait(c, r, i, w) => LeftWaiting(s, step, c, Waits(r, i), w, t);
    case TimerRequest(c, wake) =>
    case Faulted(c, code, w) => LeftWaiting(s, step, c, Dies(code), w, t);
    case WakeUp(now) => Sleepers.WakeUpWakesTheDue(s, now, t);
    case SpawnTask(pc, d, m) =>
      if FirstFree(s.tasks, 0) < TASKS {
        MoveFrame(s, FirstFree(s.tasks, 0), Spawned(pc, d, m));
      }
  }

  lemma LeftWaiting(s: State, step: Step, c: Core, exit: Exit, w: World, t: nat)
    requires Good(s) && WaitsFor(s, t)
    requires step == match exit
      case Waits(r, i) => Wait(c, r, i, w)
      case Dies(code) => Faulted(c, code, w)
      case Preempted => Tick(c, w)
    requires !exit.Preempted?
    ensures Good(Leave(s, c, exit))
    ensures
      var k, s' := s.tasks[t], Reschedule(Leave(s, c, exit), c, w);
      && |s'.tasks| == TASKS
      && WentOn(k, s'.tasks[t], Finding(s, step, t))
  {
    LeaveKeeps(s, c, exit);
    LeaveExactly(s, c, exit);
    if s.running[c].Some? {
      RunningHome(s, c, s.running[c].value);
    }
    assert s.queues[WaitingQ] + [] == s.queues[WaitingQ];
    RescheduleWaiting(Leave(s, c, exit), c, w, t);
  }

  /* ---------------------------------------------------------------- runs */

  /** The task is as it was in every state of the run. */
  predicate Rests(s: State, steps: seq<Step>, t: nat)
    requires Good(s) && t < TASKS
    decreases |steps|
  {
    steps == [] ||
    (ApplyKeeps(s, steps[0]);
     Apply(s, steps[0]).tasks[t] == s.tasks[t] && Rests(Apply(s, steps[0]), steps[1..], t))
  }

  /** Some step of the run looks at the task when its wait test says that the wait is over, or faulty. */
  ghost predicate Answered(s: State, steps: seq<Step>, t: nat)
    requires Good(s) && t < TASKS
    decreases |steps|
  {
    steps != [] &&
    (Finding(s, steps[0], t) != Blocked
     || (ApplyKeeps(s, steps[0]); Answered(Apply(s, steps[0]), steps[1..], t)))
  }

  /** Over any run a waiting task rests exactly as long as no call that looks at it finds its wait over, or faulty. */
  lemma {:induction false} RestsUntilAnswered(s: State, steps: seq<Step>, t: nat)
    requires Good(s) && WaitsFor(s, t)
    ensures Rests(s, steps, t) <==> !Answered(s, steps, t)
    decreases |steps|
  {
    if steps != [] {
      ApplyKeeps(s, steps[0]);
      StepWaiting(s, steps[0], t);
      if Apply(s, steps[0]).tasks[t] == s.tasks[t] {
        RestsUntilAnswered(Apply(s, steps[0]), steps[1..], t);
      }
    }
  }

  /** Some step of the run looks at the task while the word at `at` is as it wants: not zero, or zero. */
  ghost predicate Seen(s: State, steps: seq<Step>, t: nat, at: nat, nonzero: bool)
    requires Good(s) && t < TASKS
    decreases |steps|
  {
    steps != [] &&
    (Sees(s, steps[0], t, at, nonzero)
     || (ApplyKeeps(s, steps[0]); Seen(Apply(s, steps[0]), steps[1..], t, at, nonzero)))
  }

  /** A task waiting for the word at `at` to be not zero, or zero. */
  predicate WaitsForWord(k: Task, at: nat, nonzero: bool) {
    k.valid && k.status == Waiting && k.reason == (if nonzero then 5 else 6) && k.instruction == at
  }

  ghost predicate Sees(s: State, step: Step, t: nat, at: nat, nonzero: bool)
    requires Shape(s)
  {
    LookedAt(s, step, t) && (step.world.memory(at) != 0) == nonzero
  }

  /** The task is ready with all else unchanged, or already taken by a core, if the word was seen; else as it was. */
  predicate GoesOn(k: Task, k': Task, seen: bool) {
    if seen then k' == k.(status := Ready) || k' == k.(status := Running, flags := k'.flags) else k' == k
  }

  lemma StepForWord(s: State, step: Step, t: nat, at: nat, nonzero: bool)
    requires Good(s) && t < TASKS && WaitsForWord(s.tasks[t], at, nonzero)
    ensures Good(Apply(s, step)) && GoesOn(s.tasks[t], Apply(s, step).tasks[t], Sees(s, step, t, at, nonzero))
  {
    ApplyKeeps(s, step);
    assert WaitsFor(s, t);
    StepWaiting(s, step, t);
    WordFinding(s, step, t, at, nonzero);
    WordOutcome(s.tasks[t], Apply(s, step).tasks[t], Sees(s, step, t, at, nonzero), at, nonzero);
  }

  lemma WordFinding(s: State, step: Step, t: nat, at: nat, nonzero: bool)
    requires Shape(s) && t < TASKS && WaitsForWord(s.tasks[t], at, nonzero)
    ensures Finding(s, step, t) == if Sees(s, step, t, at, nonzero) then Done else Blocked
  {
  }

  lemma WordOutcome(k: Task, k': Task, seen: bool, at: nat, nonzero: bool)
    requires WaitsForWord(k, at, nonzero) && WentOn(k, k', if seen then Done else Blocked)
    ensures GoesOn(k, k', seen)
  {
  }

  /** A task that waits for a word rests exactly as long as no call that looks at it sees the word as it wants it. */
  lemma {:induction false} RestsUntilSeen(s: State, steps: seq<Step>, t: nat, at: nat, nonzero: bool)
    requires Good(s) && t < TASKS && WaitsForWord(s.tasks[t], at, nonzero)
    ensures Rests(s, steps, t) <==> !Seen(s, steps, t, at, nonzero)
    decreases |steps|
  {
    if steps != [] {
      var s' := Apply(s, steps[0]);
      StepForWord(s, steps[0], t, at, nonzero);
      if s'.tasks[t] == s.tasks[t] {
        RestsUntilSeen(s', steps[1..], t, at, nonzero);
      }
    }
  }

  lemma {:induction false} RestsToTheEnd(s: State, steps: seq<Step>, t: nat)
    requires Good(s) && t < TASKS && Rests(s, steps, t)
    ensures Good(Run(s, steps)) && Run(s, steps).tasks[t] == s.tasks[t]
    decreases |steps|
  {
    if steps != [] {
      ApplyKeeps(s, steps[0]);
      RestsToTheEnd(Apply(s, steps[0]), steps[1..], t);
    }
  }

  /** A wait takes the running task off its core with the new fields, and the same call does not go on to it. */
  lemma CallerWaits(s: State, c: Core, w: World, t: nat, reason: nat, instruction: nat)
    requires Good(s) && s.running[c] == Some(t)
    ensures
      var k, s' := s.tasks[t], Apply(s, Wait(c, reason, instruction, w));
      && Good(s')
      && s'.tasks[t] == k.(status := Waiting, reason := reason, instruction := instruction,
                           priority := if k.priority > 0 then k.priority - 1 else 0)
  {
    ApplyKeeps(s, Wait(c, reason, instruction, w));
    LastIsLeft(s, c, w, t, Waits(reason, instruction));
    LeaveExactly(s, c, Waits(reason, instruction));
  }

  /** So does a fault. */
  lemma CallerDies(s: State, c: Core, w: World, t: nat, code: nat)
    requires Good(s) && s.running[c] == Some(t)
    ensures
      var s' := Apply(s, Faulted(c, code, w));
      && Good(s') && s'.tasks[t] == s.tasks[t].(status := Terminated, fault := code)
  {
    ApplyKeeps(s, Faulted(c, code, w));
    LastIsLeft(s, c, w, t, Dies(code));
    LeaveExactly(s, c, Dies(code));
  }

  lemma LastIsLeft(s: State, c: Core, w: World, t: nat, exit: Exit)
    requires Good(s) && s.running[c] == Some(t) && !exit.Preempted?
    ensures
      var left := Leave(s, c, exit);
      && Good(left) && |Reschedule(left, c, w).tasks| == TASKS
      && Reschedule(left, c, w).tasks[t] == left.tasks[t]
  {
    LeaveKeeps(s, c, exit);
    LeaveExactly(s, c, exit);
    RunningHome(s, c, t);
    var s' := Leave(s, c, exit);
    var q := if exit.Waits? then WaitingQ else TerminatedQ;
    assert s'.queues[q] == s.queues[q] + [t];
    LastUnreached(s.queues[q], t);
    LastInPlace(s', c, w, t);
  }

  lemma LastUnreached(q: seq<nat>, t: nat)
    requires t !in q
    ensures !Reached(q + [t], t, 3)
  {
  }

  lemma LastInPlace(s: State, c: Core, w: World, t: nat)
    requires Good(s) && t < TASKS && (Home(s.tasks[t]) == On(WaitingQ) || Home(s.tasks[t]) == On(TerminatedQ))
    requires !Reached(s.queues[Home(s.tasks[t]).queue], t, 3)
    ensures |Reschedule(s, c, w).tasks| == TASKS && Reschedule(s, c, w).tasks[t] == s.tasks[t]
  {
    NotScheduled(s, c, w, t);
    NotDispatched(Schedule(s, c, w), c, t);
  }

  lemma NotDispatched(s: State, c: Core, t: nat)
    requires Good(s) && t < TASKS && s.tasks[t].status != Ready
    ensures |Dispatch(s, c).tasks| == TASKS && Dispatch(s, c).tasks[t] == s.tasks[t]
  {
    DispatchTask(s, c, t);
  }

  /** A task is reached on no queue but its own, and has no core while it is on one. */
  lemma NotReached(s: State, t: nat, q: Queue)
    requires Good(s) && t < TASKS && Home(s.tasks[t]).On? && IsQueue(q)
    ensures Home(s.tasks[t]) != On(q) ==> !Reached(s.queues[q], t, 3) && !Reached(s.queues[q], t, 128)
    ensures forall c: Core :: s.running[c] != Some(t)
  {
    assert t in s.queues[q] ==> Home(s.tasks[t]) == On(q);
  }

  lemma NotScheduled(s: State, c: Core, w: World, t: nat)
    requires Good(s) && t < TASKS && (Home(s.tasks[t]) == On(WaitingQ) || Home(s.tasks[t]) == On(TerminatedQ))
    requires !Reached(s.queues[Home(s.tasks[t]).queue], t, 3)
    ensures Good(Schedule(s, c, w)) && Schedule(s, c, w).tasks[t] == s.tasks[t]
  {
    ScheduleTask(s, c, w, t);
    NotReached(s, t, CreatedQ);
    NotReached(s, t, TerminatedQ);
    NotReached(s, t, WaitingQ);
  }

  /**
   From the call to the end: a task that waits for a word has the reason and the address asked for, one level up, and is as
   it was in every state of any run exactly while no call that looks at it has seen the word as it wants it.  The first
   such call makes it ready, at that level, and the core may take it at once.
   */
  lemma WaitForAWord(s: State, c: Core, t: nat, at: nat, nonzero: bool, w: World, steps: seq<Step>, next: Step)
    requires Good(s) && s.running[c] == Some(t)
    ensures
      var reason, p := if nonzero then 5 else 6, s.tasks[t].priority;
      var s' := Apply(s, Wait(c, reason, at, w));
      && Good(s')
      && s'.tasks[t] == s.tasks[t].(status := Waiting, reason := reason, instruction := at,
                                    priority := if p > 0 then p - 1 else 0)
      && (Rests(s', steps, t) <==> !Seen(s', steps, t, at, nonzero))
      && (Rests(s', steps, t) ==>
        var u := Run(s', steps);
        Good(u) && Good(Apply(u, next))
        && GoesOn(s'.tasks[t], Apply(u, next).tasks[t], Sees(u, next, t, at, nonzero)))
  {
    CallerWaits(s, c, w, t, if nonzero then 5 else 6, at);
    RunningHome(s, c, t);
    SeenAtLast(Apply(s, Wait(c, if nonzero then 5 else 6, at, w)), steps, t, at, nonzero, next);
  }

  lemma SeenAtLast(s: State, steps: seq<Step>, t: nat, at: nat, nonzero: bool, next: Step)
    requires Good(s) && t < TASKS && WaitsForWord(s.tasks[t], at, nonzero)
    ensures Rests(s, steps, t) <==> !Seen(s, steps, t, at, nonzero)
    ensures Rests(s, steps, t) ==>
      var u := Run(s, steps);
      Good(u) && Good(Apply(u, next)) && GoesOn(s.tasks[t], Apply(u, next).tasks[t], Sees(u, next, t, at, nonzero))
  {
    RestsUntilSeen(s, steps, t, at, nonzero);
    if Rests(s, steps, t) {
      RestsToTheEnd(s, steps, t);
      StepForWord(Run(s, steps), next, t, at, nonzero);
    }
  }
}
