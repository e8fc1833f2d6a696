/**
 Core affinity over whole runs (lib/schaduler.c:197-260): a task that may not migrate runs on one core for life.
 */
module Affinity {
  import opened Common
  import opened Flags
  import opened Rotation
  import opened Tasks
  import opened Scheduler
  import opened Interleavings
  import Effects
  import Sleepers

  /** A task that has run and has no migration bit. */
  predicate Bound(f: bv8) { Accessed(f) && !Migrates(f) }

  /** No task comes to life, and every bound task that lives on keeps its core. */
  ghost predicate Evolves(s: State, s': State) {
    && |s.tasks| == |s'.tasks| == TASKS
    && forall t :: 0 <= t < TASKS && s'.tasks[t].valid ==>
         s.tasks[t].valid && Keeps(s.tasks[t].flags, s'.tasks[t].flags)
  }

  predicate Keeps(f: bv8, g: bv8) {
    Migrates(f) == Migrates(g) && (Accessed(f) ==> Accessed(g)) && (Bound(f) ==> CoreOf(g) == CoreOf(f))
  }

  lemma MoveEvolves(s: State, t: nat, k: Task)
    requires Shape(s) && t < TASKS && (k.valid ==> s.tasks[t].valid && Keeps(s.tasks[t].flags, k.flags))
    ensures Evolves(s, Move(s, t, k))
  {
    MoveFrame(s, t, k);
  }

  lemma {:induction false} SweepEvolves(s: State, ids: seq<nat>, pass: Pass)
    requires Shape(s) && forall i :: 0 <= i < |ids| ==> ids[i] < TASKS
    ensures Evolves(s, Sweep(s, ids, pass))
    decreases |ids|
  {
    if ids != [] {
      var t := ids[0];
      VisitEvolves(s, t, pass);
      SweepEvolves(Visit(s, t, pass), ids[1..], pass);
    }
  }

  lemma VisitEvolves(s: State, t: nat, pass: Pass)
    requires Shape(s) && t < TASKS
    ensures Shape(Visit(s, t, pass)) && Evolves(s, Visit(s, t, pass))
  {
    match Decision(s, t, pass)
    case None =>
    case Some(k) =>
      NextFields(s.tasks[t], t, s.timers, pass);
      MoveEvolves(s, t, k);
  }

  lemma RunPassEvolves(s: State, pass: Pass)
    requires Good(s)
    ensures Evolves(s, RunPass(s, pass))
  {
    LookedFrom(s, pass);
    SweepEvolves(s, Looked(s, pass), pass);
  }

  lemma LeaveEvolves(s: State, c: Core, exit: Exit)
    requires Good(s)
    ensures Evolves(s, Leave(s, c, exit))
  {
    if s.running[c].Some? {
      var t := s.running[c].value;
      RunningHome(s, c, t);
      MoveEvolves(s, t, ExitFields(s.tasks[t], exit));
    }
  }

  lemma DispatchEvolves(s: State, c: Core)
    requires Good(s)
    ensures Evolves(s, Dispatch(s, c))
  {
    LevelQueueBounded(s, c);
    var l := ReadyQ(Level(s.rotor, c));
    var q := s.queues[l];
    var r := Pick(s.tasks, q, 0, Examined(|q|, TASKS), c);
    if r.Some? && s.running[c].None? {
      var t := r.value;
      assert t in q && Home(s.tasks[t]) == On(l);
      ChoiceRespectsAffinity(s.tasks[t].flags, c);
      MoveEvolves(s, t, s.tasks[t].(status := Running, flags := Choose(s.tasks[t].flags, c).flags));
    }
  }

  lemma RescheduleEvolves(s: State, c: Core, w: World)
    requires Good(s)
    ensures Evolves(s, Reschedule(s, c, w))
  {
    LeaveKeeps(s, c, Preempted);
    LeaveEvolves(s, c, Preempted);
    var s1 := Leave(s, c, Preempted);
    RotateKeeps(s1, c);
    var s2 := s1.(rotor := Rotate(s1.rotor, c));
    RunPassKeeps(s2, Admit);
    RunPassEvolves(s2, Admit);
    var s3 := RunPass(s2, Admit);
    RunPassKeeps(s3, Reap);
    RunPassEvolves(s3, Reap);
    var s4 := RunPass(s3, Reap);
    RunPassKeeps(s4, Poll(w));
    RunPassEvolves(s4, Poll(w));
    DispatchEvolves(RunPass(s4, Poll(w)), c);
  }

  /** Any step: a live bound task that is still alive afterwards is still bound to its core. */
  lemma ApplyKeepsCore(s: State, step: Step, t: nat)
    requires Good(s) && t < TASKS && s.tasks[t].valid
    ensures
      var s' := Apply(s, step);
      |s'.tasks| == TASKS && (s'.tasks[t].valid ==> Keeps(s.tasks[t].flags, s'.tasks[t].flags))
  {
    match step
    case Tick(c, w) => RescheduleEvolves(s, c, w);
    case Wait(c, r, i, w) =>
      LeaveKeeps(s, c, Waits(r, i));
      LeaveEvolves(s, c, Waits(r, i));
      RescheduleEvolves(Leave(s, c, Waits(r, i)), c, w);
    case TimerRequest(c, wake) =>
    case Faulted(c, code, w) =>
      LeaveKeeps(s, c, Dies(code));
      LeaveEvolves(s, c, Dies(code));
      RescheduleEvolves(Leave(s, c, Dies(code)), c, w);
    case WakeUp(now) => RunPassEvolves(s, Scheduler.Wake(now));
    case SpawnTask(pc, d, m) =>
      var free := FirstFree(s.tasks, 0);
      if free < TASKS {
        MoveFrame(s, free, Spawned(pc, d, m));
      }
  }

  /** Task `t` is alive in every state of the run. */
  predicate LivesThrough(s: State, steps: seq<Step>, t: nat)
    requires Good(s) && t < TASKS
    decreases |steps|
  {
    s.tasks[t].valid
    && (steps == [] || (ApplyKeeps(s, steps[0]); LivesThrough(Apply(s, steps[0]), steps[1..], t)))
  }

  lemma {:induction false} RunKeepsCore(s: State, steps: seq<Step>, t: nat)
    requires Good(s) && t < TASKS && LivesThrough(s, steps, t)
    ensures
      var s' := Run(s, steps);
      |s'.tasks| == TASKS && Keeps(s.tasks[t].flags, s'.tasks[t].flags)
    decreases |steps|
  {
    if steps != [] {
      ApplyKeeps(s, steps[0]);
      ApplyKeepsCore(s, steps[0], t);
      RunKeepsCore(Apply(s, steps[0]), steps[1..], t);
    }
  }

  /**
   A task without the migration bit, once running on a core, runs on no other core for the rest of its life,
   whatever the four cores do in between.
   */
  lemma NeverOnAnotherCore(s: State, c: Core, t: nat, steps: seq<Step>, d: Core)
    requires Good(s) && s.running[c] == Some(t) && !Migrates(s.tasks[t].flags)
    requires LivesThrough(s, steps, t) && Run(s, steps).running[d] == Some(t)
    ensures d == c
  {
    RunningHome(s, c, t);
    RunKeepsPlacement(s, steps);
    RunKeepsCore(s, steps, t);
    RunningHome(Run(s, steps), d, t);
  }

  /* ---------------------------------------------------------------- the previous core */

  /** A step that leaves the task off the cores leaves its flags; running, it has the core it ran on before, if another. */
  predicate Carries(f: bv8, k: Task) {
    if k.status != Running then k.flags == f
    else
      && Accessed(k.flags)
      && PreviousCore(k.flags) == if Accessed(f) && CoreOf(f) != CoreOf(k.flags) then CoreOf(f) else PreviousCore(f)
  }

  lemma ScheduleCarries(s: State, c: Core, w: World, t: nat)
    requires Good(s) && t < TASKS && s.tasks[t].valid
    ensures
      var k := Schedule(s, c, w).tasks[t];
      && Good(Schedule(s, c, w))
      && (k.valid ==> k.flags == s.tasks[t].flags && Carries(s.tasks[t].flags, k))
  {
    Effects.ScheduleTask(s, c, w, t);
  }

  lemma RescheduleCarries(s: State, c: Core, w: World, t: nat)
    requires Good(s) && t < TASKS && s.tasks[t].valid
    ensures
      var s' := Reschedule(s, c, w);
      |s'.tasks| == TASKS && (s'.tasks[t].valid ==> Carries(s.tasks[t].flags, s'.tasks[t]))
  {
    ScheduleCarries(s, c, w, t);
    Effects.DispatchTask(Schedule(s, c, w), c, t);
  }

  lemma LeaveCarries(s: State, c: Core, exit: Exit, w: World, t: nat)
    requires Good(s) && t < TASKS && s.tasks[t].valid
    ensures
      var left := Leave(s, c, exit);
      && Good(left) && |Reschedule(left, c, w).tasks| == TASKS
      && (Reschedule(left, c, w).tasks[t].valid ==> Carries(s.tasks[t].flags, Reschedule(left, c, w).tasks[t]))
  {
    LeaveKeeps(s, c, exit);
    LeaveExactly(s, c, exit);
    RescheduleCarries(Leave(s, c, exit), c, w, t);
  }

  lemma StepCarries(s: State, step: Step, t: nat)
    requires Good(s) && t < TASKS && s.tasks[t].valid
    ensures
      var s' := Apply(s, step);
      |s'.tasks| == TASKS && (s'.tasks[t].valid ==> Carries(s.tasks[t].flags, s'.tasks[t]))
  {
    match step
    case Tick(c, w) => RescheduleCarries(s, c, w, t);
    case Wait(c, r, i, w) => LeaveCarries(s, c, Waits(r, i), w, t);
    case TimerRequest(c, wake) =>
    case Faulted(c, code, w) => LeaveCarries(s, c, Dies(code), w, t);
    case WakeUp(now) => Sleepers.WakeUpWakesTheDue(s, now, t);
    case SpawnTask(pc, d, m) =>
      if FirstFree(s.tasks, 0) < TASKS {
        MoveFrame(s, FirstFree(s.tasks, 0), Spawned(pc, d, m));
      }
  }

  /** The core whose running slot names the task. */
  function RunsOn(s: State, t: nat): Option<Core>
    requires Shape(s)
  {
    if s.running[0] == Some(t) then Some(0) else if s.running[1] == Some(t) then Some(1)
    else if s.running[2] == Some(t) then Some(2) else if s.running[3] == Some(t) then Some(3) else None
  }

  /** The cores the task is seen on, in order, a stay on one core counted once. */
  function Extended(trail: seq<Core>, at: Option<Core>): seq<Core> {
    if at.None? || (trail != [] && trail[|trail| - 1] == at.value) then trail else trail + [at.value]
  }

  function Trail(s: State, steps: seq<Step>, t: nat, before: seq<Core>): seq<Core>
    requires Good(s)
    decreases |steps|
  {
    var now := Extended(before, RunsOn(s, t));
    if steps == [] then now else ApplyKeeps(s, steps[0]); Trail(Apply(s, steps[0]), steps[1..], t, now)
  }

  /** The flags know the last core of the trail and the one before it, which is `none` until there are two. */
  predicate Recorded(trail: seq<Core>, f: bv8, none: Core) {
    && (trail == [] <==> !Accessed(f))
    && (trail != [] ==> CoreOf(f) == trail[|trail| - 1])
    && PreviousCore(f) == if |trail| < 2 then none else trail[|trail| - 2]
  }

  lemma RecordedStep(s: State, trail: seq<Core>, f: bv8, t: nat, none: Core)
    requires Good(s) && t < TASKS && Recorded(trail, f, none) && Carries(f, s.tasks[t]) && s.tasks[t].valid
    ensures Recorded(Extended(trail, RunsOn(s, t)), s.tasks[t].flags, none)
  {
    forall c: Core
      ensures s.running[c] == Some(t) <==> s.tasks[t].status == Running && CoreOf(s.tasks[t].flags) == c
    {
      assert s.running[c] == Some(t) <==> Home(s.tasks[t]) == At(c);
    }
  }

  lemma {:induction false} TrailIsRecorded(s: State, steps: seq<Step>, t: nat, before: seq<Core>, none: Core)
    requires Good(s) && t < TASKS && LivesThrough(s, steps, t)
    requires Recorded(Extended(before, RunsOn(s, t)), s.tasks[t].flags, none)
    ensures |Run(s, steps).tasks| == TASKS && Recorded(Trail(s, steps, t, before), Run(s, steps).tasks[t].flags, none)
    decreases |steps|
  {
    if steps != [] {
      ApplyKeeps(s, steps[0]);
      StepCarries(s, steps[0], t);
      var now := Extended(before, RunsOn(s, t));
      RecordedStep(Apply(s, steps[0]), now, s.tasks[t].flags, t, none);
      TrailIsRecorded(Apply(s, steps[0]), steps[1..], t, now, none);
    }
  }

  /**
   From its first dispatch to its death, whatever the cores do: a task's flags name the core it runs or ran on last, and
   as previous core the last other one before that.
   */
  lemma PreviousCoreOverRuns(s: State, steps: seq<Step>, t: nat)
    requires Good(s) && t < TASKS && LivesThrough(s, steps, t) && !Accessed(s.tasks[t].flags)
    ensures |Run(s, steps).tasks| == TASKS
    ensures Recorded(Trail(s, steps, t, []), Run(s, steps).tasks[t].flags, PreviousCore(s.tasks[t].flags))
  {
    forall c: Core
      ensures s.running[c] != Some(t)
    {
      assert s.running[c] == Some(t) <==> Home(s.tasks[t]) == At(c);
    }
    TrailIsRecorded(s, steps, t, [], PreviousCore(s.tasks[t].flags));
  }
}
