/**
 Sleeping tasks over whole runs (exception/synchronous/svc/svc.c:183-202; lib/schaduler.c:264-298).

 Sleeping takes two system calls: `svc_tsleep_ms` queues a request and returns, and a wait for the timer reason takes the
 caller off its core.  The wake-up service wakes a waiting task when its first request is due, and takes that request
 off the queue with it.
 */
module Sleepers {
  import opened Common
  import opened Flags
  import opened Rotation
  import opened Tasks
  import opened Scheduler
  import opened Interleavings

  /** The requests of one task, in order. */
  function Of(s: State, t: nat): seq<nat> { Requests(s.timers, t) }

  /* ---------------------------------------------------------------- what a pass does to one task */

  lemma VisitDecides(s: State, t: nat, pass: Pass)
    requires Shape(s) && t < TASKS
    ensures
      var s' := Visit(s, t, pass);
      && |s'.tasks| == TASKS
      && s'.tasks[t] == (if Decision(s, t, pass).Some? then Decision(s, t, pass).value else s.tasks[t])
      && Of(s', t) == Left(s, t, pass)
  {
    if Decision(s, t, pass).Some? {
      MoveFrame(s, t, Decision(s, t, pass).value);
      DropTimerRequests(s.timers, t, t);
    }
  }

  /** A task's requests after a pass has looked at it: waking takes the first. */
  function Left(s: State, t: nat, pass: Pass): seq<nat>
    requires |s.tasks| == TASKS && t < TASKS
  {
    if Decision(s, t, pass).None? then Of(s, t)
    else match pass
      case Wake(_) => if Of(s, t) == [] then [] else Of(s, t)[1..]
      case _ => Of(s, t)
  }

  /** A pass gives each task it looks at the fields and requests it decided on, and leaves every other task alone. */
  lemma {:induction false} SweepTasks(s: State, ids: seq<nat>, pass: Pass, t: nat)
    requires Good(s) && From(s, ids, pass) && t < TASKS
    ensures
      var s' := Sweep(s, ids, pass);
      && s'.tasks[t] == (if t in ids && Decision(s, t, pass).Some? then Decision(s, t, pass).value else s.tasks[t])
      && Of(s', t) == if t in ids then Left(s, t, pass) else Of(s, t)
    decreases |ids|
  {
    if ids != [] {
      var s', tail := Visit(s, ids[0], pass), ids[1..];
      VisitKeeps(s, ids[0], pass);
      VisitFrame(s, ids[0], pass);
      SweepTasks(s', tail, pass, t);
      if t == ids[0] {
        assert t !in tail;
        VisitDecides(s, t, pass);
      } else {
        assert t in ids <==> t in tail;
      }
    }
  }

  lemma RunPassTask(s: State, pass: Pass, t: nat)
    requires Good(s) && t < TASKS
    ensures Good(RunPass(s, pass))
    ensures
      var s', ids := RunPass(s, pass), Looked(s, pass);
      && s'.tasks[t] == (if t in ids && Decision(s, t, pass).Some? then Decision(s, t, pass).value else s.tasks[t])
      && Of(s', t) == (if t in ids then Left(s, t, pass) else Of(s, t))
      && (t in ids ==> Home(s.tasks[t]) == On(Source(pass)))
  {
    RunPassKeeps(s, pass);
    LookedFrom(s, pass);
    SweepTasks(s, Looked(s, pass), pass, t);
  }

  /* ---------------------------------------------------------------- tasks at rest */

  /** A sleeper, or a created task without the ready flag. */
  predicate AtRest(s: State, t: nat)
    requires |s.tasks| == TASKS
  {
    Asleep(s, t) || (t < TASKS && Home(s.tasks[t]) == On(CreatedQ) && !ReadyFlag(s.tasks[t].flags))
  }

  /** Nothing has happened to task `t`. */
  ghost predicate Same(s: State, s': State, t: nat) {
    |s.tasks| == |s'.tasks| == TASKS && t < TASKS && s'.tasks[t] == s.tasks[t] && Of(s', t) == Of(s, t)
  }

  lemma PassSparesResting(s: State, pass: Pass, t: nat)
    requires Good(s) && AtRest(s, t) && (pass.Wake? && Asleep(s, t) ==> !Due(s.tasks[t], t, s.timers, pass.now))
    ensures Good(RunPass(s, pass)) && Same(s, RunPass(s, pass), t)
  {
    RunPassTask(s, pass, t);
  }

  lemma LeaveSparesResting(s: State, c: Core, exit: Exit, t: nat)
    requires Good(s) && AtRest(s, t)
    ensures Good(Leave(s, c, exit)) && Same(s, Leave(s, c, exit), t)
  {
    LeaveKeeps(s, c, exit);
    if s.running[c].Some? {
      var r := s.running[c].value;
      RunningHome(s, c, r);
      MoveFrame(s, r, ExitFields(s.tasks[r], exit));
    }
  }

  /** Dispatching rewrites the status and flags of one ready task, and touches no request. */
  lemma DispatchTask(s: State, c: Core, t: nat)
    requires Good(s) && t < TASKS
    ensures
      var s' := Interleavings.Dispatch(s, c);
      && |s'.tasks| == TASKS && s'.timers == s.timers && SameSleep(s, s', t)
      && (s'.tasks[t] == s.tasks[t] || (s.tasks[t].status == Ready && s'.tasks[t].status == Running))
  {
    LevelQueueBounded(s, c);
    var l := ReadyQ(Level(s.rotor, c));
    var q := s.queues[l];
    var r := Pick(s.tasks, q, 0, Examined(|q|, TASKS), c);
    if r.Some? && s.running[c].None? {
      assert r.value in q && Home(s.tasks[r.value]) == On(l);
      MoveFrame(s, r.value, s.tasks[r.value].(status := Running, flags := Choose(s.tasks[r.value].flags, c).flags));
    }
  }

  lemma RescheduleSparesResting(s: State, c: Core, w: World, t: nat)
    requires Good(s) && AtRest(s, t)
    ensures Good(Reschedule(s, c, w)) && Same(s, Reschedule(s, c, w), t)
  {
    LeaveSparesResting(s, c, Preempted, t);
    var s1 := Leave(s, c, Preempted);
    RotateKeeps(s1, c);
    var s2 := s1.(rotor := Rotate(s1.rotor, c));
    PassSparesResting(s2, Admit, t);
    var s3 := RunPass(s2, Admit);
    PassSparesResting(s3, Reap, t);
    var s4 := RunPass(s3, Reap);
    PassSparesResting(s4, Poll(w), t);
    DispatchKeeps(RunPass(s4, Poll(w)), c);
    DispatchTask(RunPass(s4, Poll(w)), c, t);
  }

  lemma {:induction false} RequestsAppend(timers: seq<Timer>, x: Timer, t: nat)
    ensures Requests(timers + [x], t) == Requests(timers, t) + if x.id == t then [x.wake] else []
  {
    if timers == [] {
      assert timers + [x] == [x] && [x][1..] == [];
    } else {
      assert (timers + [x])[1..] == timers[1..] + [x];
      RequestsAppend(timers[1..], x, t);
    }
  }

  /** No step touches a task at rest, but a wake-up call when it sleeps and is due. */
  lemma ApplySparesResting(s: State, step: Step, t: nat)
    requires Good(s) && AtRest(s, t) && (step.WakeUp? && Asleep(s, t) ==> !Due(s.tasks[t], t, s.timers, step.now))
    ensures Same(s, Apply(s, step), t)
  {
    match step
    case Tick(c, w) => RescheduleSparesResting(s, c, w, t);
    case Wait(c, r, i, w) =>
      LeaveSparesResting(s, c, Waits(r, i), t);
      RescheduleSparesResting(Leave(s, c, Waits(r, i)), c, w, t);
    case TimerRequest(c, wake) =>
      RequestSurplus(s, c, wake, t);
      if s.running[c] == Some(t) {
        RunningHome(s, c, t);
      }
      assert Of(s, t) + [] == Of(s, t);
    case Faulted(c, code, w) =>
      LeaveSparesResting(s, c, Dies(code), t);
      RescheduleSparesResting(Leave(s, c, Dies(code)), c, w, t);
    case WakeUp(now) => PassSparesResting(s, Scheduler.Wake(now), t);
    case SpawnTask(pc, d, m) =>
      if FirstFree(s.tasks, 0) < TASKS {
        MoveFrame(s, FirstFree(s.tasks, 0), Spawned(pc, d, m));
      }
  }

  /** Before its first request's time, if it has one, a sleeper is not due. */
  ghost predicate Before(s: State, step: Step, t: nat) {
    step.WakeUp? && Of(s, t) != [] ==> step.now < Of(s, t)[0]
  }

  /**
   A sleeping task is still asleep, all its requests pending, after any run whose wake-up calls all came before the time
   of its first request.
   */
  lemma {:induction false} NeverWokenEarly(s: State, steps: seq<Step>, t: nat)
    requires Good(s) && Asleep(s, t) && forall i :: 0 <= i < |steps| ==> Before(s, steps[i], t)
    ensures Same(s, Run(s, steps), t) && Asleep(Run(s, steps), t)
    decreases |steps|
  {
    if steps != [] {
      ApplyKeeps(s, steps[0]);
      ApplySparesResting(s, steps[0], t);
      var s' := Apply(s, steps[0]);
      assert forall i :: 1 <= i < |steps| ==> Before(s, steps[i], t) && Before(s', steps[i], t);
      NeverWokenEarly(s', steps[1..], t);
    }
  }

  /** A task without the ready flag, such as one spawned with the flags as written, stays on the created queue for ever. */
  lemma {:induction false} UnreadyIsNeverAdmitted(s: State, steps: seq<Step>, t: nat)
    requires Good(s) && t < TASKS && Home(s.tasks[t]) == On(CreatedQ) && !ReadyFlag(s.tasks[t].flags)
    ensures Same(s, Run(s, steps), t)
    decreases |steps|
  {
    if steps != [] {
      ApplyKeeps(s, steps[0]);
      ApplySparesResting(s, steps[0], t);
      UnreadyIsNeverAdmitted(Apply(s, steps[0]), steps[1..], t);
    }
  }

  /** Spawned with the flags of line 633, even if it is put on the created queue, a task is never admitted in any run. */
  lemma SpawnedAsWrittenIsNeverAdmitted(s: State, pc: nat, dependent: bool, migrates: bool, steps: seq<Step>)
    requires Good(s) && FirstFree(s.tasks, 0) < TASKS
    ensures
      var t, k := FirstFree(s.tasks, 0), SpawnedAsWritten(pc, dependent, migrates);
      Good(Move(s, t, k)) && Run(Move(s, t, k), steps).tasks[t] == k && k.status == Created && CoreOf(k.flags) == 1
  {
    var t, k := FirstFree(s.tasks, 0), SpawnedAsWritten(pc, dependent, migrates);
    MoveKeeps(s, t, k);
    MoveFrame(s, t, k);
    SpawnedAsWrittenFlags(pc, dependent, migrates);
    UnreadyIsNeverAdmitted(Move(s, t, k), steps, t);
  }

  /* ---------------------------------------------------------------- a wake-up call wakes exactly the due */

  /**
   Both queues drop together: a wake-up call makes a task ready and takes its first request off exactly when it is
   asleep and that request is due; every other task and request stays as it is.
   */
  lemma WakeUpWakesTheDue(s: State, now: nat, t: nat)
    requires Good(s) && t < TASKS
    ensures
      var s' := Apply(s, WakeUp(now));
      var due := Asleep(s, t) && Of(s, t) != [] && Of(s, t)[0] <= now;
      && Good(s')
      && s'.tasks[t] == (if due then s.tasks[t].(status := Ready) else s.tasks[t])
      && Of(s', t) == if due then Of(s, t)[1..] else Of(s, t)
  {
    RunPassTask(s, Scheduler.Wake(now), t);
    WaitingLooked(s, now);
  }

  /* ---------------------------------------------------------------- the wake-up service as written */

  /** A due task pushed onto its ready queue while `fw_rm` leaves it on the waiting queue (what hangs on it left out). */
  function PushedAsWritten(s: State, t: nat): (s': State)
    requires Shape(s) && t < TASKS
    ensures Shape(s')
  {
    var k := s.tasks[t];
    var ready := ReadyQ(k.priority);
    s.(tasks := s.tasks[t := k.(status := Ready)], timers := DropTimer(s.timers, t),
       queues := if ready in s.queues then Pushing(s.queues, ready, t) else s.queues)
  }

  /**
   Lines 276-296 from position `i` of the waiting queue `q` on, but for the status write, which is granted.  The call
   ends at a task that waits for something else (line 278).  A due task is unlinked only at the two ends of the queue
   (`fw_rm`); its `next` is then null, and line 293 ends the call.  In between it is pushed and stays where it was.
   */
  function WakeUpAsWritten(s: State, q: seq<nat>, i: nat, now: nat): (s': State)
    requires Shape(s) && i <= |q| && forall j :: 0 <= j < |q| ==> q[j] < TASKS
    ensures Shape(s')
    decreases |q| - i
  {
    if i == |q| || s.tasks[q[i]].reason != TIMER_REASON then s
    else if !Due(s.tasks[q[i]], q[i], s.timers, now) then WakeUpAsWritten(s, q, i + 1, now)
    else if i == 0 || i == |q| - 1 then Visit(s, q[i], Scheduler.Wake(now))
    else WakeUpAsWritten(PushedAsWritten(s, q[i]), q, i + 1, now)
  }

  /** The task at position `i` is a timer waiter that is not due. */
  predicate SleepsOn(s: State, q: seq<nat>, i: nat, now: nat)
    requires |s.tasks| == TASKS && i < |q| && q[i] < TASKS
  {
    s.tasks[q[i]].reason == TIMER_REASON && !Due(s.tasks[q[i]], q[i], s.timers, now)
  }

  /** Every due sleeper is at one of the queue's ends, behind nothing but sleepers that are not due. */
  ghost predicate DueAtAnEnd(s: State, q: seq<nat>, now: nat)
    requires |s.tasks| == TASKS && forall j :: 0 <= j < |q| ==> q[j] < TASKS
  {
    forall j :: 0 <= j < |q| && Due(s.tasks[q[j]], q[j], s.timers, now) ==>
      (j == 0 || j == |q| - 1) && forall i :: 0 <= i < j ==> SleepsOn(s, q, i, now)
  }

  /** The first position that does not hold a sleeper that is not due. */
  function FirstEvent(s: State, q: seq<nat>, i: nat, now: nat): (e: nat)
    requires |s.tasks| == TASKS && i <= |q| && forall j :: 0 <= j < |q| ==> q[j] < TASKS
    ensures i <= e <= |q| && (forall k :: i <= k < e ==> SleepsOn(s, q, k, now))
    ensures e < |q| ==> !SleepsOn(s, q, e, now)
    ensures Shape(s) ==> WakeUpAsWritten(s, q, i, now) == WakeUpAsWritten(s, q, e, now)
    decreases |q| - i
  {
    if i == |q| || !SleepsOn(s, q, i, now) then i else FirstEvent(s, q, i + 1, now)
  }

  lemma {:induction false} SweepNone(s: State, ids: seq<nat>, pass: Pass)
    requires Shape(s) && forall i :: 0 <= i < |ids| ==> ids[i] < TASKS && Decision(s, ids[i], pass).None?
    ensures Sweep(s, ids, pass) == s
    decreases |ids|
  {
    if ids != [] {
      SweepNone(s, ids[1..], pass);
    }
  }

  lemma {:induction false} SweepOnly(s: State, ids: seq<nat>, pass: Pass, e: nat)
    requires Good(s) && From(s, ids, pass) && e < |ids|
    requires forall i :: 0 <= i < |ids| && i != e ==> Decision(s, ids[i], pass).None?
    ensures Sweep(s, ids, pass) == Visit(s, ids[e], pass)
    decreases |ids|
  {
    if e == 0 {
      VisitFrame(s, ids[0], pass);
      SweepNone(Visit(s, ids[0], pass), ids[1..], pass);
    } else {
      assert Decision(s, ids[0], pass).None?;
      SweepOnly(s, ids[1..], pass, e - 1);
    }
  }

  /** A task pushed without being unlinked is on the waiting queue to the end of the call. */
  lemma {:induction false} StaysLinked(s: State, q: seq<nat>, i: nat, now: nat, t: nat)
    requires Shape(s) && i <= |q| && forall j :: 0 <= j < |q| ==> q[j] < TASKS
    requires t in s.queues[WaitingQ] && Distinct(s.queues[WaitingQ]) && t !in q[i..]
    ensures t in WakeUpAsWritten(s, q, i, now).queues[WaitingQ]
    decreases |q| - i
  {
    if i < |q| && s.tasks[q[i]].reason == TIMER_REASON {
      assert q[i] in q[i..] && q[i..][1..] == q[i + 1..];
      if !Due(s.tasks[q[i]], q[i], s.timers, now) {
        StaysLinked(s, q, i + 1, now, t);
      } else if i == 0 || i == |q| - 1 {
        RemovedElements(s.queues[WaitingQ], q[i]);
      } else {
        StaysLinked(PushedAsWritten(s, q[i]), q, i + 1, now, t);
      }
    }
  }

  /** The call on the waiting queue of a good state. */
  lemma WaitingLooked(s: State, now: nat)
    requires Good(s)
    ensures
      var q := s.queues[WaitingQ];
      Looked(s, Scheduler.Wake(now)) == q && From(s, q, Scheduler.Wake(now))
  {
    LookedFrom(s, Scheduler.Wake(now));
    var q := s.queues[WaitingQ];
    forall i | 0 <= i < |q|
      ensures q[i] < TASKS
    {
      assert q[i] in q;
    }
    QueueFitsBank(q, TASKS);
    assert q[..|q|] == q;
  }

  /** As written the call does what is meant exactly when every due sleeper is at an end, behind undue sleepers only. */
  lemma WakeUpAsWrittenExactly(s: State, now: nat)
    requires Good(s)
    ensures
      var q := s.queues[WaitingQ];
      && From(s, q, Scheduler.Wake(now))
      && (WakeUpAsWritten(s, q, 0, now) == RunPass(s, Scheduler.Wake(now)) <==> DueAtAnEnd(s, q, now))
  {
    var q, pass := s.queues[WaitingQ], Scheduler.Wake(now);
    WaitingLooked(s, now);
    var e := FirstEvent(s, q, 0, now);
    if e == |q| {
      forall i | 0 <= i < |q|
        ensures !Due(s.tasks[q[i]], q[i], s.timers, now)
      {
        assert SleepsOn(s, q, i, now);
      }
      SweepNone(s, q, pass);
    } else if s.tasks[q[e]].reason != TIMER_REASON {
      NothingWoken(s, now, e);
    } else if 0 < e < |q| - 1 {
      MiddleStays(s, now, e);
    } else {
      OneWoken(s, now, e);
    }
  }

  /** The call ends at once: right exactly when nobody is due. */
  lemma NothingWoken(s: State, now: nat, e: nat)
    requires Good(s) && e < |s.queues[WaitingQ]| && From(s, s.queues[WaitingQ], Scheduler.Wake(now))
    requires Looked(s, Scheduler.Wake(now)) == s.queues[WaitingQ]
    requires s.tasks[s.queues[WaitingQ][e]].reason != TIMER_REASON
    requires forall i :: 0 <= i < e ==> SleepsOn(s, s.queues[WaitingQ], i, now)
    ensures s == RunPass(s, Scheduler.Wake(now)) <==> DueAtAnEnd(s, s.queues[WaitingQ], now)
  {
    var q, pass := s.queues[WaitingQ], Scheduler.Wake(now);
    if j :| 0 <= j < |q| && Due(s.tasks[q[j]], q[j], s.timers, now) {
      RunPassTask(s, pass, q[j]);
      assert j < e ==> SleepsOn(s, q, j, now);
      assert q[j] in q && e < j && !SleepsOn(s, q, e, now);
    } else {
      SweepNone(s, q, pass);
    }
  }

  /** The first due sleeper is neither first nor last. */
  lemma MiddleStays(s: State, now: nat, e: nat)
    requires Good(s) && 0 < e < |s.queues[WaitingQ]| - 1 && From(s, s.queues[WaitingQ], Scheduler.Wake(now))
    requires Looked(s, Scheduler.Wake(now)) == s.queues[WaitingQ]
    requires Due(s.tasks[s.queues[WaitingQ][e]], s.queues[WaitingQ][e], s.timers, now)
    ensures WakeUpAsWritten(s, s.queues[WaitingQ], e, now) != RunPass(s, Scheduler.Wake(now))
    ensures !DueAtAnEnd(s, s.queues[WaitingQ], now)
  {
    var q, pass := s.queues[WaitingQ], Scheduler.Wake(now);
    var t := q[e];
    assert t in q;
    RunPassTask(s, pass, t);
    assert t !in RunPass(s, pass).queues[WaitingQ];
    assert t !in q[e + 1..];
    StaysLinked(PushedAsWritten(s, t), q, e + 1, now, t);
  }

  /** It is, and line 293 ends the call: right exactly when nobody else is due. */
  lemma OneWoken(s: State, now: nat, e: nat)
    requires Good(s) && e < |s.queues[WaitingQ]| && From(s, s.queues[WaitingQ], Scheduler.Wake(now))
    requires Looked(s, Scheduler.Wake(now)) == s.queues[WaitingQ] && (e == 0 || e == |s.queues[WaitingQ]| - 1)
    requires Due(s.tasks[s.queues[WaitingQ][e]], s.queues[WaitingQ][e], s.timers, now)
    requires forall i :: 0 <= i < e ==> SleepsOn(s, s.queues[WaitingQ], i, now)
    ensures
      Visit(s, s.queues[WaitingQ][e], Scheduler.Wake(now)) == RunPass(s, Scheduler.Wake(now))
      <==> DueAtAnEnd(s, s.queues[WaitingQ], now)
  {
    var q, pass := s.queues[WaitingQ], Scheduler.Wake(now);
    if j :| 0 <= j < |q| && j != e && Due(s.tasks[q[j]], q[j], s.timers, now) {
      RunPassTask(s, pass, q[j]);
      VisitFrame(s, q[e], pass);
      assert j < e ==> SleepsOn(s, q, j, now);
      assert q[j] in q && q[j] != q[e] && e < j && !SleepsOn(s, q, e, now);
    } else {
      SweepOnly(s, q, pass, e);
    }
  }

  /* ---------------------------------------------------------------- requests and sleepers */

  /** How many more requests a task has than a sleeper needs. */
  function Surplus(s: State, t: nat): int
    requires |s.tasks| == TASKS
  {
    |Of(s, t)| - if Asleep(s, t) then 1 else 0
  }

  /** The step is task `t`'s request, and it is accepted; the step is its wait for the timer. */
  predicate Asks(s: State, step: Step, t: nat)
    requires Shape(s)
  {
    step.TimerRequest? && s.running[step.core] == Some(t) && s.slots < TIMERS
  }

  predicate WaitsForTimer(s: State, step: Step, t: nat)
    requires Shape(s)
  {
    step.Wait? && step.reason == TIMER_REASON && s.running[step.core] == Some(t)
  }

  /** A task has the same requests and is asleep as before, if it was. */
  ghost predicate SameSleep(s: State, s': State, t: nat) {
    |s.tasks| == |s'.tasks| == TASKS && Of(s', t) == Of(s, t) && (Asleep(s', t) <==> Asleep(s, t))
  }

  /** No pass but waking puts a task to sleep, wakes one, or touches a request. */
  lemma PassKeepsSleep(s: State, pass: Pass, t: nat)
    requires Good(s) && t < TASKS && !pass.Wake?
    ensures Good(RunPass(s, pass)) && SameSleep(s, RunPass(s, pass), t)
  {
    RunPassTask(s, pass, t);
  }

  lemma LeaveKeepsSurplus(s: State, c: Core, exit: Exit, t: nat)
    requires Good(s) && t < TASKS
    ensures
      var s', sleeps := Leave(s, c, exit), exit.Waits? && exit.reason == TIMER_REASON && s.running[c] == Some(t);
      && Good(s') && Of(s', t) == Of(s, t) && (Asleep(s', t) <==> Asleep(s, t) || sleeps)
      && Surplus(s', t) == Surplus(s, t) - if sleeps then 1 else 0
  {
    LeaveKeeps(s, c, exit);
    if s.running[c].Some? {
      var r := s.running[c].value;
      RunningHome(s, c, r);
      MoveFrame(s, r, ExitFields(s.tasks[r], exit));
    }
  }

  lemma RescheduleKeepsSleep(s: State, c: Core, w: World, t: nat)
    requires Good(s) && t < TASKS
    ensures SameSleep(s, Reschedule(s, c, w), t)
  {
    LeaveKeepsSurplus(s, c, Preempted, t);
    var s1 := Leave(s, c, Preempted);
    RotateKeeps(s1, c);
    var s2 := s1.(rotor := Rotate(s1.rotor, c));
    PassKeepsSleep(s2, Admit, t);
    var s3 := RunPass(s2, Admit);
    PassKeepsSleep(s3, Reap, t);
    var s4 := RunPass(s3, Reap);
    PassKeepsSleep(s4, Poll(w), t);
    DispatchTask(RunPass(s4, Poll(w)), c, t);
  }

  lemma RequestSurplus(s: State, c: Core, wake: nat, t: nat)
    requires Good(s) && t < TASKS
    ensures
      var s' := Request(s, c, wake);
      && s'.tasks == s.tasks
      && Of(s', t) == Of(s, t) + if Asks(s, TimerRequest(c, wake), t) then [wake] else []
  {
    if s.running[c].Some? {
      RequestsAppend(s.timers, Timer(s.running[c].value, wake), t);
    } else {
      assert Of(s, t) + [] == Of(s, t);
    }
  }

  /** Every step: an accepted request adds one, a wait for the timer takes one, a wake-up takes one of each. */
  lemma ApplySurplus(s: State, step: Step, t: nat)
    requires Good(s) && t < TASKS
    ensures |Apply(s, step).tasks| == TASKS
    ensures Surplus(Apply(s, step), t) ==
      Surplus(s, t) + (if Asks(s, step, t) then 1 else 0) - if WaitsForTimer(s, step, t) then 1 else 0
  {
    match step
    case Tick(c, w) => RescheduleKeepsSleep(s, c, w, t);
    case Wait(c, r, i, w) =>
      LeaveKeepsSurplus(s, c, Waits(r, i), t);
      RescheduleKeepsSleep(Leave(s, c, Waits(r, i)), c, w, t);
    case TimerRequest(c, wake) => RequestSurplus(s, c, wake, t);
    case Faulted(c, code, w) =>
      LeaveKeepsSurplus(s, c, Dies(code), t);
      RescheduleKeepsSleep(Leave(s, c, Dies(code)), c, w, t);
    case WakeUp(now) => WakeUpWakesTheDue(s, now, t);
    case SpawnTask(pc, d, m) =>
      if FirstFree(s.tasks, 0) < TASKS {
        MoveFrame(s, FirstFree(s.tasks, 0), Spawned(pc, d, m));
      }
  }

  /** How often a task asks for a timer, and is accepted, in a run; how often it waits for one. */
  function Asked(s: State, steps: seq<Step>, t: nat): nat
    requires Good(s)
    decreases |steps|
  {
    if steps == [] then 0
    else
      ApplyKeeps(s, steps[0]);
      (if Asks(s, steps[0], t) then 1 else 0) + Asked(Apply(s, steps[0]), steps[1..], t)
  }

  function Waited(s: State, steps: seq<Step>, t: nat): nat
    requires Good(s)
    decreases |steps|
  {
    if steps == [] then 0
    else
      ApplyKeeps(s, steps[0]);
      (if WaitsForTimer(s, steps[0], t) then 1 else 0) + Waited(Apply(s, steps[0]), steps[1..], t)
  }

  /**
   The law of sleep: over any run a task's surplus grows by its accepted requests less its timer waits.  It even holds
   across a death, as the next task in the PCB inherits what its last one left.
   */
  lemma {:induction false} RunSurplus(s: State, steps: seq<Step>, t: nat)
    requires Good(s) && t < TASKS
    ensures Surplus(Run(s, steps), t) == Surplus(s, t) + Asked(s, steps, t) - Waited(s, steps, t)
    decreases |steps|
  {
    if steps != [] {
      ApplyKeeps(s, steps[0]);
      ApplySurplus(s, steps[0], t);
      RunSurplus(Apply(s, steps[0]), steps[1..], t);
    }
  }

  /**
   So after any run requests and sleep correspond one to one -- a sleeper has one request, an awake task none -- exactly
   when the task has asked as often as it has waited.
   */
  lemma {:induction false} SleepersAreTheRequesters(s: State, steps: seq<Step>, t: nat)
    requires Good(s) && t < TASKS && Surplus(s, t) == 0
    ensures
      var s' := Run(s, steps);
      |Of(s', t)| == (if Asleep(s', t) then 1 else 0) <==> Asked(s, steps, t) == Waited(s, steps, t)
  {
    RunSurplus(s, steps, t);
  }

  /* ---------------------------------------------------------------- the bare timer wait */

  /** A task waiting for a timer it has not requested. */
  predicate Orphan(s: State, t: nat)
    requires |s.tasks| == TASKS
  {
    Asleep(s, t) && Of(s, t) == []
  }

  predicate BareWait(s: State, step: Step, t: nat)
    requires Shape(s)
  {
    WaitsForTimer(s, step, t) && Of(s, t) == []
  }

  /** Such a task sleeps for ever: no run of the four cores, at whatever times, wakes it. */
  lemma {:induction false} BareTimerWaitIsForever(s: State, steps: seq<Step>, t: nat)
    requires Good(s) && Orphan(s, t)
    ensures Orphan(Run(s, steps), t)
  {
    NeverWokenEarly(s, steps, t);
  }

  /** And a bare timer wait makes its task such an orphan. */
  lemma BareTimerWaitOrphans(s: State, step: Step, t: nat)
    requires Good(s) && BareWait(s, step, t)
    ensures Good(Apply(s, step)) && Orphan(Apply(s, step), t)
  {
    var c, exit := step.core, Waits(TIMER_REASON, step.instruction);
    RunningHome(s, c, t);
    LeaveKeepsSurplus(s, c, exit, t);
    ApplyKeeps(s, step);
    RescheduleSparesResting(Leave(s, c, exit), c, step.world, t);
  }

  /** Nothing else does. */
  lemma OnlyBareWaitsOrphan(s: State, step: Step, t: nat)
    requires Good(s) && t < TASKS && !Orphan(s, t) && !BareWait(s, step, t)
    ensures |Apply(s, step).tasks| == TASKS && !Orphan(Apply(s, step), t)
  {
    match step
    case Tick(c, w) => RescheduleKeepsSleep(s, c, w, t);
    case Wait(c, r, i, w) =>
      LeaveKeepsSurplus(s, c, Waits(r, i), t);
      RescheduleKeepsSleep(Leave(s, c, Waits(r, i)), c, w, t);
    case TimerRequest(c, wake) => RequestSurplus(s, c, wake, t);
    case Faulted(c, code, w) =>
      LeaveKeepsSurplus(s, c, Dies(code), t);
      RescheduleKeepsSleep(Leave(s, c, Dies(code)), c, w, t);
    case WakeUp(now) => WakeUpWakesTheDue(s, now, t);
    case SpawnTask(pc, d, m) =>
      if FirstFree(s.tasks, 0) < TASKS {
        MoveFrame(s, FirstFree(s.tasks, 0), Spawned(pc, d, m));
      }
  }

  /** Some step of the run is a wait of task `t` for a timer while it has no request pending. */
  predicate EverBare(s: State, steps: seq<Step>, t: nat)
    requires Good(s)
    decreases |steps|
  {
    steps != []
    && (BareWait(s, steps[0], t) || (ApplyKeeps(s, steps[0]); EverBare(Apply(s, steps[0]), steps[1..], t)))
  }

  /** Over any run: a task ends asleep without a request exactly when at some step it waited without one. */
  lemma {:induction false} OrphanedExactlyByBareWaits(s: State, steps: seq<Step>, t: nat)
    requires Good(s) && t < TASKS && !Orphan(s, t)
    ensures Orphan(Run(s, steps), t) <==> EverBare(s, steps, t)
    decreases |steps|
  {
    if steps != [] {
      ApplyKeeps(s, steps[0]);
      if BareWait(s, steps[0], t) {
        BareTimerWaitOrphans(s, steps[0], t);
        BareTimerWaitIsForever(Apply(s, steps[0]), steps[1..], t);
      } else {
        OnlyBareWaitsOrphan(s, steps[0], t);
        OrphanedExactlyByBareWaits(Apply(s, steps[0]), steps[1..], t);
      }
    }
  }

  /* ---------------------------------------------------------------- the request bank */

  /** Accepted requests of all tasks in a run. */
  function AskedByAll(s: State, steps: seq<Step>): nat
    requires Good(s)
    decreases |steps|
  {
    if steps == [] then 0
    else
      ApplyKeeps(s, steps[0]);
      (if TakesSlot(s, steps[0]) then 1 else 0)
      + AskedByAll(Apply(s, steps[0]), steps[1..])
  }

  /**
   The bank is used up for good: however many tasks are woken or reaped, at most 64 requests are ever accepted.  After
   any run it answers as one whose slots were cleared on waking exactly while a slot is left, or none is idle.
   */
  lemma {:induction false} BankIsUsedUp(s: State, steps: seq<Step>)
    requires Good(s)
    ensures
      var e := Run(s, steps);
      && e.slots == s.slots + AskedByAll(s, steps) <= TIMERS
      && ((e.slots < TIMERS <==> |e.timers| < TIMERS) <==> e.slots < TIMERS || |e.timers| == TIMERS)
    decreases |steps|
  {
    if steps != [] {
      ApplyKeeps(s, steps[0]);
      ApplyRotor(s, steps[0]);
      BankIsUsedUp(Apply(s, steps[0]), steps[1..]);
    }
  }
}
