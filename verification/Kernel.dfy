/**
 The scheduler as the kernel runs it: loops over the PCB bank and the queues, updating them in place
 (lib/schaduler.c:74-298; exception/synchronous/svc/svc.c:594-664).

 Every method is proved to take the state exactly where the step functions of `Scheduler` and `Interleavings` do, so what
 is proved there about all runs holds of this code.  These things are done as the comments, not the code, have it:
 removal takes the task under the cursor; lanes are shifted down; a finished task is put on the terminated queue, a
 waiting one on the waiting queue and a spawned one on the created queue; a woken task's status is written; the
 wake-up service goes on to the end; and the task a core's slot names is demoted, without a search, if it is running.
 The slot is never cleared, here as in the code: a task runs on a core when the slot names it and its fields agree.
 */
module Kernel {
  import opened Common
  import opened Flags
  import opened Rotation
  import opened Tasks
  import opened Scheduler
  import opened Interleavings
  import Words

  class Machine {
    const bank: array<Task>
    const coreTasks: array<Option<nat>>
    var queues: map<Queue, seq<nat>>
    var timers: seq<Timer>
    var slots: nat
    var ticks: nat
    var levels: nat

    /** The task a core runs: the one its slot names, while the task's own fields say that it is running there. */
    ghost function RunningOn(c: nat): Option<nat>
      reads bank, coreTasks
      requires c < coreTasks.Length
    {
      if coreTasks[c].Some? && coreTasks[c].value < bank.Length && c < 4 && Home(bank[coreTasks[c].value]) == At(c)
      then coreTasks[c]
      else None
    }

    ghost function Snapshot(): State
      reads this, bank, coreTasks
    {
      State(bank[..], queues,
        seq(coreTasks.Length, c requires 0 <= c < coreTasks.Length reads bank, coreTasks => RunningOn(c)),
        timers, slots, Rotor(Words.Lanes(ticks), Words.Lanes(levels)))
    }

    /** `kernel()` up to line 224: every PCB invalid, every queue empty. */
    constructor ()
      ensures Snapshot() == Boot() && fresh(bank) && fresh(coreTasks)
    {
      bank := new Task[TASKS](_ => CLEARED().(priority := 7));
      coreTasks := new Option<nat>[4](_ => None);
      queues := Boot().queues;
      timers, slots, ticks, levels := [], 0, 0, 0;
      new;
      Words.ZeroLanes();
      assert bank[..] == Boot().tasks;
      assert Snapshot().running == Boot().running;
    }

    /**
     Unlinks a task from its queue, rewrites its PCB, and links it where the new fields say.  A slot is written when a
     task starts to run, and never cleared.
     */
    method Relocate(t: nat, k: Task)
      requires Shape(Snapshot()) && t < TASKS
      requires Home(bank[t]).At? ==> Snapshot().running[Home(bank[t]).core] == Some(t)
      modifies this`queues, bank, coreTasks
      ensures Snapshot() == Move(old(Snapshot()), t, k)
    {
      ghost var s := Snapshot();
      match Home(bank[t]) {
        case On(q) => if q in queues { queues := queues[q := Removed(queues[q], t)]; }
        case _ =>
      }
      bank[t] := k;
      match Home(k) {
        case Nowhere =>
        case On(q) => if q in queues { queues := queues[q := queues[q] + [t]]; }
        case At(c) => coreTasks[c] := Some(t);
      }
      assert Snapshot().running == Move(s, t, k).running;
    }

    /** The body of a pass for the task under the cursor. */
    method VisitTask(t: nat, pass: Pass) returns (moved: bool)
      requires Shape(Snapshot()) && t < TASKS && !Home(bank[t]).At?
      modifies this`queues, this`timers, bank, coreTasks
      ensures Snapshot() == Visit(old(Snapshot()), t, pass)
      ensures moved == Decision(old(Snapshot()), t, pass).Some?
    {
      var next := Next(bank[t], t, timers, pass);
      moved := next.Some?;
      if moved {
        Relocate(t, next.value);
        if pass.Wake? {
          timers := DropTimer(timers, t);
        }
      }
    }

    /** One turn of a pass, with the cursor at position `at` of the queue as it now is. */
    method Turn(pass: Pass, at: nat, ghost s: State, ghost ids: seq<nat>, ghost i: nat) returns (at': nat)
      requires Good(s) && i < |ids| && Swept(s, ids, i, pass, Snapshot(), at)
      modifies this`queues, this`timers, bank, coreTasks
      ensures Swept(s, ids, i + 1, pass, Snapshot(), at') && Left(s, ids, i + 1, pass, Snapshot(), at')
    {
      SweptTurn(s, ids, i, pass, Snapshot(), at);
      var moved := VisitTask(queues[Source(pass)][at], pass);
      at' := if moved then at else at + 1;
    }

    /**
     The loops of lines 131-178: at most `bound` tasks, stopping at the last one, unlinking while they walk.
     `at` is the cursor's position in the queue as it now is.
     */
    method BoundedPass(pass: Pass, bound: nat)
      requires Good(Snapshot()) && !pass.Wake? && bound == if pass.Admit? then TASKS else PASS_BOUND
      modifies this`queues, this`timers, bank, coreTasks
      ensures Snapshot() == RunPass(old(Snapshot()), pass)
    {
      ghost var s := Snapshot();
      ghost var ids := Looked(s, pass);
      SweptStart(s, pass);
      var at: nat, i: nat := 0, 0;
      while i < bound && at + 1 < |queues[Source(pass)]|
        invariant i <= |ids| && Swept(s, ids, i, pass, Snapshot(), at)
        invariant Left(s, ids, i, pass, Snapshot(), at)
        decreases bound - i
      {
        at := Turn(pass, at, s, ids, i);
        i := i + 1;
      }
      assert ids[..i] == ids;
    }

    /**
     `wakeup_service`, going on to the end of the waiting queue.  The code ends the call at the first task that waits
     for something else (line 278, keeping the lock) and at the first one it has woken (line 293 looks at the `next` of
     the node just moved); see `Sleepers.WakeUpAsWrittenExactly`.
     */
    method WakeupService(now: nat)
      requires Good(Snapshot())
      modifies this`queues, this`timers, bank, coreTasks
      ensures Snapshot() == RunPass(old(Snapshot()), Scheduler.Wake(now))
    {
      var pass := Scheduler.Wake(now);
      ghost var s := Snapshot();
      ghost var ids := Looked(s, pass);
      SweptStart(s, pass);
      var at: nat, i: nat := 0, 0;
      while i < TASKS && at < |queues[WaitingQ]|
        invariant i <= |ids| && Swept(s, ids, i, pass, Snapshot(), at)
        invariant Left(s, ids, i, pass, Snapshot(), at)
        decreases TASKS - i
      {
        at := Turn(pass, at, s, ids, i);
        i := i + 1;
      }
      assert ids[..i] == ids;
    }

    /** The task running on a core gets the fields its exit gives it; the slot goes on naming it. */
    method LeaveCore(c: Core, exit: Exit)
      requires Good(Snapshot())
      modifies this`queues, bank, coreTasks
      ensures Snapshot() == Leave(old(Snapshot()), c, exit)
    {
      assert Snapshot().running[c] == RunningOn(c);
      if coreTasks[c].Some? && coreTasks[c].value < TASKS && Home(bank[coreTasks[c].value]) == At(c) {
        var t := coreTasks[c].value;
        RunningHome(Snapshot(), c, t);
        Relocate(t, ExitFields(bank[t], exit));
      }
    }

    /** Lines 106-121: the core's own lanes of the two words, by masks and shifts. */
    method RotateLanes(c: Core)
      requires Good(Snapshot())
      modifies this`ticks, this`levels
      ensures Snapshot() == old(Snapshot()).(rotor := Rotate(old(Snapshot()).rotor, c))
    {
      Words.WordsRefine(ticks, levels, c);
      var t := Up(Words.Byte(ticks, c));
      ticks := Words.SetLane(ticks, t, c);
      if t > 5 {
        ticks := Words.ClearLane(ticks, c);
        var l := Up(Words.Byte(levels, c));
        if l >= 8 {
          l := 0;
        }
        levels := Words.SetLane(levels, l, c);
      }
    }

    method TaskSchaduler(c: Core, w: World)
      requires Good(Snapshot())
      modifies this, bank, coreTasks
      ensures Snapshot() == Schedule(old(Snapshot()), c, w) && Good(Snapshot())
    {
      ghost var s := Snapshot();
      LeaveKeeps(s, c, Preempted);
      LeaveCore(c, Preempted);
      RotateKeeps(Snapshot(), c);
      RotateLanes(c);
      RunPassKeeps(Snapshot(), Admit);
      BoundedPass(Admit, TASKS);
      RunPassKeeps(Snapshot(), Reap);
      BoundedPass(Reap, PASS_BOUND);
      RunPassKeeps(Snapshot(), Poll(w));
      BoundedPass(Poll(w), PASS_BOUND);
    }

    /** The dispatcher's loop: the first task of the level this core may take, never the last one. */
    method FindEligible(q: seq<nat>, c: Core) returns (r: Option<nat>)
      requires bank.Length == TASKS && forall i :: 0 <= i < |q| ==> q[i] < TASKS
      ensures r == Pick(bank[..], q, 0, Examined(|q|, TASKS), c)
    {
      ghost var n := Examined(|q|, TASKS);
      var i := 0;
      while i < TASKS && i + 1 < |q|
        invariant i <= n && Pick(bank[..], q, 0, n, c) == Pick(bank[..], q, i, n, c)
      {
        if Choose(bank[q[i]].flags, c).Take? {
          return Some(q[i]);
        }
        i := i + 1;
      }
      r := None;
    }

    /** The slot may still name the task that ran last; it is overwritten when another one is found. */
    method TaskDispatcher(c: Core)
      requires Good(Snapshot()) && Snapshot().running[c] == None
      modifies this`queues, bank, coreTasks
      ensures Snapshot() == Interleavings.Dispatch(old(Snapshot()), c)
    {
      LevelQueueBounded(Snapshot(), c);
      var found := FindEligible(queues[ReadyQ(Words.Byte(levels, c))], c);
      if found.Some? {
        var k := bank[found.value];
        assert Home(k) == On(ReadyQ(Words.Byte(levels, c)));
        Relocate(found.value, k.(status := Running, flags := Choose(k.flags, c).flags));
      }
    }

    /** `svc_wait`: the caller leaves its core, and the core looks for other work. */
    method SvcWait(c: Core, reason: nat, instruction: nat, w: World)
      requires Good(Snapshot())
      modifies this, bank, coreTasks
      ensures Snapshot() == Apply(old(Snapshot()), Wait(c, reason, instruction, w)) && Good(Snapshot())
    {
      ghost var s := Snapshot();
      LeaveKeeps(s, c, Waits(reason, instruction));
      LeaveCore(c, Waits(reason, instruction));
      Tick(c, w);
      ApplyKeeps(s, Wait(c, reason, instruction, w));
    }

    /** The timer interrupt: schedule, then dispatch. */
    method Tick(c: Core, w: World)
      requires Good(Snapshot())
      modifies this, bank, coreTasks
      ensures Snapshot() == Reschedule(old(Snapshot()), c, w) && Good(Snapshot())
    {
      RescheduleKeeps(Snapshot(), c, w);
      ScheduleIdles(Snapshot(), c, w);
      TaskSchaduler(c, w);
      TaskDispatcher(c);
    }

    /** `svc_tsleep_ms`: false when every slot of the request bank has been used. */
    method SvcTsleep(c: Core, wake: nat) returns (accepted: bool)
      requires Good(Snapshot()) && Snapshot().running[c].Some?
      modifies this`timers, this`slots
      ensures Snapshot() == Apply(old(Snapshot()), TimerRequest(c, wake)) && Good(Snapshot())
      ensures accepted <==> old(slots) < TIMERS
    {
      assert Snapshot().running[c] == RunningOn(c);
      accepted := slots < TIMERS;
      if accepted {
        timers, slots := timers + [Timer(coreTasks[c].value, wake)], slots + 1;
      }
    }

    /** `svc_spawn_task`: 128 when the bank is full. */
    method SvcSpawnTask(pc: nat, dependent: bool, migrates: bool) returns (id: nat)
      requires Good(Snapshot())
      modifies this`queues, bank, coreTasks
      ensures Snapshot() == Spawn(old(Snapshot()), pc, dependent, migrates)
      ensures id == FirstFree(old(bank[..]), 0)
    {
      id := 0;
      while id < TASKS && bank[id].valid
        invariant id <= TASKS && FirstFree(bank[..], 0) == FirstFree(bank[..], id)
      {
        id := id + 1;
      }
      if id < TASKS {
        Relocate(id, Spawned(pc, dependent, migrates));
      }
    }
  }

  /** `u` is `s` after `i` turns of a pass over `ids`; the cursor is behind the tasks that stayed. */
  ghost predicate Swept(s: State, ids: seq<nat>, i: nat, pass: Pass, u: State, at: nat)
    requires Good(s) && i <= |ids|
  {
    && From(s, ids, pass) && ids <= s.queues[Source(pass)]
    && u == Sweep(s, ids[..i], pass)
    && u.queues[Source(pass)] == Stayers(s, ids[..i], pass) + s.queues[Source(pass)][i..]
    && at == |Stayers(s, ids[..i], pass)|
  }

  /** How many tasks are still ahead of the cursor. */
  ghost predicate Left(s: State, ids: seq<nat>, i: nat, pass: Pass, u: State, at: nat)
    requires Shape(s)
  {
    && Source(pass) in u.queues && i <= |s.queues[Source(pass)]|
    && |u.queues[Source(pass)]| - at == |s.queues[Source(pass)]| - i
  }

  lemma SweptStart(s: State, pass: Pass)
    requires Good(s)
    ensures Swept(s, Looked(s, pass), 0, pass, s, 0) && Left(s, Looked(s, pass), 0, pass, s, 0)
  {
    LookedFrom(s, pass);
    var was := s.queues[Source(pass)];
    assert [] + was[0..] == was;
  }

  lemma SweptTurn(s: State, ids: seq<nat>, i: nat, pass: Pass, u: State, at: nat)
    requires Good(s) && i < |ids| && Swept(s, ids, i, pass, u, at)
    ensures Shape(u) && Source(pass) in u.queues && at < |u.queues[Source(pass)]|
    ensures u.queues[Source(pass)][at] == ids[i] && ids[i] < TASKS && Home(u.tasks[ids[i]]) == On(Source(pass))
    ensures
      Swept(s, ids, i + 1, pass, Visit(u, ids[i], pass), if Decision(u, ids[i], pass).Some? then at else at + 1)
  {
    PassTurn(s, ids, i, pass);
    assert s.queues[Source(pass)][i..][0] == ids[i];
    SweepKeeps(s, ids[..i], pass);
    assert ids[i] in u.queues[Source(pass)];
  }

  /** One turn of a pass: what the prefix examined so far becomes. */
  lemma PassTurn(s: State, ids: seq<nat>, i: nat, pass: Pass)
    requires Good(s) && From(s, ids, pass) && i < |ids| && ids <= s.queues[Source(pass)]
    ensures
      var u := Sweep(s, ids[..i], pass);
      var was, src := s.queues[Source(pass)], Source(pass);
      && Sweep(s, ids[..i + 1], pass) == Visit(u, ids[i], pass)
      && Shape(u) && Decision(u, ids[i], pass) == Decision(s, ids[i], pass)
      && Stayers(s, ids[..i + 1], pass) ==
         Stayers(s, ids[..i], pass) + (if Decision(s, ids[i], pass).None? then [ids[i]] else [])
      && src in Visit(u, ids[i], pass).queues
      && Visit(u, ids[i], pass).queues[src] == Stayers(s, ids[..i + 1], pass) + was[i + 1..]
  {
    SweepSnoc(s, ids, i, pass);
    StayersStep(s, ids, i, pass);
    DecisionAfterSweep(s, ids, i, pass);
    var was := s.queues[Source(pass)];
    var pre := ids[..i + 1];
    assert was == [] + (pre + was[i + 1..]);
    SweepIsFilter(s, [], pre, was[i + 1..], pass, ReadyQ(0));
    assert [] + (Stayers(s, pre, pass) + was[i + 1..]) == Stayers(s, pre, pass) + was[i + 1..];
  }

  lemma {:induction false} SweepSnoc(s: State, ids: seq<nat>, i: nat, pass: Pass)
    requires Shape(s) && i < |ids| && forall j :: 0 <= j < |ids| ==> ids[j] < TASKS
    ensures Sweep(s, ids[..i + 1], pass) == Visit(Sweep(s, ids[..i], pass), ids[i], pass)
    decreases i
  {
    if i > 0 {
      SweepSnoc(Visit(s, ids[0], pass), ids[1..], i - 1, pass);
      assert ids[..i + 1][1..] == ids[1..][..i] && ids[..i][1..] == ids[1..][..i - 1];
    }
  }

  lemma StayersStep(s: State, ids: seq<nat>, i: nat, pass: Pass)
    requires Shape(s) && i < |ids| && forall j :: 0 <= j < |ids| ==> ids[j] < TASKS
    ensures Stayers(s, ids[..i + 1], pass) ==
      Stayers(s, ids[..i], pass) + (if Decision(s, ids[i], pass).None? then [ids[i]] else [])
  {
    assert ids[..i + 1] == ids[..i] + [ids[i]];
    StayersSnoc(s, ids[..i], ids[i], pass);
  }

  lemma {:induction false} DecisionAfterSweep(s: State, ids: seq<nat>, i: nat, pass: Pass)
    requires Good(s) && From(s, ids, pass) && i < |ids|
    ensures Decision(Sweep(s, ids[..i], pass), ids[i], pass) == Decision(s, ids[i], pass)
    decreases i
  {
    if i > 0 {
      var s' := Visit(s, ids[0], pass);
      VisitKeeps(s, ids[0], pass);
      VisitFrame(s, ids[0], pass);
      DecisionAfterSweep(s', ids[1..], i - 1, pass);
      assert ids[..i][1..] == ids[1..][..i - 1];
    }
  }
}
