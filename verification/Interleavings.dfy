/**
 Runs of the four cores: dispatch, waiting, sleeping, faults and spawning as steps, and what every interleaving of
 them keeps (lib/schaduler.c:74-298; exception/synchronous/svc/svc.c:183-202, 594-664).
 */
module Interleavings {
  import opened Common
  import opened Flags
  import opened Rotation
  import opened Tasks
  import opened Scheduler

  /* ---------------------------------------------------------------- routines */

  /** Why the running task of a core leaves it. */
  datatype Exit = Preempted | Waits(reason: nat, instruction: nat) | Dies(code: nat)

  /**
   Its new fields: lines 89-102 punish a preempted task with a lower priority; `svc_wait` rewards a waiting one (its
   status 2 is read as the waiting status its comment names); a fault handler names a fault code.
   */
  function ExitFields(k: Task, exit: Exit): Task {
    match exit
    case Preempted => k.(status := Ready, priority := Demoted(k.priority))
    case Waits(reason, instruction) =>
      k.(status := Waiting, reason := reason, instruction := instruction,
         priority := Rewarded(k.priority))
    case Dies(code) => k.(status := Terminated, fault := code)
  }

  /** Takes the running task off its core; nothing happens on an idle core. */
  function Leave(s: State, c: Core, exit: Exit): State
    requires Shape(s)
  {
    match s.running[c]
    case None => s
    case Some(t) => if t < TASKS then Move(s, t, ExitFields(s.tasks[t], exit)) else s
  }

  /** `task_schaduler` on core `c`. */
  function Schedule(s: State, c: Core, w: World): State
    requires Good(s)
  {
    LeaveKeeps(s, c, Preempted);
    var s1 := Leave(s, c, Preempted);
    RotateKeeps(s1, c);
    var s2 := s1.(rotor := Rotate(s1.rotor, c));
    RunPassKeeps(s2, Admit);
    var s3 := RunPass(s2, Admit);
    RunPassKeeps(s3, Reap);
    var s4 := RunPass(s3, Reap);
    RunPassKeeps(s4, Poll(w));
    RunPass(s4, Poll(w))
  }

  /** The first task of `q[i..n]` the dispatcher takes. */
  function Pick(tasks: seq<Task>, q: seq<nat>, i: nat, n: nat, c: Core): (r: Option<nat>)
    requires i <= n <= |q| && |tasks| == TASKS && forall j :: 0 <= j < |q| ==> q[j] < TASKS
    ensures r.Some? ==> r.value in q && r.value < TASKS && Choose(tasks[r.value].flags, c).Take?
    decreases n - i
  {
    if i == n then None
    else if Choose(tasks[q[i]].flags, c).Take? then Some(q[i])
    else Pick(tasks, q, i + 1, n, c)
  }

  /** The dispatcher takes the first eligible task of those it looks at, and none only when none is eligible. */
  lemma {:induction false} PickIsFirst(tasks: seq<Task>, q: seq<nat>, i: nat, n: nat, c: Core)
    requires i <= n <= |q| && |tasks| == TASKS && forall j :: 0 <= j < |q| ==> q[j] < TASKS
    ensures
      match Pick(tasks, q, i, n, c)
      case None => forall j :: i <= j < n ==> Choose(tasks[q[j]].flags, c).Skip?
      case Some(t) => exists j :: i <= j < n && q[j] == t && forall k :: i <= k < j ==> Choose(tasks[q[k]].flags, c).Skip?
    decreases n - i
  {
    if i < n && Choose(tasks[q[i]].flags, c).Skip? {
      PickIsFirst(tasks, q, i + 1, n, c);
    } else if i < n {
      assert q[i] == Pick(tasks, q, i, n, c).value;
    }
  }

  /** `task_dispatcher` on core `c`, which has no running task when it is called. */
  function Dispatch(s: State, c: Core): State
    requires Good(s)
  {
    LevelQueueBounded(s, c);
    var q := s.queues[ReadyQ(Level(s.rotor, c))];
    match Pick(s.tasks, q, 0, Examined(|q|, TASKS), c)
    case None => s
    case Some(t) =>
      if s.running[c].Some? then s
      else Move(s, t, s.tasks[t].(status := Running, flags := Choose(s.tasks[t].flags, c).flags))
  }

  /** As the dispatcher's loop asks for a successor too, a task alone on its level is never dispatched. */
  lemma LoneReadyTaskIsNotDispatched(s: State, c: Core)
    requires Good(s) && |s.queues[ReadyQ(Level(s.rotor, c))]| == 1
    ensures Dispatch(s, c) == s
  {
  }

  lemma LevelQueueBounded(s: State, c: Core)
    requires Good(s)
    ensures
      var l := ReadyQ(Level(s.rotor, c));
      l in s.queues && forall i :: 0 <= i < |s.queues[l]| ==> s.queues[l][i] < TASKS
  {
    var l := ReadyQ(Level(s.rotor, c));
    assert IsQueue(l);
    forall i | 0 <= i < |s.queues[l]|
      ensures s.queues[l][i] < TASKS
    {
      assert s.queues[l][i] in s.queues[l];
    }
  }

  /**
   `svc_tsleep_ms`: the request goes to the back of the queue and the caller runs on; to sleep it then waits with the
   timer reason.  The bank is searched for a slot never used before, because nothing clears one: after 64 requests in all
   every further one is refused.
   */
  function Request(s: State, c: Core, wake: nat): State
    requires Shape(s)
  {
    match s.running[c]
    case None => s
    case Some(t) =>
      if s.slots >= TIMERS then s else s.(timers := s.timers + [Timer(t, wake)], slots := s.slots + 1)
  }

  function FirstFree(tasks: seq<Task>, i: nat): (r: nat)
    requires i <= |tasks|
    ensures i <= r <= |tasks|
    ensures r < |tasks| ==> !tasks[r].valid
    ensures forall j :: i <= j < r ==> tasks[j].valid
    decreases |tasks| - i
  {
    if i == |tasks| || !tasks[i].valid then i else FirstFree(tasks, i + 1)
  }

  /** The fields of a spawned task: priority 3 and the ready flag (line 633 sets bit 0, its comment means bit 2). */
  function Spawned(pc: nat, dependent: bool, migrates: bool): Task {
    CLEARED().(valid := true, status := Created, priority := 3, pc := pc,
               flags := 0x04 | (if dependent then 0x20 else 0) | (if migrates then 0x08 else 0))
  }

  /** `svc_spawn_task` as written puts its task on no queue: lines 631-661 only fill in the PCB. */
  function SpawnAsWritten(s: State, pc: nat, dependent: bool, migrates: bool): State
    requires Shape(s)
  {
    var t := FirstFree(s.tasks, 0);
    if t == TASKS then s else s.(tasks := s.tasks[t := Spawned(pc, dependent, migrates)])
  }

  /** So it is out of place exactly when there was a PCB for it; `Spawn` is the same with the missing push. */
  lemma SpawnAsWrittenExactly(s: State, pc: nat, dependent: bool, migrates: bool)
    requires Good(s)
    ensures Placed(SpawnAsWritten(s, pc, dependent, migrates)) <==> FirstFree(s.tasks, 0) == TASKS
    ensures
      var t := FirstFree(s.tasks, 0);
      t < TASKS ==>
        var u := SpawnAsWritten(s, pc, dependent, migrates);
        Spawn(s, pc, dependent, migrates) == u.(queues := u.queues[CreatedQ := u.queues[CreatedQ] + [t]])
  {
    var t := FirstFree(s.tasks, 0);
    if t < TASKS {
      var u := SpawnAsWritten(s, pc, dependent, migrates);
      assert !(t in s.queues[CreatedQ]);
      assert t in u.queues[CreatedQ] <==> t in s.queues[CreatedQ];
    }
  }

  /** The flags of line 633: bit 0, which is core 1, where the comment means the ready flag. */
  function SpawnedAsWritten(pc: nat, dependent: bool, migrates: bool): Task {
    Spawned(pc, dependent, migrates).(flags := 0x01 | (if dependent then 0x20 else 0) | (if migrates then 0x08 else 0))
  }

  lemma SpawnedAsWrittenFlags(pc: nat, dependent: bool, migrates: bool)
    ensures CoreOf(SpawnedAsWritten(pc, dependent, migrates).flags) == 1
    ensures !ReadyFlag(SpawnedAsWritten(pc, dependent, migrates).flags) && ReadyFlag(Spawned(pc, dependent, migrates).flags)
  {
    assert 0x04 as bv8 & 0x04 == 0x04;
  }

  /** `svc_spawn_task`: the first invalid PCB, its task on the created queue; nothing when all are in use. */
  function Spawn(s: State, pc: nat, dependent: bool, migrates: bool): State
    requires Shape(s)
  {
    var t := FirstFree(s.tasks, 0);
    if t == TASKS then s else Move(s, t, Spawned(pc, dependent, migrates))
  }

  /* ---------------------------------------------------------------- steps and runs */

  datatype Step =
    | Tick(core: Core, world: World)
    | Wait(core: Core, reason: nat, instruction: nat, world: World)
    | TimerRequest(core: Core, wake: nat)
    | Faulted(core: Core, code: nat, world: World)
    | WakeUp(now: nat)
    | SpawnTask(pc: nat, dependent: bool, migrates: bool)

  function Reschedule(s: State, c: Core, w: World): State
    requires Good(s)
  {
    ScheduleKeeps(s, c, w);
    Dispatch(Schedule(s, c, w), c)
  }

  function Apply(s: State, step: Step): State
    requires Good(s)
  {
    match step
    case Tick(c, w) => Reschedule(s, c, w)
    case Wait(c, r, i, w) => LeaveKeeps(s, c, Waits(r, i)); Reschedule(Leave(s, c, Waits(r, i)), c, w)
    case TimerRequest(c, wake) => Request(s, c, wake)
    case Faulted(c, code, w) => LeaveKeeps(s, c, Dies(code)); Reschedule(Leave(s, c, Dies(code)), c, w)
    case WakeUp(now) => RunPass(s, Scheduler.Wake(now))
    case SpawnTask(pc, d, m) => Spawn(s, pc, d, m)
  }

  /* ---------------------------------------------------------------- every step keeps the invariant */

  lemma RotateKeeps(s: State, c: Core)
    requires Good(s)
    ensures Good(s.(rotor := Rotate(s.rotor, c)))
  {
    var s' := s.(rotor := Rotate(s.rotor, c));
    assert Placed(s');
    forall d: Core
      ensures Ticks(s'.rotor, d) < 6 && Level(s'.rotor, d) < LEVELS
    {
      RotateLanes(s.rotor, c, d);
    }
  }

  lemma RunningHome(s: State, c: Core, t: nat)
    requires Good(s) && s.running[c] == Some(t)
    ensures t < TASKS && Home(s.tasks[t]) == At(c) && s.tasks[t].valid && s.tasks[t].status == Running
  {
  }

  lemma MoveKeeps(s: State, t: nat, k: Task)
    requires Good(s) && t < TASKS && Welcome(s, k)
    ensures Good(Move(s, t, k))
  {
    MoveKeepsPlaced(s, t, k);
    MoveFrame(s, t, k);
  }

  lemma LeaveKeeps(s: State, c: Core, exit: Exit)
    requires Good(s)
    ensures Good(Leave(s, c, exit)) && Leave(s, c, exit).rotor == s.rotor && Leave(s, c, exit).slots == s.slots
  {
    if s.running[c].Some? {
      var t := s.running[c].value;
      RunningHome(s, c, t);
      MoveKeeps(s, t, ExitFields(s.tasks[t], exit));
      MoveFrame(s, t, ExitFields(s.tasks[t], exit));
    }
  }

  lemma SpawnKeeps(s: State, pc: nat, dependent: bool, migrates: bool)
    requires Good(s)
    ensures Good(Spawn(s, pc, dependent, migrates))
  {
    var t := FirstFree(s.tasks, 0);
    if t < TASKS {
      MoveKeeps(s, t, Spawned(pc, dependent, migrates));
    }
  }

  /**
   A spawned task takes the first invalid PCB and goes to the back of the created queue, with priority 3, the ready flag and
   the program counter asked for; it has not run, and depends on its core or may migrate exactly as asked.  Nothing happens
   exactly when no PCB is free.
   */
  lemma SpawnExactly(s: State, pc: nat, dependent: bool, migrates: bool)
    requires Good(s)
    ensures
      var s' := Spawn(s, pc, dependent, migrates);
      && (s' == s <==> forall t :: 0 <= t < 128 ==> s.tasks[t].valid)
      && (s' != s ==> exists t ::
        && 0 <= t < 128 && !s.tasks[t].valid && (forall u :: 0 <= u < t ==> s.tasks[u].valid)
        && |s'.tasks| == 128 && CreatedQ in s.queues
        && var k := s'.tasks[t];
           && s' == s.(tasks := s.tasks[t := k], queues := Pushing(s.queues, CreatedQ, t))
           && k == Task(true, Created, 3, k.flags, 0, 0, 0, 0, pc, 0)
           && ReadyFlag(k.flags) && !Accessed(k.flags) && CoreOf(k.flags) == PreviousCore(k.flags) == 0
           && Dependent(k.flags) == dependent && Migrates(k.flags) == migrates)
  {
    var t := FirstFree(s.tasks, 0);
    if t < TASKS {
      assert 0x04 as bv8 & 0x10 == 0 && 0x2C as bv8 & 0x03 == 0;
      assert !s.tasks[t].valid && Spawn(s, pc, dependent, migrates).tasks[t].valid;
    }
  }

  lemma ScheduleKeeps(s: State, c: Core, w: World)
    requires Good(s)
    ensures Good(Schedule(s, c, w))
  {
    LeaveKeeps(s, c, Preempted);
    var s1 := Leave(s, c, Preempted);
    RotateKeeps(s1, c);
    var s2 := s1.(rotor := Rotate(s1.rotor, c));
    RunPassKeeps(s2, Admit);
    var s3 := RunPass(s2, Admit);
    RunPassKeeps(s3, Reap);
    var s4 := RunPass(s3, Reap);
    RunPassKeeps(s4, Poll(w));
  }

  lemma DispatchKeeps(s: State, c: Core)
    requires Good(s)
    ensures Good(Dispatch(s, c))
  {
    LevelQueueBounded(s, c);
    var l := ReadyQ(Level(s.rotor, c));
    var q := s.queues[l];
    var r := Pick(s.tasks, q, 0, Examined(|q|, TASKS), c);
    if r.Some? && s.running[c].None? {
      var t := r.value;
      assert t in q;
      assert Home(s.tasks[t]) == On(l);
      ChoiceRespectsAffinity(s.tasks[t].flags, c);
      MoveKeeps(s, t, s.tasks[t].(status := Running, flags := Choose(s.tasks[t].flags, c).flags));
    }
  }

  lemma RescheduleKeeps(s: State, c: Core, w: World)
    requires Good(s)
    ensures Good(Reschedule(s, c, w))
  {
    ScheduleKeeps(s, c, w);
    DispatchKeeps(Schedule(s, c, w), c);
  }

  lemma ApplyKeeps(s: State, step: Step)
    requires Good(s)
    ensures Good(Apply(s, step))
  {
    match step
    case Tick(c, w) => RescheduleKeeps(s, c, w);
    case Wait(c, r, i, w) => LeaveKeeps(s, c, Waits(r, i)); RescheduleKeeps(Leave(s, c, Waits(r, i)), c, w);
    case TimerRequest(c, wake) =>
    case Faulted(c, code, w) => LeaveKeeps(s, c, Dies(code)); RescheduleKeeps(Leave(s, c, Dies(code)), c, w);
    case WakeUp(now) => RunPassKeeps(s, Scheduler.Wake(now));
    case SpawnTask(pc, d, m) => SpawnKeeps(s, pc, d, m);
  }

  /** The states of a run from `s`. */
  function Run(s: State, steps: seq<Step>): (s': State)
    requires Good(s)
    ensures Shape(s')
    decreases |steps|
  {
    if steps == [] then s else ApplyKeeps(s, steps[0]); Run(Apply(s, steps[0]), steps[1..])
  }

  /** `kernel()` up to line 224: no valid PCB, priorities 7, every queue empty, every core idle. */
  function Boot(): State {
    State(seq(TASKS, _ => CLEARED().(priority := 7)),
          map[CreatedQ := [], WaitingQ := [], TerminatedQ := [], ReadyQ(0) := [], ReadyQ(1) := [], ReadyQ(2) := [],
              ReadyQ(3) := [], ReadyQ(4) := [], ReadyQ(5) := [], ReadyQ(6) := [], ReadyQ(7) := []],
          [None, None, None, None], [], 0, Rotor(ZERO, ZERO))
  }

  lemma BootIsGood()
    ensures Good(Boot())
    ensures
      var s := Boot();
      && (forall t :: 0 <= t < 128 ==> !s.tasks[t].valid && s.tasks[t].priority == 7)
      && (forall q :: q in s.queues ==> s.queues[q] == []) && (forall c: Core :: s.running[c] == None)
      && s.timers == [] && s.slots == 0 && Unrotated(s)
  {
    var s := Boot();
    assert forall t :: 0 <= t < TASKS ==> s.tasks[t] == CLEARED().(priority := 7);
    forall q: Queue
      ensures q in s.queues <==> IsQueue(q)
    {
      if q.ReadyQ? && q.level < LEVELS {
        var l := q.level;
        assert l == 0 || l == 1 || l == 2 || l == 3 || l == 4 || l == 5 || l == 6 || l == 7;
      }
    }
  }

  /** A service made by `create_ktask`: core dependency and the ready flag, status untouched. */
  function Service(priority: nat): Task {
    CLEARED().(valid := true, status := Created, priority := priority, flags := 0x24)
  }

  /** The two services as lines 266-325 push them: both onto the ready queue of level 3, with status "created". */
  function BootAsWritten(): State {
    var s := Boot();
    s.(tasks := s.tasks[0 := Service(3)][1 := Service(4)], queues := s.queues[ReadyQ(3) := [0, 1]])
  }

  /** That is out of place, and would be with status "ready": the second service has priority 4. */
  lemma BootAsWrittenIsMisplaced()
    ensures !Placed(BootAsWritten())
    ensures !Placed(BootAsWritten().(tasks :=
      Boot().tasks[0 := Service(3).(status := Ready)][1 := Service(4).(status := Ready)]))
  {
    var u := BootAsWritten();
    assert 1 in u.queues[ReadyQ(3)];
  }

  /** What it should be: both ready, each in the queue of its priority. */
  function BootWithServices(): (s: State)
    ensures Good(s)
    ensures s.queues[ReadyQ(3)] == [0] && s.queues[ReadyQ(4)] == [1]
    ensures s.tasks[0] == Task(true, Ready, 3, 0x24, 0, 0, 0, 0, 0, 0)
    ensures s.tasks[1] == Task(true, Ready, 4, 0x24, 0, 0, 0, 0, 0, 0)
  {
    BootIsGood();
    var one := Move(Boot(), 0, Service(3).(status := Ready));
    MoveKeeps(Boot(), 0, Service(3).(status := Ready));
    MoveFrame(Boot(), 0, Service(3).(status := Ready));
    MoveKeeps(one, 1, Service(4).(status := Ready));
    Move(one, 1, Service(4).(status := Ready))
  }

  /** No interleaving of the cores loses a task, duplicates it, or puts it where its fields do not say. */
  lemma {:induction false} RunKeepsPlacement(s: State, steps: seq<Step>)
    requires Good(s)
    ensures Good(Run(s, steps))
    decreases |steps|
  {
    if steps != [] {
      ApplyKeeps(s, steps[0]);
      RunKeepsPlacement(Apply(s, steps[0]), steps[1..]);
    }
  }

  /** What the invariant means for one task: a valid task is in one place, once; an invalid one is nowhere. */
  lemma OnePlace(s: State, t: nat)
    requires Good(s) && t < TASKS
    ensures
      var k := s.tasks[t];
      && (forall q :: q in s.queues && t in s.queues[q] ==> multiset(s.queues[q])[t] == 1)
      && (forall q, r :: q in s.queues && r in s.queues && t in s.queues[q] && t in s.queues[r] ==> q == r)
      && (forall c: Core, d: Core :: s.running[c] == Some(t) == s.running[d] ==> c == d)
      && (forall q, c: Core :: q in s.queues && t in s.queues[q] ==> s.running[c] != Some(t))
      && (k.valid <==> (exists q :: q in s.queues && t in s.queues[q]) || exists c: Core :: s.running[c] == Some(t))
      && (k.valid && k.status == Ready ==> k.priority < 8 && t in s.queues[ReadyQ(k.priority)])
  {
    forall q | q in s.queues && t in s.queues[q]
      ensures multiset(s.queues[q])[t] == 1
    {
      OnceInQueue(s.queues[q], t);
    }
    var k := s.tasks[t];
    if k.valid {
      match Home(k)
      case On(q) => assert IsQueue(q); assert t in s.queues[q];
      case At(c) => assert s.running[c] == Some(t);
    }
  }

  lemma OnceInQueue(q: seq<nat>, t: nat)
    requires Distinct(q) && t in q
    ensures multiset(q)[t] == 1
  {
    var i :| 0 <= i < |q| && q[i] == t;
    assert q == q[..i] + [t] + q[i + 1..];
    assert t !in q[..i] && t !in q[i + 1..];
  }

  /** When the scheduler has run on a core, no task is running there any more: line 95 has rewritten its status. */
  lemma ScheduleIdles(s: State, c: Core, w: World)
    requires Good(s)
    ensures |Schedule(s, c, w).running| == 4 && Schedule(s, c, w).running[c] == None
  {
    LeaveKeeps(s, c, Preempted);
    if s.running[c].Some? {
      RunningHome(s, c, s.running[c].value);
    }
    var s1 := Leave(s, c, Preempted);
    RotateKeeps(s1, c);
    var s2 := s1.(rotor := Rotate(s1.rotor, c));
    RunPassKeeps(s2, Admit);
    RunPassRotor(s2, Admit);
    var s3 := RunPass(s2, Admit);
    RunPassKeeps(s3, Reap);
    RunPassRotor(s3, Reap);
    var s4 := RunPass(s3, Reap);
    RunPassRotor(s4, Poll(w));
  }

  /* ---------------------------------------------------------------- what leaving and dispatching change */

  /**
   An exit, in full: a preempted task goes one level down (7 is the lowest) and a waiting one, with the reason and the
   instruction asked for, one level up; a dying one gets the fault code.  The task is pushed onto the queue of its new
   status, and nothing else changes.
   */
  lemma LeaveExactly(s: State, c: Core, exit: Exit)
    requires Good(s)
    ensures
      match s.running[c]
      case None => Leave(s, c, exit) == s
      case Some(t) =>
        var k := s.tasks[t];
        var down := if k.priority < 7 then k.priority + 1 else 7;
        var up := if k.priority > 0 then k.priority - 1 else 0;
        var to := match exit
          case Preempted => ReadyQ(down)
          case Waits(_, _) => WaitingQ
          case Dies(_) => TerminatedQ;
        var left := match exit
          case Preempted => k.(status := Ready, priority := down)
          case Waits(reason, instruction) =>
            k.(status := Waiting, reason := reason, instruction := instruction, priority := up)
          case Dies(code) => k.(status := Terminated, fault := code);
        && to in s.queues
        && Leave(s, c, exit) ==
           s.(tasks := s.tasks[t := left], queues := Pushing(s.queues, to, t), running := s.running[c := None])
  {
    if s.running[c].Some? {
      RunningHome(s, c, s.running[c].value);
      assert IsQueue(ReadyQ(Demoted(s.tasks[s.running[c].value].priority)));
    }
  }

  /** A task the core may run: it has not run yet, may migrate, or is this core's. */
  predicate Eligible(f: bv8, c: Core) { !Accessed(f) || Migrates(f) || CoreOf(f) == c }

  /** Position `j` holds the queue's first eligible task, and is not its last. */
  ghost predicate FirstEligible(s: State, q: seq<nat>, c: Core, j: nat)
    requires |s.tasks| == TASKS && forall i :: 0 <= i < |q| ==> q[i] < TASKS
  {
    j + 1 < |q| && Eligible(s.tasks[q[j]].flags, c) && forall i :: 0 <= i < j ==> !Eligible(s.tasks[q[i]].flags, c)
  }

  /**
   `s'` is `s` with the task at position `j` of ready queue `l` running on core `c`.  Its flags say that it has run, and on
   which core; the previous core is the one it ran on, if that was another, and stays what it was otherwise.
   */
  ghost predicate Started(s: State, s': State, c: Core, l: Queue, j: nat)
    requires Shape(s) && l in s.queues && j < |s.queues[l]| && s.queues[l][j] < TASKS && |s'.tasks| == TASKS
  {
    var q, t := s.queues[l], s.queues[l][j];
    var f, g := s.tasks[t].flags, s'.tasks[t].flags;
    && s' == s.(tasks := s.tasks[t := s.tasks[t].(status := Running, flags := g)],
                queues := s.queues[l := Without(q, j)], running := s.running[c := Some(t)])
    && CoreOf(g) == c && Accessed(g)
    && PreviousCore(g) == (if Accessed(f) && CoreOf(f) != c then CoreOf(f) else PreviousCore(f))
    && ReadyFlag(g) == ReadyFlag(f) && Migrates(g) == Migrates(f) && Dependent(g) == Dependent(f)
  }

  /** A dispatch, in full: an idle core starts the first eligible task of its level, and nothing happens exactly if none is. */
  lemma DispatchExactly(s: State, c: Core)
    requires Good(s)
    ensures
      var l, s' := ReadyQ(Level(s.rotor, c)), Dispatch(s, c);
      && l in s.queues && (forall i :: 0 <= i < |s.queues[l]| ==> s.queues[l][i] < TASKS) && |s'.tasks| == TASKS
      && (s' == s <==> s.running[c].Some? || forall j :: !FirstEligible(s, s.queues[l], c, j))
      && (s' != s ==> exists j :: FirstEligible(s, s.queues[l], c, j) && Started(s, s', c, l, j))
  {
    var l := ReadyQ(Level(s.rotor, c));
    var r := PickedAt(s, c);
    if r.Some? && s.running[c].None? {
      StartsAt(s, c, r.value);
    }
  }

  /** Where the task picked is, if there is one. */
  lemma PickedAt(s: State, c: Core) returns (r: Option<nat>)
    requires Good(s)
    ensures
      var l := ReadyQ(Level(s.rotor, c));
      && l in s.queues && (forall i :: 0 <= i < |s.queues[l]| ==> s.queues[l][i] < TASKS)
      && (r.None? <==> forall j :: !FirstEligible(s, s.queues[l], c, j))
      && (r.None? ==> Dispatch(s, c) == s)
      && (r.Some? ==>
           && FirstEligible(s, s.queues[l], c, r.value)
           && Pick(s.tasks, s.queues[l], 0, Examined(|s.queues[l]|, TASKS), c) == Some(s.queues[l][r.value]))
  {
    LevelQueueBounded(s, c);
    var q := s.queues[ReadyQ(Level(s.rotor, c))];
    QueueFitsBank(q, TASKS);
    var n := Examined(|q|, TASKS);
    PickIsFirst(s.tasks, q, 0, n, c);
    forall i | 0 <= i < |q|
      ensures Eligible(s.tasks[q[i]].flags, c) <==> Choose(s.tasks[q[i]].flags, c).Take?
    {
      ChoiceRespectsAffinity(s.tasks[q[i]].flags, c);
    }
    if Pick(s.tasks, q, 0, n, c).Some? {
      var j :| 0 <= j < n && q[j] == Pick(s.tasks, q, 0, n, c).value
        && forall k :: 0 <= k < j ==> Choose(s.tasks[q[k]].flags, c).Skip?;
      assert FirstEligible(s, q, c, j);
      return Some(j);
    }
    forall j: nat
      ensures !FirstEligible(s, q, c, j)
    {
      assert j + 1 < |q| ==> j < n && Choose(s.tasks[q[j]].flags, c).Skip?;
    }
    r := None;
  }

  lemma StartsAt(s: State, c: Core, j: nat)
    requires Good(s) && s.running[c].None?
    requires
      var l := ReadyQ(Level(s.rotor, c));
      && l in s.queues && (forall i :: 0 <= i < |s.queues[l]| ==> s.queues[l][i] < TASKS)
      && FirstEligible(s, s.queues[l], c, j)
      && Pick(s.tasks, s.queues[l], 0, Examined(|s.queues[l]|, TASKS), c) == Some(s.queues[l][j])
    ensures
      var l, s' := ReadyQ(Level(s.rotor, c)), Dispatch(s, c);
      |s'.tasks| == TASKS && s' != s && Started(s, s', c, l, j)
  {
    var l := ReadyQ(Level(s.rotor, c));
    var q, t := s.queues[l], s.queues[l][j];
    LevelQueueBounded(s, c);
    assert t in q && Home(s.tasks[t]) == On(l);
    ChoiceRespectsAffinity(s.tasks[t].flags, c);
    RemovedAt(q, j);
  }

  lemma {:induction false} RemovedAt(q: seq<nat>, j: nat)
    requires Distinct(q) && j < |q|
    ensures Removed(q, q[j]) == Without(q, j)
  {
    if j > 0 {
      RemovedAt(q[1..], j - 1);
      assert q[0] != q[j];
      assert [q[0]] + Without(q[1..], j - 1) == Without(q, j);
    }
  }

  /* ---------------------------------------------------------------- the running slot as written */

  /** What the dispatcher is called on in a step that calls it. */
  function Scheduled(s: State, step: Step): State
    requires Good(s)
  {
    match step
    case Tick(c, w) => Schedule(s, c, w)
    case Wait(c, r, i, w) => LeaveKeeps(s, c, Waits(r, i)); Schedule(Leave(s, c, Waits(r, i)), c, w)
    case Faulted(c, code, w) => LeaveKeeps(s, c, Dies(code)); Schedule(Leave(s, c, Dies(code)), c, w)
    case _ => s
  }

  /**
   As written `core_tasks` is only ever assigned by a dispatch (lines 217, 233 and 250): when the dispatcher finds
   nothing, the slot goes on naming the task that has left.  Read without the task's fields, it then lies.
   */
  function ApplyAsWritten(s: State, step: Step): State
    requires Good(s)
  {
    var u := Apply(s, step);
    match SchedulerCall(step)
    case None => u
    case Some(c) =>
      ApplyKeeps(s, step);
      if u.running[c].None? then u.(running := u.running[c := s.running[c]]) else u
  }

  /** The dispatcher finds a task on core `c`: the guard of its loop. */
  predicate Finds(s: State, c: Core)
    requires Good(s)
  {
    LevelQueueBounded(s, c);
    var q := s.queues[ReadyQ(Level(s.rotor, c))];
    Pick(s.tasks, q, 0, Examined(|q|, TASKS), c).Some?
  }

  lemma ScheduledIdles(s: State, step: Step)
    requires Good(s) && SchedulerCall(step).Some?
    ensures
      var u, c := Scheduled(s, step), SchedulerCall(step).value;
      Good(u) && u.running[c] == None && Apply(s, step) == Dispatch(u, c)
  {
    match step
    case Tick(c, w) => ScheduleKeeps(s, c, w); ScheduleIdles(s, c, w);
    case Wait(c, r, i, w) =>
      LeaveKeeps(s, c, Waits(r, i));
      ScheduleKeeps(Leave(s, c, Waits(r, i)), c, w);
      ScheduleIdles(Leave(s, c, Waits(r, i)), c, w);
    case Faulted(c, code, w) =>
      LeaveKeeps(s, c, Dies(code));
      ScheduleKeeps(Leave(s, c, Dies(code)), c, w);
      ScheduleIdles(Leave(s, c, Dies(code)), c, w);
  }

  /**
   With the slot alone, a step that calls the scheduler keeps every task in one place exactly when the core ran nothing
   before or the dispatcher finds a task for it; all other steps do.
   */
  lemma SlotAsWrittenExactly(s: State, step: Step)
    requires Good(s)
    ensures
      match SchedulerCall(step)
      case None => Placed(ApplyAsWritten(s, step))
      case Some(c) =>
        && Good(Scheduled(s, step))
        && (Placed(ApplyAsWritten(s, step)) <==> s.running[c].None? || Finds(Scheduled(s, step), c))
  {
    ApplyKeeps(s, step);
    if SchedulerCall(step).Some? {
      var c := SchedulerCall(step).value;
      ScheduledIdles(s, step);
      DispatchFills(Scheduled(s, step), c);
      if Apply(s, step).running[c].None? {
        SlotKept(Apply(s, step), c, s.running[c]);
      }
    }
  }

  /** An idle core's slot that names a task puts that task in two places, or in one its fields deny. */
  lemma SlotKept(s: State, c: Core, slot: Option<nat>)
    requires Good(s) && s.running[c] == None
    ensures Placed(s.(running := s.running[c := slot])) <==> slot.None?
  {
    if slot.None? {
      assert s.running[c := slot] == s.running;
    } else {
      assert s.running[c] != Some(slot.value);
      assert s.running[c := slot][c] == Some(slot.value);
    }
  }

  lemma DispatchFills(u: State, c: Core)
    requires Good(u) && u.running[c] == None
    ensures Good(Dispatch(u, c)) && (Dispatch(u, c).running[c].Some? <==> Finds(u, c))
  {
    DispatchKeeps(u, c);
    LevelQueueBounded(u, c);
    if Finds(u, c) {
      var q := ReadyQ(Level(u.rotor, c));
      var t := Pick(u.tasks, u.queues[q], 0, Examined(|u.queues[q]|, TASKS), c).value;
      ChoiceRespectsAffinity(u.tasks[t].flags, c);
      assert t in u.queues[q] && Home(u.tasks[t]) == On(q);
    }
  }

  /* ---------------------------------------------------------------- rotation inside a run */

  /** The core a step calls the scheduler on. */
  function SchedulerCall(step: Step): Option<Core> {
    match step
    case Tick(c, _) => Some(c)
    case Wait(c, _, _, _) => Some(c)
    case Faulted(c, _, _) => Some(c)
    case _ => None
  }

  function SchedulerCalls(steps: seq<Step>): seq<Core> {
    if steps == [] then []
    else
      var n := |steps| - 1;
      SchedulerCalls(steps[..n]) + if SchedulerCall(steps[n]).Some? then [SchedulerCall(steps[n]).value] else []
  }

  lemma {:induction false} SweepRotor(s: State, ids: seq<nat>, pass: Pass)
    requires Good(s) && From(s, ids, pass)
    ensures
      var s' := Sweep(s, ids, pass);
      s'.rotor == s.rotor && s'.slots == s.slots && s'.running == s.running
    decreases |ids|
  {
    if ids != [] {
      VisitKeeps(s, ids[0], pass);
      VisitFrame(s, ids[0], pass);
      NextFields(s.tasks[ids[0]], ids[0], s.timers, pass);
      SweepRotor(Visit(s, ids[0], pass), ids[1..], pass);
    }
  }

  /** A pass touches neither the lane words nor the slots of the request bank, and no core. */
  lemma RunPassRotor(s: State, pass: Pass)
    requires Good(s)
    ensures
      var s' := RunPass(s, pass);
      s'.rotor == s.rotor && s'.slots == s.slots && s'.running == s.running
  {
    LookedFrom(s, pass);
    SweepRotor(s, Looked(s, pass), pass);
  }

  lemma DispatchRotor(s: State, c: Core)
    requires Good(s)
    ensures Dispatch(s, c).rotor == s.rotor && Dispatch(s, c).slots == s.slots
  {
    LevelQueueBounded(s, c);
  }

  lemma RescheduleRotor(s: State, c: Core, w: World)
    requires Good(s)
    ensures Reschedule(s, c, w).rotor == Rotate(s.rotor, c) && Reschedule(s, c, w).slots == s.slots
  {
    LeaveKeeps(s, c, Preempted);
    var s1 := Leave(s, c, Preempted);
    RotateKeeps(s1, c);
    var s2 := s1.(rotor := Rotate(s1.rotor, c));
    RunPassKeeps(s2, Admit);
    RunPassRotor(s2, Admit);
    var s3 := RunPass(s2, Admit);
    RunPassKeeps(s3, Reap);
    RunPassRotor(s3, Reap);
    var s4 := RunPass(s3, Reap);
    RunPassKeeps(s4, Poll(w));
    RunPassRotor(s4, Poll(w));
    DispatchRotor(RunPass(s4, Poll(w)), c);
  }

  /** A step is a request that takes a slot. */
  predicate TakesSlot(s: State, step: Step)
    requires Shape(s)
  {
    step.TimerRequest? && s.running[step.core].Some? && s.slots < TIMERS
  }

  /** What a step does to the lane words and to the request bank's slots. */
  lemma ApplyRotor(s: State, step: Step)
    requires Good(s)
    ensures Apply(s, step).slots == s.slots + if TakesSlot(s, step) then 1 else 0
    ensures Apply(s, step).rotor ==
      if SchedulerCall(step).Some? then Rotate(s.rotor, SchedulerCall(step).value) else s.rotor
  {
    match step
    case Tick(c, w) => RescheduleRotor(s, c, w);
    case Wait(c, r, i, w) => LeaveKeeps(s, c, Waits(r, i)); RescheduleRotor(Leave(s, c, Waits(r, i)), c, w);
    case TimerRequest(c, wake) =>
    case Faulted(c, code, w) => LeaveKeeps(s, c, Dies(code)); RescheduleRotor(Leave(s, c, Dies(code)), c, w);
    case WakeUp(now) => RunPassRotor(s, Scheduler.Wake(now));
    case SpawnTask(pc, d, m) =>
  }

  lemma {:induction false} RunSnoc(s: State, steps: seq<Step>)
    requires Good(s) && steps != []
    ensures
      var n := |steps| - 1;
      Good(Run(s, steps[..n])) && Run(s, steps) == Apply(Run(s, steps[..n]), steps[n])
    decreases |steps|
  {
    var n := |steps| - 1;
    RunKeepsPlacement(s, steps[..n]);
    ApplyKeeps(s, steps[0]);
    var s' := Apply(s, steps[0]);
    if n == 0 {
      assert steps[1..] == [];
      assert Run(s', []) == s';
    } else {
      assert steps[..n][1..] == steps[1..][..n - 1];
      RunSnoc(s', steps[1..]);
    }
  }

  /** No scheduler call has been made yet. */
  predicate Unrotated(s: State) { s.rotor == Rotor(ZERO, ZERO) }

  lemma AppendedCall(calls: seq<Core>, call: Option<Core>, c: Core)
    ensures
      var all := calls + if call.Some? then [call.value] else [];
      && RotorAfter(all) == (if call.Some? then Rotate(RotorAfter(calls), call.value) else RotorAfter(calls))
      && CallsOf(all, c) == CallsOf(calls, c) + if call == Some(c) then 1 else 0
  {
    if call.Some? {
      assert (calls + [call.value])[..|calls|] == calls;
    } else {
      assert calls + [] == calls;
    }
  }

  /** In any run from boot the two words are those after the scheduler calls in it, in their order. */
  lemma {:induction false} RunRotor(s: State, steps: seq<Step>)
    requires Good(s) && Unrotated(s)
    ensures Run(s, steps).rotor == RotorAfter(SchedulerCalls(steps))
  {
    if steps != [] {
      var n := |steps| - 1;
      RunSnoc(s, steps);
      RunRotor(s, steps[..n]);
      ApplyRotor(Run(s, steps[..n]), steps[n]);
      AppendedCall(SchedulerCalls(steps[..n]), SchedulerCall(steps[n]), 0);
    }
  }

  /** Whether the step calls the scheduler on core `c` and leaves the core at `level`. */
  function Opens(s: State, steps: seq<Step>, j: nat, c: Core, level: nat): nat
    requires Good(s) && j < |steps|
  {
    if SchedulerCall(steps[j]) == Some(c) && Level(Run(s, steps[..j + 1]).rotor, c) == level then 1 else 0
  }

  /** How many of the steps `i` up to `j` do. */
  function OpenedIn(s: State, steps: seq<Step>, c: Core, i: nat, j: nat, level: nat): nat
    requires Good(s) && i <= j <= |steps|
  {
    if i == j then 0 else OpenedIn(s, steps, c, i, j - 1, level) + Opens(s, steps, j - 1, c, level)
  }

  function CallsBefore(steps: seq<Step>, j: nat, c: Core): nat
    requires j <= |steps|
  {
    CallsOf(SchedulerCalls(steps[..j]), c)
  }

  lemma OpensIsServed(s: State, steps: seq<Step>, j: nat, c: Core, level: nat)
    requires Good(s) && Unrotated(s) && j < |steps|
    ensures CallsBefore(steps, j + 1, c) == CallsBefore(steps, j, c) + if SchedulerCall(steps[j]) == Some(c) then 1 else 0
    ensures Opens(s, steps, j, c, level) ==
      if SchedulerCall(steps[j]) == Some(c) && LevelAfter(CallsBefore(steps, j + 1, c)) == level then 1 else 0
  {
    assert steps[..j + 1][..j] == steps[..j];
    AppendedCall(SchedulerCalls(steps[..j]), SchedulerCall(steps[j]), c);
    RunRotor(s, steps[..j + 1]);
    LanesCountOwnCalls(SchedulerCalls(steps[..j + 1]), c);
  }

  /** One more call is one more count, and none is none. */
  lemma ServedSnoc(first: nat, n: nat, m: nat, level: nat, hit: nat)
    requires m == n || m == n + 1
    requires hit == if m == n + 1 && LevelAfter(first + n) == level then 1 else 0
    ensures Served(first, m, level) == Served(first, n, level) + hit
  {
  }

  lemma {:induction false} OpenedInIsServed(s: State, steps: seq<Step>, c: Core, i: nat, j: nat, level: nat)
    requires Good(s) && Unrotated(s) && i <= j <= |steps|
    ensures
      var first, last := CallsBefore(steps, i, c), CallsBefore(steps, j, c);
      first <= last && OpenedIn(s, steps, c, i, j, level) == Served(first + 1, last - first, level)
  {
    if i < j {
      OpenedInIsServed(s, steps, c, i, j - 1, level);
      OpensIsServed(s, steps, j - 1, c, level);
      var first, before, last := CallsBefore(steps, i, c), CallsBefore(steps, j - 1, c), CallsBefore(steps, j, c);
      ServedSnoc(first + 1, before - first, last - first, level, Opens(s, steps, j - 1, c, level));
    }
  }

  /** In any run from boot, of any 48 scheduler calls of a core every level is opened by exactly 6. */
  lemma {:induction false} EveryRunIsFair(s: State, steps: seq<Step>, c: Core, i: nat, j: nat, level: nat)
    requires Good(s) && Unrotated(s) && i <= j <= |steps| && level < LEVELS
    requires CallsBefore(steps, j, c) == CallsBefore(steps, i, c) + 48
    ensures OpenedIn(s, steps, c, i, j, level) == 6
  {
    OpenedInIsServed(s, steps, c, i, j, level);
    var first := CallsBefore(steps, i, c);
    EveryLevelServedSixTimes(first + 1, level);
  }
}
