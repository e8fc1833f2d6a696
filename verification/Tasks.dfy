/**
 Task placement: the PCB bank, the eleven queues and the four running slots as one value, and the single operation
 every scheduler routine is made of -- taking a task from where it is and putting it where its new status says.
 */
module Tasks {
  import opened Common
  import opened Flags
  import opened Rotation

  const TASKS: nat := 128
  const TIMER_REASON: nat := 4
  const TIMERS: nat := 64

  datatype Status = Created | Ready | Running | Terminated | Waiting
  datatype Queue = CreatedQ | ReadyQ(level: nat) | WaitingQ | TerminatedQ
  datatype Place = Nowhere | On(queue: Queue) | At(core: Core)

  datatype Task = Task(valid: bool, status: Status, priority: nat, flags: bv8, reason: nat, instruction: nat,
                       event: nat, handler: nat, pc: nat, fault: nat)

  datatype Timer = Timer(id: nat, wake: nat)

  /** `slots` counts the entries of the timer request bank ever used: nothing clears one again. */
  datatype State = State(tasks: seq<Task>, queues: map<Queue, seq<nat>>, running: seq<Option<nat>>,
                         timers: seq<Timer>, slots: nat, rotor: Rotor)

  /** Where a task's own fields say it is. */
  function Home(k: Task): Place {
    if !k.valid then Nowhere
    else match k.status
      case Created => On(CreatedQ)
      case Ready => On(ReadyQ(k.priority))
      case Running => At(CoreOf(k.flags))
      case Terminated => On(TerminatedQ)
      case Waiting => On(WaitingQ)
  }

  predicate IsQueue(q: Queue) { q.ReadyQ? ==> q.level < LEVELS }

  ghost predicate Shape(s: State) {
    && |s.tasks| == TASKS && |s.running| == 4
    && forall q: Queue :: q in s.queues <==> IsQueue(q)
  }

  ghost predicate QueuesAgree(s: State)
    requires Shape(s)
  {
    forall q, t: nat {:trigger t in s.queues[q]} :: q in s.queues ==> (t in s.queues[q] <==> t < TASKS && Home(s.tasks[t]) == On(q))
  }

  ghost predicate CoresAgree(s: State)
    requires Shape(s)
  {
    forall c: Core, t: nat :: s.running[c] == Some(t) <==> t < TASKS && Home(s.tasks[t]) == At(c)
  }

  /**
   The placement invariant: a task is on a queue, or in a core's running slot, exactly when its fields say so.
   As `Home` is a function, a valid task is in exactly one place, once.
   */
  ghost predicate Placed(s: State) {
    && Shape(s)
    && QueuesAgree(s)
    && CoresAgree(s)
    && (forall q :: q in s.queues ==> Distinct(s.queues[q]))
    && (forall t :: 0 <= t < TASKS && s.tasks[t].valid ==> Sound(s.tasks[t]))
  }

  /** A live task has one of the eight priorities, and has been accessed if it is running. */
  predicate Sound(k: Task) {
    k.priority < LEVELS && (k.status == Running ==> Accessed(k.flags))
  }

  /** `fw_rm` at the position of `t`. */
  function Removed(q: seq<nat>, t: nat): seq<nat> {
    if q == [] then [] else if q[0] == t then q[1..] else [q[0]] + Removed(q[1..], t)
  }

  lemma {:induction false} RemovedElements(q: seq<nat>, t: nat)
    requires Distinct(q)
    ensures Distinct(Removed(q, t))
    ensures forall x :: x in Removed(q, t) <==> x in q && x != t
  {
    if q != [] && q[0] != t {
      RemovedElements(q[1..], t);
      assert forall x :: x in q <==> x == q[0] || x in q[1..];
      assert forall x :: x in Removed(q, t) <==> x == q[0] || x in Removed(q[1..], t);
      assert q[0] !in Removed(q[1..], t);
    } else if q != [] {
      assert forall x :: x in q <==> x == q[0] || x in q[1..];
    }
  }

  function Taken(s: State, t: nat): State
    requires Shape(s) && t < TASKS
  {
    match Home(s.tasks[t])
    case Nowhere => s
    case On(q) => if q in s.queues then s.(queues := s.queues[q := Removed(s.queues[q], t)]) else s
    case At(c) => s.(running := s.running[c := None])
  }

  function Put(s: State, t: nat, k: Task): State
    requires Shape(s) && t < TASKS
  {
    var s' := s.(tasks := s.tasks[t := k]);
    match Home(k)
    case Nowhere => s'
    case On(q) => if q in s.queues then s'.(queues := s.queues[q := s.queues[q] + [t]]) else s'
    case At(c) => s'.(running := s.running[c := Some(t)])
  }

  /** Takes task `t` from its place, gives it the fields `k`, and appends it where `k` says it belongs. */
  function Move(s: State, t: nat, k: Task): State
    requires Shape(s) && t < TASKS
  {
    Put(Taken(s, t), t, k)
  }

  /** A task may be given fields `k` when they name an existing queue or a core that is idle. */
  predicate Welcome(s: State, k: Task)
    requires |s.running| == 4
  {
    && (k.valid ==> Sound(k))
    && (Home(k).At? ==> s.running[Home(k).core] == None)
  }

  /** `u` is `s` with task `t` taken out of its place and its fields not yet rewritten. */
  ghost predicate Vacated(s: State, t: nat, u: State)
    requires Shape(s)
  {
    && Shape(u) && u.tasks == s.tasks
    && (forall q :: q in u.queues ==> Distinct(u.queues[q]))
    && (forall q, x: nat {:trigger x in u.queues[q]} :: q in u.queues ==> (x in u.queues[q] <==> x < TASKS && x != t && Home(s.tasks[x]) == On(q)))
    && (forall c: Core, x: nat :: u.running[c] == Some(x) <==> x < TASKS && x != t && Home(s.tasks[x]) == At(c))
  }

  lemma TakenVacates(s: State, t: nat)
    requires Placed(s) && t < TASKS
    ensures Vacated(s, t, Taken(s, t))
  {
    if Home(s.tasks[t]).On? && Home(s.tasks[t]).queue in s.queues {
      RemovedElements(s.queues[Home(s.tasks[t]).queue], t);
    }
  }

  lemma PutOnQueue(s: State, t: nat, u: State, k: Task)
    requires Shape(s) && Vacated(s, t, u) && t < TASKS && (k.valid ==> Sound(k))
    ensures QueuesAgree(Put(u, t, k))
  {
    var s' := Put(u, t, k);
    forall q, x: nat | q in s'.queues
      ensures x in s'.queues[q] <==> x < TASKS && Home(s'.tasks[x]) == On(q)
    {
      assert x in u.queues[q] <==> x < TASKS && x != t && Home(s.tasks[x]) == On(q);
      if Home(k) == On(q) {
        assert s'.queues[q] == u.queues[q] + [t];
      } else {
        assert s'.queues[q] == u.queues[q];
      }
    }
  }

  lemma PutOnce(s: State, t: nat, u: State, k: Task)
    requires Shape(s) && Vacated(s, t, u) && t < TASKS
    ensures forall q :: q in u.queues ==> Distinct(Put(u, t, k).queues[q])
  {
    assert forall q :: q in u.queues ==> t !in u.queues[q];
  }

  lemma PutOnCore(s: State, t: nat, u: State, k: Task)
    requires Shape(s) && Vacated(s, t, u) && t < TASKS && Welcome(u, k)
    ensures Shape(Put(u, t, k)) && CoresAgree(Put(u, t, k))
  {
    var s' := Put(u, t, k);
    forall c: Core, x: nat
      ensures s'.running[c] == Some(x) <==> x < TASKS && Home(s'.tasks[x]) == At(c)
    {
      assert u.running[c] == Some(x) <==> x < TASKS && x != t && Home(s.tasks[x]) == At(c);
    }
  }

  /** Every move keeps every task in exactly one place. */
  lemma MoveKeepsPlaced(s: State, t: nat, k: Task)
    requires Placed(s) && t < TASKS && Welcome(s, k)
    ensures Placed(Move(s, t, k))
  {
    TakenVacates(s, t);
    PutOnQueue(s, t, Taken(s, t), k);
    PutOnce(s, t, Taken(s, t), k);
    PutOnCore(s, t, Taken(s, t), k);
  }

  /** A move changes nothing but the task, its place and the place it goes to. */
  lemma MoveFrame(s: State, t: nat, k: Task)
    requires Shape(s) && t < TASKS
    ensures
      var s' := Move(s, t, k);
      && Shape(s') && s'.tasks == s.tasks[t := k]
      && s'.timers == s.timers && s'.slots == s.slots && s'.rotor == s.rotor
  {
  }

  /** A queue of different tasks is no longer than the bank. */
  lemma {:induction false} QueueFitsBank(q: seq<nat>, bound: nat)
    requires Distinct(q) && forall i :: 0 <= i < |q| ==> q[i] < bound
    ensures |q| <= bound
    decreases bound
  {
    if bound > 0 {
      var r := Removed(q, bound - 1);
      RemovedElements(q, bound - 1);
      RemovedLength(q, bound - 1);
      forall i | 0 <= i < |r|
        ensures r[i] < bound - 1
      {
        assert r[i] in r;
      }
      QueueFitsBank(r, bound - 1);
    }
  }

  lemma {:induction false} RemovedLength(q: seq<nat>, t: nat)
    ensures |Removed(q, t)| >= |q| - 1
  {
    if q != [] && q[0] != t {
      RemovedLength(q[1..], t);
    }
  }
}
