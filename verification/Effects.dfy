/**
 What one call of the scheduler does to every task and every queue, told from the state before it
 (lib/schaduler.c:74-181): the limits, levels and tests of its three passes in numbers.
 */
module Effects {
  import opened Common
  import opened Flags
  import opened Rotation
  import opened Tasks
  import opened Scheduler
  import opened Interleavings
  import Sleepers

  /** Task `t` is among the first `bound` of the queue, and is not its last. */
  ghost predicate Reached(q: seq<nat>, t: nat, bound: nat) {
    exists j :: 0 <= j < bound && j + 1 < |q| && q[j] == t
  }

  lemma ReachedExactly(q: seq<nat>, t: nat, bound: nat)
    ensures t in q[..Examined(|q|, bound)] <==> Reached(q, t, bound)
  {
    if j :| 0 <= j < bound && j + 1 < |q| && q[j] == t {
      assert q[..Examined(|q|, bound)][j] == t;
    }
  }

  /** The states between the scheduler's passes; each finds its own queue as it was before the call. */
  lemma Stages(s: State, c: Core, w: World) returns (s2: State, s3: State, s4: State)
    requires Good(s)
    ensures Good(s2) && Good(s3) && Good(s4)
    ensures s2 == Leave(s, c, Preempted).(rotor := Rotate(s.rotor, c))
    ensures s3 == RunPass(s2, Admit) && s4 == RunPass(s3, Reap)
    ensures Schedule(s, c, w) == RunPass(s4, Poll(w)) && Good(Schedule(s, c, w))
    ensures s2.queues[CreatedQ] == s.queues[CreatedQ]
    ensures s3.queues[TerminatedQ] == s2.queues[TerminatedQ] == s.queues[TerminatedQ]
    ensures s4.queues[WaitingQ] == s3.queues[WaitingQ] == s2.queues[WaitingQ] == s.queues[WaitingQ]
  {
    LeaveKeeps(s, c, Preempted);
    LeaveExactly(s, c, Preempted);
    var s1 := Leave(s, c, Preempted);
    RotateKeeps(s1, c);
    s2 := s1.(rotor := Rotate(s1.rotor, c));
    RunPassKeeps(s2, Admit);
    s3 := RunPass(s2, Admit);
    RunPassKeeps(s3, Reap);
    s4 := RunPass(s3, Reap);
    RunPassKeeps(s4, Poll(w));
    OtherQueue(s2, Admit, TerminatedQ);
    OtherQueue(s2, Admit, WaitingQ);
    OtherQueue(s3, Reap, WaitingQ);
  }

  /** Admission and reaping push onto no queue but ready ones. */
  lemma OtherQueue(s: State, pass: Pass, q: Queue)
    requires Good(s) && (pass.Admit? || pass.Reap?) && (q == TerminatedQ || q == WaitingQ) && q != Source(pass)
    ensures RunPass(s, pass).queues[q] == s.queues[q]
  {
    RunPassIsFilter(s, pass, q);
    MoversAre(s, Looked(s, pass), pass, q, {});
    NobodyIn(Looked(s, pass));
    assert s.queues[q] + [] == s.queues[q];
  }

  /**
   Every task: the one preempted goes one level down; each created task the call reaches becomes ready if it has the ready
   flag; the first three terminated tasks are erased; each of the first three waiting tasks becomes ready when its wait
   test holds -- at its handler, if it waited for an event -- and is terminated, with the fault code, when the test finds a
   fault.  The last task of a queue is never reached.  All others stay as they are.
   */
  lemma ScheduleTask(s: State, c: Core, w: World, t: nat)
    requires Good(s) && t < TASKS
    ensures
      var k, s' := s.tasks[t], Schedule(s, c, w);
      && Good(s') && Sleepers.Of(s', t) == Sleepers.Of(s, t)
      && s'.tasks[t] ==
         (if s.running[c] == Some(t) then
            k.(status := Ready, priority := if k.priority < 7 then k.priority + 1 else 7)
          else if Reached(s.queues[CreatedQ], t, 128) && k.flags & 4 != 0 then k.(status := Ready)
          else if Reached(s.queues[TerminatedQ], t, 3) then Task(false, Created, 0, 0, 0, 0, 0, 0, 0, 0)
          else if Reached(s.queues[WaitingQ], t, 3) then
            match TaskWaiting(k, t, w)
            case Blocked => k
            case Done => k.(status := Ready, pc := if k.reason == 8 then k.handler else k.pc)
            case Faulty(code) => k.(status := Terminated, fault := code)
          else k)
  {
    var s2, s3, s4 := Stages(s, c, w);
    LeaveExactly(s, c, Preempted);
    if s.running[c] == Some(t) {
      RunningHome(s, c, t);
    }
    PassTask(s2, Admit, t);
    PassTask(s3, Reap, t);
    PassTask(s4, Poll(w), t);
  }

  /** One task in one pass: what was decided about it, if the pass reached it. */
  lemma PassTask(s: State, pass: Pass, t: nat)
    requires Good(s) && t < TASKS && !pass.Wake?
    ensures
      var reached := Reached(s.queues[Source(pass)], t, if pass.Admit? then 128 else 3);
      && (reached ==> Home(s.tasks[t]) == On(Source(pass)))
      && RunPass(s, pass).tasks[t] ==
         (if reached && Decision(s, t, pass).Some? then Decision(s, t, pass).value else s.tasks[t])
      && Sleepers.Of(RunPass(s, pass), t) == Sleepers.Of(s, t)
  {
    ReachedExactly(s.queues[Source(pass)], t, if pass.Admit? then 128 else 3);
    Sleepers.RunPassTask(s, pass, t);
  }

  /** One task in a dispatch: as it was, or it was ready and runs on the core, with the flags that says. */
  lemma DispatchTask(s: State, c: Core, t: nat)
    requires Good(s) && t < TASKS
    ensures
      var k, s' := s.tasks[t], Dispatch(s, c);
      && |s'.tasks| == TASKS
      && (s'.tasks[t] == k ||
           var k' := s'.tasks[t];
           && k.valid && k.status == Ready
           && k' == k.(status := Running, flags := k'.flags) && CoreOf(k'.flags) == c && Accessed(k'.flags)
           && PreviousCore(k'.flags) ==
              if Accessed(k.flags) && CoreOf(k.flags) != c then CoreOf(k.flags) else PreviousCore(k.flags))
  {
    DispatchExactly(s, c);
    if Dispatch(s, c) != s {
      var l := ReadyQ(Level(s.rotor, c));
      var j: nat :| FirstEligible(s, s.queues[l], c, j) && Started(s, Dispatch(s, c), c, l, j);
      assert s.queues[l][j] in s.queues[l];
    }
  }

  /* ---------------------------------------------------------------- queues */

  /** Those of `ids` that are in `those`, in order. */
  ghost function Where(ids: seq<nat>, those: set<nat>): seq<nat> {
    if ids == [] then [] else (if ids[0] in those then [ids[0]] else []) + Where(ids[1..], those)
  }

  lemma {:induction false} NobodyIn(ids: seq<nat>)
    ensures Where(ids, {}) == []
  {
    if ids != [] {
      NobodyIn(ids[1..]);
    }
  }

  lemma {:induction false} MoversAre(s: State, ids: seq<nat>, pass: Pass, q: Queue, those: set<nat>)
    requires |s.tasks| == TASKS && forall i :: 0 <= i < |ids| ==> ids[i] < TASKS
    requires forall i :: 0 <= i < |ids| ==>
      (ids[i] in those <==> Decision(s, ids[i], pass).Some? && Home(Decision(s, ids[i], pass).value) == On(q))
    ensures Movers(s, ids, pass, q) == Where(ids, those)
  {
    if ids != [] {
      assert ids[0] in those <==> Decision(s, ids[0], pass).Some? && Home(Decision(s, ids[0], pass).value) == On(q);
      MoversAre(s, ids[1..], pass, q, those);
    }
  }

  lemma {:induction false} StayersAre(s: State, ids: seq<nat>, pass: Pass, those: set<nat>)
    requires |s.tasks| == TASKS && forall i :: 0 <= i < |ids| ==> ids[i] < TASKS
    requires forall i :: 0 <= i < |ids| ==> (ids[i] in those <==> Decision(s, ids[i], pass).None?)
    ensures Stayers(s, ids, pass) == Where(ids, those)
  {
    if ids != [] {
      assert ids[0] in those <==> Decision(s, ids[0], pass).None?;
      StayersAre(s, ids[1..], pass, those);
    }
  }

  /** The tasks with, and without, the ready flag; the former of one level. */
  ghost function Flagged(s: State, level: nat): set<nat>
    requires |s.tasks| == TASKS
  {
    set x: nat | x < TASKS && ReadyFlag(s.tasks[x].flags) && s.tasks[x].priority == level
  }

  ghost function Unflagged(s: State): set<nat>
    requires |s.tasks| == TASKS
  {
    set x: nat | x < TASKS && !ReadyFlag(s.tasks[x].flags)
  }

  /** The tasks whose wait test says "not yet", "done" (those of one level), and "fault". */
  ghost function NotYet(s: State, w: World): set<nat>
    requires |s.tasks| == TASKS
  {
    set x: nat | x < TASKS && TaskWaiting(s.tasks[x], x, w) == Blocked
  }

  ghost function Over(s: State, w: World, level: nat): set<nat>
    requires |s.tasks| == TASKS
  {
    set x: nat | x < TASKS && TaskWaiting(s.tasks[x], x, w) == Done && s.tasks[x].priority == level
  }

  ghost function Broken(s: State, w: World): set<nat>
    requires |s.tasks| == TASKS
  {
    set x: nat | x < TASKS && TaskWaiting(s.tasks[x], x, w).Faulty?
  }

  /** The task preempted on the core, if its new level is `level`. */
  ghost function Demoting(s: State, c: Core, level: nat): seq<nat>
    requires Shape(s)
  {
    match s.running[c]
    case None => []
    case Some(t) => if t < TASKS && level == (if s.tasks[t].priority < 7 then s.tasks[t].priority + 1 else 7) then [t] else []
  }

  /**
   Every queue, in order: a ready queue gets the preempted task, then the admitted and then the woken ones of its level;
   the terminated queue loses the first three and gets those found at fault; the waiting and the created queue keep the rest.
   */
  lemma ScheduleQueues(s: State, c: Core, w: World, q: Queue)
    requires Good(s) && q in s.queues
    ensures
      var created, dead, waiting := s.queues[CreatedQ], s.queues[TerminatedQ], s.queues[WaitingQ];
      var a, d, p := Examined(|created|, 128), Examined(|dead|, 3), Examined(|waiting|, 3);
      var s' := Schedule(s, c, w);
      && q in s'.queues
      && s'.queues[q] ==
         match q
         case CreatedQ => Where(created[..a], Unflagged(s)) + created[a..]
         case TerminatedQ => dead[d..] + Where(waiting[..p], Broken(s, w))
         case WaitingQ => Where(waiting[..p], NotYet(s, w)) + waiting[p..]
         case ReadyQ(l) =>
           s.queues[q] + Demoting(s, c, l) + Where(created[..a], Flagged(s, l)) + Where(waiting[..p], Over(s, w, l))
  {
    OneAfterAnother(s, c, w, q);
    var created, dead, waiting := s.queues[CreatedQ], s.queues[TerminatedQ], s.queues[WaitingQ];
    var q1 := s.queues[q] + if q.ReadyQ? then Demoting(s, c, q.level) else [];
    var q2 := Passed(s, Admit, q, created, q1);
    var q3 := Passed(s, Reap, q, dead, q2);
    PassedBy(s, Admit, q, created, q1);
    PassedBy(s, Reap, q, dead, q2);
    PassedBy(s, Poll(w), q, waiting, q3);
  }

  /** A pass that sends nothing to a queue leaves it alone. */
  lemma PassedBy(s: State, pass: Pass, q: Queue, src: seq<nat>, now: seq<nat>)
    requires |s.tasks| == TASKS
    ensures q != Source(pass) && Sent(s, pass, q) == {} ==> Passed(s, pass, q, src, now) == now
    ensures pass.Reap? && q == TerminatedQ ==> Passed(s, pass, q, src, now) == src[Examined(|src|, 3)..]
  {
    var n := Examined(|src|, if pass.Admit? then 128 else 3);
    NobodyIn(src[..n]);
    assert now + [] == now && [] + src[n..] == src[n..];
  }

  /** What a pass makes of queue `q`, which holds `now`, its source queue being `src`. */
  ghost function Passed(s: State, pass: Pass, q: Queue, src: seq<nat>, now: seq<nat>): seq<nat>
    requires |s.tasks| == TASKS
  {
    var n := Examined(|src|, if pass.Admit? then 128 else 3);
    if q == Source(pass) then Where(src[..n], Kept(s, pass)) + src[n..] else now + Where(src[..n], Sent(s, pass, q))
  }

  lemma OneAfterAnother(s: State, c: Core, w: World, q: Queue)
    requires Good(s) && q in s.queues
    ensures q in Schedule(s, c, w).queues
    ensures
      var q1 := s.queues[q] + if q.ReadyQ? then Demoting(s, c, q.level) else [];
      var q2 := Passed(s, Admit, q, s.queues[CreatedQ], q1);
      var q3 := Passed(s, Reap, q, s.queues[TerminatedQ], q2);
      Schedule(s, c, w).queues[q] == Passed(s, Poll(w), q, s.queues[WaitingQ], q3)
  {
    var s2, s3, s4 := Stages(s, c, w);
    DemotedQueue(s, c, q);
    StillThere(s, c, w, s2, s3, s4);
    PassQueue(s, s2, Admit, q);
    PassQueue(s, s3, Reap, q);
    PassQueue(s, s4, Poll(w), q);
  }

  lemma DemotedQueue(s: State, c: Core, q: Queue)
    requires Good(s) && q in s.queues
    ensures q in Leave(s, c, Preempted).queues
    ensures Leave(s, c, Preempted).queues[q] == s.queues[q] + if q.ReadyQ? then Demoting(s, c, q.level) else []
  {
    LeaveExactly(s, c, Preempted);
    assert s.queues[q] + [] == s.queues[q];
    if s.running[c].Some? {
      RunningHome(s, c, s.running[c].value);
    }
  }

  /** The tasks of a pass's own queue are as they were before the call. */
  ghost predicate Unread(s: State, u: State, pass: Pass)
    requires Shape(s) && Shape(u)
  {
    && u.queues[Source(pass)] == s.queues[Source(pass)]
    && forall x :: 0 <= x < TASKS && Home(s.tasks[x]) == On(Source(pass)) ==> u.tasks[x] == s.tasks[x]
  }

  lemma StillThere(s: State, c: Core, w: World, s2: State, s3: State, s4: State)
    requires Good(s) && Good(s2) && Good(s3) && Good(s4)
    requires s2 == Leave(s, c, Preempted).(rotor := Rotate(s.rotor, c))
    requires s3 == RunPass(s2, Admit) && s4 == RunPass(s3, Reap)
    requires s2.queues[CreatedQ] == s.queues[CreatedQ] && s3.queues[TerminatedQ] == s.queues[TerminatedQ]
    requires s4.queues[WaitingQ] == s.queues[WaitingQ]
    ensures Unread(s, s2, Admit) && Unread(s, s3, Reap) && Unread(s, s4, Poll(w))
  {
    LeaveExactly(s, c, Preempted);
    forall x | 0 <= x < TASKS && Home(s.tasks[x]).On?
      ensures s2.tasks[x] == s.tasks[x]
      ensures Home(s.tasks[x]) != On(CreatedQ) ==> s3.tasks[x] == s.tasks[x]
      ensures Home(s.tasks[x]) == On(WaitingQ) ==> s4.tasks[x] == s.tasks[x]
    {
      Sleepers.RunPassTask(s2, Admit, x);
      Sleepers.RunPassTask(s3, Reap, x);
    }
  }

  /** The tasks a pass leaves where they are, and those it sends to queue `q`, by their fields. */
  ghost function Kept(s: State, pass: Pass): set<nat>
    requires |s.tasks| == TASKS
  {
    match pass
    case Admit => Unflagged(s)
    case Poll(w) => NotYet(s, w)
    case _ => {}
  }

  ghost function Sent(s: State, pass: Pass, q: Queue): set<nat>
    requires |s.tasks| == TASKS
  {
    match (pass, q)
    case (Admit, ReadyQ(l)) => Flagged(s, l)
    case (Poll(w), ReadyQ(l)) => Over(s, w, l)
    case (Poll(w), TerminatedQ) => Broken(s, w)
    case _ => {}
  }

  lemma ByItsFields(s: State, u: State, pass: Pass, q: Queue, x: nat)
    requires Good(s) && Shape(u) && x < TASKS && u.tasks[x] == s.tasks[x] && !pass.Wake? && s.tasks[x].valid
    ensures x in Kept(s, pass) <==> Decision(u, x, pass).None?
    ensures x in Sent(s, pass, q) <==> Decision(u, x, pass).Some? && Home(Decision(u, x, pass).value) == On(q)
  {
  }

  lemma PassQueue(s: State, u: State, pass: Pass, q: Queue)
    requires Good(s) && Good(u) && !pass.Wake? && q in s.queues && Unread(s, u, pass)
    ensures q in u.queues && q in RunPass(u, pass).queues
    ensures
      RunPass(u, pass).queues[q] == Passed(s, pass, q, s.queues[Source(pass)], u.queues[q])
  {
    RunPassIsFilter(u, pass, q);
    LookedFrom(s, pass);
    var ids := Looked(s, pass);
    forall i | 0 <= i < |ids|
      ensures ids[i] in Kept(s, pass) <==> Decision(u, ids[i], pass).None?
      ensures ids[i] in Sent(s, pass, q) <==> Decision(u, ids[i], pass).Some? && Home(Decision(u, ids[i], pass).value) == On(q)
    {
      ByItsFields(s, u, pass, q, ids[i]);
    }
    if q == Source(pass) {
      StayersAre(u, ids, pass, Kept(s, pass));
    } else {
      MoversAre(u, ids, pass, q, Sent(s, pass, q));
    }
  }
}
