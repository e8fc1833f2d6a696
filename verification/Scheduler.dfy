/**
 The scheduler's routines as steps on the placement state (lib/schaduler.c; exception/synchronous/svc/svc.c:594-607).

 Each routine runs under the queue lock, so an interleaving of cores is a sequence of these steps.
 */
module Scheduler {
  import opened Common
  import opened Flags
  import opened Rotation
  import opened Tasks

  /* ---------------------------------------------------------------- waiting conditions */

  datatype Muart = Muart(owner: nat, free: bool, writeLength: nat, written: nat, readMaximum: nat, read: nat)
  datatype Mail = NoMailbox | Denied | Mailbox(empty: bool)

  /** What the wait tests read besides the task itself. */
  datatype World = World(muart: Muart, memory: nat -> nat, mail: (nat, nat) -> Mail)

  datatype Verdict = Blocked | Done | Faulty(code: nat)

  /** `__built_in_task_waiting`, with the numbering of its own `switch`. */
  function TaskWaiting(k: Task, id: nat, w: World): Verdict {
    match k.reason
    case 0 => if w.muart.owner != id then Faulty(10) else if w.muart.writeLength == w.muart.written then Done else Blocked
    case 1 => if w.muart.owner != id then Faulty(10) else if w.muart.readMaximum == w.muart.read then Done else Blocked
    case 2 => if w.muart.free && w.muart.owner == 0 then Done else Blocked
    case 3 => if w.muart.free && w.muart.owner != 0 then Done else Blocked
    case 4 => Blocked  // timer requests are checked by the wake-up service
    case 5 => if w.memory(k.instruction) > 0 then Done else Blocked
    case 6 => if w.memory(k.instruction) == 0 then Done else Blocked
    case 7 => (match w.mail(k.instruction, id)
               case NoMailbox => Faulty(11)
               case Denied => Faulty(12)
               case Mailbox(empty) => if empty then Done else Blocked)
    case 8 => if k.event == 0 then Blocked else if k.handler != 0 then Done else Blocked
    case _ => Blocked
  }

  /** The wait tests, by verdict: what each of the numbered reasons waits for, and the three faults. */
  lemma VerdictExactly(k: Task, id: nat, w: World)
    ensures
      var v, r, m, word, mail := TaskWaiting(k, id, w), k.reason, w.muart, w.memory(k.instruction), w.mail(k.instruction, id);
      && (v == Done <==>
            || (r == 0 && m.owner == id && m.writeLength == m.written)
            || (r == 1 && m.owner == id && m.readMaximum == m.read)
            || (r == 2 && m.free && m.owner == 0)
            || (r == 3 && m.free && m.owner > 0)
            || (r == 5 && word > 0)
            || (r == 6 && word == 0)
            || (r == 7 && mail == Mailbox(true))
            || (r == 8 && k.event > 0 && k.handler > 0))
      && (v == Faulty(10) <==> r <= 1 && m.owner != id)
      && (v == Faulty(11) <==> r == 7 && mail == NoMailbox)
      && (v == Faulty(12) <==> r == 7 && mail == Denied)
      && (v.Faulty? ==> v.code in {10, 11, 12})
  {
  }

  /* ---------------------------------------------------------------- one task of a pass */

  datatype Pass = Admit | Reap | Poll(world: World) | Wake(now: nat)

  function CLEARED(): Task { Task(false, Created, 0, 0, 0, 0, 0, 0, 0, 0) }

  /** The wake times a task has asked for, in the order of asking; `tfw_find` and `tfw_rm` see the first. */
  function Requests(timers: seq<Timer>, id: nat): seq<nat> {
    if timers == [] then []
    else (if timers[0].id == id then [timers[0].wake] else []) + Requests(timers[1..], id)
  }

  function DropTimer(timers: seq<Timer>, id: nat): seq<Timer> {
    if timers == [] then [] else if timers[0].id == id then timers[1..] else [timers[0]] + DropTimer(timers[1..], id)
  }

  predicate Due(k: Task, id: nat, timers: seq<Timer>, now: nat) {
    k.reason == TIMER_REASON && Requests(timers, id) != [] && Requests(timers, id)[0] <= now
  }

  /** The fields a pass gives the task it looks at; `None` when it leaves the task where it is. */
  function Next(k: Task, id: nat, timers: seq<Timer>, pass: Pass): Option<Task> {
    match pass
    case Admit => if ReadyFlag(k.flags) then Some(k.(status := Ready)) else None
    case Reap => Some(CLEARED())
    case Poll(w) => (match TaskWaiting(k, id, w)
                     case Blocked => None
                     case Done => Some(k.(status := Ready, pc := if k.reason == 8 then k.handler else k.pc))
                     case Faulty(code) => Some(k.(status := Terminated, fault := code)))
    case Wake(now) => if Due(k, id, timers, now) then Some(k.(status := Ready)) else None
  }

  function Decision(s: State, x: nat, pass: Pass): Option<Task>
    requires |s.tasks| == TASKS && x < TASKS
  {
    Next(s.tasks[x], x, s.timers, pass)
  }

  function TimersAfter(timers: seq<Timer>, t: nat, pass: Pass): seq<Timer> {
    match pass
    case Wake(_) => DropTimer(timers, t)
    case _ => timers
  }

  /**
   A visit.  As the code stands no wake-up rewrites the status (`WokenAsWritten`); and the requests of a reaped task stay
   queued, because the release routines do not run (`Ledger.TerminateAsWritten`).
   */
  function Visit(s: State, t: nat, pass: Pass): State
    requires Shape(s) && t < TASKS
  {
    match Decision(s, t, pass)
    case None => s
    case Some(k) =>
      Move(s, t, k).(timers := TimersAfter(s.timers, t, pass))
  }

  /** A pass over the tasks `ids`, in order. */
  function Sweep(s: State, ids: seq<nat>, pass: Pass): (s': State)
    requires Shape(s) && forall i :: 0 <= i < |ids| ==> ids[i] < TASKS
    ensures Shape(s')
    decreases |ids|
  {
    if ids == [] then s else Sweep(Visit(s, ids[0], pass), ids[1..], pass)
  }

  /* ---------------------------------------------------------------- the routines */

  function Source(pass: Pass): Queue {
    match pass
    case Admit => CreatedQ
    case Reap => TerminatedQ
    case Poll(_) => WaitingQ
    case Wake(_) => WaitingQ
  }

  const PASS_BOUND: nat := 3  // tasks reaped, and tasks polled, per scheduler call

  /** The tasks a pass looks at; the wake-up service alone goes on to the end of its queue. */
  function Looked(s: State, pass: Pass): seq<nat>
    requires Shape(s)
  {
    var q := s.queues[Source(pass)];
    match pass
    case Admit => q[..Examined(|q|, TASKS)]
    case Reap => q[..Examined(|q|, PASS_BOUND)]
    case Poll(_) => q[..Examined(|q|, PASS_BOUND)]
    case Wake(_) => q[..if |q| <= TASKS then |q| else TASKS]
  }

  /** `ids` are different tasks of the pass's source queue. */
  ghost predicate From(s: State, ids: seq<nat>, pass: Pass)
    requires Shape(s)
  {
    Distinct(ids) && forall i :: 0 <= i < |ids| ==> ids[i] < TASKS && Home(s.tasks[ids[i]]) == On(Source(pass))
  }

  lemma LookedFrom(s: State, pass: Pass)
    requires Placed(s)
    ensures From(s, Looked(s, pass), pass)
  {
    var q, ids := s.queues[Source(pass)], Looked(s, pass);
    forall i | 0 <= i < |ids|
      ensures ids[i] < TASKS && Home(s.tasks[ids[i]]) == On(Source(pass))
    {
      assert ids[i] == q[i] && q[i] in q;
    }
  }

  function RunPass(s: State, pass: Pass): (s': State)
    requires Placed(s)
    ensures Shape(s')
  {
    LookedFrom(s, pass);
    Sweep(s, Looked(s, pass), pass)
  }

  /** Punishment: one level lower in urgency, capped at the last. */
  function Demoted(p: nat): nat { if p + 1 > 7 then 7 else p + 1 }

  /** Reward: one level higher; `built_in_max` compares signed, so 0 stays 0 (lib/math.s:13-16). */
  function Rewarded(p: nat): nat { if 0 >= p - 1 then 0 else p - 1 }

  /** One reward undoes one punishment, and the other way round, except at the ends; neither leaves the eight levels. */
  lemma RewardUndoesPunishment(p: nat)
    requires p < LEVELS
    ensures Demoted(p) < LEVELS && Rewarded(p) < LEVELS
    ensures Rewarded(Demoted(p)) == p <==> p != 7
    ensures Demoted(Rewarded(p)) == p <==> p != 0
  {
  }

  /** Line 96 as written takes a maximum where the comment means a cap. */
  function DemotedAsWritten(p: nat): nat { if p + 1 >= 7 then p + 1 else 7 }

  /** It names a queue that does not exist exactly for priority 7, and agrees with the cap exactly for priority 6. */
  lemma DemotionAsWritten(p: nat)
    requires p < LEVELS
    ensures DemotedAsWritten(p) < LEVELS <==> p != 7
    ensures DemotedAsWritten(p) == Demoted(p) <==> p == 6
  {
  }

  ghost predicate RotorOk(r: Rotor) {
    forall c: Core :: Ticks(r, c) < 6 && Level(r, c) < LEVELS
  }

  /** The request bank: no more requests than slots used, and no more of those than there are. */
  ghost predicate BankOk(s: State) { |s.timers| <= s.slots <= TIMERS }

  predicate Asleep(s: State, t: nat)
    requires |s.tasks| == TASKS
  {
    t < TASKS && Home(s.tasks[t]) == On(WaitingQ) && s.tasks[t].reason == TIMER_REASON
  }

  /** The scheduler's whole invariant. */
  ghost predicate Good(s: State) {
    Placed(s) && RotorOk(s.rotor) && BankOk(s)
  }

  /* ---------------------------------------------------------------- passes keep the invariant */

  /** No pass gives a task the running status, and every pass keeps the flags of the tasks it leaves alive. */
  lemma NextFields(k: Task, id: nat, timers: seq<Timer>, pass: Pass)
    ensures
      var next := Next(k, id, timers, pass);
      next.Some? ==> next.value.status != Running && (next.value.valid ==> k.valid && next.value.flags == k.flags)
  {
  }

  lemma VisitKeeps(s: State, t: nat, pass: Pass)
    requires Good(s) && t < TASKS && Home(s.tasks[t]) == On(Source(pass))
    ensures Good(Visit(s, t, pass))
  {
    match Decision(s, t, pass)
    case None =>
    case Some(k) =>
      MoveKeepsPlaced(s, t, k);
      DropsShorten(s.timers, t);
  }

  lemma {:induction false} DropsShorten(timers: seq<Timer>, id: nat)
    ensures |DropTimer(timers, id)| <= |timers|
  {
    if timers != [] {
      DropsShorten(timers[1..], id);
    }
  }

  /** Dropping takes a task's first request, and nobody else's. */
  lemma {:induction false} DropTimerRequests(timers: seq<Timer>, gone: nat, id: nat)
    ensures Requests(DropTimer(timers, gone), id) ==
      if id == gone && Requests(timers, gone) != [] then Requests(timers, gone)[1..] else Requests(timers, id)
  {
    if timers != [] && timers[0].id != gone {
      DropTimerRequests(timers[1..], gone, id);
    }
  }

  /** `s'` differs from `s` in task `t` and its timer requests only, as far as the bank and the timers go. */
  ghost predicate After(s: State, t: nat, s': State) {
    && |s.tasks| == |s'.tasks| == TASKS
    && (forall x :: 0 <= x < TASKS && x != t ==> s'.tasks[x] == s.tasks[x])
    && (forall x: nat :: x != t ==> Requests(s'.timers, x) == Requests(s.timers, x))
    && s'.slots == s.slots && s'.rotor == s.rotor
  }

  lemma VisitFrame(s: State, t: nat, pass: Pass)
    requires Shape(s) && t < TASKS
    ensures After(s, t, Visit(s, t, pass))
  {
    match Decision(s, t, pass)
    case None =>
    case Some(k) =>
      MoveFrame(s, t, k);
      forall x: nat | x != t
        ensures Requests(TimersAfter(s.timers, t, pass), x) == Requests(s.timers, x)
      {
        DropTimerRequests(s.timers, t, x);
      }
  }

  /** The queues with task `t` taken off `from`, and at the back of `to`. */
  function Taking(s: State, from: Queue, t: nat): map<Queue, seq<nat>>
    requires from in s.queues
  {
    s.queues[from := Removed(s.queues[from], t)]
  }

  function Pushing(queues: map<Queue, seq<nat>>, to: Queue, t: nat): map<Queue, seq<nat>>
    requires to in queues
  {
    queues[to := queues[to] + [t]]
  }

  /**
   The unlinking and pushing calls of each pass, queue by queue: admission and waking push onto the ready queue of the
   task's priority, a failed wait test onto the terminated queue, and reaping pushes nowhere.
   */
  lemma VisitPushes(s: State, t: nat, pass: Pass)
    requires Placed(s) && t < TASKS && Home(s.tasks[t]) == On(Source(pass)) && Decision(s, t, pass).Some?
    ensures
      var left, ready := Taking(s, Source(pass), t), ReadyQ(s.tasks[t].priority);
      && ready in left && TerminatedQ in left
      && Visit(s, t, pass).running == s.running
      && Visit(s, t, pass).queues ==
           (match pass
            case Admit => Pushing(left, ready, t)
            case Reap => left
            case Poll(w) =>
              if TaskWaiting(s.tasks[t], t, w) == Done then Pushing(left, ready, t) else Pushing(left, TerminatedQ, t)
            case Wake(_) => Pushing(left, ready, t))
  {
    assert IsQueue(ReadyQ(s.tasks[t].priority));
  }

  lemma {:induction false} SweepKeeps(s: State, ids: seq<nat>, pass: Pass)
    requires Good(s) && From(s, ids, pass)
    ensures Good(Sweep(s, ids, pass))
    decreases |ids|
  {
    if ids != [] {
      VisitKeeps(s, ids[0], pass);
      VisitFrame(s, ids[0], pass);
      SweepKeeps(Visit(s, ids[0], pass), ids[1..], pass);
    }
  }

  lemma RunPassKeeps(s: State, pass: Pass)
    requires Good(s)
    ensures Good(RunPass(s, pass))
  {
    LookedFrom(s, pass);
    SweepKeeps(s, Looked(s, pass), pass);
  }

  /* ---------------------------------------------------------------- passes are filters */

  /** Those of `ids` the pass leaves where they are, in order. */
  function Stayers(s: State, ids: seq<nat>, pass: Pass): seq<nat>
    requires |s.tasks| == TASKS && forall i :: 0 <= i < |ids| ==> ids[i] < TASKS
  {
    if ids == [] then []
    else (if Decision(s, ids[0], pass).None? then [ids[0]] else []) + Stayers(s, ids[1..], pass)
  }

  /** Those of `ids` the pass sends to queue `q`, in order. */
  function Movers(s: State, ids: seq<nat>, pass: Pass, q: Queue): seq<nat>
    requires |s.tasks| == TASKS && forall i :: 0 <= i < |ids| ==> ids[i] < TASKS
  {
    if ids == [] then []
    else
      var next := Decision(s, ids[0], pass);
      (if next.Some? && Home(next.value) == On(q) then [ids[0]] else []) + Movers(s, ids[1..], pass, q)
  }

  lemma {:induction false} StayersSnoc(s: State, ids: seq<nat>, x: nat, pass: Pass)
    requires |s.tasks| == TASKS && x < TASKS && forall i :: 0 <= i < |ids| ==> ids[i] < TASKS
    ensures Stayers(s, ids + [x], pass) == Stayers(s, ids, pass) + if Decision(s, x, pass).None? then [x] else []
  {
    if ids == [] {
      assert ids + [x] == [x] && [x][1..] == [];
    } else {
      assert (ids + [x])[1..] == ids[1..] + [x];
      StayersSnoc(s, ids[1..], x, pass);
    }
  }

  lemma {:induction false} EqualDecisions(s: State, s': State, ids: seq<nat>, pass: Pass, q: Queue)
    requires |s.tasks| == |s'.tasks| == TASKS && forall i :: 0 <= i < |ids| ==> ids[i] < TASKS
    requires forall i :: 0 <= i < |ids| ==> Decision(s', ids[i], pass) == Decision(s, ids[i], pass)
    ensures Stayers(s', ids, pass) == Stayers(s, ids, pass) && Movers(s', ids, pass, q) == Movers(s, ids, pass, q)
  {
    if ids != [] {
      assert Decision(s', ids[0], pass) == Decision(s, ids[0], pass);
      EqualDecisions(s, s', ids[1..], pass, q);
    }
  }

  /** A visit does not change what the pass decides about any other task. */
  lemma DecisionsStand(s: State, s': State, t: nat, ids: seq<nat>, pass: Pass, q: Queue)
    requires After(s, t, s') && t !in ids && forall i :: 0 <= i < |ids| ==> ids[i] < TASKS
    ensures Stayers(s', ids, pass) == Stayers(s, ids, pass) && Movers(s', ids, pass, q) == Movers(s, ids, pass, q)
  {
    forall i | 0 <= i < |ids|
      ensures Decision(s', ids[i], pass) == Decision(s, ids[i], pass)
    {
      assert ids[i] != t;
    }
    EqualDecisions(s, s', ids, pass, q);
  }

  lemma {:induction false} RemovedMiddle(pre: seq<nat>, t: nat, post: seq<nat>)
    requires t !in pre
    ensures Removed(pre + ([t] + post), t) == pre + post
  {
    var w := pre + ([t] + post);
    if pre == [] {
      assert w == [t] + post;
      assert w[1..] == post == pre + post;
    } else {
      RemovedMiddle(pre[1..], t, post);
      assert w[0] == pre[0] && w[1..] == pre[1..] + ([t] + post);
      assert [pre[0]] + (pre[1..] + post) == pre + post;
    }
  }

  lemma VisitQueues(s: State, t: nat, pass: Pass, q: Queue)
    requires Good(s) && t < TASKS && Home(s.tasks[t]) == On(Source(pass)) && q in s.queues
    ensures
      var next := Decision(s, t, pass);
      var s' := Visit(s, t, pass);
      && q in s'.queues
      && (q == Source(pass) ==> s'.queues[q] == if next.None? then s.queues[q] else Removed(s.queues[q], t))
      && (q != Source(pass) ==>
            s'.queues[q] == s.queues[q] + if next.Some? && Home(next.value) == On(q) then [t] else [])
  {
    if q != Source(pass) {
      assert s.queues[q] + [] == s.queues[q];
    }
  }

  /** One turn of a pass, seen from the source queue and from one other queue. */
  lemma FirstVisit(s: State, ids: seq<nat>, pass: Pass, q: Queue) returns (s': State, stays: bool, goes: bool)
    requires Good(s) && From(s, ids, pass) && ids != [] && q in s.queues && q != Source(pass)
    ensures Good(s') && From(s', ids[1..], pass) && q in s'.queues
    ensures Sweep(s, ids, pass) == Sweep(s', ids[1..], pass)
    ensures Stayers(s, ids, pass) == (if stays then [ids[0]] else []) + Stayers(s', ids[1..], pass)
    ensures Movers(s, ids, pass, q) == (if goes then [ids[0]] else []) + Movers(s', ids[1..], pass, q)
    ensures
      var src := Source(pass);
      s'.queues[src] == if stays then s.queues[src] else Removed(s.queues[src], ids[0])
    ensures s'.queues[q] == s.queues[q] + if goes then [ids[0]] else []
  {
    var t, tail := ids[0], ids[1..];
    s' := Visit(s, t, pass);
    var next := Decision(s, t, pass);
    stays, goes := next.None?, next.Some? && Home(next.value) == On(q);
    VisitKeeps(s, t, pass);
    VisitFrame(s, t, pass);
    VisitQueues(s, t, pass, q);
    VisitQueues(s, t, pass, Source(pass));
    DecisionsStand(s, s', t, tail, pass, q);
  }

  /**
   A pass over `ids`, starting behind the `pre` tasks that already stayed: those whose turn has not come stay in order,
   before the ones not looked at, and every other queue receives the tasks sent to it, in order, at its back.
   */
  lemma {:induction false} SweepIsFilter(s: State, pre: seq<nat>, ids: seq<nat>, rest: seq<nat>, pass: Pass, q: Queue)
    requires Good(s) && From(s, ids, pass) && q in s.queues && q != Source(pass)
    requires s.queues[Source(pass)] == pre + (ids + rest)
    ensures Source(pass) in Sweep(s, ids, pass).queues && q in Sweep(s, ids, pass).queues
    ensures Sweep(s, ids, pass).queues[Source(pass)] == pre + (Stayers(s, ids, pass) + rest)
    ensures Sweep(s, ids, pass).queues[q] == s.queues[q] + Movers(s, ids, pass, q)
    decreases |ids|
  {
    if ids == [] {
      assert s.queues[q] + [] == s.queues[q];
    } else {
      var s', stays, goes := FirstVisit(s, ids, pass, q);
      var pre' := if stays then pre + [ids[0]] else pre;
      SourceStep(s.queues[Source(pass)], pre, ids, rest, stays, Stayers(s', ids[1..], pass));
      SweepIsFilter(s', pre', ids[1..], rest, pass, q);
      Appended(s.queues[q], if goes then [ids[0]] else [], Movers(s', ids[1..], pass, q));
    }
  }

  lemma SourceStep(src: seq<nat>, pre: seq<nat>, ids: seq<nat>, rest: seq<nat>, stays: bool, kept: seq<nat>)
    requires Distinct(src) && ids != [] && src == pre + (ids + rest)
    ensures
      var t := ids[0];
      var pre' := if stays then pre + [t] else pre;
      && (if stays then src else Removed(src, t)) == pre' + (ids[1..] + rest)
      && pre' + (kept + rest) == pre + (((if stays then [t] else []) + kept) + rest)
  {
    var t, tail := ids[0], ids[1..];
    assert ids + rest == [t] + (tail + rest);
    if stays {
      Appended(pre, [t], tail + rest);
      Appended(pre, [t], kept + rest);
      assert [t] + (kept + rest) == ([t] + kept) + rest;
    } else {
      HeadNotBefore(src, pre, t, tail + rest);
      RemovedMiddle(pre, t, tail + rest);
      assert [] + kept == kept;
    }
  }

  lemma Appended(a: seq<nat>, b: seq<nat>, c: seq<nat>)
    ensures (a + b) + c == a + (b + c)
  {
  }

  lemma HeadNotBefore(q: seq<nat>, pre: seq<nat>, t: nat, post: seq<nat>)
    requires Distinct(q) && q == pre + ([t] + post)
    ensures t !in pre
  {
    forall i | 0 <= i < |pre|
      ensures pre[i] != t
    {
      assert q[i] == pre[i] && q[|pre|] == t;
    }
  }

  /**
   The passes of the scheduler, and the wake-up service, are filters although they unlink while they walk: of the tasks
   looked at the source queue keeps the ones whose turn has not come, and every other queue gets its newcomers in order.
   */
  lemma RunPassIsFilter(s: State, pass: Pass, q: Queue)
    requires Good(s) && q in s.queues
    ensures
      var src := s.queues[Source(pass)];
      var ids := Looked(s, pass);
      && ids <= src && From(s, ids, pass) && q in RunPass(s, pass).queues
      && RunPass(s, pass).queues[q] ==
         if q == Source(pass) then Stayers(s, ids, pass) + src[|ids|..] else s.queues[q] + Movers(s, ids, pass, q)
  {
    var src, ids := s.queues[Source(pass)], Looked(s, pass);
    LookedFrom(s, pass);
    var rest := src[|ids|..];
    assert src == [] + (ids + rest);
    SweepIsFilter(s, [], ids, rest, pass, if q == Source(pass) then ReadyQ(0) else q);
    assert [] + (Stayers(s, ids, pass) + rest) == Stayers(s, ids, pass) + rest;
  }

  /** The last task of a queue is never looked at, so a task alone on the created, waiting or terminated queue stays. */
  lemma LoneTaskStays(s: State, pass: Pass)
    requires Good(s) && !pass.Wake? && |s.queues[Source(pass)]| == 1
    ensures RunPass(s, pass) == s
  {
  }

  /* ---------------------------------------------------------------- waking as written */

  /**
   Lines 170-175 and 286-290 as written: a woken task changes queues, and none of its fields is rewritten.  (`svc_wait`
   has left it with status 2, "running", where its comment says waiting.)
   */
  function WokenAsWritten(s: State, t: nat): State
    requires Shape(s) && t < TASKS && s.tasks[t].priority < LEVELS
  {
    var ready := ReadyQ(s.tasks[t].priority);
    var left := s.queues[WaitingQ := Removed(s.queues[WaitingQ], t)];
    s.(queues := left[ready := left[ready] + [t]])
  }

  function WithStatus(s: State, t: nat, status: Status): State
    requires |s.tasks| == TASKS && t < TASKS
  {
    s.(tasks := s.tasks[t := s.tasks[t].(status := status)])
  }

  /** Whatever status the task is left with, it is in its place exactly if that is "ready": the write the code lacks. */
  lemma WokenAsWrittenExactly(s: State, t: nat, status: Status)
    requires Good(s) && t < TASKS && Home(s.tasks[t]) == On(WaitingQ)
    ensures Placed(WithStatus(WokenAsWritten(s, t), t, status)) <==> status == Ready
  {
    var ready := ReadyQ(s.tasks[t].priority);
    var u := WithStatus(WokenAsWritten(s, t), t, status);
    assert IsQueue(ready);
    if status == Ready {
      assert u == Move(s, t, s.tasks[t].(status := Ready));
      MoveKeepsPlaced(s, t, s.tasks[t].(status := Ready));
    } else {
      assert t in u.queues[ready];
    }
  }

  /** Line 139 as written pushes an admitted task onto the ready queue with the number of the core, not of its priority. */
  function AdmittedAsWritten(s: State, t: nat, c: Core): State
    requires Shape(s) && t < TASKS
  {
    WithStatus(s, t, Ready).(queues := Pushing(Taking(s, CreatedQ, t), ReadyQ(c), t))
  }

  /** It is in its place exactly when the two numbers are the same. */
  lemma AdmittedAsWrittenExactly(s: State, t: nat, c: Core)
    requires Good(s) && t < TASKS && Home(s.tasks[t]) == On(CreatedQ)
    ensures Placed(AdmittedAsWritten(s, t, c)) <==> s.tasks[t].priority == c
  {
    var u, k := AdmittedAsWritten(s, t, c), s.tasks[t].(status := Ready);
    assert IsQueue(ReadyQ(c)) && IsQueue(ReadyQ(k.priority));
    if k.priority == c {
      assert u == Move(s, t, k);
      MoveKeepsPlaced(s, t, k);
    } else {
      assert t in u.queues[ReadyQ(c)];
    }
  }
}
