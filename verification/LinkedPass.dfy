/**
 The scheduler's waiting and admission passes on linked queues are the passes of the scheduler's model
 (lib/schaduler.c:123-140, 164-178).

 The nodes of the source queue, the ready queues and the terminated queue stand for tasks by their ids; a node is sent
 where `Scheduler.Next` puts its task.  Then the walk over the links leaves each list standing for the sequence that
 `Scheduler.RunPass` computes.
 */
module LinkedPass {
  import FwList
  import QueuePass
  import Scheduler
  import Tasks
  import Rotation
  import opened Common

  type Node = FwList.Node

  function Ids(nodes: seq<Node>): (r: seq<nat>)
    ensures |r| == |nodes| && forall i :: 0 <= i < |r| ==> r[i] == nodes[i].id
  {
    seq(|nodes|, i requires 0 <= i < |nodes| => nodes[i].id)
  }

  /** The queue of the model that a list stands for. */
  function Target(p: nat): Tasks.Queue { if p < 8 then Tasks.ReadyQ(p) else Tasks.TerminatedQ }

  /** The passes that send tasks to ready queues and stop at the last task; and how many tasks they look at. */
  predicate Sends(pass: Scheduler.Pass) { pass.Admit? || pass.Poll? }
  function Bound(pass: Scheduler.Pass): nat { if pass.Admit? then Tasks.TASKS else Scheduler.PASS_BOUND }

  /** The lists hold the tasks of the model's queues. */
  ghost predicate StandsFor(source: FwList.Queue, ready: seq<FwList.Queue>, s: Tasks.State, pass: Scheduler.Pass)
    requires Tasks.Shape(s) && |ready| == 9
    reads source, ready
  {
    && Ids(source.items) == s.queues[Scheduler.Source(pass)]
    && forall p :: 0 <= p < 9 ==> Ids(ready[p].items) == s.queues[Target(p)]
  }

  /** A node is sent where the pass puts its task, or stays when the pass leaves the task. */
  ghost predicate Decides(sent: map<Node, nat>, nodes: seq<Node>, s: Tasks.State, pass: Scheduler.Pass)
    requires |s.tasks| == Tasks.TASKS
  {
    forall i :: 0 <= i < |nodes| ==>
      var x := nodes[i];
      && x.id < Tasks.TASKS
      && (x in sent <==> Scheduler.Decision(s, x.id, pass).Some?)
      && (x in sent ==> sent[x] < 9 && Tasks.Home(Scheduler.Decision(s, x.id, pass).value) == Tasks.On(Target(sent[x])))
  }

  lemma {:induction false} MoversSnoc(s: Tasks.State, ids: seq<nat>, x: nat, pass: Scheduler.Pass, q: Tasks.Queue)
    requires |s.tasks| == Tasks.TASKS && x < Tasks.TASKS && forall i :: 0 <= i < |ids| ==> ids[i] < Tasks.TASKS
    ensures
      var next := Scheduler.Decision(s, x, pass);
      Scheduler.Movers(s, ids + [x], pass, q) ==
        Scheduler.Movers(s, ids, pass, q) + if next.Some? && Tasks.Home(next.value) == Tasks.On(q) then [x] else []
  {
    if ids == [] {
      assert ids + [x] == [x] && [x][1..] == [];
    } else {
      assert (ids + [x])[1..] == ids[1..] + [x];
      MoversSnoc(s, ids[1..], x, pass, q);
    }
  }

  /** The nodes that stay are the tasks that stay ... */
  lemma {:induction false} SameStayers(nodes: seq<Node>, n: nat, sent: map<Node, nat>, s: Tasks.State, pass: Scheduler.Pass)
    requires |s.tasks| == Tasks.TASKS && Decides(sent, nodes, s, pass) && n <= |nodes|
    ensures forall i :: 0 <= i < n ==> Ids(nodes)[..n][i] < Tasks.TASKS
    ensures Ids(QueuePass.Kept(nodes, n, sent)) == Scheduler.Stayers(s, Ids(nodes)[..n], pass)
  {
    if n > 0 {
      SameStayers(nodes, n - 1, sent, s, pass);
      var x := nodes[n - 1];
      assert Ids(nodes)[..n] == Ids(nodes)[..n - 1] + [x.id];
      Scheduler.StayersSnoc(s, Ids(nodes)[..n - 1], x.id, pass);
    }
  }

  /** ... and those sent to a list are the tasks that move to its queue. */
  lemma {:induction false} SameMovers(nodes: seq<Node>, n: nat, sent: map<Node, nat>, s: Tasks.State, pass: Scheduler.Pass, p: nat)
    requires |s.tasks| == Tasks.TASKS && Decides(sent, nodes, s, pass) && n <= |nodes| && p < 9
    ensures forall i :: 0 <= i < n ==> Ids(nodes)[..n][i] < Tasks.TASKS
    ensures Ids(QueuePass.Woken(nodes, n, sent, p)) == Scheduler.Movers(s, Ids(nodes)[..n], pass, Target(p))
  {
    if n > 0 {
      SameMovers(nodes, n - 1, sent, s, pass, p);
      var x := nodes[n - 1];
      assert Ids(nodes)[..n] == Ids(nodes)[..n - 1] + [x.id];
      MoversSnoc(s, Ids(nodes)[..n - 1], x.id, pass, Target(p));
    }
  }

  lemma SourceFits(s: Tasks.State, pass: Scheduler.Pass)
    requires Scheduler.Good(s)
    ensures |s.queues[Scheduler.Source(pass)]| <= Tasks.TASKS
  {
    var q := s.queues[Scheduler.Source(pass)];
    forall i | 0 <= i < |q|
      ensures q[i] < Tasks.TASKS
    {
      assert q[i] in q;
    }
    Tasks.QueueFitsBank(q, Tasks.TASKS);
  }

  lemma IdsConcat(a: seq<Node>, b: seq<Node>)
    ensures Ids(a + b) == Ids(a) + Ids(b)
  {
  }

  /** The two results of the walk, as ids, are the pass's queues. */
  lemma SourceAfter(was: seq<Node>, sent: map<Node, nat>, s: Tasks.State, pass: Scheduler.Pass)
    requires Scheduler.Good(s) && Sends(pass)
    requires Ids(was) == s.queues[Scheduler.Source(pass)] && Decides(sent, was, s, pass)
    ensures Ids(QueuePass.Left(was, Bound(pass), sent)) == Scheduler.RunPass(s, pass).queues[Scheduler.Source(pass)]
  {
    var n := Examined(|was|, Bound(pass));
    Scheduler.RunPassIsFilter(s, pass, Scheduler.Source(pass));
    SameStayers(was, n, sent, s, pass);
    IdsConcat(QueuePass.Kept(was, n, sent), was[n..]);
    assert Ids(was[n..]) == Ids(was)[n..];
  }

  lemma TargetAfter(was: seq<Node>, start: seq<Node>, sent: map<Node, nat>, s: Tasks.State, pass: Scheduler.Pass, p: nat)
    requires Scheduler.Good(s) && Sends(pass)
    requires Ids(was) == s.queues[Scheduler.Source(pass)] && Decides(sent, was, s, pass)
    requires p < 9 && Target(p) in s.queues && Ids(start) == s.queues[Target(p)]
    ensures
      var n, s' := Examined(|was|, Bound(pass)), Scheduler.RunPass(s, pass);
      Target(p) in s'.queues && Ids(start + QueuePass.Woken(was, n, sent, p)) == s'.queues[Target(p)]
  {
    var n := Examined(|was|, Bound(pass));
    Scheduler.RunPassIsFilter(s, pass, Target(p));
    SameMovers(was, n, sent, s, pass, p);
    IdsConcat(start, QueuePass.Woken(was, n, sent, p));
  }

  /** After the walk the lists stand for the queues after the scheduler's pass. */
  method PassLinked(source: FwList.Queue, ready: seq<FwList.Queue>, sent: map<Node, nat>, bound: nat,
                    ghost bank: set<Node>, ghost s: Tasks.State, ghost pass: Scheduler.Pass)
    requires QueuePass.Queues(source, ready, bank) && Sends(pass) && bound == Bound(pass)
    requires Scheduler.Good(s) && StandsFor(source, ready, s, pass) && Decides(sent, source.items, s, pass)
    requires QueuePass.Destinations(sent)
    modifies source, ready, bank
    ensures QueuePass.Queues(source, ready, bank)
    ensures StandsFor(source, ready, Scheduler.RunPass(s, pass), pass)
  {
    ghost var was, start := source.items, QueuePass.Contents(ready);
    SourceFits(s, pass);
    QueuePass.WakePass(source, ready, sent, bound, bank);
    SourceAfter(was, sent, s, pass);
    forall p | 0 <= p < 9
      ensures Ids(ready[p].items) == Scheduler.RunPass(s, pass).queues[Target(p)]
    {
      TargetAfter(was, start[p], sent, s, pass, p);
    }
  }
}
