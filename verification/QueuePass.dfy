/**
 The waiting-queue pass of the scheduler over the linked queues themselves (lib/schaduler.c:164-178).

 The pass walks the queue with a saved `next` pointer while unlinking the nodes it wakes.  Here it is proved to be a
 filter: the examined prefix keeps its sleepers in order, and each other queue receives the nodes sent to it in order.
 What decides about a node is `Scheduler.Next`; here it is a map from the nodes that move to the queues they go to.
 */
module QueuePass {
  import opened Common
  import opened FwList

  /** The first `n` nodes of `s` without those in `sent`, in order. */
  function Kept(s: seq<Node>, n: nat, sent: map<Node, nat>): (r: seq<Node>)
    requires n <= |s|
    ensures |r| <= n
  {
    if n == 0 then [] else Kept(s, n - 1, sent) + if s[n - 1] in sent then [] else [s[n - 1]]
  }

  /** The queue after a pass: of the examined nodes those that stay, then the others. */
  function Left(s: seq<Node>, bound: nat, sent: map<Node, nat>): seq<Node> {
    var n := Examined(|s|, bound);
    Kept(s, n, sent) + s[n..]
  }

  /** Those of the first `n` nodes of `s` that are sent to queue `p`, in order. */
  function Woken(s: seq<Node>, n: nat, sent: map<Node, nat>, p: nat): seq<Node>
    requires n <= |s|
  {
    if n == 0 then []
    else Woken(s, n - 1, sent, p) + if s[n - 1] in sent && sent[s[n - 1]] == p then [s[n - 1]] else []
  }

  const TERMINATED: nat := 8

  /** A waiting queue, the eight ready queues and the terminated one, over one bank of nodes, different and well formed. */
  ghost predicate Queues(waiting: Queue, ready: seq<Queue>, bank: set<Node>)
    reads waiting, ready, bank
  {
    && |ready| == 9
    && waiting !in ready
    && Distinct(ready)
    && Owns(waiting, bank)
    && forall p :: 0 <= p < |ready| ==> Owns(ready[p], bank)
  }

  ghost predicate Owns(q: Queue, bank: set<Node>)
    reads q, bank
  {
    (forall k :: 0 <= k < |q.items| ==> q.items[k] in bank) && q.Valid()
  }

  ghost function Contents(ready: seq<Queue>): seq<seq<Node>>
    reads ready
  {
    seq(|ready|, p requires 0 <= p < |ready| reads ready => ready[p].items)
  }

  ghost predicate Holds(ready: seq<Queue>, contents: seq<seq<Node>>)
    reads ready
  {
    |contents| == |ready| && forall p :: 0 <= p < |ready| ==> ready[p].items == contents[p]
  }

  /** `fw_rm(waiting_queue, at)`. */
  method Detach(waiting: Queue, at: nat, ready: seq<Queue>, ghost bank: set<Node>)
    requires Queues(waiting, ready, bank) && at < |waiting.items| <= U64_MAX
    modifies waiting, bank
    ensures Queues(waiting, ready, bank) && waiting.items == Without(old(waiting.items), at)
    ensures old(waiting.items)[at].on == null && old(waiting.items)[at].next == null
  {
    var code := waiting.Remove(at);
    assert forall p :: 0 <= p < |ready| ==> Owns(ready[p], bank);
  }

  /** `fw_push_back` onto queue `to`. */
  method Attach(x: Node, to: nat, waiting: Queue, ready: seq<Queue>, ghost bank: set<Node>, ghost contents: seq<seq<Node>>)
    requires Queues(waiting, ready, bank) && x in bank && to < 9 && x.on == null && x.next == null
    requires Holds(ready, contents)
    modifies ready, bank
    ensures Queues(waiting, ready, bank)
    ensures Holds(ready, contents[to := contents[to] + [x]])
  {
    ready[to].PushBack(x);
    assert Owns(waiting, bank);
    assert forall p :: 0 <= p < |ready| && p != to ==> Owns(ready[p], bank);
  }

  /** What a pass has done after examining the first `i` nodes of `was`. */
  ghost predicate Progress(was: seq<Node>, i: nat, left: seq<Node>, at: nat,
                           start: seq<seq<Node>>, ready: seq<seq<Node>>, sent: map<Node, nat>)
  {
    && i <= |was|
    && left == Kept(was, i, sent) + was[i..]
    && at == |Kept(was, i, sent)|
    && |ready| == |start|
    && forall p :: 0 <= p < |start| ==> ready[p] == start[p] + Woken(was, i, sent, p)
  }

  lemma ProgressStep(was: seq<Node>, i: nat, left: seq<Node>, at: nat,
                     start: seq<seq<Node>>, ready: seq<seq<Node>>, sent: map<Node, nat>)
    requires Progress(was, i, left, at, start, ready, sent) && i < |was| && (was[i] in sent ==> sent[was[i]] < |start|)
    ensures |ready| == |start| && at < |left| && left[at] == was[i]
    ensures was[i] !in sent ==> Progress(was, i + 1, left, at + 1, start, ready, sent)
    ensures was[i] in sent ==>
      var p := sent[was[i]];
      Progress(was, i + 1, Without(left, at), at, start, ready[p := ready[p] + [was[i]]], sent)
  {
  }

  /** One turn of the pass: a node whose wait is over moves, any other is stepped over. */
  method Visit(waiting: Queue, ready: seq<Queue>, x: Node, at: nat, sent: map<Node, nat>, ghost bank: set<Node>,
               ghost was: seq<Node>, ghost i: nat, ghost start: seq<seq<Node>>, ghost contents: seq<seq<Node>>)
    returns (at': nat, ghost contents': seq<seq<Node>>)
    requires Queues(waiting, ready, bank) && |was| <= U64_MAX && |start| == 9 && Holds(ready, contents)
    requires Progress(was, i, waiting.items, at, start, contents, sent)
    requires i < |was| && was[i] == x && (x in sent ==> sent[x] < 9)
    modifies waiting, ready, bank
    ensures Queues(waiting, ready, bank) && Holds(ready, contents')
    ensures Progress(was, i + 1, waiting.items, at', start, contents', sent)
  {
    ProgressStep(was, i, waiting.items, at, start, contents, sent);
    at', contents' := at + 1, contents;
    if x in sent {
      assert x in bank;
      Detach(waiting, at, ready, bank);
      Attach(x, sent[x], waiting, ready, bank, contents);
      at', contents' := at, contents[sent[x] := contents[sent[x]] + [x]];
    }
  }

  /** A node goes to the queue of its priority or to the terminated queue. */
  ghost predicate Destinations(sent: map<Node, nat>) {
    forall x :: x in sent ==> sent[x] == TERMINATED || sent[x] == x.priority < 8
  }

  /**
   The pass.  `bound` is the scheduler's limit of three examined tasks; a node whose wait is over is sent to the queue of
   its priority, one whose wait test faulted to the terminated queue.
   An empty queue ends the pass at once (the C code reads through its null head).
   */
  method WakePass(waiting: Queue, ready: seq<Queue>, sent: map<Node, nat>, bound: nat, ghost bank: set<Node>)
    requires Queues(waiting, ready, bank) && |waiting.items| <= U64_MAX
    requires Destinations(sent)
    modifies waiting, ready, bank
    ensures Queues(waiting, ready, bank)
    ensures waiting.items == Left(old(waiting.items), bound, sent)
    ensures forall p :: 0 <= p < 9 ==>
      ready[p].items == old(ready[p].items) + Woken(old(waiting.items), Examined(|old(waiting.items)|, bound), sent, p)
  {
    ghost var was, start := waiting.items, Contents(ready);
    ghost var contents := start;
    var cursor := waiting.head;
    var at, i := 0, 0;
    while i < bound && cursor != null && cursor.next != null
      invariant Queues(waiting, ready, bank) && Holds(ready, contents)
      invariant Progress(was, i, waiting.items, at, start, contents, sent)
      invariant i <= Examined(|was|, bound)
      invariant if was == [] then cursor == null else i < |was| && cursor == was[i]
      decreases bound - i
    {
      cursor, at, contents := Turn(waiting, ready, cursor, at, sent, bound, bank, was, i, start, contents);
      i := i + 1;
    }
    if cursor != null && cursor.next == null {
      LastOf(waiting, at, was, i, start, contents, sent);
    }
    assert i == Examined(|was|, bound);
  }

  /** A turn with the next pointer saved first, because the visit may clear it. */
  method Turn(waiting: Queue, ready: seq<Queue>, cursor: Node, at: nat, sent: map<Node, nat>, bound: nat, ghost bank: set<Node>,
              ghost was: seq<Node>, ghost i: nat, ghost start: seq<seq<Node>>, ghost contents: seq<seq<Node>>)
    returns (next: Node, at': nat, ghost contents': seq<seq<Node>>)
    requires Queues(waiting, ready, bank) && |was| <= U64_MAX && |start| == 9 && Holds(ready, contents)
    requires Progress(was, i, waiting.items, at, start, contents, sent) && Destinations(sent)
    requires i < |was| && i < bound && was[i] == cursor && cursor.next != null
    modifies waiting, ready, bank
    ensures Queues(waiting, ready, bank) && Holds(ready, contents')
    ensures Progress(was, i + 1, waiting.items, at', start, contents', sent)
    ensures i + 1 < |was| && next == was[i + 1] && i + 1 <= Examined(|was|, bound)
  {
    next := cursor.next;
    SuccessorOf(waiting, at, was, i, start, contents, sent, bound);
    assert cursor in sent ==> sent[cursor] < 9;
    at', contents' := Visit(waiting, ready, cursor, at, sent, bank, was, i, start, contents);
  }

  /** In a valid queue part-way through a pass the cursor's successor is the next original node. */
  lemma SuccessorOf(q: Queue, at: nat, was: seq<Node>, i: nat,
                    start: seq<seq<Node>>, ready: seq<seq<Node>>, sent: map<Node, nat>, bound: nat)
    requires q.Valid() && Progress(was, i, q.items, at, start, ready, sent) && i < |was| && i < bound
    requires was[i].next != null
    ensures i + 1 < |was| && was[i].next == was[i + 1] && i + 1 <= Examined(|was|, bound)
  {
    assert q.items[at] == was[i];
    if at + 1 < |q.items| {
      assert q.items[at + 1] == was[i + 1];
    }
  }

  lemma LastOf(q: Queue, at: nat, was: seq<Node>, i: nat,
               start: seq<seq<Node>>, ready: seq<seq<Node>>, sent: map<Node, nat>)
    requires q.Valid() && Progress(was, i, q.items, at, start, ready, sent) && i < |was|
    requires was[i].next == null
    ensures i + 1 == |was|
  {
    LastHasNoSuccessor(q, at);
  }

  lemma LastHasNoSuccessor(q: Queue, k: nat)
    requires q.Valid() && k < |q.items|
    ensures q.items[k].next == null <==> k == |q.items| - 1
  {
  }

  /**
   As written, the pass calls `fw_rm(queue, i)` with the number of tasks examined, not the cursor's position `at`,
   and `fw_rm` unlinks only ends.  Such a call takes the node under the cursor (which always has a successor)
   exactly when it is the first task the pass looks at.
   */
  lemma PassAsWrittenRemovesOnlyFirst(left: seq<Node>, at: nat, i: nat)
    requires Distinct(left) && at <= i && at + 1 < |left|
    ensures EndUnlinked(left, i) == Without(left, at) <==> i == 0
  {
    var last := |left| - 1;
    assert Without(left, last)[at] == left[at] && Without(left, at)[at] == left[at + 1];
    assert |Without(left, at)| == last;
  }

  /**
   The wake-up service has no such successor test, so its cursor may be at the last node; its call then also takes the
   right one when the count is the index of the last node, or one more, which is clamped.
   */
  lemma WakeUpAsWrittenRemoves(left: seq<Node>, at: nat, i: nat)
    requires Distinct(left) && at <= i && at < |left|
    ensures EndUnlinked(left, i) == Without(left, at) <==> i == 0 || (at == |left| - 1 && i <= |left|)
  {
    var last := |left| - 1;
    assert |Without(left, at)| == last;
    if at < last {
      assert Without(left, last)[at] == left[at] && Without(left, at)[at] == left[at + 1];
    } else {
      assert i > 0 && last > 0 ==> Without(left, 0)[0] == left[1];
    }
  }

  /**
   One turn of lines 142-146 as written, for the task at index `i` of the scanned ready queue `q`, when its status is 2:
   `fw_rm` at index `i` of the ready queue with the core's number -- the same one (`same`) or another one, `own` --
   and then its `next` is cleared, on whatever list it is.
   */
  function ScanTurnAsWritten<T>(q: seq<T>, own: seq<T>, i: nat, same: bool): (seq<T>, seq<T>)
    requires i + 1 < |q|
  {
    if same && i == 0 then (q[1..], q[1..])
    else (q[..i + 1], if same then q[..i + 1] else EndUnlinked(own, i))
  }

  /**
   So the task is taken off exactly when it is the first of the core's own queue; otherwise it stays, and all tasks behind
   it are cut off.  (The loop test asks for a successor, so the last task is never looked at.)
   */
  lemma ScanTurnAsWrittenExactly<T>(q: seq<T>, own: seq<T>, i: nat, same: bool, x: T)
    requires i + 1 < |q| && Distinct(q) && x in q
    ensures x in ScanTurnAsWritten(q, own, i, same).0 <==> if same && i == 0 then x != q[0] else x !in q[i + 1..]
    ensures ScanTurnAsWritten(q, own, i, same).0 == Without(q, i) <==> same && i == 0
  {
    var r := ScanTurnAsWritten(q, own, i, same).0;
    assert q == q[..1] + q[1..] && q == q[..i + 1] + q[i + 1..];
    assert Without(q, 0) == q[1..];
    assert |Without(q, i)| == |q| - 1;
    if !(same && i == 0) && i + 2 == |q| {
      assert r[i] == q[i] && Without(q, i)[i] == q[i + 1];
    }
  }
}
