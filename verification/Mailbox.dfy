/**
 The message segment pool (lib/ipcmailbox.c:18-30, 56-127): writing takes the lowest empty segment, reading scans from
 the highest one down.

 Departures from the code: a written segment's status becomes "full" (line 75 sets the mailbox type instead), a segment
 meant for somebody else is passed over (the `continue` of line 95 skips the decrement), and the scan starts at segment
 511 (line 84 scales the pointer twice).  Between calls a segment's mutex is open, unless the segment has been freed as
 the code frees it.
 */
module Mailbox {
  import opened Common

  const SEGMENTS: nat := 512
  const USABLE: nat := 511  // the allocation loop never looks at the last segment

  datatype Message = Message(mailbox: nat, pt1: nat, pt2: nat, author: nat, receiver: nat)

  datatype Status = Empty | Filling | Full | Reading

  /** `open` says that the word `access_mutex` is not 0: allocation and reading ask for it. */
  datatype Segment = Segment(status: Status, open: bool, message: Message)

  predicate Free(g: Segment) { g.status == Empty && g.open }

  /** A read request: the mailbox, the receiver it is for, 129 for any. */
  datatype Reader = Reader(mailbox: nat, receiver: nat)

  const ANY: nat := 129

  /** Receiver 0 stands for the mailbox's owner. */
  function ReaderOf(mailbox: nat, owner: nat, receiver: nat): Reader {
    Reader(mailbox, if receiver == 0 then owner else receiver)
  }

  predicate Readable(g: Segment, r: Reader) { g.status == Full && g.open && For(g.message, r) }

  predicate For(m: Message, r: Reader) {
    m.mailbox == r.mailbox && (r.receiver == ANY || m.receiver == r.receiver)
  }

  /* ---------------------------------------------------------------- the calls on the pool's contents */

  /** The lowest empty segment at `i` or above, 511 when there is none. */
  function LowestFree(pool: seq<Segment>, i: nat): (r: nat)
    requires |pool| == SEGMENTS && i <= USABLE
    ensures i <= r <= USABLE && (r < USABLE ==> Free(pool[r]))
    ensures forall j :: i <= j < r ==> !Free(pool[j])
    decreases USABLE - i
  {
    if i == USABLE || Free(pool[i]) then i else LowestFree(pool, i + 1)
  }

  /** `write_ipcmailbox`: 1 when no segment is free. */
  function Write(pool: seq<Segment>, m: Message): (seq<Segment>, nat)
    requires |pool| == SEGMENTS
  {
    var i := LowestFree(pool, 0);
    if i == USABLE then (pool, 1) else (pool[i := Segment(Full, true, m)], 0)
  }

  /** `read_ipcmailbox` over the lowest `n` segments: the highest full one for the reader. */
  function Highest(pool: seq<Segment>, n: nat, r: Reader): Option<Message>
    requires n <= |pool|
  {
    if n == 0 then None
    else if Readable(pool[n - 1], r) then Some(pool[n - 1].message)
    else Highest(pool, n - 1, r)
  }

  /* ---------------------------------------------------------------- what a reader is promised */

  /** The most recent message for the reader. */
  function Newest(history: seq<Message>, r: Reader): Option<Message> {
    if history == [] then None
    else if For(history[|history| - 1], r) then Some(history[|history| - 1])
    else Newest(history[..|history| - 1], r)
  }

  lemma {:induction false} NewestIsTheLastMatch(history: seq<Message>, r: Reader, i: nat)
    requires i < |history| && For(history[i], r)
    requires forall j :: i < j < |history| ==> !For(history[j], r)
    ensures Newest(history, r) == Some(history[i])
  {
    if i < |history| - 1 {
      NewestIsTheLastMatch(history[..|history| - 1], r, i);
    }
  }

  lemma {:induction false} NoneWithoutAMatch(history: seq<Message>, r: Reader)
    ensures Newest(history, r) == None <==> forall i :: 0 <= i < |history| ==> !For(history[i], r)
    ensures Newest(history, r).Some? ==> Newest(history, r).value in history && For(Newest(history, r).value, r)
  {
    if history != [] {
      var n := |history| - 1;
      NoneWithoutAMatch(history[..n], r);
      assert history == history[..n] + [history[n]];
    }
  }

  /** The used segments are a prefix of the pool, in write order. */
  ghost predicate Records(pool: seq<Segment>, history: seq<Message>) {
    && |pool| == SEGMENTS && |history| <= USABLE
    && (forall i :: 0 <= i < |history| ==> pool[i] == Segment(Full, true, history[i]))
    && (forall i :: |history| <= i < SEGMENTS ==> Free(pool[i]))
  }

  /** While nothing is freed, writing appends to the history, until the 511 usable segments are taken. */
  lemma WriteAppends(pool: seq<Segment>, history: seq<Message>, m: Message)
    requires Records(pool, history)
    ensures
      var (pool', code) := Write(pool, m);
      && (code == 0 <==> |history| < USABLE)
      && (code == 0 ==> Records(pool', history + [m]))
      && (code != 0 ==> pool' == pool)
  {
    assert forall i :: 0 <= i < |history| ==> !Free(pool[i]);
    assert Free(pool[|history|]);
    assert LowestFree(pool, 0) == |history|;
  }

  /** So the scan from the top returns the most recent message for the reader. */
  lemma {:induction false} HighestIsNewest(pool: seq<Segment>, n: nat, history: seq<Message>, r: Reader)
    requires |history| <= n <= |pool|
    requires forall i :: 0 <= i < |history| ==> pool[i] == Segment(Full, true, history[i])
    requires forall i :: |history| <= i < n ==> Free(pool[i])
    ensures Highest(pool, n, r) == Newest(history, r)
  {
    if n > |history| {
      HighestIsNewest(pool, n - 1, history, r);
    } else if n > 0 {
      HighestIsNewest(pool, n - 1, history[..n - 1], r);
    }
  }

  /** A run of writes into an empty pool; those refused leave no trace. */
  function Written(pool: seq<Segment>, messages: seq<Message>): (r: seq<Segment>)
    requires |pool| == SEGMENTS
    ensures |r| == SEGMENTS
    decreases |messages|
  {
    if messages == [] then pool else Written(Write(pool, messages[0]).0, messages[1..])
  }

  lemma {:induction false} FullPoolStays(pool: seq<Segment>, messages: seq<Message>)
    requires |pool| == SEGMENTS && LowestFree(pool, 0) == USABLE
    ensures Written(pool, messages) == pool
    decreases |messages|
  {
    if messages != [] {
      FullPoolStays(pool, messages[1..]);
    }
  }

  /** The pool after a run of writes records the messages for which there was room. */
  lemma {:induction false} WrittenRecords(pool: seq<Segment>, before: seq<Message>, messages: seq<Message>)
    requires Records(pool, before)
    ensures
      var all := before + messages;
      Records(Written(pool, messages), if |all| <= USABLE then all else all[..USABLE])
    decreases |messages|
  {
    if messages == [] {
      assert before + messages == before;
    } else {
      WriteAppends(pool, before, messages[0]);
      if |before| < USABLE {
        assert before + [messages[0]] + messages[1..] == before + messages;
        WrittenRecords(Write(pool, messages[0]).0, before + [messages[0]], messages[1..]);
      } else {
        FullPoolStays(pool, messages);
        assert (before + messages)[..USABLE] == before;
      }
    }
  }

  /** After any run of writes, every reader gets the most recent message for it among the first 511 written. */
  lemma {:induction false} LatestMessageIsDelivered(pool: seq<Segment>, before: seq<Message>, messages: seq<Message>, r: Reader)
    requires Records(pool, before)
    ensures
      var all := before + messages;
      var kept := if |all| <= USABLE then all else all[..USABLE];
      && Highest(Written(pool, messages), SEGMENTS, r) == Newest(kept, r)
      && (Highest(Written(pool, messages), SEGMENTS, r) == None <==> forall i :: 0 <= i < |kept| ==> !For(kept[i], r))
  {
    WrittenRecords(pool, before, messages);
    var all := before + messages;
    var kept := if |all| <= USABLE then all else all[..USABLE];
    HighestIsNewest(Written(pool, messages), SEGMENTS, kept, r);
    NoneWithoutAMatch(kept, r);
  }

  /* ---------------------------------------------------------------- runs with frees */

  /** The pool with, for every segment, when it was last written. */
  datatype Stamped = Stamped(pool: seq<Segment>, stamps: seq<nat>, clock: nat)

  /** `Freed` is `free_ipcmailboxsegment` with the effect its name asks for, `FreedAsWritten` what it does. */
  datatype Event = Post(message: Message) | Freed(segment: nat) | FreedAsWritten(segment: nat)

  /** Lines 45-54: the mutex word and the message are cleared, the status stays. */
  function FreeAsWritten(g: Segment): Segment {
    g.(open := false, message := Message(0, 0, 0, 0, g.message.receiver))
  }

  ghost predicate Proper(t: Stamped) {
    |t.pool| == |t.stamps| == SEGMENTS && forall i :: 0 <= i < SEGMENTS ==> t.stamps[i] < t.clock
  }

  function Happens(t: Stamped, e: Event): (t': Stamped)
    requires Proper(t)
    ensures Proper(t')
  {
    match e
    case Post(m) =>
      var i := LowestFree(t.pool, 0);
      if i == USABLE then t
      else Stamped(t.pool[i := Segment(Full, true, m)], t.stamps[i := t.clock], t.clock + 1)
    case Freed(i) =>
      if i < SEGMENTS then t.(pool := t.pool[i := Segment(Empty, true, t.pool[i].message)]) else t
    case FreedAsWritten(i) => if i < SEGMENTS then t.(pool := t.pool[i := FreeAsWritten(t.pool[i])]) else t
  }

  /** The segment the scan from the top stops at, or the number of segments. */
  function Top(pool: seq<Segment>, n: nat, r: Reader): (i: nat)
    requires n <= |pool|
    ensures i < n ==> Readable(pool[i], r) && forall j :: i < j < n ==> !Readable(pool[j], r)
    ensures i >= n ==> i == |pool| && forall j :: 0 <= j < n ==> !Readable(pool[j], r)
    ensures i < n <==> Highest(pool, n, r).Some?
    ensures i < n ==> Highest(pool, n, r) == Some(pool[i].message)
  {
    if n == 0 then |pool| else if Readable(pool[n - 1], r) then n - 1 else Top(pool, n - 1, r)
  }

  /** The scan returns the newest message there is for the reader. */
  ghost predicate ScanIsRight(t: Stamped, r: Reader)
    requires Proper(t)
  {
    var top := Top(t.pool, SEGMENTS, r);
    top < SEGMENTS ==> forall i :: 0 <= i < SEGMENTS && Readable(t.pool[i], r) ==> t.stamps[i] <= t.stamps[top]
  }

  ghost predicate AlwaysRight(t: Stamped, events: seq<Event>, r: Reader)
    requires Proper(t)
    decreases |events|
  {
    ScanIsRight(t, r) && (events == [] || AlwaysRight(Happens(t, events[0]), events[1..], r))
  }

  /** A message for the reader goes above every message for it that is still there. */
  predicate OnTop(t: Stamped, e: Event, r: Reader)
    requires |t.pool| == SEGMENTS
  {
    e.Post? && For(e.message, r) && LowestFree(t.pool, 0) < USABLE ==>
      forall i :: LowestFree(t.pool, 0) < i < SEGMENTS ==> !Readable(t.pool[i], r)
  }

  ghost predicate WritesOnTop(t: Stamped, events: seq<Event>, r: Reader)
    requires Proper(t)
    decreases |events|
  {
    events == [] || (OnTop(t, events[0], r) && WritesOnTop(Happens(t, events[0]), events[1..], r))
  }

  ghost predicate InOrder(t: Stamped, r: Reader)
    requires Proper(t)
  {
    forall i, j :: 0 <= i < j < SEGMENTS && Readable(t.pool[i], r) && Readable(t.pool[j], r) ==> t.stamps[i] < t.stamps[j]
  }

  lemma OnTopKeepsOrder(t: Stamped, e: Event, r: Reader)
    requires Proper(t) && InOrder(t, r) && OnTop(t, e, r)
    ensures InOrder(Happens(t, e), r)
  {
  }

  lemma NotOnTopIsWrong(t: Stamped, e: Event, r: Reader)
    requires Proper(t) && !OnTop(t, e, r)
    ensures !ScanIsRight(Happens(t, e), r)
  {
    var i, u := LowestFree(t.pool, 0), Happens(t, e);
    var j :| i < j < SEGMENTS && Readable(t.pool[j], r);
    assert Readable(u.pool[j], r) && Readable(u.pool[i], r);
    assert u.stamps[i] == t.clock;
  }

  /**
   Over any run of writes and frees from a pool in order: the scan is right after every step exactly when every write goes
   above the messages for that reader that are still there.
   */
  lemma {:induction false} ScanIsRightExactly(t: Stamped, events: seq<Event>, r: Reader)
    requires Proper(t) && InOrder(t, r)
    ensures AlwaysRight(t, events, r) <==> WritesOnTop(t, events, r)
    decreases |events|
  {
    if events != [] {
      if OnTop(t, events[0], r) {
        OnTopKeepsOrder(t, events[0], r);
        ScanIsRightExactly(Happens(t, events[0]), events[1..], r);
      } else {
        NotOnTopIsWrong(t, events[0], r);
      }
    }
  }

  /** From the lowest free segment on everything is empty. */
  ghost predicate FilledFromBelow(t: Stamped)
    requires Proper(t)
  {
    forall i :: LowestFree(t.pool, 0) <= i < SEGMENTS ==> t.pool[i].status == Empty
  }

  lemma AsWrittenFillsFromBelow(t: Stamped, e: Event)
    requires Proper(t) && FilledFromBelow(t) && !e.Freed?
    ensures FilledFromBelow(Happens(t, e))
  {
    var l, u := LowestFree(t.pool, 0), Happens(t, e);
    LowestFreeIsBeyond(u.pool, if e.Post? && l < USABLE then l + 1 else l);
  }

  lemma LowestFreeIsBeyond(pool: seq<Segment>, l: nat)
    requires |pool| == SEGMENTS && l <= USABLE && forall i :: 0 <= i < l ==> !Free(pool[i])
    ensures LowestFree(pool, 0) >= l
  {
  }

  /** With frees as written a freed segment is never taken again ... */
  lemma {:induction false} FreedAsWrittenIsNeverTaken(t: Stamped, events: seq<Event>, i: nat)
    requires Proper(t) && i < SEGMENTS && !t.pool[i].open
    requires forall k :: 0 <= k < |events| ==> !events[k].Freed?
    ensures !After(t, events).pool[i].open && After(t, events).stamps[i] == t.stamps[i]
    decreases |events|
  {
    if events != [] {
      FreedAsWrittenIsNeverTaken(Happens(t, events[0]), events[1..], i);
    }
  }

  function After(t: Stamped, events: seq<Event>): (t': Stamped)
    requires Proper(t)
    ensures Proper(t')
    decreases |events|
  {
    if events == [] then t else After(Happens(t, events[0]), events[1..])
  }

  /** ... and so the order of writing is never broken: every reader always gets its newest message. */
  lemma {:induction false} AsWrittenFreesKeepTheOrder(t: Stamped, events: seq<Event>, r: Reader)
    requires Proper(t) && FilledFromBelow(t) && InOrder(t, r)
    requires forall k :: 0 <= k < |events| ==> !events[k].Freed?
    ensures AlwaysRight(t, events, r)
    decreases |events|
  {
    if events != [] {
      assert OnTop(t, events[0], r);
      OnTopKeepsOrder(t, events[0], r);
      AsWrittenFillsFromBelow(t, events[0]);
      AsWrittenFreesKeepTheOrder(Happens(t, events[0]), events[1..], r);
    }
  }

  /** The empty pool, from which all of this holds. */
  lemma EmptyPoolIsInOrder(pool: seq<Segment>, r: Reader)
    requires |pool| == SEGMENTS && forall i :: 0 <= i < SEGMENTS ==> Free(pool[i])
    ensures
      var t := Stamped(pool, seq(SEGMENTS, _ => 0), 1);
      Proper(t) && FilledFromBelow(t) && InOrder(t, r)
  {
  }

  /** A message written for receiver 0, "the host", is not found by the host's own read unless the owner's id is 0. */
  lemma HostMessagesAreMissed(m: Message, owner: nat)
    requires m.receiver == 0
    ensures For(m, ReaderOf(m.mailbox, owner, 0)) <==> owner == 0 || owner == ANY
    ensures For(m, ReaderOf(m.mailbox, owner, ANY))
  {
  }

  /* ---------------------------------------------------------------- as written */

  /** Line 75 as written leaves the status at "filling". */
  function WriteAsWritten(pool: seq<Segment>, m: Message): (r: seq<Segment>)
    requires |pool| == SEGMENTS
    ensures |r| == SEGMENTS
  {
    var i := LowestFree(pool, 0);
    if i == USABLE then pool else pool[i := Segment(Filling, true, m)]
  }

  function WrittenAsWritten(pool: seq<Segment>, messages: seq<Message>): (r: seq<Segment>)
    requires |pool| == SEGMENTS
    ensures |r| == SEGMENTS
    decreases |messages|
  {
    if messages == [] then pool else WrittenAsWritten(WriteAsWritten(pool, messages[0]), messages[1..])
  }

  /** So no message is ever delivered. */
  lemma {:induction false} AsWrittenNothingIsDelivered(pool: seq<Segment>, messages: seq<Message>, r: Reader)
    requires |pool| == SEGMENTS && forall i :: 0 <= i < SEGMENTS ==> pool[i].status != Full
    ensures Highest(WrittenAsWritten(pool, messages), SEGMENTS, r) == None
    decreases |messages|
  {
    if messages == [] {
      NothingFull(pool, SEGMENTS, r);
    } else {
      AsWrittenNothingIsDelivered(WriteAsWritten(pool, messages[0]), messages[1..], r);
    }
  }

  /** Yet every message takes a segment, in order, until the 511 usable ones are gone; no segment comes back. */
  lemma {:induction false} AsWrittenFillsThePool(pool: seq<Segment>, used: nat, messages: seq<Message>, i: nat)
    requires |pool| == SEGMENTS && used <= 511 && i < SEGMENTS
    requires (forall j :: 0 <= j < used ==> !Free(pool[j])) && forall j :: used <= j < 511 ==> Free(pool[j])
    ensures WrittenAsWritten(pool, messages)[i] ==
      if used <= i < used + |messages| && i < 511 then Segment(Filling, true, messages[i - used]) else pool[i]
    decreases |messages|
  {
    if messages != [] && used < 511 {
      assert Free(pool[used]) && LowestFree(pool, 0) == used;
      AsWrittenFillsThePool(WriteAsWritten(pool, messages[0]), used + 1, messages[1..], i);
    } else if messages != [] {
      AsWrittenFillsThePool(pool, used, messages[1..], i);
    }
  }

  lemma {:induction false} NothingFull(pool: seq<Segment>, n: nat, r: Reader)
    requires n <= |pool| && forall i :: 0 <= i < n ==> pool[i].status != Full
    ensures Highest(pool, n, r) == None
  {
    if n > 0 {
      NothingFull(pool, n - 1, r);
    }
  }

  /** The read loop as written stays on the first full segment of the mailbox, whoever it is for. */
  function HighestAsWritten(pool: seq<Segment>, n: nat, r: Reader): Option<Message>
    requires n <= |pool|
  {
    if n == 0 then None
    else if pool[n - 1].status == Full && pool[n - 1].open && pool[n - 1].message.mailbox == r.mailbox then
      if For(pool[n - 1].message, r) then Some(pool[n - 1].message) else None
    else HighestAsWritten(pool, n - 1, r)
  }

  /** It is right exactly when the mailbox's most recent message is for this reader, or no message is. */
  lemma {:induction false} ReadAsWrittenExactly(pool: seq<Segment>, n: nat, r: Reader)
    requires n <= |pool|
    ensures
      var top := Highest(pool, n, Reader(r.mailbox, ANY));
      HighestAsWritten(pool, n, r) == Highest(pool, n, r) <==>
        (top.Some? && For(top.value, r)) || Highest(pool, n, r) == None
  {
    if n > 0 {
      ReadAsWrittenExactly(pool, n - 1, r);
    }
  }

  /* ---------------------------------------------------------------- the loops */

  class Pool {
    const segments: array<Segment>
    ghost var history: seq<Message>

    ghost predicate Valid()
      reads this, segments
    {
      segments.Length == SEGMENTS && Records(segments[..], history)
    }

    constructor (blank: Message)
      ensures Valid() && history == [] && fresh(segments)
    {
      segments := new Segment[SEGMENTS](_ => Segment(Empty, true, blank));
      history := [];
    }

    method Alloc() returns (i: nat)
      requires Valid()
      ensures i == LowestFree(segments[..], 0)
    {
      i := 0;
      while i < USABLE && !Free(segments[i])
        invariant i <= USABLE && LowestFree(segments[..], 0) == LowestFree(segments[..], i)
      {
        i := i + 1;
      }
    }

    /** Writes the message into the lowest empty segment: 1 when 511 messages are already there. */
    method WriteMessage(m: Message) returns (code: nat)
      requires Valid()
      modifies this, segments
      ensures Valid()
      ensures code == if |old(history)| < USABLE then 0 else 1
      ensures history == if code == 0 then old(history) + [m] else old(history)
      ensures segments[..] == Write(old(segments[..]), m).0
    {
      WriteAppends(segments[..], history, m);
      var i := Alloc();
      if i == USABLE {
        return 1;
      }
      segments[i] := Segment(Filling, true, m);
      segments[i] := segments[i].(status := Full);
      assert segments[..] == Write(old(segments[..]), m).0;
      history := history + [m];
      code := 0;
    }

    /** The most recent message for the reader, or none; the pool is as before. */
    method ReadMessage(mailbox: nat, owner: nat, receiver: nat) returns (m: Option<Message>)
      requires Valid()
      modifies segments
      ensures Valid() && segments[..] == old(segments[..])
      ensures m == Newest(history, ReaderOf(mailbox, owner, receiver))
    {
      var r := ReaderOf(mailbox, owner, receiver);
      HighestIsNewest(segments[..], SEGMENTS, history, r);
      var n: nat := SEGMENTS;
      while n > 0
        invariant n <= SEGMENTS && segments[..] == old(segments[..])
        invariant Highest(segments[..], SEGMENTS, r) == Highest(segments[..], n, r)
      {
        var found := segments[n - 1];
        if Readable(found, r) {
          segments[n - 1] := found.(status := Reading);
          m := Some(segments[n - 1].message);
          segments[n - 1] := segments[n - 1].(status := Full);
          assert segments[..] == old(segments[..]);
          return;
        }
        n := n - 1;
      }
      m := None;
    }

    /** Lines 90-126 as written, from segment 511 down: a turn that meets another receiver's message does not move down. */
    method ReadAsWritten(r: Reader) returns (m: Option<Message>)
      requires Valid()
      ensures m == HighestAsWritten(segments[..], SEGMENTS, r)
    {
      var n, i := SEGMENTS, 0;
      while i < SEGMENTS
        invariant i <= SEGMENTS && SEGMENTS - i <= n <= SEGMENTS
        invariant HighestAsWritten(segments[..], SEGMENTS, r) == HighestAsWritten(segments[..], n, r)
        invariant n == SEGMENTS - i || (n > 0 && HighestAsWritten(segments[..], n, r) == None)
      {
        i := i + 1;
        var found := segments[n - 1];
        if found.status == Full && found.open && found.message.mailbox == r.mailbox {
          if r.receiver != ANY && found.message.receiver != r.receiver {
            continue;
          }
          return Some(found.message);
        }
        n := n - 1;
      }
      m := None;
    }
  }
}
