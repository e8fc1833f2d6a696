/**
 Mini-UART transfers (exception/irq/irq.c:13-60) against the test that wakes the task waiting for them
 (lib/schaduler.c:7-24) and the calls that submit them (exception/synchronous/svc/svc.c:31-62).

 The data register is a log of bytes out (`wire`) and a queue of bytes in (`fifo`); `room` is how often the status
 register answers "ready" in one interrupt.

 Departures from the code: a byte is written before the count goes up, reception stops at the limit (`<`) and returns
 after a rejection, and a new transfer starts its count at 0.  "As written" below says what the code's own lines do.
 */
module Uart {
  import opened Common
  import Scheduler
  import Tasks

  type Byte = b: nat | b < 256

  /* ---------------------------------------------------------------- transmission */

  /** The metadata's write fields, and what has left the port. */
  datatype Tx = Tx(buffer: Option<seq<Byte>>, length: nat, written: nat, wire: seq<Byte>)

  datatype TxEvent = Submit(buffer: Option<seq<Byte>>, length: nat) | TxEmpty(room: nat)

  /** `svc_muart_write` has a buffer of at least the length, or asks for nothing. */
  predicate Sensible(e: TxEvent) {
    e.Submit? ==> if e.buffer.None? then e.length == 0 else e.length <= |e.buffer.value|
  }

  function TxStep(t: Tx, e: TxEvent): Tx {
    match e
    case Submit(b, n) => Tx(b, n, 0, t.wire)
    case TxEmpty(room) => Sent(t, room)
  }

  /** `muart_tx_empty`: up to `room` further bytes, and all fields cleared at the end of the buffer. */
  function Sent(t: Tx, room: nat): Tx {
    if t.buffer.None? || t.length == 0 then t
    else
      var k := if t.written >= t.length then 0 else if room < t.length - t.written then room else t.length - t.written;
      var wire := t.wire + Slice(t.buffer.value, t.written, t.written + k);
      if t.written + k == t.length then Tx(None, 0, 0, wire) else t.(written := t.written + k, wire := wire)
  }

  function Slice(b: seq<Byte>, i: nat, j: nat): seq<Byte> { if i <= j <= |b| then b[i..j] else [] }

  /** Waiting reason "write done" (line 15 of `__built_in_task_waiting`). */
  predicate WriteDone(t: Tx) { t.length == t.written }

  /** What the last submission asked for, after the bytes `before` that were on the wire when it was made. */
  ghost predicate TxInv(t: Tx, before: seq<Byte>, job: seq<Byte>) {
    if t.buffer.None? || t.length == 0 then
      t.length == 0 && t.written == 0 && t.wire == before + job
    else
      && t.written < t.length <= |t.buffer.value| && job == t.buffer.value[..t.length]
      && t.wire == before + job[..t.written]
  }

  /** The wire at the last submission of a run, and the bytes then submitted. */
  function Job(t: Tx, before: seq<Byte>, job: seq<Byte>, events: seq<TxEvent>): (seq<Byte>, seq<Byte>)
    requires forall i :: 0 <= i < |events| ==> Sensible(events[i])
    decreases |events|
  {
    if events == [] then (before, job)
    else
      assert Sensible(events[0]);
      match events[0]
      case Submit(b, n) => Job(TxStep(t, events[0]), t.wire, if b.None? then [] else b.value[..n], events[1..])
      case TxEmpty(_) => Job(TxStep(t, events[0]), before, job, events[1..])
  }

  function TxRun(t: Tx, events: seq<TxEvent>): Tx
    decreases |events|
  {
    if events == [] then t else TxRun(TxStep(t, events[0]), events[1..])
  }

  lemma PrefixGrows(b: seq<Byte>, i: nat, j: nat, n: nat)
    requires i <= j <= n <= |b|
    ensures b[..n][..j] == b[..n][..i] + Slice(b, i, j) && b[..n][..n] == b[..n]
  {
  }

  lemma SentKeeps(t: Tx, before: seq<Byte>, job: seq<Byte>, room: nat)
    requires TxInv(t, before, job)
    ensures TxInv(Sent(t, room), before, job)
  {
    if t.buffer.Some? && t.length > 0 {
      var n := if room < t.length - t.written then t.written + room else t.length;
      PrefixGrows(t.buffer.value, t.written, n, t.length);
    }
  }

  /** An interrupt sends as many bytes as there is room for, or all that are left. */
  lemma SentFills(t: Tx, before: seq<Byte>, job: seq<Byte>, room: nat)
    requires TxInv(t, before, job)
    ensures |Sent(t, room).wire| == |t.wire| +
      if t.length == 0 then 0 else if room < t.length - t.written then room else t.length - t.written
  {
  }

  /** Every run of submissions and interrupts keeps the invariant for the last submission made. */
  lemma {:induction false} TxRunKeeps(t: Tx, before: seq<Byte>, job: seq<Byte>, events: seq<TxEvent>)
    requires TxInv(t, before, job) && forall i :: 0 <= i < |events| ==> Sensible(events[i])
    ensures
      var (b, j) := Job(t, before, job, events);
      TxInv(TxRun(t, events), b, j)
    decreases |events|
  {
    if events != [] {
      match events[0]
      case Submit(b, n) =>
        TxRunKeeps(TxStep(t, events[0]), t.wire, if b.None? then [] else b.value[..n], events[1..]);
      case TxEmpty(room) =>
        SentKeeps(t, before, job, room);
        TxRunKeeps(TxStep(t, events[0]), before, job, events[1..]);
    }
  }

  /**
   In every reachable state the bytes emitted since the last submission are a prefix of it, as long as the count says,
   and the scheduler's test holds exactly when all of it is out.
   */
  lemma WriteDoneExactlyWhenSent(t: Tx, before: seq<Byte>, job: seq<Byte>, events: seq<TxEvent>)
    requires TxInv(t, before, job) && forall i :: 0 <= i < |events| ==> Sensible(events[i])
    ensures
      var (r, (b, j)) := (TxRun(t, events), Job(t, before, job, events));
      && r.written <= r.length && r.written <= |j|
      && r.wire == b + (if r.length == 0 then j else j[..r.written])
      && (WriteDone(r) <==> r.wire == b + j)
  {
    TxRunKeeps(t, before, job, events);
    var (r, (b, j)) := (TxRun(t, events), Job(t, before, job, events));
    if r.length != 0 {
      assert |j[..r.written]| < |j|;
      assert |b + j[..r.written]| < |b + j|;
    }
  }

  /** Without a buffer a nonzero length is rejected in every interrupt: its task waits until the next submission. */
  lemma {:induction false} NullBufferIsNeverDone(t: Tx, rooms: seq<TxEvent>)
    requires t.buffer.None? && t.length > t.written && forall i :: 0 <= i < |rooms| ==> rooms[i].TxEmpty?
    ensures TxRun(t, rooms) == t && !WriteDone(TxRun(t, rooms))
    decreases |rooms|
  {
    if rooms != [] {
      NullBufferIsNeverDone(t, rooms[1..]);
    }
  }

  /* ---------------------------------------------------------------- transmission as written */

  /** Lines 27-28: the count goes up first, so `k` bytes from `written` on are those one place further. */
  function EmittedAsWritten(memory: seq<Byte>, written: nat, k: nat): seq<Byte>
    requires written + k < |memory|
  {
    memory[written + 1..written + 1 + k]
  }

  /** A whole transfer is then right exactly when all its bytes, and the one behind the buffer, are equal. */
  lemma {:induction false} EmittedAsWrittenExactly(memory: seq<Byte>, n: nat)
    requires n < |memory|
    ensures EmittedAsWritten(memory, 0, n) == memory[..n] <==> forall i :: 0 <= i <= n ==> memory[i] == memory[0]
  {
    if EmittedAsWritten(memory, 0, n) == memory[..n] {
      forall i | 0 <= i <= n
        ensures memory[i] == memory[0]
      {
        ShiftedEqual(memory, n, i);
      }
    }
  }

  lemma {:induction false} ShiftedEqual(memory: seq<Byte>, n: nat, i: nat)
    requires i <= n < |memory| && memory[1..n + 1] == memory[..n]
    ensures memory[i] == memory[0]
  {
    if i > 0 {
      ShiftedEqual(memory, n, i - 1);
      assert memory[1..n + 1][i - 1] == memory[..n][i - 1];
    }
  }

  /** `svc_muart_write` as written leaves the count of the last transfer in place. */
  function SubmitAsWritten(t: Tx, b: seq<Byte>, n: nat): Tx { t.(buffer := Some(b), length := n) }

  function TotalRoom(rooms: seq<TxEvent>): nat {
    if rooms == [] then 0 else (if rooms[0].TxEmpty? then rooms[0].room else 0) + TotalRoom(rooms[1..])
  }

  ghost predicate OnlyInterrupts(rooms: seq<TxEvent>) { forall i :: 0 <= i < |rooms| ==> rooms[i].TxEmpty? }

  lemma {:induction false} IdleStays(t: Tx, rooms: seq<TxEvent>)
    requires OnlyInterrupts(rooms) && t.length == 0
    ensures TxRun(t, rooms) == t
    decreases |rooms|
  {
    if rooms != [] {
      IdleStays(t, rooms[1..]);
    }
  }

  /** From a count within the length, enough room sends the rest of the buffer from that count on. */
  lemma {:induction false} RestIsSent(t: Tx, rooms: seq<TxEvent>)
    requires OnlyInterrupts(rooms) && t.buffer.Some? && 0 < t.length <= |t.buffer.value| && t.written <= t.length
    requires TotalRoom(rooms) >= t.length - t.written
    ensures
      var r := TxRun(t, rooms);
      WriteDone(r) && r.wire == t.wire + t.buffer.value[t.written..t.length]
    decreases |rooms|
  {
    var b := t.buffer.value;
    if rooms != [] {
      var r := Sent(t, rooms[0].room);
      if r.length == 0 {
        IdleStays(r, rooms[1..]);
      } else {
        RestIsSent(r, rooms[1..]);
        assert b[t.written..r.written] + b[r.written..t.length] == b[t.written..t.length];
        assert t.wire + b[t.written..r.written] + b[r.written..t.length] == t.wire + b[t.written..t.length];
      }
    }
  }

  /** A count beyond the length is a transfer that is never sent nor ever done. */
  lemma {:induction false} OvercountHangs(t: Tx, rooms: seq<TxEvent>)
    requires OnlyInterrupts(rooms) && t.buffer.Some? && 0 < t.length < t.written
    ensures TxRun(t, rooms) == t
    decreases |rooms|
  {
    if rooms != [] {
      assert t.wire + Slice(t.buffer.value, t.written, t.written) == t.wire;
      OvercountHangs(t, rooms[1..]);
    }
  }

  /**
   However the interrupts come, with room enough the submitted bytes go out, all and no other, exactly from count 0; the
   test ever holds exactly up to the new length, and at once, with nothing sent, exactly for a count equal to it.
   */
  lemma SubmitAsWrittenExactly(t: Tx, b: seq<Byte>, n: nat, rooms: seq<TxEvent>)
    requires 0 < n <= |b| && OnlyInterrupts(rooms) && TotalRoom(rooms) >= n
    ensures
      var r := TxRun(SubmitAsWritten(t, b, n), rooms);
      && (WriteDone(r) && r.wire == t.wire + b[..n] <==> t.written == 0)
      && (WriteDone(r) <==> t.written <= n) && (WriteDone(SubmitAsWritten(t, b, n)) <==> t.written == n)
      && (t.written <= n ==> r.wire == t.wire + b[t.written..n])
  {
    var u := SubmitAsWritten(t, b, n);
    if t.written > n {
      OvercountHangs(u, rooms);
    } else {
      RestIsSent(u, rooms);
      assert |b[t.written..n]| == n - t.written;
      assert |t.wire + b[t.written..n]| == |t.wire| + n - t.written;
      assert |t.wire + b[..n]| == |t.wire| + n;
    }
  }

  /* ---------------------------------------------------------------- reception */

  /** The metadata's read fields, the bytes stored so far (`read_length` of them) and those not yet taken. */
  datatype Rx = Rx(present: bool, maximum: nat, got: seq<Byte>, delimiter: Byte, fifo: seq<Byte>)

  /** The part of a stream that a read of at most `n` bytes takes: up to and including the delimiter. */
  function Cut(stream: seq<Byte>, delimiter: Byte, n: nat): (r: seq<Byte>)
    ensures |r| <= n && |r| <= |stream| && r == stream[..|r|]
  {
    if n == 0 || stream == [] then []
    else if stream[0] == delimiter then [stream[0]]
    else [stream[0]] + Cut(stream[1..], delimiter, n - 1)
  }

  /** The stream is enough for such a read: the delimiter has come, or the limit. */
  ghost predicate Enough(stream: seq<Byte>, delimiter: Byte, n: nat) {
    |stream| >= n || delimiter in stream
  }

  /** The loop of `muart_valid_byte`. */
  function Taken(r: Rx): Rx
    decreases |r.fifo|
  {
    if |r.got| >= r.maximum || r.fifo == [] then r
    else
      var got := r.got + [r.fifo[0]];
      if r.fifo[0] == r.delimiter then r.(got := got, maximum := |got|, fifo := r.fifo[1..])
      else Taken(r.(got := got, fifo := r.fifo[1..]))
  }

  /** One receive interrupt after the bytes `arrived`: without a buffer or limit a byte is thrown away. */
  function RxStep(r: Rx, arrived: seq<Byte>): Rx {
    var now := r.(fifo := r.fifo + arrived);
    if !r.present || r.maximum == 0 then now.(fifo := if now.fifo == [] then [] else now.fifo[1..]) else Taken(now)
  }

  function RxRun(r: Rx, arrivals: seq<seq<Byte>>): Rx
    decreases |arrivals|
  {
    if arrivals == [] then r else RxRun(RxStep(r, arrivals[0]), arrivals[1..])
  }

  function Flat(arrivals: seq<seq<Byte>>): seq<Byte> {
    if arrivals == [] then [] else arrivals[0] + Flat(arrivals[1..])
  }

  /** Waiting reason "read done". */
  predicate ReadDone(r: Rx) { r.maximum == |r.got| }

  /** `r` is a read of at most `n` bytes from `stream`, some of which may still be queued. */
  ghost predicate RxInv(r: Rx, n: nat, stream: seq<Byte>) {
    && r.present && n > 0
    && r.got + r.fifo == stream && |r.got| <= n
    && (forall i :: 0 <= i < |r.got| - 1 ==> r.got[i] != r.delimiter)
    && r.maximum == if Delimited(r.got, r.delimiter) then |r.got| else n
  }

  predicate Delimited(got: seq<Byte>, d: Byte) { got != [] && got[|got| - 1] == d }

  /** Nothing more to take: the queue is empty or the read is at its limit. */
  predicate Drained(r: Rx) { |r.got| == r.maximum || r.fifo == [] }

  /** A cut is complete when the stream is enough, and then ends the stream's part; otherwise it is the whole stream. */
  lemma {:induction false} CutComplete(stream: seq<Byte>, d: Byte, n: nat)
    ensures Enough(stream, d, n) <==> |Cut(stream, d, n)| == n || d in Cut(stream, d, n)
    ensures !Enough(stream, d, n) ==> Cut(stream, d, n) == stream
    ensures d in Cut(stream, d, n) ==> Cut(stream, d, n)[|Cut(stream, d, n)| - 1] == d
  {
    if n > 0 && stream != [] {
      assert stream == [stream[0]] + stream[1..];
      if stream[0] != d {
        CutComplete(stream[1..], d, n - 1);
      }
    }
  }

  /** The cut is the only prefix that ends at the delimiter, the limit or the end and has no delimiter before. */
  lemma {:induction false} CutIs(stream: seq<Byte>, d: Byte, n: nat, m: nat)
    requires m <= n && m <= |stream| && forall i :: 0 <= i < m - 1 ==> stream[i] != d
    requires m == n || m == |stream| || (m > 0 && stream[m - 1] == d)
    ensures |Cut(stream, d, n)| == m
  {
    if m > 0 && stream[0] != d {
      CutIs(stream[1..], d, n - 1, m - 1);
    }
  }

  lemma DrainedReadIsCut(r: Rx, n: nat, stream: seq<Byte>)
    requires RxInv(r, n, stream) && Drained(r)
    ensures r.got == Cut(stream, r.delimiter, n) && r.fifo == stream[|r.got|..]
    ensures ReadDone(r) <==> Enough(stream, r.delimiter, n)
  {
    var m := |r.got|;
    assert stream[..m] == r.got;
    assert forall i :: 0 <= i < m ==> stream[i] == r.got[i];
    CutIs(stream, r.delimiter, n, m);
    CutComplete(stream, r.delimiter, n);
    assert r.delimiter in r.got <==> Delimited(r.got, r.delimiter);
  }

  /** The loop keeps the read's invariant and stops only when it is drained. */
  lemma {:induction false} TakenKeeps(r: Rx, n: nat, stream: seq<Byte>)
    requires RxInv(r, n, stream)
    ensures RxInv(Taken(r), n, stream) && Drained(Taken(r)) && Taken(r).delimiter == r.delimiter
    decreases |r.fifo|
  {
    if |r.got| < r.maximum && r.fifo != [] {
      var got := r.got + [r.fifo[0]];
      assert got + r.fifo[1..] == r.got + r.fifo;
      if r.fifo[0] != r.delimiter {
        TakenKeeps(r.(got := got, fifo := r.fifo[1..]), n, stream);
      }
    }
  }

  /** Any interrupts, whatever the grouping of the bytes, keep it too. */
  lemma {:induction false} RxRunKeeps(r: Rx, n: nat, stream: seq<Byte>, arrivals: seq<seq<Byte>>)
    requires RxInv(r, n, stream) && (Drained(r) || arrivals != [])
    ensures
      var end := RxRun(r, arrivals);
      RxInv(end, n, stream + Flat(arrivals)) && Drained(end) && end.delimiter == r.delimiter
    decreases |arrivals|
  {
    if arrivals == [] {
      assert stream + Flat(arrivals) == stream;
    } else {
      var a := arrivals[0];
      assert r.got + (r.fifo + a) == stream + a;
      TakenKeeps(r.(fifo := r.fifo + a), n, stream + a);
      RxRunKeeps(RxStep(r, a), n, stream + a, arrivals[1..]);
      assert stream + a + Flat(arrivals[1..]) == stream + Flat(arrivals);
    }
  }

  /**
   In every reachable state what is stored is the stream cut at the delimiter or the limit, later bytes stay queued,
   and the scheduler's test holds exactly when the read is complete.
   */
  lemma ReadDoneExactlyWhenComplete(r: Rx, n: nat, stream: seq<Byte>, arrivals: seq<seq<Byte>>)
    requires RxInv(r, n, stream) && (Drained(r) || arrivals != [])
    ensures
      var (end, all) := (RxRun(r, arrivals), stream + Flat(arrivals));
      && end.got == Cut(all, r.delimiter, n) && end.fifo == all[|end.got|..]
      && |end.got| <= end.maximum <= n
      && (ReadDone(end) <==> Enough(all, r.delimiter, n))
  {
    RxRunKeeps(r, n, stream, arrivals);
    DrainedReadIsCut(RxRun(r, arrivals), n, stream + Flat(arrivals));
  }

  /** Without a buffer or a limit every interrupt that brings bytes throws one away, and stores none. */
  lemma {:induction false} UnaskedBytesAreDropped(r: Rx, arrivals: seq<seq<Byte>>)
    requires (!r.present || r.maximum == 0) && forall i :: 0 <= i < |arrivals| ==> arrivals[i] != []
    ensures |arrivals| <= |Flat(arrivals)|
    ensures RxRun(r, arrivals) == r.(fifo := (r.fifo + Flat(arrivals))[|arrivals|..])
    decreases |arrivals|
  {
    if arrivals == [] {
      assert (r.fifo + [])[0..] == r.fifo;
    } else {
      var now := r.fifo + arrivals[0];
      assert r.fifo + Flat(arrivals) == [now[0]] + (now[1..] + Flat(arrivals[1..]));
      UnaskedBytesAreDropped(r.(fifo := now[1..]), arrivals[1..]);
    }
  }

  /** `svc_muart_read` starts such a read, of the bytes already queued and those still to come. */
  lemma ReadStarts(n: nat, delimiter: Byte, queued: seq<Byte>)
    requires n > 0
    ensures RxInv(Rx(true, n, [], delimiter, queued), n, queued)
  {
  }

  /* ---------------------------------------------------------------- reception as written */

  /** The loop of lines 49-59, with its `<=`. */
  function TakenAsWritten(r: Rx): Rx
    decreases |r.fifo|
  {
    if |r.got| > r.maximum || r.fifo == [] then r
    else
      var got := r.got + [r.fifo[0]];
      if r.fifo[0] == r.delimiter then r.(got := got, maximum := |got|, fifo := r.fifo[1..])
      else TakenAsWritten(r.(got := got, fifo := r.fifo[1..]))
  }

  /** One interrupt as written: a rejection throws a byte away and goes on to the loop. */
  function RxStepAsWritten(r: Rx, arrived: seq<Byte>): Rx {
    var now := r.(fifo := r.fifo + arrived);
    TakenAsWritten(
      if r.present && r.maximum != 0 then now else now.(fifo := if now.fifo == [] then [] else now.fifo[1..]))
  }

  function RxRunAsWritten(r: Rx, arrivals: seq<seq<Byte>>): Rx
    decreases |arrivals|
  {
    if arrivals == [] then r else RxRunAsWritten(RxStepAsWritten(r, arrivals[0]), arrivals[1..])
  }

  /** The position of the first delimiter, or the length. */
  function FirstAt(stream: seq<Byte>, d: Byte): (p: nat)
    ensures p <= |stream| && (p < |stream| ==> stream[p] == d)
    ensures forall i :: 0 <= i < p ==> stream[i] != d
  {
    if stream == [] || stream[0] == d then 0 else 1 + FirstAt(stream[1..], d)
  }

  /** How many bytes are taken when each of the interrupts takes one, if there is one. */
  function OneEach(queued: nat, arrivals: seq<seq<Byte>>): nat
    decreases |arrivals|
  {
    if arrivals == [] then 0
    else
      var n := queued + |arrivals[0]|;
      if n == 0 then OneEach(0, arrivals[1..]) else 1 + OneEach(n - 1, arrivals[1..])
  }

  /** The interrupt that brings byte `p`: how many bytes come with it behind that one, and the interrupts after it. */
  function After(arrivals: seq<seq<Byte>>, p: nat): (r: (nat, seq<seq<Byte>>))
    decreases |arrivals|
  {
    if arrivals == [] then (0, [])
    else if p < |arrivals[0]| then (|arrivals[0]| - p - 1, arrivals[1..])
    else After(arrivals[1..], p - |arrivals[0]|)
  }

  /** Bytes `p + 1` to `p + t` are delimiters. */
  ghost predicate AllDelimiters(stream: seq<Byte>, p: nat, t: nat, d: Byte) {
    forall i :: p < i <= p + t && i < |stream| ==> stream[i] == d
  }

  /** The loop on a read that has stored no delimiter yet: none queued and room for all of them ... */
  lemma {:induction false} TakesAll(r: Rx)
    requires |r.got| + |r.fifo| <= r.maximum && FirstAt(r.fifo, r.delimiter) == |r.fifo|
    ensures TakenAsWritten(r) == r.(got := r.got + r.fifo, fifo := [])
    decreases |r.fifo|
  {
    if r.fifo == [] {
      assert r.got + [] == r.got;
    } else {
      var next := r.(got := r.got + [r.fifo[0]], fifo := r.fifo[1..]);
      TakesAll(next);
      assert next.got + next.fifo == r.got + r.fifo;
    }
  }

  /** ... or one within the limit or right behind it ... */
  lemma {:induction false} TakesDelimiter(r: Rx)
    requires FirstAt(r.fifo, r.delimiter) < |r.fifo| && |r.got| + FirstAt(r.fifo, r.delimiter) <= r.maximum
    ensures
      var t := TakenAsWritten(r);
      && |t.got| == t.maximum == |r.got| + FirstAt(r.fifo, r.delimiter) + 1
      && t.fifo == r.fifo[FirstAt(r.fifo, r.delimiter) + 1..] && t.present == r.present && t.delimiter == r.delimiter
    decreases |r.fifo|
  {
    if r.fifo[0] != r.delimiter {
      TakesDelimiter(r.(got := r.got + [r.fifo[0]], fifo := r.fifo[1..]));
    }
  }

  /** ... or more bytes before any than there is room for. */
  lemma {:induction false} TakesTooMany(r: Rx)
    requires |r.got| + FirstAt(r.fifo, r.delimiter) > r.maximum
    ensures
      var t := TakenAsWritten(r);
      |t.got| > t.maximum == r.maximum && t.present == r.present
    decreases |r.fifo|
  {
    if |r.got| <= r.maximum {
      TakesTooMany(r.(got := r.got + [r.fifo[0]], fifo := r.fifo[1..]));
    }
  }

  /** Past its limit a read stores nothing more, and its wait test never holds again. */
  lemma {:induction false} OverStays(r: Rx, arrivals: seq<seq<Byte>>)
    requires r.present && |r.got| > r.maximum > 0
    ensures !ReadDone(RxRunAsWritten(r, arrivals))
    decreases |arrivals|
  {
    if arrivals != [] {
      OverStays(RxStepAsWritten(r, arrivals[0]), arrivals[1..]);
    }
  }

  /** After a delimiter every interrupt takes one more byte, and the test holds as long as those are delimiters. */
  lemma {:induction false} DoneTakesOneEach(r: Rx, arrivals: seq<seq<Byte>>, all: seq<Byte>, p: nat)
    requires r.present && |r.got| == r.maximum > 0 && p < |all| && all[p + 1..] == r.fifo + Flat(arrivals)
    ensures ReadDone(RxRunAsWritten(r, arrivals)) <==>
      AllDelimiters(all, p, OneEach(|r.fifo|, arrivals), r.delimiter)
    decreases |arrivals|
  {
    if arrivals != [] {
      var a, rest := arrivals[0], arrivals[1..];
      var queue := r.fifo + a;
      assert all[p + 1..] == queue + Flat(rest);
      var next := RxStepAsWritten(r, a);
      if queue == [] {
        assert a == [];
        DoneTakesOneEach(next, rest, all, p);
      } else {
        assert all[p + 1] == queue[0];
        assert all[p + 2..] == queue[1..] + Flat(rest);
        if queue[0] == r.delimiter {
          DoneTakesOneEach(next, rest, all, p + 1);
        } else {
          OverAfterOne(r, queue);
          OverStays(next, rest);
          assert p < p + 1 <= p + OneEach(|r.fifo|, arrivals);
        }
      }
    }
  }

  lemma OverAfterOne(r: Rx, queue: seq<Byte>)
    requires |r.got| == r.maximum && queue != [] && queue[0] != r.delimiter
    ensures
      var t := TakenAsWritten(r.(fifo := queue));
      t.present == r.present && |t.got| > t.maximum == r.maximum
  {
    var next := r.(got := r.got + [queue[0]], fifo := queue[1..]);
    assert TakenAsWritten(next) == next;
  }

  lemma {:induction false} FirstAtConcat(a: seq<Byte>, b: seq<Byte>, d: Byte)
    ensures FirstAt(a + b, d) == if FirstAt(a, d) < |a| then FirstAt(a, d) else |a| + FirstAt(b, d)
  {
    if a == [] {
      assert a + b == b;
    } else {
      assert (a + b)[1..] == a[1..] + b;
      FirstAtConcat(a[1..], b, d);
    }
  }

  /**
   When the wait test holds after `arrivals`, for a read with `room` bytes to its limit and no delimiter yet.  If none
   comes among the next `room + 1` bytes, exactly `room` bytes must have come.  Otherwise each interrupt after the one
   that brings the delimiter takes a byte while there is one, and all of those must be delimiters.
   */
  ghost predicate InTime(arrivals: seq<seq<Byte>>, d: Byte, room: nat) {
    var all := Flat(arrivals);
    var p := FirstAt(all, d);
    var (queued, rest) := After(arrivals, p);
    if p < |all| && p <= room then AllDelimiters(all, p, OneEach(queued, rest), d) else |all| == room
  }

  lemma InTimeNone(arrivals: seq<seq<Byte>>, d: Byte, room: nat)
    requires arrivals != [] && FirstAt(arrivals[0], d) > room
    ensures !InTime(arrivals, d, room)
  {
    FirstAtConcat(arrivals[0], Flat(arrivals[1..]), d);
  }

  lemma InTimeFound(arrivals: seq<seq<Byte>>, d: Byte, room: nat)
    requires arrivals != [] && FirstAt(arrivals[0], d) < |arrivals[0]| && FirstAt(arrivals[0], d) <= room
    ensures
      var p := FirstAt(arrivals[0], d);
      InTime(arrivals, d, room) <==>
        AllDelimiters(Flat(arrivals), p, OneEach(|arrivals[0]| - p - 1, arrivals[1..]), d)
  {
    FirstAtConcat(arrivals[0], Flat(arrivals[1..]), d);
  }

  lemma InTimeLater(arrivals: seq<seq<Byte>>, d: Byte, room: nat)
    requires arrivals != [] && FirstAt(arrivals[0], d) == |arrivals[0]| <= room
    ensures InTime(arrivals, d, room) <==> InTime(arrivals[1..], d, room - |arrivals[0]|)
  {
    var a, rest := arrivals[0], arrivals[1..];
    FirstAtConcat(a, Flat(rest), d);
    var q := FirstAt(Flat(rest), d);
    var (queued, later) := After(rest, q);
    AllDelimitersShift(a, Flat(rest), q, OneEach(queued, later), d);
  }

  /** A read before its limit with an empty queue: no delimiter yet. */
  ghost predicate Searching(r: Rx) { r.present && r.maximum > 0 && |r.got| <= r.maximum && r.fifo == [] }

  lemma SearchOver(r: Rx, arrivals: seq<seq<Byte>>)
    requires Searching(r) && arrivals != [] && FirstAt(arrivals[0], r.delimiter) > r.maximum - |r.got|
    ensures !ReadDone(RxRunAsWritten(r, arrivals)) && !InTime(arrivals, r.delimiter, r.maximum - |r.got|)
  {
    InTimeNone(arrivals, r.delimiter, r.maximum - |r.got|);
    var next := StepIsLoop(r, arrivals[0]);
    TakesTooMany(r.(fifo := arrivals[0]));
    OverStays(next, arrivals[1..]);
  }

  lemma SearchFinds(r: Rx, arrivals: seq<seq<Byte>>)
    requires Searching(r) && arrivals != [] && FirstAt(arrivals[0], r.delimiter) < |arrivals[0]|
    requires FirstAt(arrivals[0], r.delimiter) <= r.maximum - |r.got|
    ensures ReadDone(RxRunAsWritten(r, arrivals)) <==> InTime(arrivals, r.delimiter, r.maximum - |r.got|)
  {
    var a, rest, p := arrivals[0], arrivals[1..], FirstAt(arrivals[0], r.delimiter);
    var all := Flat(arrivals);
    assert all == a + Flat(rest) && all[p + 1..] == a[p + 1..] + Flat(rest);
    var next := SearchStops(r, a);
    DoneTakesOneEach(next, rest, all, p);
    InTimeFound(arrivals, r.delimiter, r.maximum - |r.got|);
  }

  lemma SearchStops(r: Rx, a: seq<Byte>) returns (next: Rx)
    requires Searching(r) && FirstAt(a, r.delimiter) < |a| && FirstAt(a, r.delimiter) <= r.maximum - |r.got|
    ensures next == RxStepAsWritten(r, a)
    ensures next.present && |next.got| == next.maximum > 0 && next.delimiter == r.delimiter
    ensures next.fifo == a[FirstAt(a, r.delimiter) + 1..]
  {
    next := StepIsLoop(r, a);
    TakesDelimiter(r.(fifo := a));
  }

  lemma StepIsLoop(r: Rx, a: seq<Byte>) returns (next: Rx)
    requires Searching(r)
    ensures next == RxStepAsWritten(r, a) == TakenAsWritten(r.(fifo := a))
  {
    assert r.fifo + a == a;
    next := RxStepAsWritten(r, a);
  }

  lemma SearchGoesOn(r: Rx, a: seq<Byte>)
    requires Searching(r) && FirstAt(a, r.delimiter) == |a| <= r.maximum - |r.got|
    ensures RxStepAsWritten(r, a) == r.(got := r.got + a)
  {
    var next := StepIsLoop(r, a);
    TakesAll(r.(fifo := a));
  }

  /** Over all interrupts, from any point of a read that has not met a delimiter. */
  lemma {:induction false} SearchRuns(r: Rx, arrivals: seq<seq<Byte>>)
    requires Searching(r)
    ensures ReadDone(RxRunAsWritten(r, arrivals)) <==> InTime(arrivals, r.delimiter, r.maximum - |r.got|)
    decreases |arrivals|
  {
    if arrivals != [] {
      var a, room := arrivals[0], r.maximum - |r.got|;
      var p := FirstAt(a, r.delimiter);
      if p > room {
        SearchOver(r, arrivals);
      } else if p < |a| {
        SearchFinds(r, arrivals);
      } else {
        SearchGoesOn(r, a);
        InTimeLater(arrivals, r.delimiter, room);
        SearchRuns(r.(got := r.got + a), arrivals[1..]);
      }
    }
  }

  lemma AllDelimitersShift(a: seq<Byte>, b: seq<Byte>, p: nat, t: nat, d: Byte)
    ensures AllDelimiters(a + b, |a| + p, t, d) <==> AllDelimiters(b, p, t, d)
  {
    if AllDelimiters(a + b, |a| + p, t, d) {
      forall i | p < i <= p + t && i < |b|
        ensures b[i] == d
      {
        assert (a + b)[|a| + i] == b[i];
      }
    }
  }

  /** The wait test after any interrupts, for a read of `n` bytes, and when it agrees with completion. */
  lemma {:induction false} ReadAsWrittenExactly(n: nat, d: Byte, arrivals: seq<seq<Byte>>)
    requires n > 0
    ensures
      var all := Flat(arrivals);
      var end := RxRunAsWritten(Rx(true, n, [], d, []), arrivals);
      && (ReadDone(end) <==> InTime(arrivals, d, n))
      && ((ReadDone(end) <==> Enough(all, d, n)) <==>
            InTime(arrivals, d, n) || (|all| < n && FirstAt(all, d) == |all|))
  {
    SearchRuns(Rx(true, n, [], d, []), arrivals);
    var all := Flat(arrivals);
    assert d in all <==> FirstAt(all, d) < |all|;
  }

  /** `svc_muart_read` as written leaves the count of the last read in place. */
  function ReadSubmitAsWritten(r: Rx, n: nat): Rx { r.(present := true, maximum := n) }

  /** A read that starts at the count of `stale` bytes is one of so many bytes less, stored behind them. */
  function Behind(stale: seq<Byte>, r: Rx): Rx { r.(maximum := |stale| + r.maximum, got := stale + r.got) }

  lemma {:induction false} TakenBehind(stale: seq<Byte>, r: Rx)
    ensures Taken(Behind(stale, r)) == Behind(stale, Taken(r))
    decreases |r.fifo|
  {
    if |r.got| < r.maximum && r.fifo != [] {
      var got := r.got + [r.fifo[0]];
      assert stale + r.got + [r.fifo[0]] == stale + got;
      if r.fifo[0] != r.delimiter {
        TakenBehind(stale, r.(got := got, fifo := r.fifo[1..]));
      }
    }
  }

  lemma {:induction false} RunBehind(stale: seq<Byte>, r: Rx, arrivals: seq<seq<Byte>>)
    requires r.present && r.maximum > 0 && |r.got| <= r.maximum
    ensures RxRun(Behind(stale, r), arrivals) == Behind(stale, RxRun(r, arrivals))
    decreases |arrivals|
  {
    if arrivals != [] {
      var now := r.(fifo := r.fifo + arrivals[0]);
      TakenBehind(stale, now);
      TakenPositive(now);
      RunBehind(stale, RxStep(r, arrivals[0]), arrivals[1..]);
    }
  }

  lemma {:induction false} TakenPositive(r: Rx)
    requires r.maximum > 0 && |r.got| <= r.maximum
    ensures Taken(r).maximum > 0 && |Taken(r).got| <= Taken(r).maximum && Taken(r).present == r.present
    decreases |r.fifo|
  {
    if |r.got| < r.maximum && r.fifo != [] && r.fifo[0] != r.delimiter {
      TakenPositive(r.(got := r.got + [r.fifo[0]], fifo := r.fifo[1..]));
    }
  }

  /** A count at or beyond the limit: nothing is taken. */
  lemma {:induction false} OvercountTakesNothing(r: Rx, arrivals: seq<seq<Byte>>)
    requires r.present && 0 < r.maximum <= |r.got|
    ensures RxRun(r, arrivals).got == r.got && RxRun(r, arrivals).maximum == r.maximum
    decreases |arrivals|
  {
    if arrivals != [] {
      OvercountTakesNothing(RxStep(r, arrivals[0]), arrivals[1..]);
    }
  }

  lemma ShorterRead(r: Rx, n: nat, arrivals: seq<seq<Byte>>)
    requires |r.got| < n && r.fifo == [] && arrivals != []
    ensures
      var all, d, room := Flat(arrivals), r.delimiter, n - |r.got|;
      var end := RxRun(ReadSubmitAsWritten(r, n), arrivals);
      end.got == r.got + Cut(all, d, room) && (ReadDone(end) <==> Enough(all, d, room))
  {
    var clean := Rx(true, n - |r.got|, [], r.delimiter, []);
    assert r.got + [] == r.got;
    assert ReadSubmitAsWritten(r, n) == Behind(r.got, clean);
    RunBehind(r.got, clean, arrivals);
    assert [] + Flat(arrivals) == Flat(arrivals);
    ReadDoneExactlyWhenComplete(clean, n - |r.got|, [], arrivals);
  }

  /** What a read of `n` bytes gets from an empty queue when bytes are still counted (lines 48-62). */
  lemma ReadSubmitAsWrittenGets(r: Rx, n: nat, arrivals: seq<seq<Byte>>)
    requires n > 0 && r.fifo == [] && arrivals != []
    ensures
      var all, d, stale := Flat(arrivals), r.delimiter, |r.got|;
      var end := RxRun(ReadSubmitAsWritten(r, n), arrivals);
      && (stale < n ==> end.got == r.got + Cut(all, d, n - stale) && (ReadDone(end) <==> Enough(all, d, n - stale)))
      && (stale >= n ==> end.got == r.got && (ReadDone(end) <==> stale == n))
  {
    if |r.got| < n {
      ShorterRead(r, n, arrivals);
    } else {
      OvercountTakesNothing(ReadSubmitAsWritten(r, n), arrivals);
    }
  }

  /**
   For a stream long enough the bytes are those of the read asked for, and the read is done, exactly when nothing was
   counted or the delimiter comes early enough.
   */
  lemma ReadSubmitAsWrittenExactly(r: Rx, n: nat, arrivals: seq<seq<Byte>>)
    requires n > 0 && r.fifo == [] && arrivals != [] && Enough(Flat(arrivals), r.delimiter, n)
    ensures
      var all, d, stale := Flat(arrivals), r.delimiter, |r.got|;
      var end := RxRun(ReadSubmitAsWritten(r, n), arrivals);
      end.got == r.got + Cut(all, d, n) && ReadDone(end) <==>
        stale == 0 || (stale < n && FirstAt(all, d) < n - stale && FirstAt(all, d) < |all|)
  {
    var all, d, stale := Flat(arrivals), r.delimiter, |r.got|;
    var room := if stale < n then n - stale else 0;
    ReadSubmitAsWrittenGets(r, n, arrivals);
    assert r.got + [] == r.got;
    assert (r.got + Cut(all, d, room))[stale..] == Cut(all, d, room) && (r.got + Cut(all, d, n))[stale..] == Cut(all, d, n);
    CutLength(all, d, room);
    CutLength(all, d, n);
    assert d in all <==> FirstAt(all, d) < |all|;
  }

  /** How long a cut is. */
  lemma {:induction false} CutLength(stream: seq<Byte>, d: Byte, n: nat)
    ensures
      var p := FirstAt(stream, d);
      |Cut(stream, d, n)| == if p < n && p < |stream| then p + 1 else if |stream| < n then |stream| else n
  {
    if n > 0 && stream != [] && stream[0] != d {
      CutLength(stream[1..], d, n - 1);
    }
  }

  /* ---------------------------------------------------------------- the waiting owner */

  /** The scheduler's world shows the port's metadata. */
  ghost predicate Shows(w: Scheduler.World, t: Tx, r: Rx) {
    && w.muart.writeLength == t.length && w.muart.written == t.written
    && w.muart.readMaximum == r.maximum && w.muart.read == |r.got|
  }

  /**
   The owner, waiting for its write or its read, is woken exactly when the transfer is complete; any other task that
   waits for the port's transfers is terminated with fault 10.
   */
  lemma OwnerIsWokenExactlyWhenComplete(w: Scheduler.World, k: Tasks.Task, id: nat,
                                        t: Tx, before: seq<Byte>, job: seq<Byte>, r: Rx, n: nat, stream: seq<Byte>)
    requires TxInv(t, before, job) && RxInv(r, n, stream) && Drained(r) && Shows(w, t, r)
    ensures w.muart.owner != id && k.reason <= 1 ==> Scheduler.TaskWaiting(k, id, w) == Scheduler.Faulty(10)
    ensures w.muart.owner == id && k.reason == 0 ==>
      (Scheduler.TaskWaiting(k, id, w) == Scheduler.Done <==> t.wire == before + job)
    ensures w.muart.owner == id && k.reason == 1 ==>
      (Scheduler.TaskWaiting(k, id, w) == Scheduler.Done <==> Enough(stream, r.delimiter, n))
  {
    DrainedReadIsCut(r, n, stream);
    WriteDoneExactlyWhenSent(t, before, job, []);
  }

  /* ---------------------------------------------------------------- the interrupt handlers */

  class MiniUart {
    var writeBuffer: Option<seq<Byte>>
    var writeLength: nat
    var writtenLength: nat
    var wire: seq<Byte>
    var readPresent: bool
    var readMaximum: nat
    var readLength: nat
    const readBuffer: array<Byte>
    var delimiter: Byte
    var fifo: seq<Byte>
    var writeRejections: nat
    var readRejections: nat

    ghost predicate Valid()
      reads this
    {
      && (writeBuffer.Some? ==> writeLength <= |writeBuffer.value|)
      && readLength <= readMaximum <= readBuffer.Length
    }

    ghost function Transmitter(): Tx
      reads this
    {
      Tx(writeBuffer, writeLength, writtenLength, wire)
    }

    ghost function Receiver(): Rx
      reads this, readBuffer
      requires Valid()
    {
      Rx(readPresent, readMaximum, readBuffer[..readLength], delimiter, fifo)
    }

    constructor (buffer: array<Byte>)
      ensures Valid() && Transmitter() == Tx(None, 0, 0, []) && readMaximum == 0 && readBuffer == buffer
    {
      writeBuffer, writeLength, writtenLength, wire := None, 0, 0, [];
      readPresent, readMaximum, readLength, delimiter, fifo := false, 0, 0, 0, [];
      readBuffer, writeRejections, readRejections := buffer, 0, 0;
    }

    method Write(buffer: Option<seq<Byte>>, length: nat)
      requires Valid() && Sensible(Submit(buffer, length))
      modifies this`writeBuffer, this`writeLength, this`writtenLength
      ensures Valid() && Transmitter() == TxStep(old(Transmitter()), Submit(buffer, length))
    {
      writeBuffer, writeLength, writtenLength := buffer, length, 0;
    }

    /** `svc_muart_read`. */
    method Read(maximum: nat)
      requires Valid() && maximum <= readBuffer.Length
      modifies this`readPresent, this`readMaximum, this`readLength
      ensures Valid() && Receiver() == Rx(true, maximum, [], delimiter, fifo)
      ensures maximum > 0 ==> RxInv(Receiver(), maximum, fifo)
    {
      readPresent, readMaximum, readLength := true, maximum, 0;
      if maximum > 0 {
        ReadStarts(maximum, delimiter, fifo);
      }
    }

    /** `muart_tx_empty`. */
    method TransmitEmpty(room: nat)
      requires Valid()
      modifies this`writeBuffer, this`writeLength, this`writtenLength, this`wire, this`writeRejections
      ensures Valid() && Transmitter() == TxStep(old(Transmitter()), TxEmpty(room))
      ensures writeRejections ==
        old(writeRejections) + if old(writeBuffer).None? || old(writeLength) == 0 then 1 else 0
    {
      if writeBuffer.None? || writeLength == 0 {
        writeRejections := writeRejections + 1;
        return;
      }
      ghost var start := writtenLength;
      var left: nat := room;
      while writtenLength < writeLength && left > 0
        invariant writtenLength == start + (room - left) && left <= room
        invariant writtenLength <= if start < writeLength then writeLength else start
        invariant wire == old(wire) + Slice(writeBuffer.value, start, writtenLength)
        modifies this`writtenLength, this`wire
      {
        ghost var b := writeBuffer.value;
        assert Slice(b, start, writtenLength + 1) == Slice(b, start, writtenLength) + [b[writtenLength]];
        wire := wire + [writeBuffer.value[writtenLength]];
        writtenLength, left := writtenLength + 1, left - 1;
      }
      if writtenLength == writeLength {
        writeBuffer, writeLength, writtenLength := None, 0, 0;
      }
    }

    /** `muart_valid_byte`. */
    method ValidByte(arrived: seq<Byte>)
      requires Valid()
      modifies this`readMaximum, this`readLength, this`fifo, this`readRejections, readBuffer
      ensures Valid() && Receiver() == RxStep(old(Receiver()), arrived)
    {
      fifo := fifo + arrived;
      if !readPresent || readMaximum == 0 {
        readRejections := readRejections + 1;
        fifo := if fifo == [] then [] else fifo[1..];
        return;
      }
      ghost var goal := Taken(Receiver());
      while readLength < readMaximum && fifo != []
        invariant Valid() && Taken(Receiver()) == goal
        decreases |fifo|
        modifies this`readMaximum, this`readLength, this`fifo, readBuffer
      {
        ghost var before := Receiver();
        var b := fifo[0];
        readBuffer[readLength] := b;
        readLength, fifo := readLength + 1, fifo[1..];
        assert readBuffer[..readLength] == before.got + [b];
        if b == delimiter {
          readMaximum := readLength;
          break;
        }
      }
    }
  }
}
