/**
 A task's translation frame and its growth (exception/synchronous/synchronous.c:164-313, the data-abort handler;
 exception/synchronous/svc/svc.c:641-659).

 A frame of 256 to 65536 words holds one level-0, one level-1 and one, two or eight level-2 words, then a level-3 word
 per page.  It starts small and moves to a frame four times larger when the capacity test of line 226 says so.

 The offsets of lines 262, 269 and 282-311 disagree with that test and with each other, the table words are copied with
 the old frame's addresses, the task's translation base is not updated, and the page count is one short and does not go
 up.  `Add` and `Frame` use the layout of the test throughout, and the true count; the code's own offsets and count are
 under "as written" below, with the exact conditions under which they agree.
 */
module PageTable {
  import opened Common

  /** What a word refers to: nothing known, the slot of a frame where the next table starts, or a memory page. */
  datatype Cell = Unset | Table(frame: nat, slot: nat) | Page(descriptor: nat)

  const SPAN: nat := 8192  // pages under one level-2 word
  const LARGEST: nat := 65536

  ghost predicate FrameSize(words: nat) { words in {256, 1024, 4096, 16384, 65536} }

  /** The number of level-2 words, and the slot of page 0 (the capacity test's 2 + 8, 2 or 1). */
  function Tables(words: nat): nat { if words == 65536 then 8 else if words == 16384 then 2 else 1 }
  function Base(words: nat): nat { 2 + Tables(words) }

  /**
   The walk of a translation that starts at `frame`, reading `cells`: level 0, level 1, the level-2 word for the page's
   span, the page's own word.  A word that leads out of the frame ends the walk.
   */
  function Walk(frame: nat, cells: seq<Cell>, page: nat): Option<nat> {
    var one := Step(frame, cells, 0);
    var two := if one.Some? then Step(frame, cells, one.value) else None;
    var three := if two.Some? then Step(frame, cells, two.value + page / SPAN) else None;
    if three.Some? && three.value + page % SPAN < |cells| && cells[three.value + page % SPAN].Page?
    then Some(cells[three.value + page % SPAN].descriptor)
    else None
  }

  function Step(frame: nat, cells: seq<Cell>, at: nat): Option<nat> {
    if at < |cells| && cells[at].Table? && cells[at].frame == frame then Some(cells[at].slot) else None
  }

  /** The frame holds exactly the tables and the pages' words, page `i` in slot `Base + i`. */
  ghost predicate Holds(frame: nat, cells: seq<Cell>, pages: seq<nat>) {
    && FrameSize(|cells|) && Base(|cells|) + |pages| <= |cells|
    && cells[0] == Table(frame, 1) && cells[1] == Table(frame, 2)
    && (forall k :: 0 <= k < Tables(|cells|) && SPAN * k < |pages| ==>
      cells[2 + k] == Table(frame, Base(|cells|) + SPAN * k))
    && (forall i :: 0 <= i < |pages| ==> cells[Base(|cells|) + i] == Page(pages[i]))
  }

  /** The layout has the meaning intended: the walk to page `i` ends at page `i`. */
  lemma HeldPagesAreReached(frame: nat, cells: seq<Cell>, pages: seq<nat>, i: nat)
    requires Holds(frame, cells, pages) && i < |pages|
    ensures Walk(frame, cells, i) == Some(pages[i])
  {
    var k := i / SPAN;
    assert SPAN * k <= i < SPAN * k + SPAN;
    assert cells[2 + k] == Table(frame, Base(|cells|) + SPAN * k);
    assert cells[Base(|cells|) + i] == Page(pages[i]);
  }

  /* ---------------------------------------------------------------- adding a page */

  datatype Frame = Frame(id: nat, cells: seq<Cell>)

  function Full(words: nat, pages: nat): bool { Base(words) + pages >= words }

  /** Sets the level-2 word of page `n` when `n` is the first page of its span, and the page's own word. */
  function WithPage(f: Frame, n: nat, descriptor: nat): (r: Frame)
    requires FrameSize(|f.cells|) && !Full(|f.cells|, n)
    ensures |r.cells| == |f.cells|
  {
    var base := Base(|f.cells|);
    var tables := if n % SPAN == 0 then f.cells[2 + n / SPAN := Table(f.id, base + n)] else f.cells;
    Frame(f.id, tables[base + n := Page(descriptor)])
  }

  /** Frame `f`'s tables and `n` pages moved into the larger frame `into`, whose old contents do not matter. */
  function Moved(f: Frame, into: Frame, n: nat): (r: Frame)
    requires FrameSize(|f.cells|) && FrameSize(|into.cells|) && Base(|f.cells|) + n <= |f.cells| <= |into.cells|
    ensures |r.cells| == |into.cells|
  {
    var from, to := Base(|f.cells|), Base(|into.cells|);
    assert |f.cells| < |into.cells| ==> to + n <= |into.cells|;
    Frame(into.id, seq(|into.cells|, j requires 0 <= j < |into.cells| =>
      if j < 2 then Table(into.id, j + 1)
      else if j < to then (if SPAN * (j - 2) < n then Table(into.id, to + SPAN * (j - 2)) else into.cells[j])
      else if j < to + n && from + (j - to) < |f.cells| then f.cells[from + (j - to)]
      else into.cells[j]))
  }

  /** A frame offered for growth is four times larger. */
  ghost predicate Fits(f: Frame, spare: Option<Frame>) {
    spare.Some? && |f.cells| < LARGEST ==> |spare.value.cells| == 4 * |f.cells|
  }

  /** One more page: no frame when a larger one is needed and there is none. */
  function Add(f: Frame, n: nat, descriptor: nat, spare: Option<Frame>): Option<Frame>
    requires FrameSize(|f.cells|) && Base(|f.cells|) + n <= |f.cells| && Fits(f, spare)
  {
    if !Full(|f.cells|, n) then Some(WithPage(f, n, descriptor))
    else if |f.cells| >= LARGEST || spare.None? then None
    else Some(WithPage(Moved(f, spare.value, n), n, descriptor))
  }

  lemma MovedHolds(f: Frame, into: Frame, pages: seq<nat>)
    requires Holds(f.id, f.cells, pages) && FrameSize(|into.cells|) && |f.cells| < |into.cells|
    ensures Holds(into.id, Moved(f, into, |pages|).cells, pages)
  {
    var from, to, r := Base(|f.cells|), Base(|into.cells|), Moved(f, into, |pages|).cells;
    forall i | 0 <= i < |pages|
      ensures r[to + i] == Page(pages[i])
    {
      assert f.cells[from + i] == Page(pages[i]);
    }
  }

  lemma WithPageHolds(f: Frame, pages: seq<nat>, descriptor: nat)
    requires Holds(f.id, f.cells, pages) && !Full(|f.cells|, |pages|)
    ensures Holds(f.id, WithPage(f, |pages|, descriptor).cells, pages + [descriptor])
  {
    var n, base, r := |pages|, Base(|f.cells|), WithPage(f, |pages|, descriptor).cells;
    forall k | 0 <= k < Tables(|r|) && SPAN * k < n + 1
      ensures r[2 + k] == Table(f.id, base + SPAN * k)
    {
      if SPAN * k < n {
        assert f.cells[2 + k] == Table(f.id, base + SPAN * k);
      }
    }
    forall i | 0 <= i < n
      ensures r[base + i] == Page(pages[i])
    {
      assert f.cells[base + i] == Page(pages[i]);
    }
  }

  /**
   Growth preserves meaning: the walk through the new frame finds every old page's descriptor and the new page after
   them, in every frame size and whatever the larger frame held before.
   */
  lemma AddPreservesMeaning(f: Frame, pages: seq<nat>, descriptor: nat, spare: Option<Frame>)
    requires Holds(f.id, f.cells, pages) && Fits(f, spare)
    ensures
      var r := Add(f, |pages|, descriptor, spare);
      r.Some? ==>
        && Holds(r.value.id, r.value.cells, pages + [descriptor])
        && (forall i :: 0 <= i < |pages| ==> Walk(r.value.id, r.value.cells, i) == Walk(f.id, f.cells, i))
        && Walk(r.value.id, r.value.cells, |pages|) == Some(descriptor)
  {
    var r := Add(f, |pages|, descriptor, spare);
    if r.Some? {
      if Full(|f.cells|, |pages|) {
        MovedHolds(f, spare.value, pages);
        WithPageHolds(Moved(f, spare.value, |pages|), pages, descriptor);
      } else {
        WithPageHolds(f, pages, descriptor);
      }
      var all := pages + [descriptor];
      HeldPagesAreReached(r.value.id, r.value.cells, all, |pages|);
      forall i | 0 <= i < |pages|
        ensures Walk(r.value.id, r.value.cells, i) == Walk(f.id, f.cells, i)
      {
        HeldPagesAreReached(r.value.id, r.value.cells, all, i);
        HeldPagesAreReached(f.id, f.cells, pages, i);
      }
    }
  }

  /**
   Adding fails exactly when the frame is full and there is no larger one to be had.  The task moves into that one exactly
   when its frame is full, and in a frame it stays in only the page's word and, at a new span, a table word are written.
   */
  lemma AddExactly(f: Frame, pages: seq<nat>, descriptor: nat, spare: Option<Frame>)
    requires Holds(f.id, f.cells, pages) && Fits(f, spare)
    ensures
      var r, n, words := Add(f, |pages|, descriptor, spare), |pages|, |f.cells|;
      var base := if words == 65536 then 10 else if words == 16384 then 4 else 3;
      && (r.None? <==> n == words - base && (words == 65536 || spare.None?))
      && (r.Some? ==>
           if n == words - base
           then r.value.id == spare.value.id && |r.value.cells| == 4 * words
           else r.value.id == f.id && |r.value.cells| == words
                && forall i :: 0 <= i < words && i != base + n && (n % 8192 != 0 || i != 2 + n / 8192) ==>
                     r.value.cells[i] == f.cells[i])
  {
  }

  /* ---------------------------------------------------------------- whole runs */

  /** A request: the page's descriptor, and what the frame allocator offers should growth be needed. */
  datatype Request = Request(descriptor: nat, id: nat, stale: seq<Cell>)

  function Offer(f: Frame, q: Request): (spare: Option<Frame>)
    ensures Fits(f, spare)
  {
    if |q.stale| == 4 * |f.cells| then Some(Frame(q.id, q.stale)) else None
  }

  /** The frame of a new task (`svc_spawn_task`): its three tables and its first page, in whatever frame it was given. */
  function Spawned(id: nat, stale: seq<Cell>, first: nat): (f: Frame)
    requires FrameSize(|stale|)
    ensures Holds(f.id, f.cells, [first]) && |f.cells| == |stale|
  {
    var base := Base(|stale|);
    Frame(id, stale[0 := Table(id, 1)][1 := Table(id, 2)][2 := Table(id, base)][base := Page(first)])
  }

  /** The frame and the pages after a run of requests, those that fail being dropped. */
  function Run(f: Frame, pages: seq<nat>, requests: seq<Request>): (r: (Frame, seq<nat>))
    requires Holds(f.id, f.cells, pages)
    ensures Holds(r.0.id, r.0.cells, r.1)
    ensures pages <= r.1
    decreases |requests|
  {
    if requests == [] then (f, pages)
    else
      var q := requests[0];
      AddPreservesMeaning(f, pages, q.descriptor, Offer(f, q));
      match Add(f, |pages|, q.descriptor, Offer(f, q))
      case None => Run(f, pages, requests[1..])
      case Some(g) => Run(g, pages + [q.descriptor], requests[1..])
  }

  /** From a task's creation on, through every growth, every page it was given is found by the walk. */
  lemma {:induction false} EveryPageIsAlwaysReached(id: nat, stale: seq<Cell>, first: nat, requests: seq<Request>, i: nat)
    requires FrameSize(|stale|)
    requires i < |Run(Spawned(id, stale, first), [first], requests).1|
    ensures
      var (f, pages) := Run(Spawned(id, stale, first), [first], requests);
      pages[0] == first && Walk(f.id, f.cells, i) == Some(pages[i])
  {
    var (f, pages) := Run(Spawned(id, stale, first), [first], requests);
    HeldPagesAreReached(f.id, f.cells, pages, i);
  }

  /* ---------------------------------------------------------------- as written */

  /** Lines 651-654 of `svc_spawn_task`: the first page's word is always word 3. */
  function SpawnedAsWritten(id: nat, stale: seq<Cell>, first: nat): Frame
    requires FrameSize(|stale|)
  {
    Frame(id, stale[0 := Table(id, 1)][1 := Table(id, 2)][2 := Table(id, 3)][3 := Page(first)])
  }

  /** Right exactly up to 32 KB; the allocator asked for 2 KB chooses 8 KB but may fall back on any larger frame. */
  lemma SpawnedAsWrittenExactly(id: nat, stale: seq<Cell>, first: nat)
    requires FrameSize(|stale|)
    ensures Holds(id, SpawnedAsWritten(id, stale, first).cells, [first]) <==> |stale| <= 4096
    ensures |stale| <= 4096 ==> SpawnedAsWritten(id, stale, first) == Spawned(id, stale, first)
  {
    var r := SpawnedAsWritten(id, stale, first);
    if |stale| <= 4096 {
      assert r == Spawned(id, stale, first);
    } else if Holds(id, r.cells, [first]) {
      HeldFirstTable(id, r.cells, [first]);
    }
  }

  lemma HeldFirstTable(frame: nat, cells: seq<Cell>, pages: seq<nat>)
    requires Holds(frame, cells, pages) && pages != []
    ensures cells[2] == Table(frame, Base(|cells|))
  {
    assert cells[2 + 0] == Table(frame, Base(|cells|) + SPAN * 0);
  }

  /** Line 311: without growth the page's word goes to slot 3 + `count`, and no level-2 word is set. */
  function WriteAsWritten(f: Frame, count: nat, descriptor: nat): Frame
    requires 3 + count < |f.cells|
  {
    f.(cells := f.cells[3 + count := Page(descriptor)])
  }

  /**
   Whatever the count: it adds the page exactly when slot 3 + `count` is the one after the last page, and the page does
   not start a span whose level-2 word is not there yet.
   */
  lemma WriteAsWrittenExactly(f: Frame, pages: seq<nat>, count: nat, descriptor: nat)
    requires Holds(f.id, f.cells, pages) && !Full(|f.cells|, |pages|) && 3 + count < |f.cells|
    requires f.cells[Base(|f.cells|) + |pages|] != Page(descriptor)
    ensures
      var n, base := |pages|, Base(|f.cells|);
      Holds(f.id, WriteAsWritten(f, count, descriptor).cells, pages + [descriptor]) <==>
        3 + count == base + n && (n % SPAN == 0 ==> f.cells[2 + n / SPAN] == Table(f.id, base + n))
  {
    var n, base, r := |pages|, Base(|f.cells|), WriteAsWritten(f, count, descriptor);
    var all := pages + [descriptor];
    if 3 + count != base + n {
      assert all[n] == descriptor;
      assert r.cells[base + n] != Page(descriptor);
    } else if n % SPAN == 0 {
      assert SPAN * (n / SPAN) == n < |all|;
      if f.cells[2 + n / SPAN] == Table(f.id, base + n) {
        assert f.cells[2 + n / SPAN := Table(f.id, base + n)] == f.cells;
        WithPageHolds(f, pages, descriptor);
      }
    } else {
      WithPageHolds(f, pages, descriptor);
    }
  }

  lemma ReplacedHolds(f: Frame, pages: seq<nat>, i: nat, descriptor: nat)
    requires Holds(f.id, f.cells, pages) && i < |pages|
    ensures Holds(f.id, f.cells[Base(|f.cells|) + i := Page(descriptor)], pages[i := descriptor])
  {
    var base, now := Base(|f.cells|), pages[i := descriptor];
    forall j | 0 <= j < |now|
      ensures f.cells[base + i := Page(descriptor)][base + j] == Page(now[j])
    {
      assert f.cells[base + j] == Page(pages[j]);
    }
  }

  /**
   The count of the code is one short (`CountAsWrittenMissesOne`).  So the write never adds a page; it replaces one: the
   last page in frames up to 32 KB, the one before it in a 128 KB frame, the eighth from the end in a 512 KB frame.  Nor does
   the count go up in the loop of lines 196-312: the next page of an attempt replaces this one.
   */
  lemma WriteAsWrittenReplacesAPage(f: Frame, pages: seq<nat>, descriptor: nat, next: nat)
    requires Holds(f.id, f.cells, pages) && |pages| >= (if |f.cells| == LARGEST then 8 else 2)
    ensures
      var count := CountedAsWritten(|pages|);
      var lost := |pages| - if |f.cells| <= 4096 then 1 else if |f.cells| == 16384 then 2 else 8;
      && 3 + count < |f.cells|
      && Holds(f.id, WriteAsWritten(f, count, descriptor).cells, pages[lost := descriptor])
      && Walk(f.id, WriteAsWritten(f, count, descriptor).cells, lost) == Some(descriptor)
      && WriteAsWritten(WriteAsWritten(f, count, descriptor), count, next) == WriteAsWritten(f, count, next)
  {
    var lost := |pages| + 2 - Base(|f.cells|);
    ReplacedHolds(f, pages, lost, descriptor);
    HeldPagesAreReached(f.id, f.cells[Base(|f.cells|) + lost := Page(descriptor)], pages[lost := descriptor], lost);
  }

  /** With that count the capacity test fires only when the frame already lacks a page: it never grows a frame in time. */
  lemma GrowthAsWrittenComesTooLate(f: Frame, pages: seq<nat>)
    requires FrameSize(|f.cells|) && |pages| >= 2 && Full(|f.cells|, CountedAsWritten(|pages|))
    ensures !Holds(f.id, f.cells, pages)
  {
  }

  /**
   Lines 252-308: the tables copied word for word, the pages at the offsets of the copy loops and the new page's.  `n` is
   the count of the code; as growth comes one page late, it is all the frame can hold.
   */
  function GrownAsWritten(f: Frame, into: Frame, n: nat, descriptor: nat): (r: Frame)
    requires |f.cells| < LARGEST && FrameSize(|f.cells|) && |into.cells| == 4 * |f.cells|
    requires Base(|f.cells|) + n == |f.cells|
    ensures |r.cells| == |into.cells|
  {
    var large := |into.cells| == 65536;
    var to, from := if large then 9 else 4, if large then 4 else 3;
    var slot := n + if large then 10 else if |into.cells| == 16384 then 4 else 3;
    Frame(into.id, seq(|into.cells|, j requires 0 <= j < |into.cells| =>
      if j == slot then Page(descriptor)
      else if large && j == 3 then Unset  // a value made from the page word at 8201, not from its address
      else if j < 3 then f.cells[j]
      else if to <= j < to + n then f.cells[from + (j - to)]
      else into.cells[j]))
  }

  /** The copied table words still lead to the old frame, so no page at all is reached through the new one. */
  lemma GrownAsWrittenReachesNothing(f: Frame, pages: seq<nat>, into: Frame, descriptor: nat, i: nat)
    requires Holds(f.id, f.cells, pages) && Full(|f.cells|, |pages|) && |f.cells| < LARGEST
    requires |into.cells| == 4 * |f.cells| && into.id != f.id
    ensures
      var r := GrownAsWritten(f, into, |pages|, descriptor);
      Walk(r.id, r.cells, i) == None
  {
  }

  /** Apart from that, the page words are where the capacity test puts them exactly when 32 KB grow to 128 KB. */
  lemma {:induction false} GrownAsWrittenKeepsDescriptors(f: Frame, pages: seq<nat>, into: Frame, descriptor: nat)
    requires Holds(f.id, f.cells, pages) && Full(|f.cells|, |pages|) && |f.cells| < LARGEST
    requires |into.cells| == 4 * |f.cells|
    requires forall i, j :: 0 <= i < j < |pages| ==> pages[i] != pages[j]
    ensures
      var r := GrownAsWritten(f, into, |pages|, descriptor).cells;
      (forall i :: 0 <= i < |pages| ==> r[Base(|r|) + i] == Page(pages[i])) <==> |f.cells| == 4096
  {
    var r := GrownAsWritten(f, into, |pages|, descriptor).cells;
    var from := Base(|f.cells|);
    if |f.cells| == 4096 {
      forall i | 0 <= i < |pages|
        ensures r[Base(|r|) + i] == Page(pages[i])
      {
        assert f.cells[from + i] == Page(pages[i]);
      }
    } else if |f.cells| == 16384 {
      assert f.cells[from + 1] == Page(pages[1]);
      assert r[Base(|r|) + 0] == f.cells[from + 1];
      assert pages[0] != pages[1];
    } else {
      assert f.cells[from + 0] == Page(pages[0]);
      assert r[Base(|r|) + 1] == f.cells[from + 0];
      assert pages[0] != pages[1];
    }
  }

  /** Growth only happens at three page counts below 8192 and at 16380: of the nine guarded level-2 writes one is reached. */
  lemma GrowthHappensAt(f: Frame, pages: seq<nat>)
    requires Holds(f.id, f.cells, pages) && Full(|f.cells|, |pages|)
    ensures |pages| in {253, 1021, 4093, 16380, 65526}
    ensures |f.cells| == 4096 ==> |pages| + 1 <= SPAN
    ensures |f.cells| == 16384 ==> SPAN < |pages| + 1 <= 2 * SPAN
  {
  }

  /** The counting loop of lines 164-181 from the second page on, over a list of `n` pages. */
  function CountAsWritten(at: nat, n: nat, count: nat): nat
    requires at < n
    decreases n - at
  {
    if at == n - 1 then count else CountAsWritten(at + 1, n, count + 1)
  }

  /** It misses the last page (and for a task with one page it never ends). */
  lemma {:induction false} CountAsWrittenMissesOne(at: nat, n: nat, count: nat)
    requires at < n
    ensures CountAsWritten(at, n, count) == count + (n - 1 - at)
    decreases n - at
  {
    if at < n - 1 {
      CountAsWrittenMissesOne(at + 1, n, count + 1);
    }
  }

  /** The count for a task with `n` pages, from the second page on. */
  function CountedAsWritten(n: nat): (count: nat)
    requires n >= 2
    ensures count == n - 1
  {
    CountAsWrittenMissesOne(1, n, 1);
    CountAsWritten(1, n, 1)
  }

  /** A 64-bit word. */
  function Wrap(x: int): nat { x % 0x1_0000_0000_0000_0000 }

  /** Line 183 as written: `/ 4 * KB` divides by 4 and multiplies by 1024. */
  function AttemptAsWritten(far: nat, count: nat): nat { Wrap(1024 * (Wrap(far - count * 4096) / 4)) }

  lemma WrapMultiple(y: nat)
    ensures Wrap(1024 * y) == 1024 * (y - 0x40_0000_0000_0000 * (1024 * y / 0x1_0000_0000_0000_0000))
  {
  }

  /** So the attempt is never for one or two pages: either none is added or the task is terminated. */
  lemma AttemptAsWrittenAddsNothing(far: nat, count: nat)
    ensures AttemptAsWritten(far, count) != 1 && AttemptAsWritten(far, count) != 2
  {
    WrapMultiple(Wrap(far - count * 4096) / 4);
  }

  /* ---------------------------------------------------------------- the loops */

  /** A task's translation base: the frame it is in, as the words it has in memory. */
  class Translation {
    var id: nat
    var cells: array<Cell>
    ghost var pages: seq<nat>

    ghost predicate Valid()
      reads this, cells
    {
      Holds(id, cells[..], pages)
    }

    ghost function Current(): Frame
      reads this, cells
    {
      Frame(id, cells[..])
    }

    constructor (id: nat, frame: array<Cell>, first: nat)
      requires FrameSize(frame.Length)
      modifies frame
      ensures Valid() && cells == frame && pages == [first]
      ensures Current() == Spawned(id, old(frame[..]), first)
    {
      this.id, cells, pages := id, frame, [first];
      new;
      var base := Base(frame.Length);
      frame[0], frame[1], frame[2], frame[base] := Table(id, 1), Table(id, 2), Table(id, base), Page(first);
      assert Current() == Spawned(id, old(frame[..]), first);
    }

    /** One turn of the handler's loop for a page already allocated; `spare` is what the frame allocator answers. */
    method AddPage(count: nat, descriptor: nat, spare: array?<Cell>, spareId: nat, ghost offer: Option<Frame>)
      returns (ok: bool)
      requires Valid() && count == |pages| && spare != cells
      requires offer == if spare == null then None else Some(Frame(spareId, spare[..]))
      requires Fits(Current(), offer)
      modifies this, cells, spare
      ensures Valid()
      ensures
        var r := Add(old(Current()), count, descriptor, offer);
        ok == r.Some? && Current() == (if ok then r.value else old(Current()))
      ensures pages == if ok then old(pages) + [descriptor] else old(pages)
    {
      if Full(cells.Length, count) {
        if cells.Length == LARGEST || spare == null {
          return false;
        }
        Grow(count, spare, spareId, offer.value);
      }
      WritePage(count, descriptor);
      ok := true;
    }

    /** Lines 241-277: the tables and pages moved into the larger frame, which becomes the task's. */
    method Grow(count: nat, spare: array<Cell>, spareId: nat, ghost into: Frame)
      requires Valid() && count == |pages| && spare != cells && FrameSize(spare.Length)
      requires cells.Length < spare.Length && into == Frame(spareId, spare[..])
      modifies this`id, this`cells, spare
      ensures Valid() && cells == spare
      ensures Current() == Moved(old(Current()), into, count)
    {
      MovedHolds(Current(), into, pages);
      Move(cells, spare, spareId, count);
      id, cells := spareId, spare;
    }

    /** Lines 279-311: the level-2 word of a new span, and the page's own word. */
    method WritePage(count: nat, descriptor: nat)
      requires Valid() && count == |pages| && !Full(cells.Length, count)
      modifies this`pages, cells
      ensures Valid() && pages == old(pages) + [descriptor]
      ensures Current() == WithPage(old(Current()), count, descriptor)
    {
      ghost var before := Current();
      WithPageHolds(before, pages, descriptor);
      var base := Base(cells.Length);
      if count % SPAN == 0 {
        cells[2 + count / SPAN] := Table(id, base + count);
      }
      cells[base + count] := Page(descriptor);
      pages := pages + [descriptor];
      assert cells[..] == WithPage(before, count, descriptor).cells;
    }
  }

  /** The transfer of lines 252-294: tables, level-2 words of the spans in use, and the copy loop. */
  method Move(from: array<Cell>, into: array<Cell>, id: nat, n: nat)
    requires FrameSize(from.Length) && FrameSize(into.Length) && from != into
    requires Base(from.Length) + n <= from.Length < into.Length
    modifies into
    ensures into[..] == Moved(Frame(0, from[..]), Frame(id, old(into[..])), n).cells
  {
    var start, base := Base(from.Length), Base(into.Length);
    into[0], into[1] := Table(id, 1), Table(id, 2);
    var k := 0;
    while k < Tables(into.Length)
      invariant k <= Tables(into.Length)
      invariant into[0] == Table(id, 1) && into[1] == Table(id, 2)
      invariant forall j :: 2 <= j < into.Length ==>
        into[j] == if j < 2 + k && SPAN * (j - 2) < n then Table(id, base + SPAN * (j - 2)) else old(into[j])
    {
      if SPAN * k < n {
        into[2 + k] := Table(id, base + SPAN * k);
      }
      k := k + 1;
    }
    Copy(from, start, into, base, n);
  }

  method Copy(from: array<Cell>, start: nat, into: array<Cell>, base: nat, n: nat)
    requires from != into && start + n <= from.Length && base + n <= into.Length
    modifies into
    ensures forall j :: 0 <= j < into.Length ==>
      into[j] == if base <= j < base + n then from[start + (j - base)] else old(into[j])
  {
    var i := 0;
    while i < n
      invariant i <= n
      invariant forall j :: 0 <= j < into.Length ==>
        into[j] == if base <= j < base + i then from[start + (j - base)] else old(into[j])
    {
      into[base + i] := from[start + i];
      i := i + 1;
    }
  }
}
