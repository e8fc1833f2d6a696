/**
 The kernel frame allocator (lib/kmem.c; layout in kernel.c:226-259, 2 MB reserved by linker.ld:222-226): 93 frames in
 five size classes, handed out singly or four neighbours at a time, through 93 handles.

 Departures from the code, each with what the code does under "as written" below: addresses count from the start of the
 reserved block, which the layout loop never adds; frame 1 gets the size of the largest
 class, which the layout loop skips; a loop that finds a frame claims the one it ends up with, the last, where the code
 marks every one it passes; a join marks its frames and records its real size; a free gives the frames back; sizes in
 bytes are compared as classes; and the test for an unused handle is the one meant.
 */
module Kmem {
  import opened Common

  const FRAMES: nat := 93
  const RESERVED: nat := 2097152

  type Class = c: nat | c < 5

  function Bytes(c: Class): nat {
    if c == 0 then 2048 else if c == 1 then 8192 else if c == 2 then 32768 else if c == 3 then 131072 else 524288
  }

  /* ---------------------------------------------------------------- class choice */

  /** `sizes[c] - size` on 32-bit words. */
  function Diff(c: Class, size: nat): nat { (Bytes(c) - size) % 0x1_0000_0000 }

  /** The smallest class above 2 KB that fits, if any. */
  ghost predicate BestClass(c: Class, size: nat) {
    c >= 1 && size <= Bytes(c) && forall d: Class :: 1 <= d && size <= Bytes(d) ==> c <= d
  }

  /** What the loop of lines 108-114 selects. */
  function Choice(size: nat): Class {
    if size <= 8192 then 1 else if size <= 32768 then 2 else if size <= 131072 then 3 else if size <= 524288 then 4 else 1
  }

  /** Every size that fits some frame gets the smallest fitting class but never the 2 KB one; a larger size gets 8 KB. */
  lemma ChoiceIsBest(size: nat)
    ensures BestClass(Choice(size), size) <==> size <= 524288
    ensures size > 524288 ==> Choice(size) == 1
  {
  }

  /** The loop as written, on 32-bit sizes: `least` is 0 only in its first two turns, so class 0 never survives. */
  method ChooseClass(size: nat) returns (least: Class)
    requires size < 0x1_0000_0000
    ensures least == Choice(size)
  {
    least := 0;
    var i: nat := 0;
    while i < 5
      invariant i <= 5 && (i <= 1 ==> least == 0) && (i >= 2 ==> 1 <= least < i)
      invariant forall d: Class :: 1 <= d < i ==> Diff(least, size) <= Diff(d, size)
    {
      if least == 0 {
        least := i;
      } else if Diff(i, size) < Diff(least, size) {
        least := i;
      }
      i := i + 1;
    }
    LeastDiff(least, size);
  }

  /** Wrapping puts every class that does not fit behind those that do. */
  lemma LeastDiff(c: Class, size: nat)
    requires size < 0x1_0000_0000 && c >= 1
    requires forall d: Class :: 1 <= d ==> Diff(c, size) <= Diff(d, size)
    ensures c == Choice(size)
  {
    var best := Choice(size);
    assert Diff(c, size) <= Diff(best, size);
    WrappedDiff(c, size);
    WrappedDiff(best, size);
  }

  lemma WrappedDiff(c: Class, size: nat)
    requires size < 0x1_0000_0000
    ensures Diff(c, size) == if size <= Bytes(c) then Bytes(c) - size else 0x1_0000_0000 + Bytes(c) - size
  {
  }

  /* ---------------------------------------------------------------- layout */

  function ClassOf(i: nat): Class { if i > 28 then 0 else if i > 13 then 1 else if i > 5 then 2 else if i > 1 then 3 else 4 }

  /** Where a frame starts, counted from the start of the reserved block; its address when the block is at `base`. */
  function Start(i: nat): nat { if i == 0 then 0 else Start(i - 1) + Bytes(ClassOf(i - 1)) }

  function Address(base: nat, i: nat): nat { base + Start(i) }

  /** The bytes from `from` up to `to` are inside the block the linker reserves at `base`. */
  predicate Inside(base: nat, from: nat, to: nat) { base <= from && to <= base + RESERVED }

  lemma {:induction false} StartClosed(i: nat)
    requires i <= FRAMES
    ensures Start(i) ==
      if i <= 2 then 524288 * i
      else if i <= 6 then 1048576 + 131072 * (i - 2)
      else if i <= 14 then 1572864 + 32768 * (i - 6)
      else if i <= 29 then 1835008 + 8192 * (i - 14)
      else 1957888 + 2048 * (i - 29)
  {
    if i > 0 {
      StartClosed(i - 1);
    }
  }

  lemma {:induction false} Apart(i: nat, j: nat)
    requires i < j
    ensures Start(i) + Bytes(ClassOf(i)) <= Start(j)
  {
    if i < j - 1 {
      Apart(i, j - 1);
    }
  }

  /** Wherever the linker puts the reserved block, every frame is inside it; its last 8 KB stay unused. */
  lemma FramesFit(base: nat, i: nat)
    requires i < FRAMES
    ensures Inside(base, Address(base, i), Address(base, i) + Bytes(ClassOf(i)))
    ensures Address(base, i) + Bytes(ClassOf(i)) <= Address(base, FRAMES) == base + RESERVED - 8192
  {
    Apart(i, FRAMES);
    StartClosed(FRAMES);
  }

  datatype FrameInfo = FrameInfo(start: nat, size: Class)

  function InfoAt(base: nat, i: nat): FrameInfo { FrameInfo(Address(base, i), ClassOf(i)) }

  /** The layout loop, counting from the reserved block, frame 1 included in the largest class. */
  method Layout(frames: array<FrameInfo>, base: nat)
    requires frames.Length == FRAMES
    modifies frames
    ensures forall i :: 0 <= i < FRAMES ==> frames[i] == InfoAt(base, i)
  {
    var counter, i := base, 0;
    while i < FRAMES
      invariant i <= FRAMES && counter == Address(base, i)
      invariant forall j :: 0 <= j < i ==> frames[j] == InfoAt(base, j)
    {
      var class_ := ClassOf(i);
      frames[i] := FrameInfo(counter, class_);
      counter := counter + Bytes(class_);
      i := i + 1;
    }
  }

  /** As written the counter starts at 0 and index 1 matches no branch, so it takes no room. */
  function StartAsWritten(i: nat): nat {
    if i == 0 then 0 else StartAsWritten(i - 1) + if i == 2 then 0 else Bytes(ClassOf(i - 1))
  }

  /** So frame 1 starts where frame 2 does; all other frames are where they should be, 512 KB lower down. */
  lemma {:induction false} LayoutAsWritten(i: nat)
    ensures StartAsWritten(i) == if i < 2 then Start(i) else Start(i) - 524288
    ensures StartAsWritten(1) == StartAsWritten(2)
  {
    if i > 0 {
      LayoutAsWritten(i - 1);
    }
    assert Start(1) == Bytes(4);
  }

  /**
   `__kernel_memory_reserved__` is added to no address.  A frame at its address as written is inside the reserved block
   exactly when the block starts at or below it: all frames are for a block at 0, none for one at 2 MB or above.
   */
  lemma FramesAsWrittenInside(base: nat, i: nat)
    requires i < FRAMES
    ensures Inside(base, StartAsWritten(i), StartAsWritten(i) + Bytes(ClassOf(i))) <==> base <= StartAsWritten(i)
    ensures base >= RESERVED ==> !Inside(base, StartAsWritten(i), StartAsWritten(i) + Bytes(ClassOf(i)))
    ensures Inside(base, StartAsWritten(0), StartAsWritten(0) + Bytes(ClassOf(0))) <==> base == 0
  {
    LayoutAsWritten(i);
    assert StartAsWritten(i) <= Start(i) && StartAsWritten(0) == 0;
    assert StartAsWritten(i) + Bytes(ClassOf(i)) <= RESERVED by { FramesFit(0, i); }
  }

  /* ---------------------------------------------------------------- handles */

  /** A handle is unused, or holds one frame or four neighbouring ones. */
  datatype Handle = Unused | Held(first: nat, joined: bool) {
    predicate Covers(i: nat) { Held? && first <= i < first + if joined then 4 else 1 }
  }

  /** What `taken` and the handles record. */
  datatype Kmem = Kmem(taken: seq<bool>, handles: seq<Handle>)

  /** A joined handle's frames are of one class and one above it exists. */
  ghost predicate Proper(h: Handle) {
    h.Held? ==>
      && h.first < FRAMES
      && (h.joined ==> h.first + 4 <= FRAMES && 1 <= ClassOf(h.first) + 1 < 5 && ClassOf(h.first + 3) == ClassOf(h.first))
  }

  function SizeOf(h: Handle): nat {
    if h.Unused? then 0 else if h.joined then 4 * Bytes(ClassOf(h.first)) else Bytes(ClassOf(h.first))
  }

  /** The invariant: every taken frame belongs to exactly one handle, and handles hold nothing but taken frames. */
  ghost predicate Inv(s: Kmem) {
    && |s.taken| == |s.handles| == FRAMES
    && (forall k :: 0 <= k < FRAMES ==> Proper(s.handles[k]))
    && (forall k, i :: 0 <= k < FRAMES && 0 <= i < FRAMES && s.handles[k].Covers(i) ==> s.taken[i])
    && (forall i :: 0 <= i < FRAMES && s.taken[i] ==> exists k :: 0 <= k < FRAMES && s.handles[k].Covers(i))
    && (forall k, l, i :: 0 <= k < l < FRAMES && s.handles[k].Covers(i) ==> !s.handles[l].Covers(i))
  }

  /** A handle's bytes are those of its frames: a join is contiguous and exactly one class larger. */
  lemma JoinIsContiguous(h: Handle)
    requires Proper(h) && h.Held? && h.joined
    ensures SizeOf(h) == Bytes(ClassOf(h.first) + 1)
    ensures forall n :: 0 <= n < 4 ==> Start(h.first + n) == Start(h.first) + n * Bytes(ClassOf(h.first))
    ensures Start(h.first + 3) + Bytes(ClassOf(h.first + 3)) == Start(h.first) + SizeOf(h)
  {
    var f := h.first;
    assert Start(f + 1) == Start(f) + Bytes(ClassOf(f));
    assert Start(f + 2) == Start(f + 1) + Bytes(ClassOf(f + 1));
    assert Start(f + 3) == Start(f + 2) + Bytes(ClassOf(f + 2));
  }

  function End(base: nat, h: Handle): nat
    requires h.Held?
  {
    Address(base, h.first) + SizeOf(h)
  }

  /** The bytes of two handles, the block being at `base`, are inside it and have none in common. */
  predicate Separate(base: nat, g: Handle, h: Handle)
    requires g.Held? && h.Held?
  {
    && Inside(base, Address(base, g.first), End(base, g)) && Inside(base, Address(base, h.first), End(base, h))
    && (End(base, g) <= Address(base, h.first) || End(base, h) <= Address(base, g.first))
  }

  /** Live extents are pairwise disjoint and inside the reserved memory. */
  lemma LiveExtentsAreDisjoint(base: nat, s: Kmem, k: nat, l: nat)
    requires Inv(s) && k < FRAMES && l < FRAMES && k != l && s.handles[k].Held? && s.handles[l].Held?
    ensures Separate(base, s.handles[k], s.handles[l])
  {
    var g, h := s.handles[k], s.handles[l];
    LastFrame(base, g);
    LastFrame(base, h);
    FramesFit(base, Last(g));
    FramesFit(base, Last(h));
    assert g.Covers(g.first) && h.Covers(h.first);
    if g.first < h.first {
      assert !g.Covers(h.first);
      Apart(Last(g), h.first);
    } else {
      assert h.first < g.first && !h.Covers(g.first);
      Apart(Last(h), g.first);
    }
  }

  function Last(h: Handle): nat
    requires h.Held?
  {
    if h.joined then h.first + 3 else h.first
  }

  lemma LastFrame(base: nat, h: Handle)
    requires Proper(h) && h.Held?
    ensures End(base, h) == Address(base, Last(h)) + Bytes(ClassOf(Last(h)))
  {
    if h.joined {
      JoinIsContiguous(h);
    }
  }

  /* ---------------------------------------------------------------- the scans */

  /** Which free frames a scan accepts: class `c`, or also larger ones. */
  predicate Fits(taken: seq<bool>, i: nat, c: Class, larger: bool)
    requires |taken| == FRAMES
  {
    i < FRAMES && !taken[i] && (ClassOf(i) == c || (larger && ClassOf(i) > c))
  }

  /** The last fitting one of the first `n` frames. */
  function LastFit(taken: seq<bool>, n: nat, c: Class, larger: bool): (r: Option<nat>)
    requires |taken| == FRAMES && n <= FRAMES
    ensures r.Some? ==> r.value < n && Fits(taken, r.value, c, larger)
    ensures r.Some? <==> exists i :: 0 <= i < n && Fits(taken, i, c, larger)
  {
    if n == 0 then None
    else if Fits(taken, n - 1, c, larger) then Some(n - 1)
    else LastFit(taken, n - 1, c, larger)
  }

  ghost predicate FourFit(taken: seq<bool>, f: nat, c: Class)
    requires |taken| == FRAMES
  {
    forall i :: f <= i < f + 4 ==> Fits(taken, i, c, false)
  }

  /** They are the first four of a row: the frame before is not one of them. */
  ghost predicate RowOf(taken: seq<bool>, f: nat, c: Class)
    requires |taken| == FRAMES
  {
    FourFit(taken, f, c) && (f == 0 || !Fits(taken, f - 1, c, false))
  }

  /** Four free neighbours of the class that do not include the last frame. */
  ghost predicate RunBelowEnd(taken: seq<bool>, c: Class)
    requires |taken| == FRAMES
  {
    exists f :: 0 <= f < FRAMES - 4 && FourFit(taken, f, c)
  }

  /**
   The join scan as written: the count of fitting neighbours and the run found, after `n` turns.  A run is noticed at
   the top of the turn after its fourth frame, so one that ends at the last frame is not; and only the first four
   frames of a longer row are.
   */
  function JoinScan(taken: seq<bool>, n: nat, c: Class): (r: (nat, Option<nat>))
    requires |taken| == FRAMES && n <= FRAMES
    ensures r.0 <= n && forall i :: n - r.0 <= i < n ==> Fits(taken, i, c, false)
    ensures r.0 > 4 ==> r.1.Some?
    ensures n - r.0 > 0 ==> !Fits(taken, n - r.0 - 1, c, false)
    ensures r.1.Some? ==> r.1.value + 4 < n && RowOf(taken, r.1.value, c)
    ensures forall g: nat :: g + 4 < n && RowOf(taken, g, c) ==> r.1.Some? && g <= r.1.value
  {
    if n == 0 then (0, None)
    else
      var (count, found) := JoinScan(taken, n - 1, c);
      (if Fits(taken, n - 1, c, false) then count + 1 else 0, if count == 4 then Some(n - 5) else found)
  }

  /** It misses nothing else: a run is found exactly when there is one that does not include the last frame. */
  lemma JoinScanFinds(taken: seq<bool>, c: Class)
    requires |taken| == FRAMES
    ensures JoinScan(taken, FRAMES, c).1.Some? <==> RunBelowEnd(taken, c)
  {
    var (count, found) := JoinScan(taken, FRAMES - 1, c);
    if f :| 0 <= f < FRAMES - 4 && FourFit(taken, f, c) {
      RowIsCounted(taken, FRAMES - 1, c, f);
    }
  }

  lemma {:induction false} RowIsCounted(taken: seq<bool>, n: nat, c: Class, f: nat)
    requires |taken| == FRAMES && f + 4 <= n <= FRAMES && FourFit(taken, f, c)
    ensures JoinScan(taken, n, c).1.Some? || JoinScan(taken, n, c).0 >= 4
    decreases n
  {
    if f + 4 < n {
      RowIsCounted(taken, n - 1, c, f);
    } else {
      CountGrows(taken, f, c, 4);
    }
  }

  lemma {:induction false} CountGrows(taken: seq<bool>, f: nat, c: Class, m: nat)
    requires |taken| == FRAMES && f + 4 <= FRAMES && m <= 4 && FourFit(taken, f, c)
    ensures JoinScan(taken, f + m, c).0 >= m
  {
    if m > 0 {
      CountGrows(taken, f, c, m - 1);
    }
  }

  /* ---------------------------------------------------------------- allocation and release */

  /** The frames for class `c`: one of that class, else four of the class below, else one of a larger class. */
  function Pick(taken: seq<bool>, c: Class): Option<Handle>
    requires |taken| == FRAMES
  {
    var same := LastFit(taken, FRAMES, c, false);
    var run := if c > 0 then JoinScan(taken, FRAMES, c - 1).1 else None;
    var larger := LastFit(taken, FRAMES, c, true);
    if same.Some? then Some(Held(same.value, false))
    else if run.Some? then Some(Held(run.value, true))
    else if larger.Some? then Some(Held(larger.value, false))
    else None
  }

  /** What is picked is free and large enough; exactly as large unless a larger single frame had to do. */
  lemma PickIsSound(taken: seq<bool>, c: Class)
    requires |taken| == FRAMES && Pick(taken, c).Some?
    ensures
      var h := Pick(taken, c).value;
      && h.Held? && Proper(h) && (forall i :: 0 <= i < FRAMES && h.Covers(i) ==> !taken[i])
      && SizeOf(h) >= Bytes(c)
      && (SizeOf(h) == Bytes(c) <==> (h.joined || ClassOf(h.first) == c))
  {
    var h := Pick(taken, c).value;
    if h.joined {
      assert FourFit(taken, h.first, c - 1);
      assert Fits(taken, h.first, c - 1, false) && Fits(taken, h.first + 3, c - 1, false);
      forall i | 0 <= i < FRAMES && h.Covers(i)
        ensures !taken[i]
      {
        assert Fits(taken, i, c - 1, false);
      }
      JoinIsContiguous(h);
    }
  }

  /** Nothing is picked exactly when no frame of the class or a larger one is free and no four neighbours below are. */
  lemma PickFailsIff(taken: seq<bool>, c: Class)
    requires |taken| == FRAMES
    ensures Pick(taken, c).None? <==>
      && (forall i :: 0 <= i < FRAMES ==> !Fits(taken, i, c, true))
      && (c > 0 ==> !RunBelowEnd(taken, c - 1))
  {
    if c > 0 {
      JoinScanFinds(taken, c - 1);
    }
    if i :| 0 <= i < FRAMES && Fits(taken, i, c, false) {
      assert Fits(taken, i, c, true);
    }
  }

  function FirstUnused(handles: seq<Handle>): (k: nat)
    ensures k <= |handles| && (k < |handles| ==> handles[k].Unused?)
    ensures forall j :: 0 <= j < k ==> handles[j].Held?
  {
    if handles == [] || handles[0].Unused? then 0 else 1 + FirstUnused(handles[1..])
  }

  function Mark(taken: seq<bool>, h: Handle, v: bool): (r: seq<bool>)
    ensures |r| == |taken| && forall i :: 0 <= i < |r| ==> r[i] == if h.Covers(i) then v else taken[i]
  {
    seq(|taken|, i requires 0 <= i < |taken| => if h.Covers(i) then v else taken[i])
  }

  /** `alloc_organized_frame`, and `alloc_kframe` once the class is chosen: the new state and the handle's index. */
  function Alloc(s: Kmem, c: Class): (Kmem, Option<nat>)
    requires Inv(s)
  {
    var k := FirstUnused(s.handles);
    var h := Pick(s.taken, c);
    if k == FRAMES || h.None? then (s, None)
    else (Kmem(Mark(s.taken, h.value, true), s.handles[k := h.value]), Some(k))
  }

  /** `free_frame`: 1 when the id is not that of a handle in use. */
  function Free(s: Kmem, k: nat): (Kmem, nat)
    requires Inv(s)
  {
    if k >= FRAMES || s.handles[k].Unused? then (s, 1)
    else (Kmem(Mark(s.taken, s.handles[k], false), s.handles[k := Unused]), 0)
  }

  /** An allocation keeps the invariant, gives a handle of at least the size asked for, and touches no other handle. */
  lemma AllocIsSound(s: Kmem, c: Class)
    requires Inv(s)
    ensures
      var (s', r) := Alloc(s, c);
      && Inv(s')
      && (r.None? ==> s' == s)
      && (r.Some? ==>
        && r.value < FRAMES && s.handles[r.value].Unused?
        && (forall k :: 0 <= k < FRAMES && k != r.value ==> s'.handles[k] == s.handles[k])
        && SizeOf(s'.handles[r.value]) >= Bytes(c)
        && (forall i :: 0 <= i < FRAMES ==> s'.taken[i] == (s.taken[i] || s'.handles[r.value].Covers(i)))
        && (forall i :: 0 <= i < FRAMES && s'.handles[r.value].Covers(i) ==> !s.taken[i]))
  {
    var (s', r) := Alloc(s, c);
    if r.Some? {
      PickIsSound(s.taken, c);
      GrabKeeps(s, r.value, Pick(s.taken, c).value);
    }
  }

  /** Some frame of class `c`, or also a larger one, is free. */
  ghost predicate FreeOne(taken: seq<bool>, c: Class, larger: bool)
    requires |taken| == FRAMES
  {
    exists i :: 0 <= i < FRAMES && Fits(taken, i, c, larger)
  }

  /** Frame `f` is the last free frame of the class, or also of larger ones. */
  ghost predicate LastFree(taken: seq<bool>, f: nat, c: Class, larger: bool)
    requires |taken| == FRAMES
  {
    Fits(taken, f, c, larger) && forall i :: f < i < FRAMES ==> !Fits(taken, i, c, larger)
  }

  /** Frame `f` starts the last row of free frames of the class, among those long enough: four, or five at the very end. */
  ghost predicate LastRow(taken: seq<bool>, f: nat, c: Class)
    requires |taken| == FRAMES
  {
    f + 4 < FRAMES && RowOf(taken, f, c) && forall g: nat :: g + 4 < FRAMES && RowOf(taken, g, c) ==> g <= f
  }

  lemma {:induction false} LastFitIsLast(taken: seq<bool>, n: nat, c: Class, larger: bool)
    requires |taken| == FRAMES && n <= FRAMES && LastFit(taken, n, c, larger).Some?
    ensures forall i :: LastFit(taken, n, c, larger).value < i < n ==> !Fits(taken, i, c, larger)
  {
    if !Fits(taken, n - 1, c, larger) {
      LastFitIsLast(taken, n - 1, c, larger);
    }
  }

  /** Which frames: the last free one of the class; without one, a row a class below; without one, the last larger one. */
  lemma PickExactly(taken: seq<bool>, c: Class)
    requires |taken| == FRAMES
    ensures
      var run, r := c > 0 && RunBelowEnd(taken, c - 1), Pick(taken, c);
      && (r.None? <==> !FreeOne(taken, c, false) && !run && !FreeOne(taken, c, true))
      && (r.Some? ==>
        && r.value.Held? && (r.value.joined <==> run && !FreeOne(taken, c, false))
        && (r.value.joined ==> LastRow(taken, r.value.first, c - 1))
        && (!r.value.joined ==> LastFree(taken, r.value.first, c, !FreeOne(taken, c, false))))
  {
    if c > 0 {
      JoinScanFinds(taken, c - 1);
    }
    if FreeOne(taken, c, false) {
      LastFitIsLast(taken, FRAMES, c, false);
    }
    if FreeOne(taken, c, true) {
      LastFitIsLast(taken, FRAMES, c, true);
    }
  }

  /**
   An allocation answers nothing exactly when all handles are in use or no frames are to be had; else the first unused
   handle gets the frames that `PickExactly` names, and they are marked.
   */
  lemma AllocExactly(s: Kmem, c: Class)
    requires Inv(s)
    ensures
      var ((s', r), h) := (Alloc(s, c), Pick(s.taken, c));
      && (r.None? <==>
           || (forall k :: 0 <= k < FRAMES ==> s.handles[k].Held?)
           || (!FreeOne(s.taken, c, true) && !(c > 0 && RunBelowEnd(s.taken, c - 1))))
      && (r.None? ==> s' == s)
      && (r.Some? ==>
        && h.Some? && r.value < FRAMES && s.handles[r.value].Unused? && (forall k :: 0 <= k < r.value ==> s.handles[k].Held?)
        && s' == Kmem(s'.taken, s.handles[r.value := h.value]) && |s'.taken| == FRAMES
        && forall i :: 0 <= i < FRAMES ==> s'.taken[i] == (s.taken[i] || h.value.Covers(i)))
  {
    PickFailsIff(s.taken, c);
  }

  lemma GrabKeeps(s: Kmem, k: nat, h: Handle)
    requires Inv(s) && k < FRAMES && s.handles[k].Unused? && Proper(h)
    requires forall i :: 0 <= i < FRAMES && h.Covers(i) ==> !s.taken[i]
    ensures Inv(Kmem(Mark(s.taken, h, true), s.handles[k := h]))
  {
    var s' := Kmem(Mark(s.taken, h, true), s.handles[k := h]);
    forall i | 0 <= i < FRAMES && s'.taken[i]
      ensures exists l :: 0 <= l < FRAMES && s'.handles[l].Covers(i)
    {
      if h.Covers(i) {
        assert s'.handles[k].Covers(i);
      } else {
        var l :| 0 <= l < FRAMES && s.handles[l].Covers(i);
        assert s'.handles[l].Covers(i);
      }
    }
  }

  /** A release gives back exactly the handle's frames. */
  lemma FreeIsExact(s: Kmem, k: nat)
    requires Inv(s)
    ensures
      var (s', code) := Free(s, k);
      && Inv(s')
      && (code == 0 <==> k < FRAMES && s.handles[k].Held?)
      && (forall i :: 0 <= i < FRAMES ==> s'.taken[i] == (s.taken[i] && !(k < FRAMES && s.handles[k].Covers(i))))
      && (forall l :: 0 <= l < FRAMES && l != k ==> s'.handles[l] == s.handles[l])
  {
    var s' := Free(s, k).0;
    if k < FRAMES && s.handles[k].Held? {
      forall i | 0 <= i < FRAMES && s'.taken[i]
        ensures exists l :: 0 <= l < FRAMES && s'.handles[l].Covers(i)
      {
        var l :| 0 <= l < FRAMES && s.handles[l].Covers(i);
        assert s'.handles[l].Covers(i);
      }
    }
  }

  /** Freeing what was just allocated restores the allocator. */
  lemma FreeUndoesAlloc(s: Kmem, c: Class)
    requires Inv(s)
    ensures
      var (s', r) := Alloc(s, c);
      r.Some? ==> Inv(s') && Free(s', r.value) == (s, 0)
  {
    AllocIsSound(s, c);
    var (s', r) := Alloc(s, c);
    if r.Some? {
      Unmarked(s.taken, s'.handles[r.value]);
      assert s'.handles[r.value := Unused] == s.handles;
    }
  }

  lemma Unmarked(taken: seq<bool>, h: Handle)
    requires |taken| == FRAMES && forall i :: 0 <= i < FRAMES && h.Covers(i) ==> !taken[i]
    ensures Mark(Mark(taken, h, true), h, false) == taken
  {
  }

  /** `alloc_kframe` for a size in bytes: whatever it returns can hold that many bytes, up to 512 KB. */
  lemma KframeIsLargeEnough(s: Kmem, size: nat)
    requires Inv(s) && size <= 524288
    ensures
      var (s', r) := Alloc(s, Choice(size));
      r.Some? ==> SizeOf(s'.handles[r.value]) >= size
  {
    AllocIsSound(s, Choice(size));
    ChoiceIsBest(size);
  }

  /* ---------------------------------------------------------------- runs */

  datatype Request = AllocSize(size: nat) | AllocClass(class_: Class) | FreeHandle(handle: nat)

  const BOOT := Kmem(seq(FRAMES, _ => false), seq(FRAMES, _ => Unused))

  function Apply(s: Kmem, q: Request): (s': Kmem)
    requires Inv(s)
    ensures Inv(s')
  {
    match q
    case AllocSize(n) => AllocIsSound(s, Choice(n)); Alloc(s, Choice(n)).0
    case AllocClass(c) => AllocIsSound(s, c); Alloc(s, c).0
    case FreeHandle(k) => FreeIsExact(s, k); Free(s, k).0
  }

  function Run(s: Kmem, requests: seq<Request>): (s': Kmem)
    requires Inv(s)
    ensures Inv(s')
    decreases |requests|
  {
    if requests == [] then s else Run(Apply(s, requests[0]), requests[1..])
  }

  /** After any sequence of requests from boot all live handles are inside the block and no two share a byte. */
  lemma {:induction false} NoOverlapAfterAnyRun(base: nat, requests: seq<Request>, k: nat, l: nat)
    requires k < FRAMES && l < FRAMES && k != l
    ensures
      var s := Run(BOOT, requests);
      s.handles[k].Held? && s.handles[l].Held? ==> Separate(base, s.handles[k], s.handles[l])
  {
    var s := Run(BOOT, requests);
    if s.handles[k].Held? && s.handles[l].Held? {
      LiveExtentsAreDisjoint(base, s, k, l);
    }
  }

  /* ---------------------------------------------------------------- as written */

  /**
   Lines 31-38: without a `break` every free frame of the class is marked, the handle getting the last.  (The same loop
   in `alloc_kframe`, lines 136-143, compares the class with a size in bytes: see `KframeAsWritten`.)
   */
  function SameClassAsWritten(s: Kmem, k: nat, c: Class): Kmem
    requires Inv(s) && k < FRAMES && LastFit(s.taken, FRAMES, c, false).Some?
  {
    var last := LastFit(s.taken, FRAMES, c, false).value;
    Kmem(seq(FRAMES, i requires 0 <= i < FRAMES => s.taken[i] || ClassOf(i) == c), s.handles[k := Held(last, false)])
  }

  /** That keeps the invariant exactly when the class had a single free frame; otherwise frames are lost. */
  lemma SameClassAsWrittenExactly(s: Kmem, k: nat, c: Class)
    requires Inv(s) && k < FRAMES && s.handles[k].Unused? && LastFit(s.taken, FRAMES, c, false).Some?
    ensures Inv(SameClassAsWritten(s, k, c)) <==>
      forall i, j :: 0 <= i < FRAMES && 0 <= j < FRAMES && Fits(s.taken, i, c, false) && Fits(s.taken, j, c, false) ==> i == j
  {
    var last := LastFit(s.taken, FRAMES, c, false).value;
    var s', h := SameClassAsWritten(s, k, c), Held(last, false);
    if forall i :: 0 <= i < FRAMES && Fits(s.taken, i, c, false) ==> i == last {
      forall i | 0 <= i < FRAMES
        ensures s'.taken[i] == Mark(s.taken, h, true)[i]
      {
        assert Fits(s.taken, i, c, false) ==> i == last;
      }
      assert s'.taken == Mark(s.taken, h, true);
      GrabKeeps(s, k, h);
    } else {
      var i :| 0 <= i < FRAMES && Fits(s.taken, i, c, false) && i != last;
      assert s'.taken[i] && forall l :: 0 <= l < FRAMES ==> !s'.handles[l].Covers(i);
    }
  }

  /** The last of the first `n` frames whose class compares with `size` bytes as lines 138 and 216 compare it. */
  function LastMatch(taken: seq<bool>, n: nat, size: nat, larger: bool): Option<nat>
    requires |taken| == FRAMES && n <= FRAMES
  {
    if n == 0 then None
    else if !taken[n - 1] && (ClassOf(n - 1) == size || (larger && ClassOf(n - 1) >= size)) then Some(n - 1)
    else LastMatch(taken, n - 1, size, larger)
  }

  /** What `alloc_kframe` as written gives its handle: the two plain scans take `size` for a class. */
  function KframeAsWritten(taken: seq<bool>, size: nat): Option<Handle>
    requires |taken| == FRAMES
  {
    var same, larger := LastMatch(taken, FRAMES, size, false), LastMatch(taken, FRAMES, size, true);
    var run := JoinScan(taken, FRAMES, Choice(size) - 1).1;
    if same.Some? then Some(Held(same.value, false))
    else if run.Some? then Some(Held(run.value, true))
    else if larger.Some? then Some(Held(larger.value, false))
    else None
  }

  /** For sizes above 4 nothing compares; for the others the comparison is with a class, as in the organized scan. */
  lemma {:induction false} LastMatchIs(taken: seq<bool>, n: nat, size: nat, larger: bool)
    requires |taken| == FRAMES && n <= FRAMES
    ensures LastMatch(taken, n, size, larger) == if size > 4 then None else LastFit(taken, n, size, larger)
  {
    if n > 0 {
      LastMatchIs(taken, n - 1, size, larger);
    }
  }

  /** Some frame of a class from `c` up to, but not including, `d` is free. */
  ghost predicate FreeBetween(taken: seq<bool>, n: nat, c: nat, d: nat)
    requires |taken| == FRAMES && n <= FRAMES
  {
    exists i :: 0 <= i < n && c <= ClassOf(i) < d && !taken[i]
  }

  /** Smaller frames come last: the last one large enough for `c` is that for `d` unless one in between is free. */
  lemma {:induction false} LastOfLarger(taken: seq<bool>, n: nat, c: Class, d: Class)
    requires |taken| == FRAMES && n <= FRAMES && c <= d
    ensures LastFit(taken, n, c, true) == LastFit(taken, n, d, true) <==> !FreeBetween(taken, n, c, d)
    ensures LastFit(taken, n, c, false).Some? ==> LastFit(taken, n, c, true) == LastFit(taken, n, c, false)
  {
    if n > 0 {
      LastOfLarger(taken, n - 1, c, d);
      assert FreeBetween(taken, n, c, d) <==>
        FreeBetween(taken, n - 1, c, d) || (c <= ClassOf(n - 1) < d && !taken[n - 1]);
      assert forall i :: 0 <= i < n ==> ClassOf(i) >= ClassOf(n - 1);
    }
  }

  /**
   So for any size above 4 bytes only joins are ever given out, and that is the right choice exactly when no frame of
   the class is free, and there is a run or no larger frame either.
   */
  lemma KframeAsWrittenExactly(taken: seq<bool>, size: nat)
    requires |taken| == FRAMES && size > 4
    ensures KframeAsWritten(taken, size).Some? ==> KframeAsWritten(taken, size).value.joined
    ensures
      var c := Choice(size);
      KframeAsWritten(taken, size) == Pick(taken, c) <==>
        && LastFit(taken, FRAMES, c, false).None?
        && (JoinScan(taken, FRAMES, c - 1).1.Some? || LastFit(taken, FRAMES, c, true).None?)
  {
    LastMatchIs(taken, FRAMES, size, false);
    LastMatchIs(taken, FRAMES, size, true);
  }

  /**
   A size of 0 to 4 bytes is taken for that class, where 8 KB frames are meant.  Size 1 is right by coincidence, size 0
   exactly when no 2 KB frame is free; for the others no 8 KB frame may be free, nor any other below the class, unless
   a run is given in both cases.
   */
  lemma TinyKframeAsWrittenExactly(taken: seq<bool>, size: nat)
    requires |taken| == FRAMES && size <= 4
    ensures
      var own := LastFit(taken, FRAMES, size, false).Some?;
      var run := JoinScan(taken, FRAMES, 0).1.Some?;
      KframeAsWritten(taken, size) == Pick(taken, 1) <==>
        if size == 0 then !own
        else if own then size == 1 || (!run && !FreeBetween(taken, FRAMES, 1, size))
        else !FreeBetween(taken, FRAMES, 1, size) || (run && LastFit(taken, FRAMES, 1, false).None?)
  {
    LastMatchIs(taken, FRAMES, size, false);
    LastMatchIs(taken, FRAMES, size, true);
    LastOfLarger(taken, FRAMES, if size < 1 then size else 1, if size < 1 then 1 else size);
    LastOfLarger(taken, FRAMES, size, size);
    LastOfLarger(taken, FRAMES, 1, 1);
    var run := JoinScan(taken, FRAMES, 0).1;
    assert run.Some? ==> Fits(taken, run.value, 0, false);
    ClassFree(taken, 0, 1);
    ClassFree(taken, 1, size);
  }

  lemma ClassFree(taken: seq<bool>, c: Class, d: nat)
    requires |taken| == FRAMES
    ensures c < d && LastFit(taken, FRAMES, c, false).Some? ==> FreeBetween(taken, FRAMES, c, d)
    ensures d == c + 1 && FreeBetween(taken, FRAMES, c, d) ==> LastFit(taken, FRAMES, c, false).Some?
  {
    var b := LastFit(taken, FRAMES, c, false);
    assert b.Some? ==> Fits(taken, b.value, c, false);
    if d == c + 1 && FreeBetween(taken, FRAMES, c, d) {
      var i :| 0 <= i < FRAMES && c <= ClassOf(i) < d && !taken[i];
      assert Fits(taken, i, c, false);
    }
  }

  /** Lines 152-164 do not mark the frames of a join: a second request is answered with the same run, whatever `s`. */
  function JoinAsWritten(s: Kmem, k: nat, f: nat): Kmem
    requires k < |s.handles|
  {
    s.(handles := s.handles[k := Held(f, true)])
  }

  lemma JoinAsWrittenGivesTheSameRunAgain(s: Kmem, k: nat, c: Class)
    requires Inv(s) && k < FRAMES && s.handles[k].Unused? && c < 4 && JoinScan(s.taken, FRAMES, c).1.Some?
    ensures
      var f := JoinScan(s.taken, FRAMES, c).1;
      JoinScan(JoinAsWritten(s, k, f.value).taken, FRAMES, c).1 == f && !Inv(JoinAsWritten(s, k, f.value))
  {
    var f := JoinScan(s.taken, FRAMES, c).1.value;
    assert FourFit(s.taken, f, c);
    assert Fits(s.taken, f, c, false);
    assert JoinAsWritten(s, k, f).handles[k].Covers(f);
  }

  /** `free_frame` as written clears the handle only: its frames stay taken, with no handle to free them by. */
  lemma FreeAsWrittenLeaks(s: Kmem, k: nat)
    requires Inv(s) && k < FRAMES && s.handles[k].Held?
    ensures !Inv(s.(handles := s.handles[k := Unused]))
  {
    var i := s.handles[k].first;
    assert s.handles[k].Covers(i);
    assert s.taken[i];
  }

  /** Lines 20 and 125 as written: `!id & (0xF << 28)` is the negation masked, so no handle is ever found unused. */
  lemma UnusedTestAsWritten(id: bv32)
    ensures (if id == 0 then 1 else 0) as bv32 & 0xF000_0000 == 0
  {
    assert 1 as bv32 & 0xF000_0000 == 0;
  }

  /* ---------------------------------------------------------------- the loops */

  class Allocator {
    const taken: array<bool>
    const handles: array<Handle>

    ghost predicate Valid()
      reads taken, handles
    {
      Inv(State())
    }

    ghost function State(): Kmem
      reads taken, handles
    {
      Kmem(taken[..], handles[..])
    }

    constructor ()
      ensures Valid() && State() == BOOT && fresh(taken) && fresh(handles)
    {
      taken := new bool[FRAMES](_ => false);
      handles := new Handle[FRAMES](_ => Unused);
      new;
      assert State() == BOOT;
    }

    /** Lines 136-143 and 214-221: the scan that keeps the last frame it passes. */
    method FindLast(c: Class, larger: bool) returns (r: Option<nat>)
      requires Valid()
      ensures r == LastFit(taken[..], FRAMES, c, larger)
    {
      r := None;
      var i := 0;
      while i < FRAMES
        invariant i <= FRAMES && r == LastFit(taken[..], i, c, larger)
      {
        if !taken[i] && (ClassOf(i) == c || (larger && ClassOf(i) > c)) {
          r := Some(i);
        }
        i := i + 1;
      }
    }

    /** Lines 151-164: the join scan. */
    method FindRun(c: Class) returns (r: Option<nat>)
      requires Valid()
      ensures r == JoinScan(taken[..], FRAMES, c).1
    {
      var count, i := 0, 0;
      r := None;
      while i < FRAMES
        invariant i <= FRAMES && (count, r) == JoinScan(taken[..], i, c)
      {
        if count == 4 {
          r := Some(i - 4);
        }
        count := if !taken[i] && ClassOf(i) == c then count + 1 else 0;
        i := i + 1;
      }
    }

    /** Marks the frames of a handle, or gives them back. */
    method MarkAll(h: Handle, v: bool)
      requires Valid() && h.Held? && Proper(h)
      modifies taken
      ensures taken[..] == Mark(old(taken[..]), h, v)
    {
      var n := if h.joined then 4 else 1;
      var i := 0;
      while i < n
        invariant i <= n
        invariant forall j :: 0 <= j < FRAMES ==> taken[j] == if h.first <= j < h.first + i then v else old(taken[j])
      {
        taken[h.first + i] := v;
        i := i + 1;
      }
    }

    /** The first handle not in use. */
    method FindUnused() returns (k: nat)
      requires Valid()
      ensures k == FirstUnused(handles[..])
    {
      k := 0;
      while k < FRAMES && handles[k].Held?
        invariant k <= FRAMES && forall j :: 0 <= j < k ==> handles[j].Held?
      {
        k := k + 1;
      }
    }

    method Allocate(c: Class) returns (r: Option<nat>)
      requires Valid()
      modifies taken, handles
      ensures Valid() && (State(), r) == Alloc(old(State()), c)
    {
      AllocIsSound(State(), c);
      var k := FindUnused();
      if k == FRAMES {
        return None;
      }
      var h := Choose(c);
      if h.None? {
        return None;
      }
      PickIsSound(taken[..], c);
      MarkAll(h.value, true);
      handles[k] := h.value;
      r := Some(k);
      assert State() == Alloc(old(State()), c).0;
    }

    /** The three scans in the order of the code. */
    method Choose(c: Class) returns (h: Option<Handle>)
      requires Valid()
      ensures h == Pick(taken[..], c)
    {
      var found := FindLast(c, false);
      if found.Some? {
        return Some(Held(found.value, false));
      }
      if c > 0 {
        found := FindRun(c - 1);
        if found.Some? {
          return Some(Held(found.value, true));
        }
      }
      found := FindLast(c, true);
      h := if found.Some? then Some(Held(found.value, false)) else None;
    }

    method Release(k: nat) returns (code: nat)
      requires Valid()
      modifies taken, handles
      ensures Valid() && (State(), code) == Free(old(State()), k)
    {
      FreeIsExact(State(), k);
      if k >= FRAMES || handles[k].Unused? {
        return 1;
      }
      MarkAll(handles[k], false);
      handles[k] := Unused;
      code := 0;
      assert State() == Free(old(State()), k).0;
    }
  }
}
