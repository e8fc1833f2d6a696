/**
 Resource ownership and termination (lib/core.c:15-164; exception/synchronous/svc/svc.c:219-262, 483-529;
 lib/memory.c:3-25).

 A task's tags name the kinds of the bank entries it owns, one tag an entry.  Owners are task ids, 0 for a free entry;
 tasks here have ids 1 to 127, because the code writes the id itself and PCB 0's entries would look free.  A task's page
 list names the memory frames it owns.

 The gains and releases here are those the comments describe; `GainAsWritten`, `ReleaseLockAsWritten` and
 `TerminateAsWritten` are those of the code.
 */
module Ledger {
  import opened Common
  import opened Tags

  const KINDS: nat := 10
  const TASKS: nat := 128

  /**
   What each kind's tag releases: 0 the mini-UART, 1 to 5 nothing, 6 timers, 7 GPIO pins, 8 locks, 9 mailboxes.  (The
   release of mailboxes looks at a 64th entry too, which the allocation of lib/ipcmailbox.c:7 never hands out.)
   */
  function BankSize(kind: nat): nat {
    if kind == 0 then 1 else if kind <= 5 then 0 else if kind == 8 then 128 else if kind == 9 then 63 else 64
  }

  type Kind = k: nat | k < 10
  type Id = t: nat | 0 < t < 128 witness 1

  const TIMER: Kind := 6
  const GPIO: Kind := 7
  const LOCK: Kind := 8
  const MAILBOX: Kind := 9

  /**
   `pins[i]` is the pin number recorded in GPIO entry `i`; a lock entry's owner is the task that gained the lock;
   `frames` are the owners of the memory frames and `pages` the tasks' lists of frames.
   */
  datatype Books = Books(tags: seq<seq<Tag>>, banks: seq<seq<nat>>, pins: seq<nat>, frames: seq<nat>, pages: seq<seq<nat>>)

  ghost predicate Shape(s: Books) {
    && |s.tags| == |s.pages| == TASKS && |s.banks| == KINDS && |s.pins| == BankSize(GPIO)
    && forall k :: 0 <= k < KINDS ==> |s.banks[k]| == BankSize(k)
  }

  /** The ledger invariant: a task has as many tags of a kind as it owns entries in that kind's bank. */
  ghost predicate Balanced(s: Books) {
    && Shape(s)
    && (forall t: Id :: |s.tags[t]| <= CAPACITY && forall i :: 0 <= i < |s.tags[t]| ==> s.tags[t][i] < KINDS)
    && (forall t: Id, k: Kind :: Count(s.tags[t], k) == Count(s.banks[k], t))
  }

  /** The page lists' invariant: a task's list holds the frames it owns, each once. */
  ghost predicate Listed(s: Books) {
    && |s.pages| == TASKS
    && (forall t: Id :: Distinct(s.pages[t]))
    && (forall t: Id, f: nat {:trigger f in s.pages[t]} :: f in s.pages[t] <==> f < |s.frames| && s.frames[f] == t)
    && (forall f :: 0 <= f < |s.frames| ==> s.frames[f] < TASKS)
  }

  ghost predicate InOrder(s: Books) { Balanced(s) && Listed(s) }

  /** How often `x` occurs. */
  ghost function Count(s: seq<nat>, x: nat): nat { multiset(s)[x] }

  /** The index of the first entry equal to `x`, or the length. */
  function Find(bank: seq<nat>, x: nat): (i: nat)
    ensures i <= |bank|
    ensures i < |bank| ==> bank[i] == x
    ensures forall j :: 0 <= j < i ==> bank[j] != x
  {
    if bank == [] || bank[0] == x then 0 else 1 + Find(bank[1..], x)
  }

  /** `__free_*`: clears the first entry the task owns. */
  function FreeFirst(bank: seq<nat>, t: nat): seq<nat> {
    var i := Find(bank, t);
    if i < |bank| then bank[i := 0] else bank
  }

  /** First fit: the first free entry becomes the task's. */
  function ClaimFirst(bank: seq<nat>, t: nat): seq<nat> {
    var i := Find(bank, 0);
    if i < |bank| then bank[i := t] else bank
  }

  /* ---------------------------------------------------------------- the system calls */

  /** A first-fit allocation of kind `k`: 2 when the task already has sixteen tags, 1 when the bank is full. */
  function Acquire(s: Books, t: Id, k: Kind): (Books, nat)
    requires Shape(s)
  {
    if |s.tags[t]| >= CAPACITY then (s, 2)
    else if 0 !in s.banks[k] then (s, 1)
    else (s.(tags := s.tags[t := s.tags[t] + [k]], banks := s.banks[k := ClaimFirst(s.banks[k], t)]), 0)
  }

  /** `svc_gpalloc`: the pin number goes into the entry taken. */
  function AcquirePin(s: Books, t: Id, pin: nat): (Books, nat)
    requires Shape(s)
  {
    var i := Find(s.banks[GPIO], 0);
    var (s', code) := Acquire(s, t, GPIO);
    (if code == 0 && i < |s.pins| then s'.(pins := s.pins[i := pin]) else s', code)
  }

  /** Entry `i` of bank `k` rewritten. */
  function SetEntry(banks: seq<seq<nat>>, k: Kind, i: nat, owner: nat): seq<seq<nat>>
    requires |banks| == KINDS && i < |banks[k]|
  {
    var bank: seq<nat> := banks[k];
    banks[k := bank[i := owner]]
  }

  /** `svc_mutex_gain` of the lock in entry `at`: 2 at sixteen tags, 1 when somebody has gained it. */
  function AcquireLock(s: Books, t: Id, at: nat): (Books, nat)
    requires Shape(s) && at < BankSize(LOCK)
  {
    if |s.tags[t]| >= CAPACITY then (s, 2)
    else if s.banks[LOCK][at] != 0 then (s, 1)
    else (s.(tags := s.tags[t := s.tags[t] + [LOCK]], banks := SetEntry(s.banks, LOCK, at, t)), 0)
  }

  /** Giving the first owned entry of kind `k` back, with its tag: 2 when the task owns none. */
  function Release(s: Books, t: Id, k: Kind): (Books, nat)
    requires Shape(s)
  {
    if t !in s.banks[k] then (s, 2)
    else (s.(tags := s.tags[t := RemoveFirst(s.tags[t], k)], banks := s.banks[k := FreeFirst(s.banks[k], t)]), 0)
  }

  /**
   `svc_gpfree`: only the first entry the task owns is looked at, and its pin must be the one asked for; otherwise 1,
   even when a later entry has that pin.
   */
  function ReleasePin(s: Books, t: Id, pin: nat): (Books, nat)
    requires Shape(s)
  {
    var i := Find(s.banks[GPIO], t);
    if i == |s.pins| then (s, 2)
    else if s.pins[i] != pin then (s, 1)
    else (Release(s, t, GPIO).0.(pins := s.pins[i := 0]), 0)
  }

  /** Releasing a gained lock takes its tag away too. */
  function ReleaseLock(s: Books, t: Id, at: nat): (Books, nat)
    requires Shape(s) && at < BankSize(LOCK)
  {
    if s.banks[LOCK][at] != t then (s, 1)
    else (s.(tags := s.tags[t := RemoveFirst(s.tags[t], LOCK)], banks := SetEntry(s.banks, LOCK, at, 0)), 0)
  }

  /** `alloc_page` and the push of its frame: first fit over the memory frames; nothing when all are owned. */
  function AllocPage(s: Books, t: Id): Books
    requires Shape(s)
  {
    var f := Find(s.frames, 0);
    if f == |s.frames| then s
    else s.(frames := ClaimFirst(s.frames, t), pages := s.pages[t := s.pages[t] + [f]])
  }

  /** `free_page`, the frame taken off its owner's list. */
  function FreePage(s: Books, f: nat): Books
    requires Shape(s)
  {
    if f >= |s.frames| || s.frames[f] == 0 || s.frames[f] >= TASKS then s
    else
      var t := s.frames[f];
      s.(frames := s.frames[f := 0], pages := s.pages[t := Unlisted(s.pages[t], f)])
  }

  function Unlisted(list: seq<nat>, f: nat): seq<nat> {
    if list == [] then [] else if list[0] == f then list[1..] else [list[0]] + Unlisted(list[1..], f)
  }

  /** The walk over a page list, each frame cleared. */
  function FreeAll(frames: seq<nat>, list: seq<nat>): seq<nat>
    decreases |list|
  {
    if list == [] then frames else FreeAll(if list[0] < |frames| then frames[list[0] := 0] else frames, list[1..])
  }

  /** The banks after the release routine of every tag has run for task `t`. */
  function Replay(banks: seq<seq<nat>>, tags: seq<Tag>, t: nat): seq<seq<nat>>
    decreases |tags|
  {
    if tags == [] then banks
    else
      var k := tags[0];
      Replay(if k < |banks| then banks[k := FreeFirst(banks[k], t)] else banks, tags[1..], t)
  }

  /** The pin numbers after it: a GPIO release clears the entry's pin with its owner. */
  function ReplayPins(banks: seq<seq<nat>>, pins: seq<nat>, tags: seq<Tag>, t: nat): seq<nat>
    decreases |tags|
  {
    if tags == [] then pins
    else
      var k := tags[0];
      if k < |banks| then ReplayPins(banks[k := FreeFirst(banks[k], t)], PinFreed(pins, banks[k], k, t), tags[1..], t)
      else ReplayPins(banks, pins, tags[1..], t)
  }

  function PinFreed(pins: seq<nat>, bank: seq<nat>, k: Tag, t: nat): seq<nat> {
    if k == GPIO && Find(bank, t) < |bank| && Find(bank, t) < |pins| then pins[Find(bank, t) := 0] else pins
  }

  function Cleared(owners: seq<nat>, t: nat): (r: seq<nat>)
    ensures |r| == |owners|
    ensures forall i :: 0 <= i < |r| ==> r[i] == if owners[i] == t then 0 else owners[i]
  {
    seq(|owners|, i requires 0 <= i < |owners| => if owners[i] == t then 0 else owners[i])
  }

  /** `terminate_context`: replays the tags, walks the page list, and wipes the PCB's word, count and list. */
  function Terminate(s: Books, t: Id): Books
    requires Shape(s)
  {
    Books(
      s.tags[t := []], Replay(s.banks, s.tags[t], t), ReplayPins(s.banks, s.pins, s.tags[t], t), FreeAll(s.frames, s.pages[t]), s.pages[t := []])
  }

  /* ---------------------------------------------------------------- single entries */

  /** Writing entry `i` changes two counts by one. */
  lemma WriteCounts(bank: seq<nat>, i: nat, x: nat)
    requires i < |bank|
    ensures forall u ::
      Count(bank[i := x], u) == Count(bank, u) + (if u == x then 1 else 0) - if u == bank[i] then 1 else 0
  {
  }

  /** A claim gives the task one more entry and nobody else any. */
  lemma ClaimCounts(bank: seq<nat>, t: nat)
    requires 0 in bank && t != 0
    ensures forall u :: u != 0 ==> Count(ClaimFirst(bank, t), u) == Count(bank, u) + if u == t then 1 else 0
  {
  }

  /** A release takes one entry from the task and none from anybody else. */
  lemma FreeCounts(bank: seq<nat>, t: nat)
    requires t in bank && t != 0
    ensures forall u :: u != 0 ==> Count(FreeFirst(bank, t), u) == Count(bank, u) - if u == t then 1 else 0
  {
  }

  lemma {:induction false} InBank(bank: seq<nat>, x: nat)
    ensures x in bank <==> Find(bank, x) < |bank|
    ensures Count(bank, x) > 0 <==> x in bank
  {
  }

  lemma AppendCounts(tags: seq<Tag>, k: Tag)
    ensures forall m: Tag :: Count(tags + [k], m) == Count(tags, m) + if m == k then 1 else 0
  {
  }

  lemma AcquireKeeps(s: Books, t: Id, k: Kind)
    requires Balanced(s)
    ensures Balanced(Acquire(s, t, k).0)
  {
    var s' := Acquire(s, t, k).0;
    if s' != s {
      ClaimCounts(s.banks[k], t);
      AppendCounts(s.tags[t], k);
      BalancedAfter(s, s', t, k);
    }
  }

  lemma ReleaseKeeps(s: Books, t: Id, k: Kind)
    requires Balanced(s)
    ensures Balanced(Release(s, t, k).0)
  {
    var s' := Release(s, t, k).0;
    if s' != s {
      OwnerHasTag(s, t, k);
      FreeCounts(s.banks[k], t);
      RemoveFirstCounts(s.tags[t], k);
      RemoveFirstSmall(s.tags[t], k);
      BalancedAfter(s, s', t, k);
    }
  }

  lemma AcquireLockKeeps(s: Books, t: Id, at: nat)
    requires Balanced(s) && at < BankSize(LOCK)
    ensures Balanced(AcquireLock(s, t, at).0)
  {
    var s' := AcquireLock(s, t, at).0;
    if s' != s {
      WriteCounts(s.banks[LOCK], at, t);
      AppendCounts(s.tags[t], LOCK);
      BalancedAfter(s, s', t, LOCK);
    }
  }

  lemma ReleaseLockKeeps(s: Books, t: Id, at: nat)
    requires Balanced(s) && at < BankSize(LOCK)
    ensures Balanced(ReleaseLock(s, t, at).0)
  {
    if s.banks[LOCK][at] == t {
      OwnerHasTag(s, t, LOCK);
      WriteCounts(s.banks[LOCK], at, 0);
      RemoveFirstCounts(s.tags[t], LOCK);
      RemoveFirstSmall(s.tags[t], LOCK);
      BalancedAfter(s, ReleaseLock(s, t, at).0, t, LOCK);
    }
  }

  lemma PinCallsKeep(s: Books, t: Id, pin: nat)
    requires Balanced(s)
    ensures Balanced(AcquirePin(s, t, pin).0) && Balanced(ReleasePin(s, t, pin).0)
    ensures
      var bank := s.banks[GPIO];
      && (ReleasePin(s, t, pin).1 == 0 <==> t in bank && s.pins[Find(bank, t)] == pin)
      && (ReleasePin(s, t, pin).1 == 2 <==> t !in bank)
  {
    AcquireKeeps(s, t, GPIO);
    ReleaseKeeps(s, t, GPIO);
    InBank(s.banks[GPIO], t);
  }

  /** A call that touches one task's tags and one bank keeps the books when both counts change alike. */
  lemma BalancedAfter(s: Books, s': Books, t: Id, k: Kind)
    requires Balanced(s) && Shape(s')
    requires s'.frames == s.frames && s'.pages == s.pages
    requires s'.tags == s.tags[t := s'.tags[t]] && s'.banks == s.banks[k := s'.banks[k]]
    requires |s'.tags[t]| <= CAPACITY && forall i :: 0 <= i < |s'.tags[t]| ==> s'.tags[t][i] < KINDS
    requires forall m: Kind :: m != k ==> Count(s'.tags[t], m) == Count(s.tags[t], m)
    requires forall u: Id :: u != t ==> Count(s'.banks[k], u) == Count(s.banks[k], u)
    requires Count(s'.tags[t], k) - Count(s.tags[t], k) == Count(s'.banks[k], t) - Count(s.banks[k], t)
    ensures Balanced(s')
  {
  }

  lemma OwnerHasTag(s: Books, t: Id, k: Kind)
    requires Balanced(s)
    ensures t in s.banks[k] <==> k in s.tags[t]
  {
  }

  lemma {:induction false} RemoveFirstSmall(tags: seq<Tag>, k: Tag)
    requires forall i :: 0 <= i < |tags| ==> tags[i] < KINDS
    ensures forall i :: 0 <= i < |RemoveFirst(tags, k)| ==> RemoveFirst(tags, k)[i] < KINDS
  {
    if tags != [] && tags[0] != k {
      RemoveFirstSmall(tags[1..], k);
    }
  }

  /* ---------------------------------------------------------------- what each call does */

  /** Entry `i` is the first that holds `x`. */
  predicate First(s: seq<nat>, x: nat, i: nat) { i < |s| && s[i] == x && forall j :: 0 <= j < i ==> s[j] != x }

  /** Books in which task `t` has entry `i` of bank `k`, and one tag of the kind behind its others; all else as in `s`. */
  ghost predicate Taken(s: Books, s': Books, t: Id, k: Kind, i: nat)
    requires Shape(s)
  {
    && i < |s.banks[k]|
    && s' == s.(tags := s.tags[t := s.tags[t] + [k]], banks := SetEntry(s.banks, k, i, t), pins := s'.pins)
  }

  /** Books in which entry `i` of bank `k` is free, and the first of task `t`'s tags of the kind is gone; all else as in `s`. */
  ghost predicate GivenBack(s: Books, s': Books, t: Id, k: Kind, i: nat)
    requires Shape(s)
  {
    && i < |s.banks[k]|
    && (exists j :: First(s.tags[t], k, j) && s'.tags == s.tags[t := Without(s.tags[t], j)])
    && s' == s.(tags := s'.tags, banks := SetEntry(s.banks, k, i, 0), pins := s'.pins)
  }

  /**
   A gain succeeds exactly with fewer than sixteen tags and a free entry; it takes the first free one.  It answers 2 at
   sixteen tags and 1 for a full bank, and then changes nothing.
   */
  lemma AcquireExactly(s: Books, t: Id, k: Kind)
    requires Shape(s)
    ensures
      var (s', code) := Acquire(s, t, k);
      && (code == 0 <==> |s.tags[t]| < 16 && 0 in s.banks[k]) && (code == 2 <==> |s.tags[t]| >= 16) && code <= 2
      && (code != 0 ==> s' == s)
      && (code == 0 ==> s'.pins == s.pins && exists i :: First(s.banks[k], 0, i) && Taken(s, s', t, k, i))
  {
    InBank(s.banks[k], 0);
    assert 0 in s.banks[k] ==> First(s.banks[k], 0, Find(s.banks[k], 0));
  }

  /** A GPIO gain records the pin in the entry it takes, and is that gain otherwise. */
  lemma AcquirePinExactly(s: Books, t: Id, pin: nat)
    requires Shape(s)
    ensures
      var (s', code) := AcquirePin(s, t, pin);
      && (code == 0 <==> |s.tags[t]| < 16 && 0 in s.banks[GPIO]) && (code == 2 <==> |s.tags[t]| >= 16) && code <= 2
      && (code != 0 ==> s' == s)
      && (code == 0 ==> exists i: nat :: First(s.banks[GPIO], 0, i) && Taken(s, s', t, 7, i) && s'.pins == s.pins[i := pin])
  {
    InBank(s.banks[GPIO], 0);
    assert 0 in s.banks[GPIO] ==> First(s.banks[GPIO], 0, Find(s.banks[GPIO], 0));
  }

  /** Gaining a lock takes that lock, exactly when nobody has gained it; releasing it gives it back, exactly to its holder. */
  lemma LockCallsExactly(s: Books, t: Id, at: nat)
    requires Balanced(s) && at < 128
    ensures
      var (s', code) := AcquireLock(s, t, at);
      && (code == 0 <==> |s.tags[t]| < 16 && s.banks[LOCK][at] == 0) && (code == 2 <==> |s.tags[t]| >= 16) && code <= 2
      && (if code == 0 then Taken(s, s', t, 8, at) && s'.pins == s.pins else s' == s)
    ensures
      var (s', code) := ReleaseLock(s, t, at);
      && (code == 0 <==> s.banks[LOCK][at] == t) && code <= 1
      && (if code == 0 then GivenBack(s, s', t, 8, at) && s'.pins == s.pins else s' == s)
  {
    if s.banks[LOCK][at] == t {
      TagToDrop(s, t, LOCK);
    }
  }

  /** A release gives back the first entry of the kind the task owns, and answers 2 exactly when it owns none. */
  lemma ReleaseExactly(s: Books, t: Id, k: Kind)
    requires Balanced(s)
    ensures
      var (s', code) := Release(s, t, k);
      && code == (if t in s.banks[k] then 0 else 2)
      && (code != 0 ==> s' == s)
      && (code == 0 ==> s'.pins == s.pins && exists i :: First(s.banks[k], t, i) && GivenBack(s, s', t, k, i))
  {
    if t in s.banks[k] {
      InBank(s.banks[k], t);
      assert First(s.banks[k], t, Find(s.banks[k], t));
      TagToDrop(s, t, k);
    }
  }

  /**
   A GPIO free looks at the first entry the task owns only: 2 without one, 1 when another pin is recorded in it, even if a
   later entry has the pin asked for; otherwise entry, pin and tag are given back.
   */
  lemma ReleasePinExactly(s: Books, t: Id, pin: nat)
    requires Balanced(s)
    ensures
      var (s', code) := ReleasePin(s, t, pin);
      && (code == 2 <==> t !in s.banks[GPIO]) && code <= 2
      && (code != 0 ==> s' == s)
      && (forall i: nat :: First(s.banks[GPIO], t, i) ==>
           && (code == 0 <==> s.pins[i] == pin)
           && (code == 0 ==> GivenBack(s, s', t, 7, i) && s'.pins == s.pins[i := 0]))
      && (code == 0 ==> exists i :: First(s.banks[GPIO], t, i))
  {
    var bank := s.banks[GPIO];
    InBank(bank, t);
    if t in bank {
      assert First(bank, t, Find(bank, t)) && forall i: nat :: First(bank, t, i) ==> i == Find(bank, t);
      TagToDrop(s, t, GPIO);
      assert s.pins[Find(bank, t)] == pin ==> GivenBack(s, ReleasePin(s, t, pin).0, t, GPIO, Find(bank, t));
    }
  }

  /** In balanced books an owner of an entry has a tag for it, and dropping the first such tag is `RemoveFirst`. */
  lemma TagToDrop(s: Books, t: Id, k: Kind)
    requires Balanced(s) && t in s.banks[k]
    ensures exists j :: First(s.tags[t], k, j) && RemoveFirst(s.tags[t], k) == Without(s.tags[t], j)
  {
    assert Count(s.tags[t], k) == Count(s.banks[k], t) > 0;
    var j := Find(s.tags[t], k);
    InBank(s.tags[t], k);
    assert First(s.tags[t], k, j);
    RemoveFirstAt(s.tags[t], k, j);
  }

  /** A page is the first free frame, and goes to the back of the task's list; nothing happens exactly when none is free. */
  lemma AllocPageExactly(s: Books, t: Id)
    requires Shape(s)
    ensures AllocPage(s, t) == s <==> 0 !in s.frames
    ensures 0 in s.frames ==> exists f: nat ::
      First(s.frames, 0, f) && AllocPage(s, t) == s.(frames := s.frames[f := t], pages := s.pages[t := s.pages[t] + [f]])
  {
    InBank(s.frames, 0);
    if 0 in s.frames {
      assert First(s.frames, 0, Find(s.frames, 0));
    }
  }

  /** A freed frame leaves its owner's list, all other frames of which keep their order; a free frame stays free. */
  lemma FreePageExactly(s: Books, f: nat)
    requires InOrder(s)
    ensures FreePage(s, f) == s <==> f >= |s.frames| || s.frames[f] == 0
    ensures f < |s.frames| && s.frames[f] != 0 ==>
      var t: Id := s.frames[f];
      exists j :: First(s.pages[t], f, j) &&
        FreePage(s, f) == s.(frames := s.frames[f := 0], pages := s.pages[t := Without(s.pages[t], j)])
  {
    if f < |s.frames| && s.frames[f] != 0 {
      var t: Id := s.frames[f];
      assert f in s.pages[t];
      var j := Find(s.pages[t], f);
      InBank(s.pages[t], f);
      UnlistedAt(s.pages[t], f);
      assert First(s.pages[t], f, j);
      assert FreePage(s, f).frames[f] == 0;
    }
  }

  lemma {:induction false} UnlistedAt(list: seq<nat>, f: nat)
    requires Find(list, f) < |list|
    ensures Unlisted(list, f) == Without(list, Find(list, f))
  {
    if list[0] != f {
      UnlistedAt(list[1..], f);
      var i := Find(list[1..], f);
      assert [list[0]] + (list[1..][..i] + list[1..][i + 1..]) == list[..i + 1] + list[i + 2..];
    } else {
      assert list[..0] + list[1..] == list[1..];
    }
  }

  /* ---------------------------------------------------------------- termination */

  /** `banks` is `was` with some of task `t`'s entries cleared, `tags` standing for the ones that are left. */
  ghost predicate PartlyCleared(was: seq<seq<nat>>, banks: seq<seq<nat>>, tags: seq<Tag>, t: nat) {
    && |was| == |banks| == KINDS
    && (forall i :: 0 <= i < |tags| ==> tags[i] < KINDS)
    && forall k: Kind :: Partial(was[k], banks[k], t) && Count(banks[k], t) == Count(tags, k)
  }

  ghost predicate Partial(was: seq<nat>, bank: seq<nat>, t: nat) {
    |bank| == |was| && forall i :: 0 <= i < |was| ==> bank[i] == was[i] || (was[i] == t && bank[i] == 0)
  }

  lemma {:induction false} ReplayClears(was: seq<seq<nat>>, banks: seq<seq<nat>>, tags: seq<Tag>, t: nat)
    requires PartlyCleared(was, banks, tags, t) && t != 0
    ensures |Replay(banks, tags, t)| == KINDS
    ensures forall k: Kind :: Replay(banks, tags, t)[k] == Cleared(was[k], t)
    decreases |tags|
  {
    if tags == [] {
      forall k: Kind
        ensures banks[k] == Cleared(was[k], t)
      {
        assert Partial(was[k], banks[k], t) && Count(banks[k], t) == 0;
      }
    } else {
      var k := tags[0];
      assert tags == [k] + tags[1..];
      ReplayOne(was, banks, tags, t);
      ReplayClears(was, banks[k := FreeFirst(banks[k], t)], tags[1..], t);
    }
  }

  lemma ReplayOne(was: seq<seq<nat>>, banks: seq<seq<nat>>, tags: seq<Tag>, t: nat)
    requires PartlyCleared(was, banks, tags, t) && t != 0 && tags != []
    ensures PartlyCleared(was, banks[tags[0] := FreeFirst(banks[tags[0]], t)], tags[1..], t)
  {
    var k := tags[0];
    assert Count(banks[k], t) == Count(tags, k);
    FirstCounts(tags);
    InBank(banks[k], t);
    FreeCounts(banks[k], t);
    assert Partial(was[k], FreeFirst(banks[k], t), t);
  }

  lemma FirstCounts(tags: seq<Tag>)
    requires tags != []
    ensures forall m: Tag :: Count(tags, m) == Count(tags[1..], m) + if m == tags[0] then 1 else 0
  {
    assert tags == [tags[0]] + tags[1..];
    assert multiset(tags) == multiset{tags[0]} + multiset(tags[1..]);
  }

  /** `pins` is `had` with the pins of the entries cleared so far cleared too. */
  ghost predicate PinsFollow(was: seq<nat>, had: seq<nat>, bank: seq<nat>, pins: seq<nat>, t: nat) {
    && |was| == |had| == |bank| == |pins|
    && forall i :: 0 <= i < |was| ==> pins[i] == if was[i] == t && bank[i] == 0 then 0 else had[i]
  }

  lemma {:induction false} ReplayClearsPins(
      was: seq<seq<nat>>, had: seq<nat>, banks: seq<seq<nat>>, pins: seq<nat>, tags: seq<Tag>, t: nat)
    requires PartlyCleared(was, banks, tags, t) && t != 0 && PinsFollow(was[GPIO], had, banks[GPIO], pins, t)
    ensures
      var r := ReplayPins(banks, pins, tags, t);
      |r| == |had| && forall i :: 0 <= i < |r| ==> r[i] == if was[GPIO][i] == t then 0 else had[i]
    decreases |tags|
  {
    if tags == [] {
      assert Partial(was[GPIO], banks[GPIO], t) && Count(banks[GPIO], t) == 0;
      InBank(banks[GPIO], t);
    } else {
      var k := tags[0];
      ReplayOne(was, banks, tags, t);
      ReplayClearsPins(was, had, banks[k := FreeFirst(banks[k], t)], PinFreed(pins, banks[k], k, t), tags[1..], t);
    }
  }

  /** The walk clears the listed frames and no other. */
  lemma {:induction false} FreeAllClears(frames: seq<nat>, list: seq<nat>)
    ensures |FreeAll(frames, list)| == |frames|
    ensures forall f :: 0 <= f < |frames| ==> FreeAll(frames, list)[f] == if f in list then 0 else frames[f]
    decreases |list|
  {
    if list != [] {
      FreeAllClears(if list[0] < |frames| then frames[list[0] := 0] else frames, list[1..]);
    }
  }

  /**
   Termination releases exactly what the task owned: with the books in order, replaying the tags and walking the page
   list clears every bank entry of the task and every frame, and leaves every other entry, frame and task as it was.
   */
  lemma TerminateReleasesExactlyTheTasks(s: Books, t: Id)
    requires InOrder(s)
    ensures
      var s' := Terminate(s, t);
      && Shape(s') && s'.tags[t] == [] && s'.pages[t] == []
      && (forall k: Kind :: s'.banks[k] == Cleared(s.banks[k], t) && t !in s'.banks[k])
      && |s'.pins| == |s.pins|
      && (forall i :: 0 <= i < |s.pins| ==> s'.pins[i] == if s.banks[GPIO][i] == t then 0 else s.pins[i])
      && s'.frames == Cleared(s.frames, t) && t !in s'.frames
      && (forall u: Id :: u != t ==> s'.tags[u] == s.tags[u] && s'.pages[u] == s.pages[u])
  {
    assert PartlyCleared(s.banks, s.banks, s.tags[t], t);
    ReplayClears(s.banks, s.banks, s.tags[t], t);
    ReplayClearsPins(s.banks, s.pins, s.banks, s.pins, s.tags[t], t);
    FreeAllClears(s.frames, s.pages[t]);
    assert FreeAll(s.frames, s.pages[t]) == Cleared(s.frames, t);
  }

  lemma ClearedCounts(owners: seq<nat>, t: nat, u: nat)
    requires t != 0 && u != 0
    ensures Count(Cleared(owners, t), u) == if u == t then 0 else Count(owners, u)
  {
    if owners == [] {
      assert Cleared(owners, t) == [];
    } else {
      var n := |owners| - 1;
      assert owners == owners[..n] + [owners[n]];
      assert Cleared(owners, t) == Cleared(owners[..n], t) + [if owners[n] == t then 0 else owners[n]];
      ClearedCounts(owners[..n], t, u);
    }
  }

  lemma TerminateKeeps(s: Books, t: Id)
    requires InOrder(s)
    ensures InOrder(Terminate(s, t))
  {
    TerminateReleasesExactlyTheTasks(s, t);
    var s' := Terminate(s, t);
    forall u: Id, k: Kind
      ensures Count(s'.tags[u], k) == Count(s'.banks[k], u)
    {
      ClearedCounts(s.banks[k], t, u);
    }
    TerminateKeepsLists(s, s', t);
  }

  lemma TerminateKeepsLists(s: Books, s': Books, t: Id)
    requires Listed(s) && |s.pages| == |s'.pages| && s'.pages[t] == [] && s'.frames == Cleared(s.frames, t)
    requires forall u: Id :: u != t ==> s'.pages[u] == s.pages[u]
    ensures Listed(s')
  {
    forall u: Id, f: nat
      ensures f in s'.pages[u] <==> f < |s'.frames| && s'.frames[f] == u
    {
      assert f in s.pages[u] <==> f < |s.frames| && s.frames[f] == u;
    }
  }

  /* ---------------------------------------------------------------- pages */

  lemma {:induction false} UnlistedElements(list: seq<nat>, f: nat)
    requires Distinct(list)
    ensures Distinct(Unlisted(list, f))
    ensures forall x :: x in Unlisted(list, f) <==> x in list && x != f
  {
    if list != [] {
      assert forall x :: x in list <==> x == list[0] || x in list[1..];
      if list[0] != f {
        UnlistedElements(list[1..], f);
        assert forall x :: x in Unlisted(list, f) <==> x == list[0] || x in Unlisted(list[1..], f);
        assert list[0] !in Unlisted(list[1..], f);
      }
    }
  }

  lemma AllocPageKeeps(s: Books, t: Id)
    requires InOrder(s)
    ensures InOrder(AllocPage(s, t))
  {
    var s', f := AllocPage(s, t), Find(s.frames, 0);
    if f < |s.frames| {
      assert f !in s.pages[t];
      forall u: Id, g: nat
        ensures g in s'.pages[u] <==> g < |s'.frames| && s'.frames[g] == u
      {
        assert g in s.pages[u] <==> g < |s.frames| && s.frames[g] == u;
        assert g in s.pages[t] + [f] <==> g in s.pages[t] || g == f;
      }
    }
  }

  lemma FreePageKeeps(s: Books, f: nat)
    requires InOrder(s)
    ensures InOrder(FreePage(s, f))
  {
    var s' := FreePage(s, f);
    if s' != s {
      var t := s.frames[f];
      UnlistedElements(s.pages[t], f);
      forall u: Id, g: nat
        ensures g in s'.pages[u] <==> g < |s'.frames| && s'.frames[g] == u
      {
        assert g in s.pages[u] <==> g < |s.frames| && s.frames[g] == u;
      }
    }
  }

  /* ---------------------------------------------------------------- runs */

  datatype Call =
    | Gain(task: Id, kind: Kind)
    | GainPin(task: Id, pin: nat)
    | GainLock(task: Id, lock: nat)
    | GiveBack(task: Id, kind: Kind)
    | GivePin(task: Id, pin: nat)
    | GiveLock(task: Id, lock: nat)
    | NewPage(task: Id)
    | DropPage(frame: nat)
    | Dies(task: Id)

  function Apply(s: Books, c: Call): Books
    requires Shape(s)
  {
    match c
    case Gain(t, k) => Acquire(s, t, k).0
    case GainPin(t, pin) => AcquirePin(s, t, pin).0
    case GainLock(t, at) => if at < BankSize(LOCK) then AcquireLock(s, t, at).0 else s
    case GiveBack(t, k) => Release(s, t, k).0
    case GivePin(t, pin) => ReleasePin(s, t, pin).0
    case GiveLock(t, at) => if at < BankSize(LOCK) then ReleaseLock(s, t, at).0 else s
    case NewPage(t) => AllocPage(s, t)
    case DropPage(f) => FreePage(s, f)
    case Dies(t) => Terminate(s, t)
  }

  lemma ApplyKeepsBalance(s: Books, c: Call)
    requires Balanced(s) && !c.NewPage? && !c.DropPage? && !c.Dies?
    ensures Balanced(Apply(s, c))
  {
    match c
    case Gain(t, k) => AcquireKeeps(s, t, k);
    case GainPin(t, pin) => PinCallsKeep(s, t, pin);
    case GainLock(t, at) => if at < BankSize(LOCK) { AcquireLockKeeps(s, t, at); }
    case GiveBack(t, k) => ReleaseKeeps(s, t, k);
    case GivePin(t, pin) => PinCallsKeep(s, t, pin);
    case GiveLock(t, at) => if at < BankSize(LOCK) { ReleaseLockKeeps(s, t, at); }
  }

  lemma ApplyKeeps(s: Books, c: Call)
    requires InOrder(s)
    ensures InOrder(Apply(s, c))
  {
    match c
    case NewPage(t) => AllocPageKeeps(s, t);
    case DropPage(f) => FreePageKeeps(s, f);
    case Dies(t) => TerminateKeeps(s, t);
    case _ =>
      ApplyKeepsBalance(s, c);
      assert Apply(s, c).frames == s.frames && Apply(s, c).pages == s.pages;
  }

  function Run(s: Books, calls: seq<Call>): (s': Books)
    requires InOrder(s)
    ensures InOrder(s')
    decreases |calls|
  {
    if calls == [] then s else ApplyKeeps(s, calls[0]); Run(Apply(s, calls[0]), calls[1..])
  }

  /** The books at boot: every bank free. */
  function Boot(frames: nat): (s: Books)
    ensures InOrder(s)
  {
    var s := Books(
      seq(TASKS, _ => []), seq(KINDS, k requires 0 <= k < KINDS => seq(BankSize(k), _ => 0)),
      seq(BankSize(GPIO), _ => 0), seq(frames, _ => 0), seq(TASKS, _ => []));
    s
  }

  /** So after any run, a task's termination leaves nothing in its name. */
  lemma {:induction false} NothingLeaksAfterAnyRun(s: Books, calls: seq<Call>, t: Id)
    requires InOrder(s)
    ensures
      var s' := Terminate(Run(s, calls), t);
      Shape(s') && t !in s'.frames && forall k: Kind :: t !in s'.banks[k]
  {
    TerminateReleasesExactlyTheTasks(Run(s, calls), t);
  }

  /* ---------------------------------------------------------------- as written */

  /**
   `terminate_context` as written (lib/core.c:129-164) wipes the whole PCB, count of tags and page list included, before
   it loops up to that count and walks that list: no release routine runs and no frame is found.
   */
  function TerminateAsWritten(s: Books, t: Id): Books
    requires Shape(s)
  {
    s.(tags := s.tags[t := []], pages := s.pages[t := []])
  }

  /** So it leaves the books in order exactly for a task with no tag and no frame; all else is lost for good. */
  lemma TerminateAsWrittenLeaks(s: Books, t: Id)
    requires InOrder(s)
    ensures InOrder(TerminateAsWritten(s, t)) <==> s.tags[t] == [] && t !in s.frames
    ensures forall k: Kind :: t in s.banks[k] ==> t in TerminateAsWritten(s, t).banks[k]
    ensures TerminateAsWritten(s, t).frames == s.frames
  {
    var s' := TerminateAsWritten(s, t);
    if s.pages[t] != [] {
      var f := s.pages[t][0];
      assert f in s.pages[t];
      assert f !in s'.pages[t] && s'.frames[f] == t;
    } else {
      forall f | 0 <= f < |s.frames|
        ensures s.frames[f] != t
      {
        assert f !in s.pages[t];
      }
      if s.tags[t] == [] {
        assert s' == s;
      } else {
        var k: Kind := s.tags[t][0];
        OwnerHasTag(s, t, k);
        InBank(s.banks[k], t);
        assert Count(s'.tags[t], k) == 0;
      }
    }
  }

  /**
   The walk itself, lines 151-164, had the list been kept: `tmppage` never moves on, so the head's frame is freed, and the
   loop ends only when the head is the tail.
   */
  function WalkAsWritten(frames: seq<nat>, list: seq<nat>): Option<seq<nat>>
    requires list != []
  {
    if list[0] == list[|list| - 1] then Some(if list[0] < |frames| then frames[list[0] := 0] else frames) else None
  }

  lemma WalkAsWrittenExactly(frames: seq<nat>, list: seq<nat>)
    requires list != [] && Distinct(list)
    ensures WalkAsWritten(frames, list) == Some(FreeAll(frames, list)) <==> |list| == 1
  {
    if |list| == 1 {
      assert FreeAll(frames, list) == FreeAll(if list[0] < |frames| then frames[list[0] := 0] else frames, []);
    }
  }

  /**
   `svc_mutex_release` as written (lines 501-508) touches neither the tag nor any bank, and the release it calls stores
   nothing in a held mutex (`Mutexes.ReleaseAsWritten`); its answer is 0.
   */
  function ReleaseLockAsWritten(s: Books, at: nat): (Books, nat) { (s, 0) }

  /** It does what is meant exactly for a lock the task does not hold; a held one stays held, for every later gain. */
  lemma ReleaseLockAsWrittenExactly(s: Books, t: Id, u: Id, at: nat)
    requires Balanced(s) && at < BankSize(LOCK)
    ensures ReleaseLockAsWritten(s, at).0 == ReleaseLock(s, t, at).0 <==> s.banks[LOCK][at] != t
    ensures s.banks[LOCK][at] == t ==> AcquireLock(ReleaseLockAsWritten(s, at).0, u, at).1 != 0
  {
    if s.banks[LOCK][at] == t {
      assert ReleaseLock(s, t, at).0.banks[LOCK][at] == 0;
    }
  }

  /** The gains as written; a mutex and a semaphore leave no record in the lock bank. */
  datatype Gained = PinGained(pin: nat) | MutexGained(held: bool) | SemaphoreGained(units: nat) | MailboxMade | TimerAsked

  /**
   `svc_gpalloc` (lines 219-236) does not count its tag; `svc_mutex_gain` and `svc_semaphore_gain` (lines 489-528) insert
   a mailbox's tag; `svc_create_ipcmailbox` (lines 369-395) and `svc_tsleep_ms` (lines 183-202) insert none.
   */
  function GainAsWritten(s: Books, t: Id, g: Gained): (Books, nat)
    requires Shape(s)
  {
    match g
    case PinGained(pin) =>
      var i := Find(s.banks[GPIO], 0);
      var (s', code) := EntryAsWritten(s, t, GPIO);
      (if i < |s.pins| then s'.(pins := s.pins[i := pin]) else s', code)
    case MutexGained(held) =>
      if |s.tags[t]| >= CAPACITY then (s, 2) else if held then (s, 1) else (TagAsWritten(s, t), 0)
    case SemaphoreGained(units) =>
      if units == 0 then (s, 1) else if |s.tags[t]| >= CAPACITY then (s, 2) else (TagAsWritten(s, t), 0)
    case MailboxMade => EntryAsWritten(s, t, MAILBOX)
    case TimerAsked => EntryAsWritten(s, t, TIMER)
  }

  function EntryAsWritten(s: Books, t: Id, k: Kind): (Books, nat)
    requires Shape(s)
  {
    if 0 !in s.banks[k] then (s, 1) else (s.(banks := s.banks[k := ClaimFirst(s.banks[k], t)]), 0)
  }

  function TagAsWritten(s: Books, t: Id): Books
    requires Shape(s)
  {
    s.(tags := s.tags[t := s.tags[t] + [MAILBOX]])
  }

  /** What a gain needs to succeed: a free entry, or room for a tag and a mutex nobody holds or a unit. */
  predicate Granted(s: Books, t: Id, g: Gained)
    requires Shape(s)
  {
    match g
    case PinGained(_) => 0 in s.banks[GPIO]
    case MutexGained(held) => |s.tags[t]| < CAPACITY && !held
    case SemaphoreGained(units) => |s.tags[t]| < CAPACITY && units > 0
    case MailboxMade => 0 in s.banks[MAILBOX]
    case TimerAsked => 0 in s.banks[TIMER]
  }

  /**
   What each does: a pin, a mailbox and a timer take the first free entry and insert no tag; a mutex and a semaphore insert
   tag 9 and take no entry; a gain not granted changes nothing, and says why.
   */
  lemma GainAsWrittenExactly(s: Books, t: Id, g: Gained)
    requires Shape(s)
    ensures
      var ((s', code), n) := (GainAsWritten(s, t, g), |s.tags[t]|);
      && code == (match g
           case MutexGained(held) => if n >= 16 then 2 else if held then 1 else 0
           case SemaphoreGained(units) => if units == 0 then 1 else if n >= 16 then 2 else 0
           case _ => if Granted(s, t, g) then 0 else 1)
      && (code != 0 ==> s' == s)
      && (code == 0 && (g.MutexGained? || g.SemaphoreGained?) ==> s' == s.(tags := s.tags[t := s.tags[t] + [9]]))
      && (code == 0 && !g.MutexGained? && !g.SemaphoreGained? ==>
           var k: Kind := if g.PinGained? then 7 else if g.MailboxMade? then 9 else 6;
           exists i: nat :: First(s.banks[k], 0, i)
             && s' == s.(banks := SetEntry(s.banks, k, i, t), pins := if g.PinGained? then s.pins[i := g.pin] else s.pins))
  {
    InBank(s.banks[GPIO], 0);
    InBank(s.banks[MAILBOX], 0);
    InBank(s.banks[TIMER], 0);
    var k: Kind := if g.PinGained? then GPIO else if g.MailboxMade? then MAILBOX else TIMER;
    var i := Find(s.banks[k], 0);
    if 0 in s.banks[k] && !g.MutexGained? && !g.SemaphoreGained? {
      assert First(s.banks[k], 0, i) && GainAsWritten(s, t, g).0 ==
        s.(banks := SetEntry(s.banks, k, i, t), pins := if g.PinGained? then s.pins[i := g.pin] else s.pins);
    }
  }

  /** The unit is taken before the tags are looked at (lines 516-522). */
  function UnitsTaken(g: Gained): nat { if g.SemaphoreGained? && g.units > 0 then 1 else 0 }

  /**
   Every one of them unbalances the books exactly when it is granted.  And a semaphore's unit goes on nobody's account
   exactly when one was left and the task has sixteen tags.
   */
  lemma GainAsWrittenUnbalances(s: Books, t: Id, g: Gained)
    requires Balanced(s)
    ensures Balanced(GainAsWritten(s, t, g).0) <==> !Granted(s, t, g)
    ensures GainAsWritten(s, t, g).1 == 0 <==> Granted(s, t, g)
    ensures g.SemaphoreGained? ==>
      (|GainAsWritten(s, t, g).0.tags[t]| == |s.tags[t]| + UnitsTaken(g) <==> g.units == 0 || |s.tags[t]| < CAPACITY)
  {
    match g
    case PinGained(_) => EntryUnbalances(s, t, GPIO);
    case MailboxMade => EntryUnbalances(s, t, MAILBOX);
    case TimerAsked => EntryUnbalances(s, t, TIMER);
    case _ =>
      AppendCounts(s.tags[t], MAILBOX);
      assert Count(s.tags[t], MAILBOX) == Count(s.banks[MAILBOX], t);
      assert Count(TagAsWritten(s, t).tags[t], MAILBOX) != Count(s.banks[MAILBOX], t);
  }

  lemma EntryUnbalances(s: Books, t: Id, k: Kind)
    requires Balanced(s)
    ensures
      var (s', code) := EntryAsWritten(s, t, k);
      code == 0 ==> Count(s'.tags[t], k) != Count(s'.banks[k], t)
  {
    if 0 in s.banks[k] {
      ClaimCounts(s.banks[k], t);
      assert Count(s.tags[t], k) == Count(s.banks[k], t);
    }
  }

  /* ---------------------------------------------------------------- the arrays */

  /** The PCBs' tag words and counts, the banks and the frames, updated in place; `books` is what they record. */
  class Ownership {
    const words: array<nat>
    const counts: array<nat>
    const banks: seq<array<nat>>
    const pins: array<nat>
    const frames: array<nat>
    const pages: array<seq<nat>>
    ghost var books: Books

    ghost predicate Valid()
      reads this, words, counts, banks, pins, frames, pages
    {
      && Apart()
      && Shape(books)
      && (forall t: Id :: |books.tags[t]| <= CAPACITY)
      && words.Length == counts.Length == TASKS
      && (forall t: Id :: words[t] == Pack(books.tags[t]) && counts[t] == |books.tags[t]|)
      && (forall k: Kind :: banks[k][..] == books.banks[k])
      && pins[..] == books.pins && frames[..] == books.frames && pages[..] == books.pages
    }

    ghost predicate Apart() {
      && |banks| == KINDS
      && words != counts && words != frames && counts != frames && pins != words && pins != counts && pins != frames
      && (forall k: Kind :: banks[k] != words && banks[k] != counts && banks[k] != frames && banks[k] != pins)
      && (forall j: Kind, k: Kind :: j != k ==> banks[j] != banks[k])
    }

    /** Everything free, as at boot. */
    constructor (frameCount: nat)
      ensures Valid() && books == Boot(frameCount)
    {
      words, counts := new nat[TASKS](_ => 0), new nat[TASKS](_ => 0);
      frames, pages := new nat[frameCount](_ => 0), new seq<nat>[TASKS](_ => []);
      pins := new nat[BankSize(GPIO)](_ => 0);
      var made := FreshBanks();
      banks := made;
      books := Boot(frameCount);
      new;
      assert forall k: Kind :: banks[k][..] == books.banks[k];
    }

    /**
     The release routine of kind `k` (`__free_gpio`, `__free_ipcmailbox`, ...): first owned entry, then stop.  A GPIO
     entry's pin is cleared with it.
     */
    method Free(k: Kind, t: Id)
      requires Valid()
      modifies this, banks[k], pins
      ensures Valid()
      ensures
        var bank := old(books).banks[k];
        books == old(books).(banks := old(books).banks[k := FreeFirst(bank, t)], pins := PinFreed(old(books).pins, bank, k, t))
    {
      var i := FindIn(banks[k], t);
      ghost var was := books.banks[k];
      if i < banks[k].Length {
        banks[k][i] := 0;
        assert banks[k][..] == FreeFirst(was, t);
        if k == GPIO {
          pins[i] := 0;
          assert pins[..] == PinFreed(books.pins, was, k, t);
        }
      }
      books := books.(banks := books.banks[k := FreeFirst(was, t)], pins := PinFreed(books.pins, was, k, t));
    }

    /** A first-fit gain of kind `k`, its tag inserted into the word at the count. */
    method Gain(k: Kind, t: Id) returns (code: nat)
      requires Valid()
      modifies this, banks[k], words, counts
      ensures Valid() && (books, code) == Acquire(old(books), t, k)
    {
      if counts[t] >= CAPACITY {
        return 2;
      }
      ghost var was := books.banks[k];
      var i := FindIn(banks[k], 0);
      InBank(was, 0);
      if i == banks[k].Length {
        return 1;
      }
      banks[k][i] := t;
      assert banks[k][..] == ClaimFirst(was, t);
      InsertAppends(books.tags[t], k);
      words[t], counts[t] := Or(words[t], ShiftLeft(k, counts[t])), counts[t] + 1;
      books := Acquire(books, t, k).0;
      code := 0;
    }

    /** `alloc_page`, its frame pushed onto the task's list. */
    method ClaimFrame(t: Id) returns (frame: nat)
      requires Valid()
      modifies this, frames, pages
      ensures Valid() && books == AllocPage(old(books), t)
      ensures frame == Find(old(books).frames, 0)
    {
      frame := FindIn(frames, 0);
      if frame < frames.Length {
        frames[frame] := t;
        assert frames[..] == ClaimFirst(books.frames, t);
        pages[t] := pages[t] + [frame];
      }
      books := AllocPage(books, t);
    }

    /** `terminate_context`, the word, count and list read before the PCB is wiped, and each nibble below the count replayed. */
    method TerminateContext(t: Id)
      requires Valid() && Balanced(books)
      modifies this, words, counts, banks, pins, frames, pages
      ensures Valid() && books == Terminate(old(books), t)
    {
      var w, n := words[t], counts[t];
      ghost var tags := books.tags[t];
      ghost var start := books;
      var i := 0;
      while i < n
        invariant i <= n == |tags| && Valid() && w == Pack(tags)
        invariant books == start.(banks := books.banks, pins := books.pins)
        invariant Replay(books.banks, tags[i..], t) == Replay(start.banks, tags, t)
        invariant ReplayPins(books.banks, books.pins, tags[i..], t) == ReplayPins(start.banks, start.pins, tags, t)
      {
        NibbleReads(tags, i);
        assert tags[i] == tags[i..][0] && tags[i..][1..] == tags[i + 1..];
        Free(Nibble(w, i), t);
        i := i + 1;
      }
      assert tags[i..] == [];
      words[t], counts[t] := 0, 0;
      books := books.(tags := books.tags[t := []]);
      var list := pages[t];
      pages[t] := [];
      books := books.(pages := books.pages[t := []]);
      ClearFrames(list);
    }

    /** The walk of lines 148-164 over a page list, moving on. */
    method ClearFrames(list: seq<nat>)
      requires Valid()
      modifies this, frames
      ensures Valid() && books == old(books).(frames := FreeAll(old(books).frames, list))
    {
      var i := 0;
      while i < |list|
        invariant i <= |list| && FreeAll(frames[..], list[i..]) == FreeAll(books.frames, list)
        modifies frames
      {
        assert list[i] == list[i..][0] && list[i..][1..] == list[i + 1..];
        if list[i] < frames.Length {
          ghost var now := frames[..];
          frames[list[i]] := 0;
          assert frames[..] == now[list[i] := 0];
        }
        i := i + 1;
      }
      assert list[i..] == [];
      books := books.(frames := frames[..]);
    }
  }

  method FreshBanks() returns (banks: seq<array<nat>>)
    ensures |banks| == KINDS && fresh(banks)
    ensures forall k: Kind :: banks[k].Length == BankSize(k) && forall i :: 0 <= i < banks[k].Length ==> banks[k][i] == 0
    ensures forall j: Kind, k: Kind :: j != k ==> banks[j] != banks[k]
  {
    banks := [];
    while |banks| < KINDS
      invariant |banks| <= KINDS && fresh(banks)
      invariant forall k :: 0 <= k < |banks| ==> banks[k].Length == BankSize(k)
      invariant forall k :: 0 <= k < |banks| ==> forall i :: 0 <= i < banks[k].Length ==> banks[k][i] == 0
      invariant forall j, k :: 0 <= j < k < |banks| ==> banks[j] != banks[k]
    {
      var bank := new nat[BankSize(|banks|)](_ => 0);
      banks := banks + [bank];
    }
  }

  /** The scan every release and allocation routine runs. */
  method FindIn(bank: array<nat>, x: nat) returns (i: nat)
    ensures i == Find(bank[..], x)
  {
    i := 0;
    while i < bank.Length && bank[i] != x
      invariant i <= bank.Length
      invariant Find(bank[..], x) == i + Find(bank[i..], x)
    {
      assert bank[i..][0] == bank[i] && bank[i..][1..] == bank[i + 1..];
      i := i + 1;
    }
    if i < bank.Length {
      assert bank[i..][0] == bank[i];
    } else {
      assert bank[i..] == [];
    }
  }
}
