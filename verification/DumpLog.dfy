/**
 The fixed-size logs: the 32 dumps of terminated tasks (lib/core.c:166-206) and the two breakpoints a core keeps
 (exception/synchronous/synchronous.c:404-412).

 Both replace their oldest entry.  The dump bank's second loop declares its own `least_time` and `idx` anew in every
 turn, so as written no turn finds an entry older than itself and the dump goes to index -1; `SaveDump` keeps the two
 variables across the turns instead, and `RecordAsWritten` is the code as it stands.
 */
module DumpLog {

  /** A log entry: the task's id, 0 when the slot is empty, the time it was saved, and the words it carries. */
  datatype Entry = Entry(id: nat, stime: nat, words: seq<nat>)

  const EMPTY := Entry(0, 0, [])

  /** The first empty slot, or the length. */
  function EmptySlot(bank: seq<Entry>): (i: nat)
    ensures i <= |bank|
    ensures i < |bank| ==> bank[i].id == 0
    ensures forall j :: 0 <= j < i ==> bank[j].id != 0
  {
    if bank == [] || bank[0].id == 0 then 0 else 1 + EmptySlot(bank[1..])
  }

  /** Entry `i` is the first of the oldest ones. */
  ghost predicate IsOldest(bank: seq<Entry>, i: nat) {
    && i < |bank|
    && (forall j :: 0 <= j < |bank| ==> bank[i].stime <= bank[j].stime)
    && (forall j :: 0 <= j < i ==> bank[i].stime < bank[j].stime)
  }

  /** The oldest entry, the first one when several are equally old. */
  function Oldest(bank: seq<Entry>): (i: nat)
    requires bank != []
    ensures IsOldest(bank, i)
  {
    if |bank| == 1 then 0
    else
      var i := 1 + Oldest(bank[1..]);
      assert forall j :: 1 <= j < |bank| ==> bank[j] == bank[1..][j - 1];
      if bank[0].stime <= bank[i].stime then 0 else i
  }

  /** Where the next entry goes: the first empty slot, or over the oldest entry. */
  function Slot(bank: seq<Entry>): (i: nat)
    requires bank != []
    ensures i < |bank|
  {
    if EmptySlot(bank) < |bank| then EmptySlot(bank) else Oldest(bank)
  }

  function Record(bank: seq<Entry>, d: Entry): seq<Entry>
    requires bank != []
  {
    bank[Slot(bank) := d]
  }

  /** The bank of `capacity` slots after the entries of `history`. */
  function Log(capacity: nat, history: seq<Entry>): (bank: seq<Entry>)
    requires capacity > 0
    ensures |bank| == capacity
  {
    if history == [] then seq(capacity, _ => EMPTY)
    else Record(Log(capacity, history[..|history| - 1]), history[|history| - 1])
  }

  /** Entries of real tasks, saved at strictly increasing times after the clock's zero. */
  ghost predicate Increasing(history: seq<Entry>) {
    && (forall j :: 0 <= j < |history| ==> history[j].id != 0 && history[j].stime > 0)
    && forall i, j :: 0 <= i < j < |history| ==> history[i].stime < history[j].stime
  }

  /** The newest entries, the `j`-th one ever saved in slot `j` modulo the capacity, and nothing else. */
  ghost predicate Ring(bank: seq<Entry>, history: seq<Entry>) {
    && bank != []
    && (forall j :: 0 <= j < |history| && |history| - |bank| <= j ==> bank[Mod(j, |bank|)] == history[j])
    && (forall i :: |history| <= i < |bank| ==> bank[i] == EMPTY)
  }

  /* ---------------------------------------------------------------- slots of a ring */

  /** `j` modulo `c`. */
  function Mod(j: nat, c: nat): (r: nat)
    requires c > 0
    ensures r < c && (j < c ==> r == j)
  {
    if j < c then j else Mod(j - c, c)
  }

  /** Which of the last `c` of `n` entries is in slot `i`. */
  function Holder(n: nat, c: nat, i: nat): (j: nat)
    requires 0 < c <= n && i < c
    ensures n - c <= j < n && Mod(j, c) == i
  {
    if n <= i + c then i else if n < 2 * c then i + c else c + Holder(n - c, c, i)
  }

  /** Two indices less than `c` apart never share a slot; two exactly `c` apart do. */
  lemma {:induction false} ModApart(a: nat, b: nat, c: nat)
    requires c > 0 && a <= b
    ensures 0 < b - a < c ==> Mod(a, c) != Mod(b, c)
    ensures b - a == c ==> Mod(a, c) == Mod(b, c)
  {
    if a >= c {
      ModApart(a - c, b - c, c);
    }
  }

  /* ---------------------------------------------------------------- the newest entries */

  /** While the bank is filling up the next slot is the first empty one. */
  lemma SlotWhileFilling(bank: seq<Entry>, history: seq<Entry>)
    requires Ring(bank, history) && Increasing(history) && |history| < |bank|
    ensures Slot(bank) == Oldest(bank) == |history|
  {
    var n := |history|;
    forall j | 0 <= j < n
      ensures bank[j] == history[j]
    {
      assert bank[Mod(j, |bank|)] == bank[j];
    }
    assert bank[n] == EMPTY;
    assert EmptySlot(bank) == n;
  }

  /** Once it is full the next slot is that of the oldest entry, `capacity` entries ago. */
  lemma SlotWhenFull(bank: seq<Entry>, history: seq<Entry>)
    requires Ring(bank, history) && Increasing(history) && |history| >= |bank|
    ensures Slot(bank) == Oldest(bank) == Mod(|history|, |bank|)
  {
    var n, c := |history|, |bank|;
    ModApart(n - c, n, c);
    assert bank[Mod(n, c)] == history[n - c];
    forall i | 0 <= i < c
      ensures bank[i].id != 0 && (i != Mod(n, c) ==> bank[i].stime > bank[Mod(n, c)].stime)
    {
      assert bank[i] == history[Holder(n, c, i)];
    }
  }

  lemma RecordKeepsRing(bank: seq<Entry>, history: seq<Entry>, d: Entry)
    requires Ring(bank, history) && Increasing(history)
    ensures Ring(Record(bank, d), history + [d])
  {
    var n, c := |history|, |bank|;
    if n < c {
      SlotWhileFilling(bank, history);
    } else {
      SlotWhenFull(bank, history);
    }
    forall j | 0 <= j < n && n + 1 - c <= j
      ensures Record(bank, d)[Mod(j, c)] == history[j]
    {
      ModApart(j, n, c);
    }
  }

  /** After any number of entries at increasing times the bank holds exactly the last ones, as many as it has room for. */
  lemma {:induction false} LogKeepsTheNewest(capacity: nat, history: seq<Entry>)
    requires capacity > 0 && Increasing(history)
    ensures Ring(Log(capacity, history), history)
  {
    if history != [] {
      var n := |history| - 1;
      LogKeepsTheNewest(capacity, history[..n]);
      RecordKeepsRing(Log(capacity, history[..n]), history[..n], history[n]);
      assert history == history[..n] + [history[n]];
    }
  }

  /** Seen from a slot: it holds the newest entry of its residue, or is empty because nothing has reached it yet. */
  lemma SlotsOfTheLog(capacity: nat, history: seq<Entry>, i: nat)
    requires capacity > 0 && Increasing(history) && i < capacity
    ensures
      var bank, n := Log(capacity, history), |history|;
      bank[i] == if n >= capacity then history[Holder(n, capacity, i)] else if i < n then history[i] else EMPTY
  {
    LogKeepsTheNewest(capacity, history);
    assert i < |history| < capacity ==> Mod(i, capacity) == i;
  }

  /** A dump stays until the next one exactly when its task's id is not 0: PCB 0's dump looks like an empty slot. */
  lemma DumpSurvivesIffNonzeroId(bank: seq<Entry>, d: Entry)
    requires |bank| >= 2 && forall i :: 0 <= i < |bank| ==> bank[i].stime < d.stime
    ensures Slot(Record(bank, d)) != Slot(bank) <==> d.id != 0
  {
    var k := Slot(bank);
    var j := if k == 0 then 1 else 0;
    assert Record(bank, d)[j].stime < Record(bank, d)[k].stime;
  }

  /* ---------------------------------------------------------------- as written */

  /** One turn of the second loop: it compares an entry's time with itself. */
  function TurnAsWritten(bank: seq<Entry>, i: nat): int
    requires i < |bank|
  {
    var least := bank[i].stime;
    if least > bank[i].stime then i else -1
  }

  /** The write at the index left by the last turn; one outside the bank changes no slot. */
  function RecordAsWritten(bank: seq<Entry>, d: Entry): seq<Entry>
    requires bank != []
  {
    var i := if EmptySlot(bank) < |bank| then EmptySlot(bank) else TurnAsWritten(bank, |bank| - 1);
    if 0 <= i < |bank| then bank[i := d] else bank
  }

  function LogAsWritten(capacity: nat, history: seq<Entry>): (bank: seq<Entry>)
    requires capacity > 0
    ensures |bank| == capacity
  {
    if history == [] then seq(capacity, _ => EMPTY)
    else RecordAsWritten(LogAsWritten(capacity, history[..|history| - 1]), history[|history| - 1])
  }

  /** As written the bank keeps the first dumps for ever. */
  lemma {:induction false} LogAsWrittenKeepsTheFirst(capacity: nat, history: seq<Entry>)
    requires capacity > 0 && forall j :: 0 <= j < |history| ==> history[j].id != 0
    ensures forall i :: 0 <= i < capacity ==>
      LogAsWritten(capacity, history)[i] == if i < |history| then history[i] else EMPTY
  {
    if history != [] {
      var n := |history| - 1;
      LogAsWrittenKeepsTheFirst(capacity, history[..n]);
      if n < capacity {
        assert LogAsWritten(capacity, history[..n])[n] == EMPTY;
      }
    }
  }

  /** It agrees with replacing the oldest exactly until the bank is full. */
  lemma LogAsWrittenExactly(capacity: nat, history: seq<Entry>)
    requires capacity > 0 && Increasing(history)
    ensures LogAsWritten(capacity, history) == Log(capacity, history) <==> |history| <= capacity
  {
    LogAsWrittenKeepsTheFirst(capacity, history);
    var n := |history|;
    if n <= capacity {
      forall i | 0 <= i < capacity
        ensures LogAsWritten(capacity, history)[i] == Log(capacity, history)[i]
      {
        SlotsOfTheLog(capacity, history, i);
      }
    } else {
      var i := Mod(n - 1, capacity);
      LogKeepsTheNewest(capacity, history);
      assert Log(capacity, history)[i] == history[n - 1];
    }
  }

  /* ---------------------------------------------------------------- the breakpoint log */

  /** The two-slot rule as written: the second slot when the first one is newer. */
  function BreakpointRecord(slots: seq<Entry>, d: Entry): seq<Entry>
    requires |slots| == 2
  {
    slots[(if slots[0].stime > slots[1].stime then 1 else 0) := d]
  }

  function BreakpointLog(history: seq<Entry>): (slots: seq<Entry>)
    ensures |slots| == 2
  {
    if history == [] then [EMPTY, EMPTY]
    else BreakpointRecord(BreakpointLog(history[..|history| - 1]), history[|history| - 1])
  }

  /** It is the dump bank's rule at capacity 2 (a breakpoint has no task id; any nonzero id stands for "in use"). */
  lemma {:induction false} BreakpointLogIsCapacityTwo(history: seq<Entry>)
    requires Increasing(history)
    ensures BreakpointLog(history) == Log(2, history)
  {
    if history != [] {
      var n := |history| - 1;
      var before := history[..n];
      BreakpointLogIsCapacityTwo(before);
      LogKeepsTheNewest(2, before);
      if n < 2 {
        SlotWhileFilling(Log(2, before), before);
      } else {
        SlotWhenFull(Log(2, before), before);
      }
    }
  }

  /* ---------------------------------------------------------------- the loops */

  /** The dump bank's two loops. */
  method SaveDump(bank: array<Entry>, d: Entry)
    requires bank.Length > 0
    modifies bank
    ensures bank[..] == Record(old(bank[..]), d)
  {
    var i := 0;
    while i < bank.Length && bank[i].id != 0
      invariant i <= bank.Length && forall j :: 0 <= j < i ==> bank[j].id != 0
    {
      i := i + 1;
    }
    if i == bank.Length {
      var least, idx := bank[0].stime, 0;
      i := 0;
      while i < bank.Length
        invariant i <= bank.Length && idx < bank.Length && bank[idx].stime == least
        invariant forall j :: 0 <= j < i ==> least <= bank[j].stime
        invariant forall j :: 0 <= j < idx ==> least < bank[j].stime
      {
        if least > bank[i].stime {
          least, idx := bank[i].stime, i;
        }
        i := i + 1;
      }
      assert IsOldest(bank[..], idx);
      i := idx;
    }
    assert i == Slot(bank[..]);
    bank[i] := d;
  }

  /** The breakpoint handler: each core has two neighbouring slots of one array, and touches only those. */
  method SaveBreakpoint(slots: array<Entry>, core: nat, d: Entry)
    requires slots.Length == 8 && core < 4
    modifies slots
    ensures slots[2 * core..2 * core + 2] == BreakpointRecord(old(slots[2 * core..2 * core + 2]), d)
    ensures forall i :: 0 <= i < 8 && i / 2 != core ==> slots[i] == old(slots[i])
  {
    var i := 2 * core;
    if slots[i].stime > slots[i + 1].stime {
      i := i + 1;
    }
    slots[i] := d;
  }
}
