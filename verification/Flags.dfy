/**
 The flags byte of a PCB (structure/task.h:57) and the three ways the dispatcher rewrites it
 (lib/schaduler.c:201-258).

 bits 0-1 core, 2 ready, 3 migration enabled, 4 accessed before, 5 core dependency, 6-7 previous core
 */
module Flags {

  type Core = c: nat | c < 4

  function Bits(c: Core): bv8 {
    if c == 0 then 0 else if c == 1 then 1 else if c == 2 then 2 else 3
  }

  function FromBits(b: bv8): Core {
    if b & 3 == 0 then 0 else if b & 3 == 1 then 1 else if b & 3 == 2 then 2 else 3
  }

  function CoreOf(f: bv8): Core { FromBits(f) }
  function PreviousCore(f: bv8): Core { FromBits(f >> 6) }
  predicate ReadyFlag(f: bv8) { f & 0x04 != 0 }
  predicate Migrates(f: bv8) { f & 0x08 != 0 }
  predicate Accessed(f: bv8) { f & 0x10 != 0 }
  predicate Dependent(f: bv8) { f & 0x20 != 0 }

  /** First dispatch: take the core, remember that the task has run (line 247 clears the bit that structure/task.h:57
   names "accessed before", so that no task would ever count as accessed). */
  function FirstDispatch(f: bv8, c: Core): bv8 {
    (f & 0xFC) | Bits(c) | 0x10
  }

  /** Dispatch on another core: the core left moves to bits 6-7, the new core to bits 0-1. */
  function Migrate(f: bv8, c: Core): bv8 {
    (f & 0x3C) | ((f & 3) << 6) | Bits(c)
  }

  /** Both rewrites set the fields they name and no other. */
  lemma FirstDispatchFields(f: bv8, c: Core)
    ensures
      var g := FirstDispatch(f, c);
      && CoreOf(g) == c && Accessed(g)
      && PreviousCore(g) == PreviousCore(f) && ReadyFlag(g) == ReadyFlag(f)
      && Migrates(g) == Migrates(f) && Dependent(g) == Dependent(f)
  {
    var b := Bits(c);
    assert b & 3 == b && b & 0xFC == 0;
    assert ((f & 0xFC) | b | 0x10) & 3 == b;
    assert ((f & 0xFC) | b | 0x10) >> 6 == f >> 6;
  }

  lemma MigrateFields(f: bv8, c: Core)
    ensures
      var g := Migrate(f, c);
      && CoreOf(g) == c && PreviousCore(g) == CoreOf(f)
      && Accessed(g) == Accessed(f) && ReadyFlag(g) == ReadyFlag(f)
      && Migrates(g) == Migrates(f) && Dependent(g) == Dependent(f)
  {
    var b := Bits(c);
    assert b & 3 == b;
    assert ((f & 0x3C) | ((f & 3) << 6) | b) & 3 == b;
    assert ((f & 0x3C) | ((f & 3) << 6) | b) >> 6 == f & 3;
  }

  datatype Choice = Skip | Take(flags: bv8)

  /** What the dispatcher does with one task of the level. */
  function Choose(f: bv8, c: Core): Choice {
    if !Accessed(f) then Take(FirstDispatch(f, c))
    else if CoreOf(f) == c then Take(f)
    else if Migrates(f) then Take(Migrate(f, c))
    else Skip
  }

  /** Affinity: a task that has run and may not migrate is taken by its own core only. */
  lemma ChoiceRespectsAffinity(f: bv8, c: Core)
    ensures Choose(f, c) == Skip <==> Accessed(f) && !Migrates(f) && CoreOf(f) != c
    ensures Choose(f, c).Take? ==>
      var g := Choose(f, c).flags;
      && CoreOf(g) == c && Accessed(g)
      && Migrates(g) == Migrates(f) && ReadyFlag(g) == ReadyFlag(f) && Dependent(g) == Dependent(f)
      && (Accessed(f) && CoreOf(f) != c ==> PreviousCore(g) == CoreOf(f))
      && (!Accessed(f) || CoreOf(f) == c ==> PreviousCore(g) == PreviousCore(f))
  {
    FirstDispatchFields(f, c);
    MigrateFields(f, c);
  }

  /**
   Lines 201-258 as written.  `==` and `!=` bind tighter than `&`, so the tests read
   `flags & (3 != cid) && flags & 8` and `flags & (3 == cid)`; lines 210-214 clear every field but the core.
   */
  function ChoiceAsWritten(f: bv8, c: Core): Choice {
    if f & 0x10 != 0 then
      if f & (if c != 3 then 1 else 0) != 0 && f & 0x08 != 0 then Take(((f & 0x60 & 3) & 0xFC) | Bits(c))
      else if f & (if c == 3 then 1 else 0) != 0 then Take(f)
      else Skip
    else Take(((f & 0xFC) | Bits(c)) & 0xEF)
  }

  /**
   Line by line it agrees with what is meant for two kinds of tasks that have run: core 3's, on core 3; and another
   core's without the migration bit, but for core 1's on core 3, which line 230 takes for its own.
   */
  lemma ChoiceAsWrittenExactly(f: bv8, c: Core)
    ensures ChoiceAsWritten(f, c) == Choose(f, c) <==>
      Accessed(f) && (if CoreOf(f) == c then c == 3 else !Migrates(f) && !(c == 3 && CoreOf(f) == 1))
  {
    FirstDispatchFields(f, c);
    MigrateFields(f, c);
    BitZero(f);
    if Accessed(f) {
      assert ((f & 0x60 & 3) & 0xFC) == 0;
      assert Bits(c) & 0x10 == 0;
    } else {
      assert (((f & 0xFC) | Bits(c)) & 0xEF) & 0x10 == 0;
    }
  }

  lemma BitZero(f: bv8)
    ensures f & 1 != 0 <==> CoreOf(f) == 1 || CoreOf(f) == 3
    ensures f & 0 == 0
  {
    assert f & 3 == 0 || f & 3 == 1 || f & 3 == 2 || f & 3 == 3;
    assert f & 1 == (f & 3) & 1;
  }

  /**
   As written no dispatch ever sets the accessed-before bit, so a task without it is taken by every core that meets
   it: affinity is kept by the next dispatch exactly when that core happens to be the one recorded.
   */
  lemma AsWrittenForgetsTheTaskRan(f: bv8, c: Core, d: Core)
    requires !Accessed(f)
    ensures ChoiceAsWritten(f, c).Take?
    ensures
      var g := ChoiceAsWritten(f, c).flags;
      && CoreOf(g) == c && !Accessed(g)
      && ChoiceAsWritten(g, d).Take? && CoreOf(ChoiceAsWritten(g, d).flags) == d
      && (CoreOf(ChoiceAsWritten(g, d).flags) == CoreOf(g) <==> d == c)
  {
    var b, e := Bits(c), Bits(d);
    assert b & 3 == b && e & 3 == e;
    assert (((f & 0xFC) | b) & 0xEF) & 3 == b;
    assert (((f & 0xFC) | b) & 0xEF) & 0x10 == 0;
    var g := ((f & 0xFC) | b) & 0xEF;
    assert (((g & 0xFC) | e) & 0xEF) & 3 == e;
  }

  /**
   The migration branch as written keeps the task's other fields exactly when none of them is set, which the branch
   itself rules out: it has just tested the migration and accessed-before bits.
   */
  lemma MigrationAsWrittenWipesFields(f: bv8, c: Core)
    requires Accessed(f) && Migrates(f) && c != 3 && f & 1 != 0
    ensures ChoiceAsWritten(f, c) == Take(Bits(c))
    ensures !Accessed(Bits(c)) && !Migrates(Bits(c)) && !ReadyFlag(Bits(c)) && !Dependent(Bits(c))
    ensures PreviousCore(Bits(c)) == 0
  {
    assert (f & 0x60 & 3) & 0xFC == 0;
  }

  /** `task_migrated` on core `c` (exception/irq/irq.c:72-85): a task that left this core no longer names it. */
  function TaskMigrated(f: bv8, c: Core): bv8 {
    if PreviousCore(f) == c then f & 0x3F else f
  }

  lemma TaskMigratedFields(f: bv8, c: Core)
    ensures
      var g := TaskMigrated(f, c);
      && CoreOf(g) == CoreOf(f) && Accessed(g) == Accessed(f) && ReadyFlag(g) == ReadyFlag(f)
      && Migrates(g) == Migrates(f) && Dependent(g) == Dependent(f)
      && PreviousCore(g) == if PreviousCore(f) == c then 0 else PreviousCore(f)
  {
    assert (f & 0x3F) >> 6 == 0;
    assert (f & 0x3F) & 3 == f & 3;
  }

  /**
   As written the test `flags & (0b11 << 5) == cid` compares the mask with the core, so nothing is ever cleared; and the
   mask covers bits 5-6, so the clearing itself is right exactly when bits 5 and 7 are clear.
   */
  lemma TaskMigratedAsWritten(f: bv8, c: Core)
    ensures f & (if 0x60 == Bits(c) then 1 else 0) == 0
    ensures f & 0x9F == f & 0x3F <==> !Dependent(f) && f & 0x80 == 0
  {
    if !Dependent(f) && f & 0x80 == 0 {
      assert f & 0x9F == f & 0x1F && f & 0x3F == f & 0x1F;
    } else if Dependent(f) {
      assert (f & 0x3F) & 0x20 == f & 0x20 && (f & 0x9F) & 0x20 == 0;
    } else {
      assert (f & 0x9F) & 0x80 == f & 0x80 && (f & 0x3F) & 0x80 == 0;
    }
  }
}
