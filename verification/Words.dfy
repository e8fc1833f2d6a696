/**
 The packed lane words (lib/schaduler.c:76-121; kernel.c:73-74): one byte lane per core in a 32-bit word, read and
 written by masks and shifts.

 The masks and shifts are by whole bytes, so the bitwise operations are written byte by byte, and bit by bit inside a
 byte; what they do to the lanes is proved, and that the rotation on words refines `Rotation.Rotate`.
 */
module Words {
  import opened Flags
  import opened Rotation

  const OCTET: nat := 8  // bits
  const WORD: nat := 4  // bytes

  /** `(w >> 8 * i) & 0xFF`. */
  function Byte(w: nat, i: nat): Octet { if i == 0 then w % 256 else Byte(w / 256, i - 1) }

  /** `x << 8 * c`. */
  function Shl(x: Octet, c: nat): nat { if c == 0 then x else 256 * Shl(x, c - 1) }

  datatype Op = And | Or

  function OnBit(op: Op, x: nat, y: nat): (r: nat)
    ensures r < 2
  {
    match op
    case And => if x % 2 == 1 && y % 2 == 1 then 1 else 0
    case Or => if x % 2 == 1 || y % 2 == 1 then 1 else 0
  }

  function Pow2(n: nat): nat { if n == 0 then 1 else 2 * Pow2(n - 1) }

  /** The operation on the lowest `n` bits. */
  function Bits(op: Op, x: nat, y: nat, n: nat): (r: nat)
    ensures r < Pow2(n)
  {
    if n == 0 then 0 else OnBit(op, x, y) + 2 * Bits(op, x / 2, y / 2, n - 1)
  }

  function OnByte(op: Op, x: Octet, y: Octet): Octet {
    assert Pow2(OCTET) == 256;
    Bits(op, x, y, OCTET)
  }

  /** The operation on the lowest `n` bytes; the complement of those bytes. */
  function Bitwise(op: Op, a: nat, b: nat, n: nat): nat {
    if n == 0 then 0 else OnByte(op, a % 256, b % 256) + 256 * Bitwise(op, a / 256, b / 256, n - 1)
  }

  function Complement(a: nat, n: nat): nat {
    if n == 0 then 0 else 255 - a % 256 + 256 * Complement(a / 256, n - 1)
  }

  /** `w & (0xFF << 8 * c)`, `w & ~(0xFF << 8 * c)` and `w | (x << 8 * c)` on 32 bits. */
  function KeepLane(w: nat, c: Core): nat { Bitwise(And, w, Shl(255, c), WORD) }
  function ClearLane(w: nat, c: Core): nat { Bitwise(And, w, Complement(Shl(255, c), WORD), WORD) }
  function MergeLane(w: nat, x: Octet, c: Core): nat { Bitwise(Or, w, Shl(x, c), WORD) }

  lemma ByteCons(x: Octet, rest: nat, i: nat)
    ensures Byte(x + 256 * rest, i) == if i == 0 then x else Byte(rest, i - 1)
  {
    assert (x + 256 * rest) % 256 == x && (x + 256 * rest) / 256 == rest;
  }

  lemma {:induction false} ShlByte(x: Octet, c: nat, i: nat)
    ensures Byte(Shl(x, c), i) == if i == c then x else 0
  {
    if c == 0 {
      ByteCons(x, 0, i);
      if i > 0 {
        ZeroByte(i - 1);
      }
    } else {
      ByteCons(0, Shl(x, c - 1), i);
      if i > 0 {
        ShlByte(x, c - 1, i - 1);
      }
    }
  }

  lemma {:induction false} ZeroByte(i: nat)
    ensures Byte(0, i) == 0
  {
    if i > 0 {
      ZeroByte(i - 1);
    }
  }

  lemma {:induction false} BitwiseByte(op: Op, a: nat, b: nat, n: nat, i: nat)
    requires i < n
    ensures Byte(Bitwise(op, a, b, n), i) == OnByte(op, Byte(a, i), Byte(b, i))
  {
    ByteCons(OnByte(op, a % 256, b % 256), Bitwise(op, a / 256, b / 256, n - 1), i);
    if i > 0 {
      BitwiseByte(op, a / 256, b / 256, n - 1, i - 1);
    }
  }

  lemma {:induction false} ComplementByte(a: nat, n: nat, i: nat)
    requires i < n
    ensures Byte(Complement(a, n), i) == 255 - Byte(a, i)
  {
    ByteCons(255 - a % 256, Complement(a / 256, n - 1), i);
    if i > 0 {
      ComplementByte(a / 256, n - 1, i - 1);
    }
  }

  lemma {:induction false} AndBits(x: nat, n: nat)
    requires x < Pow2(n)
    ensures Bits(And, x, Pow2(n) - 1, n) == x && Bits(And, x, 0, n) == 0
  {
    if n > 0 {
      AndBits(x / 2, n - 1);
      assert (Pow2(n) - 1) % 2 == 1 && (Pow2(n) - 1) / 2 == Pow2(n - 1) - 1;
    }
  }

  lemma {:induction false} OrBits(x: nat, n: nat)
    requires x < Pow2(n)
    ensures Bits(Or, x, 0, n) == x && Bits(Or, 0, x, n) == x
  {
    if n > 0 {
      OrBits(x / 2, n - 1);
    }
  }

  lemma AndMasks(y: Octet)
    ensures OnByte(And, y, 255) == y && OnByte(And, y, 0) == 0
  {
    assert Pow2(OCTET) == 256;
    AndBits(y, OCTET);
  }

  lemma OrMasks(y: Octet)
    ensures OnByte(Or, y, 0) == y && OnByte(Or, 0, y) == y
  {
    assert Pow2(OCTET) == 256;
    OrBits(y, OCTET);
  }

  /** What the three operations do to each lane. */
  lemma KeptLane(w: nat, c: Core, d: Core)
    ensures Byte(KeepLane(w, c), d) == if d == c then Byte(w, d) else 0
  {
    ShlByte(255, c, d);
    BitwiseByte(And, w, Shl(255, c), WORD, d);
    AndMasks(Byte(w, d));
  }

  lemma ClearedLane(w: nat, c: Core, d: Core)
    ensures Byte(ClearLane(w, c), d) == if d == c then 0 else Byte(w, d)
  {
    ShlByte(255, c, d);
    ComplementByte(Shl(255, c), WORD, d);
    BitwiseByte(And, w, Complement(Shl(255, c), WORD), WORD, d);
    AndMasks(Byte(w, d));
  }

  lemma MergedLane(w: nat, x: Octet, c: Core, d: Core)
    ensures Byte(MergeLane(w, x, c), d) == if d == c then OnByte(Or, Byte(w, d), x) else Byte(w, d)
  {
    ShlByte(x, c, d);
    BitwiseByte(Or, w, Shl(x, c), WORD, d);
    OrMasks(Byte(w, d));
  }

  /* ---------------------------------------------------------------- rotation */

  /** A lane is written by clearing it and merging the new value in. */
  function SetLane(w: nat, x: Octet, c: Core): nat { MergeLane(ClearLane(w, c), x, c) }

  lemma SetLaneSets(w: nat, x: Octet, c: Core, d: Core)
    ensures Byte(SetLane(w, x, c), d) == if d == c then x else Byte(w, d)
  {
    ClearedLane(w, c, d);
    MergedLane(ClearLane(w, c), x, c, d);
    OrMasks(x);
  }

  /** The lanes of a word, lowest first. */
  function Lanes(w: nat): Word { seq(WORD, i requires 0 <= i < WORD => Byte(w, i)) }

  /** Lines 106-121 on the two words, the lanes shifted down before they are counted. */
  function RotateTicks(ticks: nat, c: Core): nat {
    var t := Up(Byte(ticks, c));
    if t > 5 then ClearLane(SetLane(ticks, t, c), c) else SetLane(ticks, t, c)
  }

  function RotateLevels(ticks: nat, levels: nat, c: Core): nat {
    var t, l := Up(Byte(ticks, c)), Up(Byte(levels, c));
    if t > 5 then SetLane(levels, if l >= 8 then 0 else l, c) else levels
  }

  lemma ZeroLanes()
    ensures Lanes(0) == ZERO
  {
    forall d: Core
      ensures Byte(0, d) == 0
    {
      ZeroByte(d);
    }
  }

  /** Setting a lane of the word sets that element of its lanes. */
  lemma SetLaneRefines(w: nat, x: Octet, c: Core)
    ensures Lanes(SetLane(w, x, c)) == Lanes(w)[c := x]
  {
    forall d: Core
      ensures Byte(SetLane(w, x, c), d) == if d == c then x else Byte(w, d)
    {
      SetLaneSets(w, x, c, d);
    }
  }

  lemma ClearLaneRefines(w: nat, c: Core)
    ensures Lanes(ClearLane(w, c)) == Lanes(w)[c := 0]
  {
    forall d: Core
      ensures Byte(ClearLane(w, c), d) == if d == c then 0 else Byte(w, d)
    {
      ClearedLane(w, c, d);
    }
  }

  lemma TicksRefine(ticks: nat, c: Core)
    ensures
      var t := Up(Lanes(ticks)[c]);
      Lanes(RotateTicks(ticks, c)) == if t > 5 then Lanes(ticks)[c := 0] else Lanes(ticks)[c := t]
  {
    var t := Up(Byte(ticks, c));
    SetLaneRefines(ticks, t, c);
    ClearLaneRefines(SetLane(ticks, t, c), c);
  }

  lemma LevelsRefine(ticks: nat, levels: nat, c: Core)
    ensures
      var l := Up(Lanes(levels)[c]);
      Lanes(RotateLevels(ticks, levels, c)) ==
        if Up(Lanes(ticks)[c]) > 5 then Lanes(levels)[c := if l >= 8 then 0 else l] else Lanes(levels)
  {
    var l := Up(Byte(levels, c));
    SetLaneRefines(levels, if l >= 8 then 0 else l, c);
  }

  /** The masks and shifts do to the lanes what the rotation says. */
  lemma WordsRefine(ticks: nat, levels: nat, c: Core)
    ensures
      Rotor(Lanes(RotateTicks(ticks, c)), Lanes(RotateLevels(ticks, levels, c))) ==
      Rotate(Rotor(Lanes(ticks), Lanes(levels)), c)
  {
    TicksRefine(ticks, c);
    LevelsRefine(ticks, levels, c);
  }

  /** The words after any scheduler calls of any cores. */
  function WordsAfter(calls: seq<Core>): (nat, nat) {
    if calls == [] then (0, 0)
    else
      var (ticks, levels) := WordsAfter(calls[..|calls| - 1]);
      (RotateTicks(ticks, calls[|calls| - 1]), RotateLevels(ticks, levels, calls[|calls| - 1]))
  }

  /** In every interleaving each core's lanes of the two words count its own calls: modulo 6, and sixths modulo 8. */
  lemma {:induction false} WordsCountOwnCalls(calls: seq<Core>, c: Core)
    ensures
      var (ticks, levels) := WordsAfter(calls);
      && Rotor(Lanes(ticks), Lanes(levels)) == RotorAfter(calls)
      && Byte(ticks, c) == CallsOf(calls, c) % 6 && Byte(levels, c) == LevelAfter(CallsOf(calls, c))
  {
    var (ticks, levels) := WordsAfter(calls);
    if calls == [] {
      ZeroLanes();
    } else {
      var before, last := calls[..|calls| - 1], calls[|calls| - 1];
      WordsCountOwnCalls(before, c);
      WordsRefine(WordsAfter(before).0, WordsAfter(before).1, last);
    }
    LanesCountOwnCalls(calls, c);
  }

  /* ---------------------------------------------------------------- as written */

  /** What the masked word leaves in a `u8_t`: the lane is never shifted down. */
  function MaskedLane(w: nat, c: Core): Octet { Byte(KeepLane(w, c), 0) }

  function NextAsWritten(w: nat, c: Core): Octet { if MaskedLane(w, c) + 1 >= 8 then 0 else MaskedLane(w, c) + 1 }

  /**
   Lines 77-121 as written: `sch_ticks > 5` compares a pointer and always holds; line 119 keeps its own lane and
   clears the others, so line 120 merges the next level into the old one.
   */
  function RotateAsWritten(levels: nat, c: Core): nat { MergeLane(KeepLane(levels, c), NextAsWritten(levels, c), c) }

  function RunAsWritten(calls: seq<Core>): nat {
    if calls == [] then 0 else RotateAsWritten(RunAsWritten(calls[..|calls| - 1]), calls[|calls| - 1])
  }

  lemma MaskedIsLaneZero(levels: nat, c: Core)
    ensures MaskedLane(levels, c) == if c == 0 then Byte(levels, 0) else 0
  {
    KeptLane(levels, c, 0);
  }

  /** A call as written: the next level is merged into the core's own lane, and the other lanes are zeroed. */
  lemma RotateAsWrittenLanes(levels: nat, c: Core, d: Core)
    ensures Byte(RotateAsWritten(levels, c), d) ==
      if d == c then OnByte(Or, Byte(levels, c), NextAsWritten(levels, c)) else 0
  {
    KeptLane(levels, c, d);
    MergedLane(KeepLane(levels, c), NextAsWritten(levels, c), c, d);
  }

  /**
   As written levels 2, 4, 5 and 6 starve: in no interleaving of scheduler calls does any core's dispatcher (line 186)
   ever open one of their queues, and cores 1 to 3 only ever open level 0.
   */
  lemma {:induction false} AsWrittenLevelsStarve(calls: seq<Core>, c: Core)
    ensures MaskedLane(RunAsWritten(calls), c) in {0, 1, 3, 7}
    ensures c != 0 ==> MaskedLane(RunAsWritten(calls), c) == 0
  {
    MaskedIsLaneZero(RunAsWritten(calls), c);
    if calls == [] {
      ZeroByte(0);
    } else {
      var before, last := RunAsWritten(calls[..|calls| - 1]), calls[|calls| - 1];
      AsWrittenLevelsStarve(calls[..|calls| - 1], 0);
      MaskedIsLaneZero(before, 0);
      RotateAsWrittenLanes(before, last, 0);
      SmallMerges();
    }
  }

  lemma SmallMerges()
    ensures OnByte(Or, 0, 1) == 1 && OnByte(Or, 1, 2) == 3 && OnByte(Or, 3, 4) == 7 && OnByte(Or, 7, 0) == 7
  {
    OrBits(1, OCTET);
    OrBits(7, OCTET);
    assert Bits(Or, 1, 2, 8) == 3;
    MergeFour();
  }

  lemma MergeFour()
    ensures OnByte(Or, 3, 4) == 7
  {
    assert Bits(Or, 3, 4, 8) == 7;
  }

  /** As written a scheduler call spares another core's lane exactly when it was zero. */
  lemma AsWrittenClobbersOtherLanes(levels: nat, c: Core, d: Core)
    requires c != d
    ensures Byte(RotateAsWritten(levels, c), d) == Byte(levels, d) <==> Byte(levels, d) == 0
  {
    RotateAsWrittenLanes(levels, c, d);
  }
}
