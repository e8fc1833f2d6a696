/**
 Level rotation (lib/schaduler.c:76-121): two 32-bit words hold one byte lane per core (kernel.c:73-74), the
 scheduling ticks and the priority level each core is currently serving.

 Here a word is the sequence of its four bytes, lowest first.  `Words` has the packed words, their masks and shifts, and
 the proof that they do to the lanes what `Rotate` does; and what the masks as written do.
 */
module Rotation {
  import opened Flags

  type Octet = b: nat | b < 256
  type Word = w: seq<Octet> | |w| == 4 witness [0, 0, 0, 0]

  const LEVELS := 8
  const ZERO: Word := [0, 0, 0, 0]

  /** The words `*sch_ticks` and `*pri_map`. */
  datatype Rotor = Rotor(ticks: Word, levels: Word)

  function Level(r: Rotor, c: Core): nat { r.levels[c] }
  function Ticks(r: Rotor, c: Core): nat { r.ticks[c] }

  /** A byte counted up. */
  function Up(x: Octet): Octet { if x == 255 then 0 else x + 1 }

  /** One scheduler call on core `c`, with the lanes shifted down before they are counted. */
  function Rotate(r: Rotor, c: Core): Rotor {
    var t := Up(r.ticks[c]);
    if t > 5 then
      var l := Up(r.levels[c]);
      Rotor(r.ticks[c := 0], r.levels[c := if l >= 8 then 0 else l])
    else
      r.(ticks := r.ticks[c := t])
  }

  /** A call counts its own core's lanes on, modulo 6 and 8, and leaves the other lanes of both words alone. */
  lemma RotateLanes(r: Rotor, c: Core, d: Core)
    requires Ticks(r, c) < 6 && Level(r, c) < LEVELS
    ensures Ticks(Rotate(r, c), d) == if d == c then Onward(Ticks(r, c), 6) else Ticks(r, d)
    ensures Level(Rotate(r, c), d) == if d == c && Ticks(r, c) == 5 then Onward(Level(r, c), LEVELS) else Level(r, d)
  {
  }

  /** The next number modulo `n`. */
  function Onward(x: nat, n: nat): nat { if x + 1 == n then 0 else x + 1 }

  /** Scheduler calls of all cores in the order the queue lock serialises them. */
  function RotorAfter(calls: seq<Core>): Rotor {
    if calls == [] then Rotor(ZERO, ZERO) else Rotate(RotorAfter(calls[..|calls| - 1]), calls[|calls| - 1])
  }

  function CallsOf(calls: seq<Core>, c: Core): nat {
    if calls == [] then 0 else CallsOf(calls[..|calls| - 1], c) + if calls[|calls| - 1] == c then 1 else 0
  }

  /** The level a core serves after `n` of its own calls. */
  function LevelAfter(n: nat): nat { n / 6 % LEVELS }

  /** Whatever the other cores do, a core's lanes count its own calls: ticks modulo 6, levels modulo 8. */
  lemma {:induction false} LanesCountOwnCalls(calls: seq<Core>, c: Core)
    ensures Ticks(RotorAfter(calls), c) == CallsOf(calls, c) % 6
    ensures Level(RotorAfter(calls), c) == LevelAfter(CallsOf(calls, c))
  {
    if calls == [] {
    } else {
      var before, last := calls[..|calls| - 1], calls[|calls| - 1];
      LanesCountOwnCalls(before, c);
      LanesCountOwnCalls(before, last);
      RotateLanes(RotorAfter(before), last, c);
      CountUp(CallsOf(before, c));
    }
  }

  lemma CountUp(n: nat)
    ensures (n + 1) % 6 == Onward(n % 6, 6)
    ensures LevelAfter(n + 1) == if n % 6 == 5 then Onward(LevelAfter(n), LEVELS) else LevelAfter(n)
  {
    var q := n / 6;
    assert (n + 1) / 6 == if n % 6 == 5 then q + 1 else q;
    assert (q + 1) % 8 == Onward(q % 8, 8);
  }

  /** How many of the calls `first, first + 1, ...` (`length` of them) are served at `level`. */
  function Served(first: nat, length: nat, level: nat): nat {
    if length == 0 then 0 else Served(first, length - 1, level) + if LevelAfter(first + length - 1) == level then 1 else 0
  }

  /** The rotation is fair: every level is current on exactly 6 of any 48 consecutive calls of a core. */
  lemma {:induction false} EveryLevelServedSixTimes(first: nat, level: nat)
    requires level < LEVELS
    ensures Served(first, 48, level) == 6
  {
    if first == 0 {
      FirstWindow(8, level);
    } else {
      EveryLevelServedSixTimes(first - 1, level);
      assert (first - 1 + 48) / 6 == (first - 1) / 6 + 8;
      SlideWindow(first - 1, level);
    }
  }

  lemma {:induction false} SplitFirst(first: nat, length: nat, level: nat)
    requires length > 0
    ensures Served(first, length, level) ==
      (if LevelAfter(first) == level then 1 else 0) + Served(first + 1, length - 1, level)
  {
    if length > 1 {
      SplitFirst(first, length - 1, level);
    }
  }

  lemma SlideWindow(first: nat, level: nat)
    requires LevelAfter(first + 48) == LevelAfter(first)
    ensures Served(first + 1, 48, level) == Served(first, 48, level)
  {
    SplitFirst(first, 49, level);
  }

  /** The first `6 * rounds` calls serve exactly the levels below `rounds`, six times each. */
  lemma {:induction false} FirstWindow(rounds: nat, level: nat)
    requires rounds <= LEVELS
    ensures Served(0, 6 * rounds, level) == if level < rounds then 6 else 0
  {
    if rounds > 0 {
      FirstWindow(rounds - 1, level);
      var n := 6 * (rounds - 1);
      forall k | n <= k < n + 6
        ensures LevelAfter(k) == rounds - 1
      {
        assert k / 6 == rounds - 1;
      }
      assert Served(0, n + 1, level) == Served(0, n, level) + if rounds - 1 == level then 1 else 0;
      assert Served(0, n + 2, level) == Served(0, n + 1, level) + if rounds - 1 == level then 1 else 0;
      assert Served(0, n + 3, level) == Served(0, n + 2, level) + if rounds - 1 == level then 1 else 0;
      assert Served(0, n + 4, level) == Served(0, n + 3, level) + if rounds - 1 == level then 1 else 0;
      assert Served(0, n + 5, level) == Served(0, n + 4, level) + if rounds - 1 == level then 1 else 0;
    }
  }

  /* ---------------------------------------------------------------- fairness inside any interleaving */

  /** How many of the calls `i` up to `j` are core `c`'s and leave it at `level`. */
  function ServedIn(calls: seq<Core>, c: Core, i: nat, j: nat, level: nat): nat
    requires i <= j <= |calls|
  {
    if i == j then 0
    else
      ServedIn(calls, c, i, j - 1, level)
      + if calls[j - 1] == c && Level(RotorAfter(calls[..j]), c) == level then 1 else 0
  }

  lemma {:induction false} ServedInIsServed(calls: seq<Core>, c: Core, i: nat, j: nat, level: nat)
    requires i <= j <= |calls|
    ensures CallsOf(calls[..i], c) <= CallsOf(calls[..j], c)
    ensures ServedIn(calls, c, i, j, level) ==
      Served(CallsOf(calls[..i], c) + 1, CallsOf(calls[..j], c) - CallsOf(calls[..i], c), level)
  {
    if i < j {
      ServedInIsServed(calls, c, i, j - 1, level);
      LanesCountOwnCalls(calls[..j], c);
      assert calls[..j][..j - 1] == calls[..j - 1];
    }
  }

  /** Whatever the other cores do in between: of any 48 calls of a core, every level gets exactly 6. */
  lemma FairInAnyInterleaving(calls: seq<Core>, c: Core, i: nat, j: nat, level: nat)
    requires i <= j <= |calls| && level < LEVELS && CallsOf(calls[..j], c) == CallsOf(calls[..i], c) + 48
    ensures ServedIn(calls, c, i, j, level) == 6
  {
    ServedInIsServed(calls, c, i, j, level);
    EveryLevelServedSixTimes(CallsOf(calls[..i], c) + 1, level);
  }
}
