/**
 The software locks under interleaving (lib/softwarelock.s:4-90): a compare-and-swap mutex and semaphores built from
 load-exclusive and store-exclusive, on any number of cores.

 Rules for exclusives, from the section "Synchronization and semaphores" of the Arm Architecture Reference Manual
 (DDI 0487): a load-exclusive arms the core's monitor; a store-exclusive succeeds only while the monitor is armed, may
 fail for other reasons, and disarms it; any successful store to the address disarms every core's monitor, and so does
 an exception return on the core itself.
 */
module Semaphores {
  const WORD: nat := 0x1_0000_0000_0000_0000

  /** Between the two exclusives a core holds the value it loaded and, for a gain, has passed the `cbz` test. */
  datatype Pc = Idle | Gaining(value: nat) | Releasing(value: nat)

  /** `gains` and `releases` count the calls that returned 0. */
  datatype State = State(value: nat, pcs: seq<Pc>, armed: seq<bool>, gains: nat, releases: nat)

  datatype Action = GainLoad | ReleaseLoad | StoreExclusive(spurious: bool) | ExceptionReturn

  ghost predicate Shape(s: State) { |s.pcs| == |s.armed| }

  function Disarmed(n: nat): seq<bool> { seq(n, _ => false) }

  /** What a call returns when the step ends it: 0 success, 1 failure. */
  datatype Returned = Running | Result(code: nat)

  /** One memory access of core `c`; an access out of turn changes nothing. */
  function Step(s: State, c: nat, a: Action): (State, Returned)
    requires Shape(s) && c < |s.pcs|
  {
    match (s.pcs[c], a)
    case (Idle, GainLoad) =>
      var armed := s.(armed := s.armed[c := true]);
      if s.value == 0 then (armed, Result(1)) else (armed.(pcs := s.pcs[c := Gaining(s.value)]), Running)
    case (Idle, ReleaseLoad) =>
      (s.(armed := s.armed[c := true], pcs := s.pcs[c := Releasing(s.value)]), Running)
    case (Gaining(v), StoreExclusive(spurious)) =>
      if s.armed[c] && !spurious && v > 0 then
        (State(v - 1, s.pcs[c := Idle], Disarmed(|s.armed|), s.gains + 1, s.releases), Result(0))
      else (s.(pcs := s.pcs[c := Idle], armed := s.armed[c := false]), Result(1))
    case (Releasing(v), StoreExclusive(spurious)) =>
      if s.armed[c] && !spurious then
        (State((v + 1) % WORD, s.pcs[c := Idle], Disarmed(|s.armed|), s.gains, s.releases + 1), Result(0))
      else (s.(pcs := s.pcs[c := Idle], armed := s.armed[c := false]), Result(1))
    case (_, ExceptionReturn) => (s.(armed := s.armed[c := false]), Running)
    case _ => (s, Running)
  }

  /** An armed core between its exclusives holds the current value: nobody can have stored since it loaded. */
  ghost predicate Coherent(s: State) {
    && Shape(s) && s.value < WORD
    && forall c :: 0 <= c < |s.pcs| ==>
         match s.pcs[c]
         case Idle => true
         case Gaining(v) => v > 0 && (s.armed[c] ==> v == s.value)
         case Releasing(v) => s.armed[c] ==> v == s.value
  }

  lemma StepKeepsCoherent(s: State, c: nat, a: Action)
    requires Coherent(s) && c < |s.pcs|
    ensures Coherent(Step(s, c, a).0) && |Step(s, c, a).0.pcs| == |s.pcs|
  {
  }

  function Run(s: State, trace: seq<(nat, Action)>): (s': State)
    requires Shape(s) && forall i :: 0 <= i < |trace| ==> trace[i].0 < |s.pcs|
    ensures Shape(s') && |s'.pcs| == |s.pcs|
    decreases |trace|
  {
    if trace == [] then s else Run(Step(s, trace[0].0, trace[0].1).0, trace[1..])
  }

  function Start(cores: nat, initial: nat): State {
    State(initial, seq(cores, _ => Idle), Disarmed(cores), 0, 0)
  }

  /** Units are conserved by every step, modulo the wrap of the 64-bit word a release may cause. */
  ghost predicate Conserved(s: State, initial: int) {
    exists k: nat :: Wraps(s, initial, k)
  }

  ghost predicate Wraps(s: State, initial: int, k: nat) {
    s.value + s.gains + k * WORD == initial + s.releases
  }

  lemma StepConserves(s: State, c: nat, a: Action, initial: int)
    requires Coherent(s) && c < |s.pcs| && Conserved(s, initial)
    ensures Conserved(Step(s, c, a).0, initial)
  {
    var k: nat :| Wraps(s, initial, k);
    var s' := Step(s, c, a).0;
    if s.pcs[c].Releasing? && a.StoreExclusive? && s.armed[c] && !a.spurious {
      if s.value + 1 == WORD {
        assert Wraps(s', initial, k + 1);
      } else {
        assert (s.value + 1) % WORD == s.value + 1;
        assert Wraps(s', initial, k);
      }
    } else {
      assert Wraps(s', initial, k);
    }
  }

  lemma {:induction false} RunConserves(s: State, trace: seq<(nat, Action)>, initial: int)
    requires Coherent(s) && Conserved(s, initial)
    requires forall i :: 0 <= i < |trace| ==> trace[i].0 < |s.pcs|
    ensures Coherent(Run(s, trace)) && Conserved(Run(s, trace), initial)
    decreases |trace|
  {
    if trace != [] {
      StepKeepsCoherent(s, trace[0].0, trace[0].1);
      StepConserves(s, trace[0].0, trace[0].1, initial);
      RunConserves(Step(s, trace[0].0, trace[0].1).0, trace[1..], initial);
    }
  }

  /**
   Whatever the interleaving: while initial value and successful releases together fit the word, the value is the
   initial value less the successful gains plus the successful releases -- so gains never outrun what was there.
   */
  lemma {:induction false} UnitsAreConserved(cores: nat, initial: nat, trace: seq<(nat, Action)>)
    requires initial < WORD && forall i :: 0 <= i < |trace| ==> trace[i].0 < cores
    requires initial + Run(Start(cores, initial), trace).releases < WORD
    ensures
      var s := Run(Start(cores, initial), trace);
      s.value == initial - s.gains + s.releases && s.gains <= initial + s.releases
  {
    var s0 := Start(cores, initial);
    assert Wraps(s0, initial, 0);
    RunConserves(s0, trace, initial);
    var s := Run(s0, trace);
    var k: nat :| Wraps(s, initial, k);
    assert k == 0 || k * WORD >= WORD;
  }

  /** Past that bound a release wraps the word to zero and the units are gone: conservation then fails. */
  lemma ReleaseWrapsAtTheTop(s: State, c: nat)
    requires Coherent(s) && c < |s.pcs| && s.pcs[c].Releasing? && s.armed[c]
    ensures
      var s' := Step(s, c, StoreExclusive(false)).0;
      s'.value == s.value + 1 <==> s.value != WORD - 1
  {
  }

  /**
   What a call answers: a gain 1 at once exactly when no unit is there, and by its store 0 exactly when the core is still
   armed and the store does not fail for reasons of its own -- then it takes one unit; a release likewise gives one.  An
   answer 1 has changed no count, and no other core's place is touched.
   */
  lemma ResultsTellTheTruth(s: State, c: nat, a: Action)
    requires Coherent(s) && c < |s.pcs|
    ensures
      var (s', r) := Step(s, c, a);
      var stored := a.StoreExclusive? && !s.pcs[c].Idle? && s.armed[c] && !a.spurious;
      var (taken, given) := (if stored && s.pcs[c].Gaining? then 1 else 0, if stored && s.pcs[c].Releasing? then 1 else 0);
      && (r == Result(0) <==> stored)
      && (r == Result(1) <==>
           (s.pcs[c].Idle? && a.GainLoad? && s.value == 0) || (a.StoreExclusive? && !s.pcs[c].Idle? && !stored))
      && (r.Result? ==> r.code <= 1 && s'.pcs[c].Idle?)
      && s'.value == (s.value - taken + given) % WORD && s'.gains == s.gains + taken && s'.releases == s.releases + given
      && |s'.pcs| == |s.pcs| == |s'.armed| && (forall d :: 0 <= d < |s.pcs| && d != c ==> s'.pcs[d] == s.pcs[d])
      && (stored ==> forall d :: 0 <= d < |s.pcs| ==> !s'.armed[d])
      && (!stored ==> forall d :: 0 <= d < |s.pcs| && d != c ==> s'.armed[d] == s.armed[d])
  {
  }

  /** Left alone, a core gains exactly when a unit is there, and always releases: load, then store. */
  lemma UndisturbedCalls(s: State, c: nat)
    requires Coherent(s) && c < |s.pcs| && s.pcs[c].Idle?
    ensures
      var (loaded, r) := Step(s, c, GainLoad);
      && (r == Running <==> s.value > 0)
      && (s.value > 0 ==>
           var (s', r') := Step(loaded, c, StoreExclusive(false));
           r' == Result(0) && s'.value == s.value - 1 && s'.gains == s.gains + 1)
    ensures
      var (s', r) := Step(Step(s, c, ReleaseLoad).0, c, StoreExclusive(false));
      r == Result(0) && s'.value == (s.value + 1) % WORD && s'.releases == s.releases + 1
  {
  }
}

/** The mutex: `cas` gains it, and `release_mutex` in two versions. */
module Mutexes {

  datatype Pc = Out | Inside | ReleaseLoaded(value: nat)

  /** `gains` and `releases` count the gains and releases that succeeded. */
  datatype State = State(value: nat, pcs: seq<Pc>, armed: seq<bool>, gains: nat, releases: nat)

  datatype Action = Cas | ReleaseLoad | ReleaseStore(spurious: bool) | ExceptionReturn

  ghost predicate Shape(s: State) { |s.pcs| == |s.armed| }

  function Disarmed(n: nat): seq<bool> { seq(n, _ => false) }

  /**
   Release as its comments describe it: load-exclusive, and store 0 if the mutex was held.  Only a core inside calls it.
   A failed store leaves the core inside.
   */
  function Step(s: State, c: nat, a: Action): State
    requires Shape(s) && c < |s.pcs|
  {
    match (s.pcs[c], a)
    case (Out, Cas) =>
      if s.value == 0 then State(1, s.pcs[c := Inside], Disarmed(|s.armed|), s.gains + 1, s.releases) else s
    case (Inside, ReleaseLoad) => s.(pcs := s.pcs[c := ReleaseLoaded(s.value)], armed := s.armed[c := true])
    case (ReleaseLoaded(v), ReleaseStore(spurious)) =>
      if v != 0 && s.armed[c] && !spurious then
        State(0, s.pcs[c := Out], Disarmed(|s.armed|), s.gains, s.releases + 1)
      else s.(pcs := s.pcs[c := Inside], armed := s.armed[c := false])
    case (_, ExceptionReturn) => s.(armed := s.armed[c := false])
    case _ => s
  }

  function Run(s: State, trace: seq<(nat, Action)>): (s': State)
    requires Shape(s) && forall i :: 0 <= i < |trace| ==> trace[i].0 < |s.pcs|
    ensures Shape(s') && |s'.pcs| == |s.pcs|
    decreases |trace|
  {
    if trace == [] then s else Run(Step(s, trace[0].0, trace[0].1), trace[1..])
  }

  function Start(cores: nat): State { State(0, seq(cores, _ => Out), Disarmed(cores), 0, 0) }

  ghost predicate Exclusive(s: State) {
    && Shape(s)
    && s.value <= 1
    && s.gains == s.releases + s.value
    && (s.value == 1 <==> exists c :: 0 <= c < |s.pcs| && !s.pcs[c].Out?)
    && (forall c, d :: 0 <= c < d < |s.pcs| ==> s.pcs[c].Out? || s.pcs[d].Out?)
    && (forall c :: 0 <= c < |s.pcs| && s.pcs[c].ReleaseLoaded? ==> s.pcs[c].value == 1)
  }

  lemma StepKeepsExclusive(s: State, c: nat, a: Action)
    requires Exclusive(s) && c < |s.pcs|
    ensures Exclusive(Step(s, c, a))
  {
    var s' := Step(s, c, a);
    if s'.pcs != s.pcs && !s'.pcs[c].Out? {
      assert s.pcs[c].Out? ==> forall d :: 0 <= d < |s.pcs| ==> s.pcs[d].Out?;
    }
  }

  lemma {:induction false} RunKeepsExclusive(s: State, trace: seq<(nat, Action)>)
    requires Exclusive(s) && forall i :: 0 <= i < |trace| ==> trace[i].0 < |s.pcs|
    ensures Exclusive(Run(s, trace))
    decreases |trace|
  {
    if trace != [] {
      StepKeepsExclusive(s, trace[0].0, trace[0].1);
      RunKeepsExclusive(Step(s, trace[0].0, trace[0].1), trace[1..]);
    }
  }

  /** At most one core is inside, in every interleaving, and the word is 1 exactly while one is. */
  lemma {:induction false} AtMostOneInside(cores: nat, trace: seq<(nat, Action)>, c: nat, d: nat)
    requires (forall i :: 0 <= i < |trace| ==> trace[i].0 < cores) && c < cores && d < cores
    ensures
      var s := Run(Start(cores), trace);
      !s.pcs[c].Out? && !s.pcs[d].Out? ==> c == d && s.value == 1
  {
    RunKeepsExclusive(Start(cores), trace);
  }

  /** The cores that are not outside. */
  ghost function Within(s: State): set<nat> { set c: nat | c < |s.pcs| && !s.pcs[c].Out? }

  /**
   One step: an attempt by a core outside gets it in exactly when nobody is inside, and that makes the word 1; a release
   store by a core that has loaded the word lets it out exactly when the core is still armed and the store does not fail for
   reasons of its own, and that makes the word 0.  Nothing else lets a core in or out, or changes the word or a count.
   */
  lemma StepExactly(s: State, c: nat, a: Action)
    requires Exclusive(s) && c < |s.pcs|
    ensures
      var s' := Step(s, c, a);
      var enters := s.pcs[c].Out? && a.Cas? && Within(s) == {};
      var leaves := s.pcs[c].ReleaseLoaded? && a.ReleaseStore? && s.armed[c] && !a.spurious;
      && |s'.pcs| == |s.pcs|
      && Within(s') == (if enters then {c} else if leaves then {} else Within(s))
      && s'.value == (if enters then 1 else if leaves then 0 else s.value)
      && s'.gains == s.gains + (if enters then 1 else 0) && s'.releases == s.releases + (if leaves then 1 else 0)
      && (forall d :: 0 <= d < |s.pcs| && d != c ==> s'.pcs[d] == s.pcs[d])
      && (s.pcs[c].Inside? && a.ReleaseLoad? ==> s'.pcs[c].ReleaseLoaded? && s'.armed[c])
      && (s.pcs[c].ReleaseLoaded? && a.ReleaseStore? ==> s'.pcs[c] == if leaves then Out else Inside)
      && (a.ExceptionReturn? ==> !s'.armed[c])
  {
    var s' := Step(s, c, a);
    WithinExactly(s);
    if s'.pcs != s.pcs && !s.pcs[c].Out? && s'.pcs[c].Out? {
      forall d | 0 <= d < |s.pcs| && d != c
        ensures s.pcs[d].Out?
      {
        var low, high := if d < c then d else c, if d < c then c else d;
        assert s.pcs[low].Out? || s.pcs[high].Out?;
      }
    }
  }

  lemma WithinExactly(s: State)
    requires Exclusive(s)
    ensures Within(s) == {} <==> s.value == 0
  {
    if s.value == 1 {
      var c: nat :| c < |s.pcs| && !s.pcs[c].Out?;
      assert c in Within(s);
    } else {
      assert forall c :: 0 <= c < |s.pcs| ==> s.pcs[c].Out?;
    }
  }

  /** How often a core outside came to be inside in a run, and a core inside outside. */
  function Entries(s: State, trace: seq<(nat, Action)>): nat
    requires Shape(s) && forall i :: 0 <= i < |trace| ==> trace[i].0 < |s.pcs|
    decreases |trace|
  {
    if trace == [] then 0
    else
      var c, s' := trace[0].0, Step(s, trace[0].0, trace[0].1);
      (if s.pcs[c].Out? && !s'.pcs[c].Out? then 1 else 0) + Entries(s', trace[1..])
  }

  function Exits(s: State, trace: seq<(nat, Action)>): nat
    requires Shape(s) && forall i :: 0 <= i < |trace| ==> trace[i].0 < |s.pcs|
    decreases |trace|
  {
    if trace == [] then 0
    else
      var c, s' := trace[0].0, Step(s, trace[0].0, trace[0].1);
      (if !s.pcs[c].Out? && s'.pcs[c].Out? then 1 else 0) + Exits(s', trace[1..])
  }

  lemma {:induction false} RunCounts(s: State, trace: seq<(nat, Action)>)
    requires Exclusive(s) && forall i :: 0 <= i < |trace| ==> trace[i].0 < |s.pcs|
    ensures
      var s' := Run(s, trace);
      && Exclusive(s')
      && s'.gains == s.gains + Entries(s, trace) && s'.releases == s.releases + Exits(s, trace)
    decreases |trace|
  {
    if trace != [] {
      StepKeepsExclusive(s, trace[0].0, trace[0].1);
      RunCounts(Step(s, trace[0].0, trace[0].1), trace[1..]);
    }
  }

  /**
   After every interleaving the word is the entries less the exits, and a core outside gets in by its next attempt exactly
   while the two are equal.  Once the core inside has stored its release, the next attempt of any core succeeds.
   */
  lemma {:induction false} GainsExactlyWhenFree(cores: nat, trace: seq<(nat, Action)>, c: nat, d: nat)
    requires (forall i :: 0 <= i < |trace| ==> trace[i].0 < cores) && c < cores && d < cores
    ensures
      var s, entries, exits := Run(Start(cores), trace), Entries(Start(cores), trace), Exits(Start(cores), trace);
      && s.value == entries - exits && s.value <= 1
      && (s.pcs[c].Out? ==> (Step(s, c, Cas).pcs[c].Inside? <==> entries == exits))
      && (s.pcs[c].ReleaseLoaded? && s.armed[c] ==>
           var freed := Step(s, c, ReleaseStore(false));
           freed.value == 0 && freed.pcs[c].Out? && Step(freed, d, Cas).pcs[d].Inside?)
  {
    var s := Run(Start(cores), trace);
    RunCounts(Start(cores), trace);
    if s.pcs[c].ReleaseLoaded? {
      StepExactly(s, c, ReleaseStore(false));
      assert d !in Within(Step(s, c, ReleaseStore(false))) || !s.armed[c];
    }
  }

  /* ---------------------------------------------------------------- release as written */

  /**
   Lines 31-40 as written: a held mutex (value 1) fails the test of line 32, nothing is stored and 0 is returned; only a
   mutex that is already free branches to `clear_mutex`, which stores 0.
   */
  function ReleaseAsWritten(value: nat): (nat, nat) { (if value == 0 then 0 else value, 0) }

  datatype Call = Gain | Release

  /** The mutex and the number of successful gains after a sequence of calls, in the order of their atomic accesses. */
  function Calls(calls: seq<Call>): (r: (nat, nat))
  {
    if calls == [] then (0, 0)
    else
      var (value, gains) := Calls(calls[..|calls| - 1]);
      match calls[|calls| - 1]
      case Gain => if value == 0 then (1, gains + 1) else (value, gains)
      case Release => (ReleaseAsWritten(value).0, gains)
  }

  /** As written a mutex can be gained once, ever: no sequence of gains and releases by any cores gains it twice. */
  lemma {:induction false} AsWrittenGainedOnce(calls: seq<Call>)
    ensures Calls(calls).1 == (if Gain in calls then 1 else 0)
    ensures Calls(calls).0 == Calls(calls).1
  {
    if calls != [] {
      var before := calls[..|calls| - 1];
      AsWrittenGainedOnce(before);
      assert calls == before + [calls[|calls| - 1]];
    }
  }
}

/** The loop in which every caller takes a mutex, as written, and the release as written. */
module Callers {
  import opened Mutexes

  /**
   `while (!gain_mutex(lock)) spinwait_mutex(lock);` -- `gain_mutex` returns 0 on success (line 13), so a turn that gains
   the mutex goes on to the next one, and a turn that finds it held enters.  `Leave` is `release_mutex` as written.
   */
  datatype LoopStep = Turn | Leave

  function StepAsWritten(s: State, c: nat, m: LoopStep): State
    requires Shape(s) && c < |s.pcs|
  {
    match (s.pcs[c], m)
    case (Out, Turn) => if s.value == 0 then s.(value := 1, gains := s.gains + 1) else s.(pcs := s.pcs[c := Inside])
    case (Inside, Leave) => s.(value := ReleaseAsWritten(s.value).0, pcs := s.pcs[c := Out])
    case _ => s
  }

  ghost predicate OfCores(trace: seq<(nat, LoopStep)>, cores: nat) {
    forall i :: 0 <= i < |trace| ==> trace[i].0 < cores
  }

  function RunAsWritten(cores: nat, trace: seq<(nat, LoopStep)>): (s: State)
    requires OfCores(trace, cores)
    ensures Shape(s) && |s.pcs| == cores
  {
    if trace == [] then Start(cores)
    else
      var n := |trace| - 1;
      StepAsWritten(RunAsWritten(cores, trace[..n]), trace[n].0, trace[n].1)
  }

  /** Some core has had a turn. */
  predicate AnyTurn(trace: seq<(nat, LoopStep)>) { exists i :: 0 <= i < |trace| && trace[i].1 == Turn }

  /** The core's last move is a turn, and not the first turn of all. */
  predicate LateTurn(trace: seq<(nat, LoopStep)>, c: nat) {
    if trace == [] then false
    else
      var n := |trace| - 1;
      if trace[n].0 == c then trace[n].1 == Turn && AnyTurn(trace[..n]) else LateTurn(trace[..n], c)
  }

  /** In every interleaving, who is inside: every core whose last move is a turn, but for the very first turn. */
  lemma {:induction false} InsideAsWrittenExactly(cores: nat, trace: seq<(nat, LoopStep)>, c: nat)
    requires OfCores(trace, cores) && c < cores
    ensures RunAsWritten(cores, trace).pcs[c] == (if LateTurn(trace, c) then Inside else Out)
    ensures RunAsWritten(cores, trace).value == if AnyTurn(trace) then 1 else 0
  {
    if trace != [] {
      var n := |trace| - 1;
      InsideAsWrittenExactly(cores, trace[..n], c);
      InsideAsWrittenExactly(cores, trace[..n], trace[n].0);
      LateTurnIsATurn(trace[..n], trace[n].0);
      assert AnyTurn(trace) <==> AnyTurn(trace[..n]) || trace[n].1 == Turn;
    }
  }

  lemma {:induction false} LateTurnIsATurn(trace: seq<(nat, LoopStep)>, c: nat)
    ensures LateTurn(trace, c) ==> AnyTurn(trace)
  {
    if trace != [] {
      var n := |trace| - 1;
      LateTurnIsATurn(trace[..n], c);
      if AnyTurn(trace[..n]) {
        var i :| 0 <= i < n && trace[..n][i].1 == Turn;
        assert trace[i].1 == Turn;
      }
    }
  }

  /** While nobody leaves, the cores inside are exactly those with a turn after the first one -- any number of them. */
  lemma {:induction false} CallersExcludeNobody(cores: nat, trace: seq<(nat, LoopStep)>, c: nat)
    requires OfCores(trace, cores) && c < cores && forall i :: 0 <= i < |trace| ==> trace[i].1 == Turn
    ensures RunAsWritten(cores, trace).pcs[c].Inside? <==> exists i :: 1 <= i < |trace| && trace[i].0 == c
  {
    InsideAsWrittenExactly(cores, trace, c);
    TurnsAreLate(trace, c);
  }

  lemma {:induction false} TurnsAreLate(trace: seq<(nat, LoopStep)>, c: nat)
    requires forall i :: 0 <= i < |trace| ==> trace[i].1 == Turn
    ensures LateTurn(trace, c) <==> exists i :: 1 <= i < |trace| && trace[i].0 == c
  {
    if trace != [] {
      var n := |trace| - 1;
      TurnsAreLate(trace[..n], c);
      assert n > 0 ==> trace[..n][0].1 == Turn;
      assert (exists i :: 1 <= i < n && trace[..n][i].0 == c) <==> exists i :: 1 <= i < n && trace[i].0 == c;
    }
  }
}
