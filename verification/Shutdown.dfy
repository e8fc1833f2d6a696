/**
 The shutdown barrier (exception/synchronous/svc/svc.c:540-565; lib/core.c:209-221).

 Each core announces itself in its byte lane of one shared word by `&= ~lane` and then `|= 2 << lane`.  Neither is
 atomic: each is a load and a later store, and the four cores interleave freely, so a store may write back lanes that
 other cores have changed since the load.  The core that asked for the shutdown then reads the lanes one at a time until
 it has counted four.  A word is the sequence of its bytes: what such masks do to the bytes is proved in `Words`.
 */
module Shutdown {
  import opened Flags

  type Word = w: seq<bv8> | |w| == 4 witness [0, 0, 0, 0]

  const ZERO: Word := [0, 0, 0, 0]

  /** Where a core is in `core_terminate`, with the word it has loaded; then in the polling loop of the requester. */
  datatype Pc =
    | Idle
    | ClearLoaded(word: Word)
    | Cleared
    | SetLoaded(word: Word)
    | Announced
    | Polling(lane: nat, count: nat)
    | PoweredOff

  /** `announced[c]` records that core `c` has executed the store that sets its lane. */
  datatype State = State(word: Word, pcs: seq<Pc>, announced: seq<bool>)

  datatype Action = LoadForClear | StoreClear | LoadForSet | StoreSet | StartPolling | PollLane

  ghost predicate WellFormed(s: State) { |s.pcs| == 4 && |s.announced| == 4 }

  /** One access of core `c`; an action out of turn changes nothing. */
  function Step(s: State, c: Core, a: Action): State
    requires WellFormed(s)
  {
    match (s.pcs[c], a)
    case (Idle, LoadForClear) => s.(pcs := s.pcs[c := ClearLoaded(s.word)])
    case (ClearLoaded(w), StoreClear) => s.(word := w[c := 0], pcs := s.pcs[c := Cleared])
    case (Cleared, LoadForSet) => s.(pcs := s.pcs[c := SetLoaded(s.word)])
    case (SetLoaded(w), StoreSet) =>
      s.(word := w[c := w[c] | 2], pcs := s.pcs[c := Announced], announced := s.announced[c := true])
    case (Announced, StartPolling) => s.(pcs := s.pcs[c := Polling(0, 0)])
    case (Polling(i, n), PollLane) =>
      if i < 4 then
        s.(pcs := s.pcs[c := Polling(i + 1, if s.word[i] == 2 then n + 1 else n)])
      else
        s.(pcs := s.pcs[c := if n == 4 then PoweredOff else Polling(0, 0)])
    case _ => s
  }

  function Run(s: State, trace: seq<(Core, Action)>): (s': State)
    requires WellFormed(s)
    ensures WellFormed(s')
    decreases |trace|
  {
    if trace == [] then s else Run(Step(s, trace[0].0, trace[0].1), trace[1..])
  }

  function Start(word: Word): State {
    State(word, [Idle, Idle, Idle, Idle], [false, false, false, false])
  }

  /** In a word some core holds or memory holds, a lane reads 2 only if its core has announced. */
  ghost predicate Honest(w: Word, announced: seq<bool>)
    requires |announced| == 4
  {
    forall i :: 0 <= i < 4 && w[i] == 2 ==> announced[i]
  }

  ghost predicate Safe(s: State) {
    && WellFormed(s)
    && Honest(s.word, s.announced)
    && forall c :: 0 <= c < 4 ==> SafeCore(s.pcs[c], s.announced)
  }

  ghost predicate SafeCore(pc: Pc, announced: seq<bool>)
    requires |announced| == 4
  {
    match pc
    case ClearLoaded(w) => Honest(w, announced)
    case SetLoaded(w) => Honest(w, announced)
    case Polling(i, n) => i <= 4 && n <= i && (n == i ==> forall j :: 0 <= j < i ==> announced[j])
    case PoweredOff => forall j :: 0 <= j < 4 ==> announced[j]
    case _ => true
  }

  lemma StepKeepsSafe(s: State, c: Core, a: Action)
    requires Safe(s)
    ensures Safe(Step(s, c, a))
  {
  }

  lemma {:induction false} RunKeepsSafe(s: State, trace: seq<(Core, Action)>)
    requires Safe(s)
    ensures Safe(Run(s, trace))
    decreases |trace|
  {
    if trace != [] {
      StepKeepsSafe(s, trace[0].0, trace[0].1);
      RunKeepsSafe(Step(s, trace[0].0, trace[0].1), trace[1..]);
    }
  }

  /**
   Starting with no lane equal to 2, in every interleaving the power is turned off only after each of the four cores
   has stored its own announcement -- although the read-modify-writes may overwrite one another.
   */
  lemma {:induction false} PowerOffOnlyAfterAll(word: Word, trace: seq<(Core, Action)>, c: Core, d: Core)
    requires forall i :: 0 <= i < 4 ==> word[i] != 2
    requires Run(Start(word), trace).pcs[c] == PoweredOff
    ensures Run(Start(word), trace).announced[d]
  {
    RunKeepsSafe(Start(word), trace);
    assert SafeCore(Run(Start(word), trace).pcs[c], Run(Start(word), trace).announced);
  }

  /* ---------------------------------------------------------------- what a stale store does */

  /** A store disturbs another core's lane exactly when that lane has changed since the load. */
  lemma StaleStore(s: State, c: Core, d: Core)
    requires WellFormed(s) && c != d
    requires s.pcs[c].ClearLoaded? || s.pcs[c].SetLoaded?
    ensures
      var a := if s.pcs[c].ClearLoaded? then StoreClear else StoreSet;
      && Step(s, c, a).word[d] == s.pcs[c].word[d]
      && (Step(s, c, a).word[d] == s.word[d] <==> s.pcs[c].word[d] == s.word[d])
  {
  }

  /** Every store writes back current lanes: no other core stored between a core's load and its store. */
  ghost predicate Fresh(s: State, trace: seq<(Core, Action)>)
    requires WellFormed(s)
    decreases |trace|
  {
    trace == [] ||
    var c, a, pc := trace[0].0, trace[0].1, s.pcs[trace[0].0];
    && (a == StoreClear && pc.ClearLoaded? ==> pc.word == s.word)
    && (a == StoreSet && pc.SetLoaded? ==> pc.word == s.word)
    && Fresh(Step(s, c, a), trace[1..])
  }

  ghost predicate LanesKept(s: State) {
    && WellFormed(s)
    && forall c: Core ::
         match s.pcs[c]
         case Idle => !s.announced[c]
         case ClearLoaded(_) => !s.announced[c]
         case Cleared => !s.announced[c] && s.word[c] == 0
         case SetLoaded(_) => !s.announced[c] && s.word[c] == 0
         case _ => s.announced[c] && s.word[c] == 2
  }

  lemma StepKeepsLanes(s: State, c: Core, a: Action)
    requires LanesKept(s)
    requires a == StoreClear && s.pcs[c].ClearLoaded? ==> s.pcs[c].word == s.word
    requires a == StoreSet && s.pcs[c].SetLoaded? ==> s.pcs[c].word == s.word
    ensures LanesKept(Step(s, c, a))
  {
    assert 0 as bv8 | 2 == 2;
  }

  lemma {:induction false} FreshRunKeepsLanes(s: State, trace: seq<(Core, Action)>)
    requires LanesKept(s) && Fresh(s, trace)
    ensures LanesKept(Run(s, trace))
    decreases |trace|
  {
    if trace != [] {
      StepKeepsLanes(s, trace[0].0, trace[0].1);
      FreshRunKeepsLanes(Step(s, trace[0].0, trace[0].1), trace[1..]);
    }
  }

  /** With no stale store the lanes that read 2 are exactly those of the announced cores. */
  lemma {:induction false} FreshRunShowsAll(word: Word, trace: seq<(Core, Action)>, c: Core)
    requires (forall i :: 0 <= i < 4 ==> word[i] != 2) && Fresh(Start(word), trace)
    ensures
      var s := Run(Start(word), trace);
      s.word[c] == 2 <==> s.announced[c]
  {
    FreshRunKeepsLanes(Start(word), trace);
    RunKeepsSafe(Start(word), trace);
  }

  /** Left alone, a core shows its announcement after two loads and stores, touches no other lane, and may then poll. */
  lemma AnnouncesAlone(s: State, c: Core)
    requires WellFormed(s) && s.pcs[c] == Idle
    ensures
      var shown := Run(s, [(c, LoadForClear), (c, StoreClear), (c, LoadForSet), (c, StoreSet)]);
      && shown == State(s.word[c := 2], s.pcs[c := Announced], s.announced[c := true])
      && Step(shown, c, StartPolling) == shown.(pcs := s.pcs[c := Polling(0, 0)])
  {
    var a := Step(s, c, LoadForClear);
    var b := Step(a, c, StoreClear);
    var d := Step(b, c, LoadForSet);
    var e := Step(d, c, StoreSet);
    var rest := [(c, StoreClear), (c, LoadForSet), (c, StoreSet)];
    assert [(c, LoadForClear), (c, StoreClear), (c, LoadForSet), (c, StoreSet)][1..] == rest;
    assert rest[1..] == [(c, LoadForSet), (c, StoreSet)] && rest[1..][1..] == [(c, StoreSet)];
    assert [(c, StoreSet)][1..] == [];
    assert Run(d, [(c, StoreSet)]) == Run(e, []);
    assert Run(b, rest[1..]) == Run(d, [(c, StoreSet)]);
    assert Run(a, rest) == e;
    assert 0 as bv8 | 2 == 2;
    assert e.word == s.word[c := 2] && e.pcs == s.pcs[c := Announced];
  }

  /** Every lane reads 2 and no core has a store left to make. */
  ghost predicate AllShown(s: State) {
    && WellFormed(s)
    && forall c: Core :: s.word[c] == 2 && (s.pcs[c].Announced? || GoodPoll(s.pcs[c]) || s.pcs[c].PoweredOff?)
  }

  ghost predicate GoodPoll(pc: Pc) { pc.Polling? && pc.lane <= 4 && pc.count <= pc.lane }

  /** How many more polls a polling core needs: the rest of a round that has counted every lane, or a round more. */
  function Need(pc: Pc): nat {
    if pc.Polling? && pc.lane <= 4 then (if pc.count == pc.lane then 5 - pc.lane else 10 - pc.lane) else 0
  }

  function PollsOf(trace: seq<(Core, Action)>, c: Core): nat {
    if trace == [] then 0 else (if trace[0] == (c, PollLane) then 1 else 0) + PollsOf(trace[1..], c)
  }

  lemma PollMakesProgress(s: State, c: Core, a: Action, d: Core)
    requires AllShown(s) && (s.pcs[c].Polling? || s.pcs[c].PoweredOff?)
    ensures AllShown(Step(s, d, a))
    ensures
      var pc := Step(s, d, a).pcs[c];
      && (pc.Polling? || pc.PoweredOff?)
      && (d == c && a == PollLane ==> Need(pc) == 0 || Need(pc) < Need(s.pcs[c]))
      && (d == c && a == PollLane && Need(s.pcs[c]) <= 1 ==> pc.PoweredOff?)
      && (d != c || a != PollLane ==> pc == s.pcs[c])
  {
  }

  /** The barrier is live: once all lanes show, ten polls of a polling core turn the power off, whatever the others do. */
  lemma {:induction false} PollerPowersOff(s: State, trace: seq<(Core, Action)>, c: Core)
    requires AllShown(s) && (s.pcs[c].Polling? || s.pcs[c].PoweredOff?) && PollsOf(trace, c) >= Need(s.pcs[c])
    ensures Run(s, trace).pcs[c].PoweredOff?
    decreases |trace|
  {
    if trace != [] {
      PollMakesProgress(s, c, trace[0].1, trace[0].0);
      PollerPowersOff(Step(s, trace[0].0, trace[0].1), trace[1..], c);
    }
  }

  /**
   So with fresh stores only, four announcements are enough: from there, in every run in which a polling core polls ten
   more times, it turns the power off.
   */
  lemma {:induction false} FreshRunPowersOff(word: Word, trace: seq<(Core, Action)>, more: seq<(Core, Action)>, c: Core)
    requires (forall i :: 0 <= i < 4 ==> word[i] != 2) && Fresh(Start(word), trace)
    requires forall d: Core :: Run(Start(word), trace).announced[d]
    requires Run(Start(word), trace).pcs[c].Polling? && PollsOf(more, c) >= 10
    ensures Run(Start(word), trace + more).pcs[c] == PoweredOff
  {
    var s := Run(Start(word), trace);
    FreshRunKeepsLanes(Start(word), trace);
    RunKeepsSafe(Start(word), trace);
    forall d: Core
      ensures s.word[d] == 2 && (s.pcs[d].Announced? || GoodPoll(s.pcs[d]) || s.pcs[d].PoweredOff?)
    {
      assert SafeCore(s.pcs[d], s.announced);
    }
    PollerPowersOff(s, more, c);
    RunAppend(Start(word), trace, more);
  }

  /**
   Core `i` has announced, but its lane is gone from memory and from every word a core still holds, and no poller has
   counted it yet.
   */
  ghost predicate Lost(s: State, i: Core) {
    && WellFormed(s)
    && s.word[i] != 2
    && (s.pcs[i].Announced? || s.pcs[i].Polling?)
    && forall c :: 0 <= c < 4 ==> LostFor(s.pcs[c], i)
  }

  ghost predicate LostFor(pc: Pc, i: Core) {
    match pc
    case ClearLoaded(w) => w[i] != 2
    case SetLoaded(w) => w[i] != 2
    case Polling(j, n) => n <= j <= 4 && (j > i ==> n < j)
    case PoweredOff => false
    case _ => true
  }

  /** A lost announcement stays lost: from then on no run turns the power off. */
  lemma {:induction false} LostForGood(s: State, i: Core, trace: seq<(Core, Action)>, c: Core)
    requires Lost(s, i)
    ensures Lost(Run(s, trace), i) && Run(s, trace).pcs[c] != PoweredOff
    decreases |trace|
  {
    if trace == [] {
      assert LostFor(s.pcs[c], i);
    } else {
      LostStep(s, i, trace[0].0, trace[0].1);
      LostForGood(Step(s, trace[0].0, trace[0].1), i, trace[1..], c);
    }
  }

  lemma LostStep(s: State, i: Core, c: Core, a: Action)
    requires Lost(s, i)
    ensures Lost(Step(s, c, a), i)
  {
  }

  /** Core 0 has cleared its lane and loaded the word for its announcement; core 1 has loaded it for its clearing. */
  lemma BothLoaded() returns (trace: seq<(Core, Action)>)
    ensures Run(Start(ZERO), trace) ==
      State(ZERO, [SetLoaded(ZERO), ClearLoaded(ZERO), Idle, Idle], [false, false, false, false])
  {
    var s := Start(ZERO);
    var t;
    t, trace := Extend(s, [], s, 0, LoadForClear);
    t, trace := Extend(s, trace, t, 0, StoreClear);
    assert t.word == ZERO;
    t, trace := Extend(s, trace, t, 0, LoadForSet);
    t, trace := Extend(s, trace, t, 1, LoadForClear);
    assert t.pcs == [SetLoaded(ZERO), ClearLoaded(ZERO), Idle, Idle];
  }

  /** Announcements can indeed be lost: core 1 announces itself between core 0's last load and its store. */
  lemma AnnouncementCanBeLost() returns (trace: seq<(Core, Action)>)
    ensures Lost(Run(Start(ZERO), trace), 1)
  {
    var s := Start(ZERO);
    trace := BothLoaded();
    var t := Run(s, trace);
    t, trace := Extend(s, trace, t, 1, StoreClear);
    t, trace := Extend(s, trace, t, 1, LoadForSet);
    t, trace := Extend(s, trace, t, 1, StoreSet);
    t, trace := Extend(s, trace, t, 0, StoreSet);
    assert t.pcs == [Announced, Announced, Idle, Idle];
  }

  lemma Extend(s: State, trace: seq<(Core, Action)>, t: State, c: Core, a: Action)
    returns (t': State, trace': seq<(Core, Action)>)
    requires WellFormed(s) && t == Run(s, trace)
    ensures trace' == trace + [(c, a)] && t' == Step(t, c, a) && t' == Run(s, trace')
  {
    trace' := trace + [(c, a)];
    t' := Step(t, c, a);
    RunAppend(s, trace, [(c, a)]);
    assert Run(t, [(c, a)]) == Run(Step(t, c, a), []);
  }

  lemma {:induction false} RunAppend(s: State, a: seq<(Core, Action)>, b: seq<(Core, Action)>)
    requires WellFormed(s)
    ensures Run(s, a + b) == Run(Run(s, a), b)
    decreases |a|
  {
    if a == [] {
      assert a + b == b;
    } else {
      assert (a + b)[1..] == a[1..] + b;
      RunAppend(Step(s, a[0].0, a[0].1), a[1..], b);
    }
  }

  /* ---------------------------------------------------------------- the polling test as written */

  /** `*cores_signal & (0xFF << i * 8)`: the lane in place, not shifted down. */
  function Masked(w: Word, i: Core): nat {
    w[i] as nat * (if i == 0 then 1 else if i == 1 then 0x100 else if i == 2 then 0x1_0000 else 0x100_0000)
  }

  /** How many of the first `n` lanes the loop of lines 555-559 counts as signalled. */
  function SignalledAsWritten(w: Word, n: nat): nat
    requires n <= 4
  {
    if n == 0 then 0 else SignalledAsWritten(w, n - 1) + if Masked(w, n - 1) == 2 then 1 else 0
  }

  /**
   As written the loop compares the unshifted lane with 2, so only core 0 can be counted and the machine never turns off,
   whatever the word holds.
   */
  lemma AsWrittenNeverPowersOff(w: Word)
    ensures SignalledAsWritten(w, 4) == if w[0] == 2 then 1 else 0
    ensures SignalledAsWritten(w, 4) != 4
  {
    assert SignalledAsWritten(w, 1) == if w[0] as nat == 2 then 1 else 0;
    assert w[0] as nat == 2 <==> w[0] == 2;
    assert SignalledAsWritten(w, 2) == SignalledAsWritten(w, 1);
    assert SignalledAsWritten(w, 3) == SignalledAsWritten(w, 2);
  }
}
