/** The replay's figures, and the loop that keeps them. Each figure is what the delivery log says it is. */
module ReplayLoop {
  import opened CoalescingReplay

  predicate IsFerret(setup: Setup, m: nat) {
    m < |setup.arrivals| && setup.arrivals[m].kind == Ferret
  }

  predicate Wakes(setup: Setup, instant: int) {
    StateOf(setup.states, instant).to == "your-turn"
  }

  function Ferrets(setup: Setup, members: seq<nat>): nat {
    if members == [] then 0
    else Ferrets(setup, members[..|members| - 1]) + (if IsFerret(setup, members[|members| - 1]) then 1 else 0)
  }

  /** How many ferret messages arrived while the receiver waited. */
  function WakesBefore(setup: Setup, index: nat): nat
    requires index <= |setup.arrivals|
  {
    if index == 0 then 0
    else
      WakesBefore(setup, index - 1)
      + (if IsFerret(setup, index - 1) && Wakes(setup, setup.arrivals[index - 1].at) then 1 else 0)
  }

  /** Waits of ferret messages, by label, in the order of delivery. */
  datatype Latencies = Latencies(blocker: seq<int>, action: seq<int>, fyi: seq<int>)

  datatype Figures = Figures(turns: nat, wakes: nat, largest: nat, latencies: Latencies)

  const NO_LATENCIES := Latencies([], [], [])
  const NO_FIGURES := Figures(0, 0, 0, NO_LATENCIES)

  function AddWait(setup: Setup, latencies: Latencies, instant: int, m: nat): Latencies {
    if !IsFerret(setup, m) then latencies
    else
      var arrival := setup.arrivals[m];
      var wait := [instant - arrival.at];
      match arrival.urgency
      case Blocker => latencies.(blocker := latencies.blocker + wait)
      case Action => latencies.(action := latencies.action + wait)
      case Fyi => latencies.(fyi := latencies.fyi + wait)
  }

  function AddWaits(setup: Setup, latencies: Latencies, instant: int, members: seq<nat>): Latencies {
    if members == [] then latencies
    else
      AddWait(setup, AddWaits(setup, latencies, instant, members[..|members| - 1]), instant, members[|members| - 1])
  }

  function AfterBatch(setup: Setup, before: Figures, batch: Batch): Figures {
    var ferrets := Ferrets(setup, batch.members);
    Figures(before.turns + (if ferrets > 0 then 1 else 0),
            before.wakes + (if ferrets > 0 && Wakes(setup, batch.at) then 1 else 0),
            if before.largest >= ferrets then before.largest else ferrets,
            AddWaits(setup, before.latencies, batch.at, batch.members))
  }

  function FiguresOf(setup: Setup, log: seq<Batch>): Figures {
    if log == [] then NO_FIGURES else AfterBatch(setup, FiguresOf(setup, log[..|log| - 1]), log[|log| - 1])
  }

  // ----- what the figures mean -----

  lemma {:induction false} FerretsAdd(setup: Setup, a: seq<nat>, b: seq<nat>)
    ensures Ferrets(setup, a + b) == Ferrets(setup, a) + Ferrets(setup, b)
    decreases |b|
  {
    if b == [] {
      assert a + b == a;
    } else {
      assert (a + b)[..|a + b| - 1] == a + b[..|b| - 1];
      FerretsAdd(setup, a, b[..|b| - 1]);
    }
  }

  lemma TakenOut(setup: Setup, s: seq<nat>, x: nat) returns (rest: seq<nat>)
    requires x in s
    ensures |rest| == |s| - 1 && multiset(rest) == multiset(s) - multiset{x}
    ensures Ferrets(setup, s) == Ferrets(setup, rest) + Ferrets(setup, [x])
  {
    var i :| 0 <= i < |s| && s[i] == x;
    assert s == s[..i] + [x] + s[i + 1..];
    rest := s[..i] + s[i + 1..];
    FerretsAdd(setup, s[..i] + [x], s[i + 1..]);
    FerretsAdd(setup, s[..i], [x]);
    FerretsAdd(setup, s[..i], s[i + 1..]);
  }

  /** Counting does not depend on the order. */
  lemma {:induction false} FerretsShuffled(setup: Setup, a: seq<nat>, b: seq<nat>)
    requires multiset(a) == multiset(b)
    ensures Ferrets(setup, a) == Ferrets(setup, b)
    decreases |a|
  {
    if a == [] {
      assert multiset(b) == multiset{};
      assert b == [];
    } else {
      var x := a[0];
      assert x in multiset(a);
      var restA := TakenOut(setup, a, x);
      var restB := TakenOut(setup, b, x);
      FerretsShuffled(setup, restA, restB);
    }
  }

  function WaitCount(latencies: Latencies): nat {
    |latencies.blocker| + |latencies.action| + |latencies.fyi|
  }

  predicate NotNegative(waits: seq<int>) {
    forall k | 0 <= k < |waits| :: waits[k] >= 0
  }

  predicate NoneNegative(latencies: Latencies) {
    NotNegative(latencies.blocker) && NotNegative(latencies.action) && NotNegative(latencies.fyi)
  }

  lemma {:induction false} WaitsOfMembers(setup: Setup, latencies: Latencies, instants: seq<int>, batch: Batch, n: nat)
    requires IsTimely(setup, instants, batch) && n <= |batch.members| && NoneNegative(latencies)
    ensures var after := AddWaits(setup, latencies, batch.at, batch.members[..n]);
            && NoneNegative(after)
            && WaitCount(after) == WaitCount(latencies) + Ferrets(setup, batch.members[..n])
  {
    if n > 0 {
      assert batch.members[..n][..n - 1] == batch.members[..n - 1];
      WaitsOfMembers(setup, latencies, instants, batch, n - 1);
      assert batch.members[n - 1] in batch.members;
      WaitIsAdded(setup, AddWaits(setup, latencies, batch.at, batch.members[..n - 1]), batch.at, batch.members[n - 1]);
    }
  }

  lemma WaitIsAdded(setup: Setup, latencies: Latencies, instant: int, m: nat)
    requires NoneNegative(latencies) && m < |setup.arrivals| && setup.arrivals[m].at <= instant
    ensures NoneNegative(AddWait(setup, latencies, instant, m))
    ensures WaitCount(AddWait(setup, latencies, instant, m)) ==
            WaitCount(latencies) + (if IsFerret(setup, m) then 1 else 0)
  {}

  /** What figures say about `delivered` ferret messages: no wait is negative, there is one for each message, no batch
      held more of them than were delivered, and every turn delivered at least one. */
  predicate IsSound(figures: Figures, delivered: nat) {
    && NoneNegative(figures.latencies) && WaitCount(figures.latencies) == delivered
    && figures.largest <= delivered && figures.wakes <= figures.turns <= delivered <= figures.turns * figures.largest
  }

  lemma BatchIsSound(setup: Setup, before: Figures, delivered: nat, instants: seq<int>, batch: Batch)
    requires IsSound(before, delivered) && IsTimely(setup, instants, batch)
    ensures IsSound(AfterBatch(setup, before, batch), delivered + Ferrets(setup, batch.members))
  {
    assert batch.members[..|batch.members|] == batch.members;
    WaitsOfMembers(setup, before.latencies, instants, batch, |batch.members|);
    ProductGrows(before.turns, before.largest, Ferrets(setup, batch.members));
  }

  lemma {:induction false} FiguresAreSound(setup: Setup, instants: seq<int>, log: seq<Batch>)
    requires AllTimely(setup, instants, log)
    ensures IsSound(FiguresOf(setup, log), Ferrets(setup, Delivered(log)))
  {
    if log != [] {
      var rest, last := log[..|log| - 1], log[|log| - 1];
      FiguresAreSound(setup, instants, rest);
      FerretsAdd(setup, Delivered(rest), last.members);
      BatchIsSound(setup, FiguresOf(setup, rest), Ferrets(setup, Delivered(rest)), instants, last);
    }
  }

  lemma ProductGrows(turns: nat, largest: nat, ferrets: nat)
    ensures var most := if largest >= ferrets then largest else ferrets;
            && turns * largest + ferrets <= (turns + 1) * most && turns * largest <= turns * most
  {
    var most := if largest >= ferrets then largest else ferrets;
    assert turns * largest <= turns * most;
    assert (turns + 1) * most == turns * most + most;
  }

  // ----- the figures, counted again -----

  /** The places among these messages where a ferret's stands. */
  function FerretPlaces(setup: Setup, members: seq<nat>): set<nat> {
    set i: nat | i < |members| && members[i] < |setup.arrivals| && setup.arrivals[members[i]].kind == Ferret
  }

  /** Among these batches, the places of those that hold a ferret's message. */
  function TurnPlaces(setup: Setup, log: seq<Batch>): set<nat> {
    set k: nat | k < |log| && FerretPlaces(setup, log[k].members) != {}
  }

  /** And of those delivered while the receiver waited for its turn. */
  function WakePlaces(setup: Setup, log: seq<Batch>): set<nat> {
    set k: nat | k < |log| && k in TurnPlaces(setup, log) && StateOf(setup.states, log[k].at).to == "your-turn"
  }

  /** The places of the first arrivals that are a ferret's and came while the receiver waited for its turn. */
  function WokenPlaces(setup: Setup, index: nat): set<nat>
    requires index <= |setup.arrivals|
  {
    set m: nat | m < index && setup.arrivals[m].kind == Ferret
                 && StateOf(setup.states, setup.arrivals[m].at).to == "your-turn"
  }

  /** From arrival to delivery, for the ferret's messages with a label among these, in their order. */
  function WaitsAt(setup: Setup, urgency: Label, instant: int, members: seq<nat>): seq<int> {
    if members == [] then []
    else
      var m := members[0];
      (if m < |setup.arrivals| && setup.arrivals[m].kind == Ferret && setup.arrivals[m].urgency == urgency
         then [instant - setup.arrivals[m].at] else [])
      + WaitsAt(setup, urgency, instant, members[1..])
  }

  function WaitsIn(setup: Setup, urgency: Label, log: seq<Batch>): seq<int> {
    if log == [] then [] else WaitsAt(setup, urgency, log[0].at, log[0].members) + WaitsIn(setup, urgency, log[1..])
  }

  lemma OnePlaceMore(places: set<nat>, longer: set<nat>, n: nat, there: bool)
    requires n !in places && longer == if there then places + {n} else places
    ensures |longer| == |places| + if there then 1 else 0
  {}

  lemma {:induction false} FerretsAreCounted(setup: Setup, members: seq<nat>)
    ensures Ferrets(setup, members) == |FerretPlaces(setup, members)|
  {
    if members != [] {
      var n := |members| - 1;
      FerretsAreCounted(setup, members[..n]);
      OnePlaceMore(FerretPlaces(setup, members[..n]), FerretPlaces(setup, members), n, IsFerret(setup, members[n]));
    }
  }

  lemma {:induction false} WokenAreCounted(setup: Setup, index: nat)
    requires index <= |setup.arrivals|
    ensures WakesBefore(setup, index) == |WokenPlaces(setup, index)|
  {
    if index > 0 {
      WokenAreCounted(setup, index - 1);
      OnePlaceMore(WokenPlaces(setup, index - 1), WokenPlaces(setup, index), index - 1,
                   IsFerret(setup, index - 1) && Wakes(setup, setup.arrivals[index - 1].at));
    }
  }

  lemma {:induction false} WaitsAdd(setup: Setup, urgency: Label, instant: int, members: seq<nat>, m: nat)
    ensures WaitsAt(setup, urgency, instant, members + [m]) ==
            WaitsAt(setup, urgency, instant, members) + WaitsAt(setup, urgency, instant, [m])
  {
    if members == [] {
      assert [] + [m] == [m];
    } else {
      assert (members + [m])[1..] == members[1..] + [m];
      WaitsAdd(setup, urgency, instant, members[1..], m);
    }
  }

  function WaitsOf(latencies: Latencies, urgency: Label): seq<int> {
    match urgency
    case Blocker => latencies.blocker
    case Action => latencies.action
    case Fyi => latencies.fyi
  }

  lemma {:induction false} WaitsOfBatch(setup: Setup, urgency: Label, latencies: Latencies, instant: int,
                                        members: seq<nat>)
    ensures WaitsOf(AddWaits(setup, latencies, instant, members), urgency) ==
            WaitsOf(latencies, urgency) + WaitsAt(setup, urgency, instant, members)
  {
    if members == [] {
      assert WaitsOf(latencies, urgency) + [] == WaitsOf(latencies, urgency);
    } else {
      var shorter, m := members[..|members| - 1], members[|members| - 1];
      assert members == shorter + [m];
      WaitsOfBatch(setup, urgency, latencies, instant, shorter);
      var before := AddWaits(setup, latencies, instant, shorter);
      WaitIsKept(setup, urgency, before, instant, m, WaitsAt(setup, urgency, instant, [m]));
      WaitsAdd(setup, urgency, instant, shorter, m);
    }
  }

  lemma WaitIsKept(setup: Setup, urgency: Label, latencies: Latencies, instant: int, m: nat, wait: seq<int>)
    requires wait == WaitsAt(setup, urgency, instant, [m])
    ensures WaitsOf(AddWait(setup, latencies, instant, m), urgency) == WaitsOf(latencies, urgency) + wait
  {
    assert [m][1..] == [] && WaitsOf(latencies, urgency) + [] == WaitsOf(latencies, urgency);
  }

  lemma {:induction false} WaitsOfLog(setup: Setup, urgency: Label, log: seq<Batch>, batch: Batch)
    ensures WaitsIn(setup, urgency, log + [batch]) ==
            WaitsIn(setup, urgency, log) + WaitsAt(setup, urgency, batch.at, batch.members)
  {
    if log == [] {
      assert ([] + [batch])[1..] == [];
    } else {
      assert (log + [batch])[1..] == log[1..] + [batch];
      WaitsOfLog(setup, urgency, log[1..], batch);
    }
  }

  /** The largest batch is one of the log, counted by its ferret's messages, or there is no such message. */
  ghost predicate IsLargest(setup: Setup, log: seq<Batch>, largest: nat) {
    && (forall k | 0 <= k < |log| :: |FerretPlaces(setup, log[k].members)| <= largest)
    && (largest == 0 || exists k :: 0 <= k < |log| && |FerretPlaces(setup, log[k].members)| == largest)
  }

  lemma {:induction false} WaitsAreExact(setup: Setup, log: seq<Batch>, urgency: Label)
    ensures WaitsOf(FiguresOf(setup, log).latencies, urgency) == WaitsIn(setup, urgency, log)
  {
    if log != [] {
      var shorter, batch := log[..|log| - 1], log[|log| - 1];
      WaitsAreExact(setup, shorter, urgency);
      WaitsOfBatch(setup, urgency, FiguresOf(setup, shorter).latencies, batch.at, batch.members);
      assert log == shorter + [batch];
      WaitsOfLog(setup, urgency, shorter, batch);
    }
  }

  lemma {:induction false} CountsAreExact(setup: Setup, log: seq<Batch>, figures: Figures)
    requires figures == FiguresOf(setup, log)
    ensures figures.turns == |TurnPlaces(setup, log)| && figures.wakes == |WakePlaces(setup, log)|
    ensures IsLargest(setup, log, figures.largest)
  {
    if log != [] {
      var shorter, batch := log[..|log| - 1], log[|log| - 1];
      var turn := Ferrets(setup, batch.members) > 0;
      CountsAreExact(setup, shorter, FiguresOf(setup, shorter));
      FerretsAreCounted(setup, batch.members);
      TurnIsCounted(setup, log, |shorter|, turn);
      WakeIsCounted(setup, log, |shorter|, turn && Wakes(setup, batch.at));
      LargestGrows(setup, log, FiguresOf(setup, shorter).largest);
    }
  }

  /** Turns are the batches with a ferret's message in them, wakes those of them that met a waiting receiver; and the
      waits are from arrival to delivery, by label and in the order of delivery. */
  lemma FiguresAreExact(setup: Setup, log: seq<Batch>, urgency: Label)
    ensures var figures := FiguresOf(setup, log);
            && figures.turns == |TurnPlaces(setup, log)| && figures.wakes == |WakePlaces(setup, log)|
            && IsLargest(setup, log, figures.largest)
            && WaitsOf(figures.latencies, urgency) == WaitsIn(setup, urgency, log)
  {
    CountsAreExact(setup, log, FiguresOf(setup, log));
    WaitsAreExact(setup, log, urgency);
  }

  lemma TurnIsCounted(setup: Setup, log: seq<Batch>, n: nat, turn: bool)
    requires n + 1 == |log| && turn == (Ferrets(setup, log[n].members) > 0)
    ensures |TurnPlaces(setup, log)| == |TurnPlaces(setup, log[..n])| + (if turn then 1 else 0)
  {
    FerretsAreCounted(setup, log[n].members);
    OnePlaceMore(TurnPlaces(setup, log[..n]), TurnPlaces(setup, log), n, turn);
  }

  lemma WakeIsCounted(setup: Setup, log: seq<Batch>, n: nat, wake: bool)
    requires n + 1 == |log| && wake == (Ferrets(setup, log[n].members) > 0 && Wakes(setup, log[n].at))
    ensures |WakePlaces(setup, log)| == |WakePlaces(setup, log[..n])| + (if wake then 1 else 0)
  {
    FerretsAreCounted(setup, log[n].members);
    OnePlaceMore(WakePlaces(setup, log[..n]), WakePlaces(setup, log), n, wake);
  }

  lemma LargestGrows(setup: Setup, log: seq<Batch>, largest: nat)
    requires log != [] && IsLargest(setup, log[..|log| - 1], largest)
    ensures var ferrets := |FerretPlaces(setup, log[|log| - 1].members)|;
            IsLargest(setup, log, if largest >= ferrets then largest else ferrets)
  {
    var shorter := log[..|log| - 1];
    if largest > 0 {
      var k :| 0 <= k < |shorter| && |FerretPlaces(setup, shorter[k].members)| == largest;
      assert log[k] == shorter[k];
    }
  }

  // ----- every run -----

  lemma {:induction false} RangeHoldsOnce(low: nat, high: nat, m: nat)
    requires low <= high
    ensures multiset(Range(low, high))[m] == if low <= m < high then 1 else 0
    decreases high - low
  {
    if low < high {
      assert Range(low, high) == [low] + Range(low + 1, high);
      RangeHoldsOnce(low + 1, high, m);
    }
  }

  lemma AtMostOnce(s: State, m: nat)
    requires multiset(Delivered(s.log) + s.pending) == multiset(Range(0, s.index))
    ensures multiset(Delivered(s.log))[m] + multiset(s.pending)[m] == if m < s.index then 1 else 0
  {
    assert multiset(Delivered(s.log) + s.pending)[m] == multiset(Delivered(s.log))[m] + multiset(s.pending)[m];
    RangeHoldsOnce(0, s.index, m);
  }

  /** In every run, with any planner that keeps its promises, the clock strictly increases, and each message taken in
      is delivered once or pending, never both, and never delivered before it arrived. */
  lemma EveryRunBalances(setup: Setup, run: seq<State>, k: nat, m: nat)
    requires IsRecorded(setup) && IsRun(setup, run) && k < |run|
    ensures Increasing(run[k].instants)
    ensures multiset(Delivered(run[k].log))[m] + multiset(run[k].pending)[m] == if m < run[k].index then 1 else 0
    ensures AllTimely(setup, run[k].instants, run[k].log)
    ensures run[k].index <= |setup.arrivals| && forall a | 0 <= a < run[k].index ::
            setup.arrivals[a].at in run[k].instants
  {
    BeginningIsSound(setup);
    RunKeeps(setup, BEGINNING, run, k);
    AtMostOnce(run[k], m);
  }

  /** Whatever the planner does, batches take no more turns than messages delivered one by one, even counting those
      still pending; and every wait of a ferret message is recorded, none of them negative. */
  lemma NeverMoreTurns(setup: Setup, s: State)
    requires Inv(setup, s)
    ensures var figures := FiguresOf(setup, s.log);
            && figures.wakes <= figures.turns
            && figures.turns + Ferrets(setup, s.pending) <= Ferrets(setup, Range(0, s.index))
            && WaitCount(figures.latencies) + Ferrets(setup, s.pending) == Ferrets(setup, Range(0, s.index))
            && NoneNegative(figures.latencies)
  {
    FerretsShuffled(setup, Delivered(s.log) + s.pending, Range(0, s.index));
    FerretsAdd(setup, Delivered(s.log), s.pending);
    FiguresAreSound(setup, s.instants, s.log);
  }

  /** A run is over only when every arrival was taken in, and then a message is still pending only if nothing is left
      that could release it; with nothing pending, every arrival was delivered exactly once. */
  lemma RunEndsDelivered(setup: Setup, s: State, m: nat)
    requires Inv(setup, s) && IsOver(setup, s)
    ensures s.index == |setup.arrivals|
    ensures s.pending == [] || (s.timers == [] && s.nextChange == |setup.states|)
    ensures s.pending == [] && m < |setup.arrivals| ==> multiset(Delivered(s.log))[m] == 1
  {
    AtMostOnce(s, m);
  }

  // ----- the loop -----

  lemma {:induction false} LaterDrops(timers: seq<int>, k: nat, instant: int)
    requires k < |timers| && timers[k] <= instant
    ensures Later(timers[..k] + timers[k + 1..], instant) == Later(timers, instant)
  {
    if k == 0 {
      assert timers[..0] + timers[1..] == timers[1..];
    } else {
      assert (timers[..k] + timers[k + 1..])[1..] == timers[1..][..k - 1] + timers[1..][k..];
      LaterDrops(timers[1..], k - 1, instant);
    }
  }

  lemma {:induction false} LaterKeepsAll(timers: seq<int>, instant: int)
    requires forall k | 0 <= k < |timers| :: timers[k] > instant
    ensures Later(timers, instant) == timers
  {
    if timers != [] { LaterKeepsAll(timers[1..], instant); }
  }

  method LeastIndex(timers: seq<int>) returns (at: nat)
    requires timers != []
    ensures at < |timers| && timers[at] == Min(timers)
  {
    at := 0;
    var k := 1;
    while k < |timers|
      invariant at < k <= |timers| && forall j | 0 <= j < k :: timers[at] <= timers[j]
    {
      if timers[k] < timers[at] { at := k; }
      k := k + 1;
    }
  }

  /** The timers left when those due are taken out, the least first. */
  method DropTimers(timers: seq<int>, instant: int) returns (rest: seq<int>)
    ensures rest == Later(timers, instant)
  {
    rest := timers;
    while rest != []
      invariant Later(rest, instant) == Later(timers, instant)
      decreases |rest|
    {
      var at := LeastIndex(rest);
      if rest[at] > instant { break; }
      LaterDrops(rest, at, instant);
      rest := rest[..at] + rest[at + 1..];
    }
    LaterKeepsAll(rest, instant);
  }

  method CountFerrets(setup: Setup, members: seq<nat>) returns (count: nat)
    ensures count == Ferrets(setup, members)
  {
    count := 0;
    var i := 0;
    assert members[..0] == [];
    while i < |members|
      invariant i <= |members| && count == Ferrets(setup, members[..i])
    {
      assert members[..i + 1][..i] == members[..i];
      if IsFerret(setup, members[i]) { count := count + 1; }
      i := i + 1;
    }
    assert members[..i] == members;
  }

  lemma LogGrows(setup: Setup, log: seq<Batch>, batch: Batch)
    ensures FiguresOf(setup, log + [batch]) == AfterBatch(setup, FiguresOf(setup, log), batch)
  {
    assert (log + [batch])[..|log|] == log;
  }

  lemma OneMoreArrival(setup: Setup, first: nat, index: nat, pending: seq<nat>)
    requires first <= index < |setup.arrivals|
    ensures Ferrets(setup, Range(0, index + 1)) ==
            Ferrets(setup, Range(0, index)) + (if IsFerret(setup, index) then 1 else 0)
    ensures pending + Range(first, index + 1) == pending + Range(first, index) + [index]
  {
    assert Range(0, index + 1)[..index] == Range(0, index);
    assert Range(first, index + 1) == Range(first, index) + [index];
  }

  lemma OneMoreOut(setup: Setup, pending: seq<nat>, recorded: Latencies, instant: int, members: seq<nat>, i: nat)
    requires i < |members|
    ensures WithoutAll(pending, members[i..]) == WithoutAll(Without(pending, members[i]), members[i + 1..])
    ensures AddWaits(setup, recorded, instant, members[..i + 1]) ==
            AddWait(setup, AddWaits(setup, recorded, instant, members[..i]), instant, members[i])
  {
    assert members[i..][1..] == members[i + 1..] && members[..i + 1][..i] == members[..i];
  }

  class Replay {
    const setup: Setup
    var pending: seq<nat>
    var timers: seq<int>
    var index: nat
    var nextState: nat
    var turnsBefore: nat
    var wakesBefore: nat
    var turnsAfter: nat
    var wakesAfter: nat
    var largestBatch: nat
    var latencies: Latencies
    ghost var instants: seq<int>
    ghost var log: seq<Batch>

    ghost function View(): State
      reads this
    {
      State(index, pending, timers, nextState, instants, log)
    }

    ghost predicate CountsArrivals()
      reads this
    {
      && index <= |setup.arrivals|
      && turnsBefore == Ferrets(setup, Range(0, index)) && wakesBefore == WakesBefore(setup, index)
    }

    ghost predicate CountsBatches()
      reads this
    {
      Kept() == FiguresOf(setup, log)
    }

    ghost predicate Valid()
      reads this
    {
      IsRecorded(setup) && Inv(setup, View()) && CountsArrivals() && CountsBatches()
    }

    constructor (setup: Setup)
      requires IsRecorded(setup)
      ensures Valid() && View() == BEGINNING && this.setup == setup
    {
      this.setup := setup;
      pending, timers, index, nextState := [], [], 0, 0;
      turnsBefore, wakesBefore, turnsAfter, wakesAfter, largestBatch := 0, 0, 0, 0, 0;
      latencies := NO_LATENCIES;
      instants, log := [], [];
      new;
      BeginningIsSound(setup);
    }

    /** Records every member's wait and takes it out of the pending list. */
    method TakeOutAll(members: seq<nat>, instant: int)
      modifies `pending, `latencies
      ensures pending == WithoutAll(old(pending), members)
      ensures latencies == AddWaits(setup, old(latencies), instant, members)
    {
      ghost var before, recorded := pending, latencies;
      var i := 0;
      assert members[..0] == [] && members[0..] == members;
      while i < |members|
        invariant i <= |members| && WithoutAll(pending, members[i..]) == WithoutAll(before, members)
        invariant latencies == AddWaits(setup, recorded, instant, members[..i])
      {
        OneMoreOut(setup, pending, recorded, instant, members, i);
        latencies := AddWait(setup, latencies, instant, members[i]);
        pending := Without(pending, members[i]);
        i := i + 1;
      }
      assert members[i..] == [] && members[..i] == members;
    }

    method CountTurn(ferrets: nat, current: Current)
      modifies `turnsAfter, `wakesAfter, `largestBatch
      ensures turnsAfter == old(turnsAfter) + (if ferrets > 0 then 1 else 0)
      ensures wakesAfter == old(wakesAfter) + (if ferrets > 0 && current.to == "your-turn" then 1 else 0)
      ensures largestBatch == if old(largestBatch) >= ferrets then old(largestBatch) else ferrets
    {
      if ferrets > 0 {
        turnsAfter := turnsAfter + 1;
        if current.to == "your-turn" { wakesAfter := wakesAfter + 1; }
        largestBatch := if largestBatch >= ferrets then largestBatch else ferrets;
      }
    }

    ghost function Kept(): Figures
      reads this
    {
      Figures(turnsAfter, wakesAfter, largestBatch, latencies)
    }

    method RecordBatch(members: seq<nat>, instant: int, current: Current)
      requires current == StateOf(setup.states, instant)
      modifies `pending, `latencies, `turnsAfter, `wakesAfter, `largestBatch
      ensures Kept() == AfterBatch(setup, old(Kept()), Batch(instant, members))
      ensures pending == WithoutAll(old(pending), members)
    {
      var ferrets := CountFerrets(setup, members);
      CountTurn(ferrets, current);
      TakeOutAll(members, instant);
    }

    /** One batch: the figures, and every member out of the pending list. */
    method DeliverBatch(members: seq<nat>, instant: int, current: Current)
      requires CountsBatches() && current == StateOf(setup.states, instant)
      modifies `pending, `latencies, `turnsAfter, `wakesAfter, `largestBatch, `log
      ensures View() == Released(old(View()), instant, members) && CountsBatches()
    {
      RecordBatch(members, instant, current);
      LogGrows(setup, log, Batch(instant, members));
      log := log + [Batch(instant, members)];
    }

    /** Everything the planner releases at an instant. */
    method DeliverDue(instant: int)
      requires KeepsPromises(setup) && Ordered(ChangeTimes(setup.states)) && CountsBatches()
      modifies `pending, `latencies, `turnsAfter, `wakesAfter, `largestBatch, `log, `timers
      ensures View() == DeliverAll(setup, old(View()), instant) && CountsBatches()
    {
      ghost var after := DeliverAll(setup, View(), instant);
      while true
        invariant CountsBatches() && DeliverAll(setup, View(), instant) == after
        invariant index == old(index) && nextState == old(nextState) && instants == old(instants)
        decreases |pending|
      {
        var current := StateAt(setup.states, instant);
        var plan := setup.plan(pending, current, instant);
        match plan
        case Nothing => return;
        case Hold(until) =>
          if until.Some? { timers := timers + [until.value]; }
          return;
        case Deliver(members) =>
          WithoutAllShrinks(pending, members);
          DeliverBatch(members, instant, current);
      }
    }

    /** Queues one arrival, and counts the turn it would have taken alone. */
    method Arrive()
      requires CountsArrivals() && index < |setup.arrivals| && Ordered(ChangeTimes(setup.states))
      modifies `pending, `index, `turnsBefore, `wakesBefore
      ensures CountsArrivals() && index == old(index) + 1 && pending == old(pending) + [old(index)]
    {
      var next := setup.arrivals[index];
      OneMoreArrival(setup, 0, index, []);
      if next.kind == Ferret {
        turnsBefore := turnsBefore + 1;
        var current := StateAt(setup.states, next.at);
        if current.to == "your-turn" { wakesBefore := wakesBefore + 1; }
      }
      pending := pending + [index];
      index := index + 1;
    }

    /** Queues every arrival that is due. */
    method ArriveDue(instant: int)
      requires CountsArrivals() && Ordered(ChangeTimes(setup.states))
      modifies `pending, `index, `turnsBefore, `wakesBefore
      ensures CountsArrivals() && old(index) <= |setup.arrivals|
      ensures index == Past(ArrivalTimes(setup.arrivals), old(index), instant)
      ensures pending == old(pending) + Range(old(index), index)
    {
      ghost var first, before, times := index, pending, ArrivalTimes(setup.arrivals);
      while index < |setup.arrivals| && setup.arrivals[index].at <= instant
        invariant CountsArrivals() && first <= index && pending == before + Range(first, index)
        invariant Past(times, index, instant) == Past(times, first, instant)
      {
        OneMoreArrival(setup, first, index, before);
        Arrive();
      }
    }

    method SkipChanges(instant: int)
      requires nextState <= |setup.states|
      modifies `nextState
      ensures nextState == Past(ChangeTimes(setup.states), old(nextState), instant)
    {
      ghost var first := nextState;
      while nextState < |setup.states| && setup.states[nextState].at <= instant
        invariant nextState <= |setup.states|
        invariant Past(ChangeTimes(setup.states), nextState, instant) == Past(ChangeTimes(setup.states), first, instant)
      {
        nextState := nextState + 1;
      }
    }

    method CollectCandidates() returns (candidates: seq<int>)
      ensures candidates == Candidates(setup, View())
    {
      candidates := [];
      if index < |setup.arrivals| { candidates := candidates + [setup.arrivals[index].at]; }
      if timers != [] { candidates := candidates + [Min(timers)]; }
      if nextState < |setup.states| { candidates := candidates + [setup.states[nextState].at]; }
    }

    /** Takes in everything due at an instant. */
    method TakeInDue(instant: int)
      requires CountsArrivals() && nextState <= |setup.states| && Ordered(ChangeTimes(setup.states))
      modifies `timers, `nextState, `pending, `index, `turnsBefore, `wakesBefore, `instants
      ensures CountsArrivals() && InRange(setup, old(View())) && View() == TakeIn(setup, old(View()), instant)
    {
      timers := DropTimers(timers, instant);
      SkipChanges(instant);
      ArriveDue(instant);
      instants := instants + [instant];
    }

    /** Takes in and delivers what is due; what the loop knows of its past it still knows. */
    method TakeTurn(instant: int)
      requires IsRecorded(setup) && CountsArrivals() && CountsBatches() && InRange(setup, View())
      requires !IsOver(setup, View()) && instant == Min(Candidates(setup, View()))
      modifies this
      ensures CountsArrivals() && CountsBatches() && InRange(setup, old(View()))
      ensures View() == Turn(setup, old(View()))
    {
      ghost var before := View();
      TakeInDue(instant);
      ghost var taken := TakeIn(setup, before, instant);
      assert View() == taken;
      DeliverDue(instant);
      assert View() == DeliverAll(setup, taken, instant);
    }

    /** One turn of the loop, unless it is over. */
    method Advance() returns (more: bool)
      requires Valid()
      modifies this
      ensures Valid() && more == !IsOver(setup, old(View()))
      ensures View() == if more then Turn(setup, old(View())) else old(View())
    {
      var candidates := CollectCandidates();
      if candidates == [] || (index >= |setup.arrivals| && pending == []) { return false; }
      ghost var before := View();
      TurnKeeps(setup, before);
      TakeTurn(Min(candidates));
      return true;
    }

    /** One turn of the loop below a horizon, and the run that much longer. */
    method AdvanceWithin(ghost start: State, ghost run: seq<State>, ghost horizon: int)
      returns (more: bool, ghost longer: seq<State>)
      requires Valid() && IsRunFrom(setup, start, run) && View() == Last(run)
      requires EventsEndBy(setup, horizon) && TimersEndBy(timers, horizon)
      modifies this
      ensures Valid() && IsRunFrom(setup, start, longer) && View() == Last(longer)
      ensures !more ==> IsOver(setup, View())
      ensures more ==>
                && instants != [] && Remaining(instants, horizon) >= 0
                && (old(instants) != [] ==> Remaining(instants, horizon) < Remaining(old(instants), horizon))
    {
      ghost var before := View();
      more := Advance();
      longer := run;
      if more {
        ClockMovesOn(setup, before, horizon);
        longer := run + [View()];
        RunGrows(setup, start, run, View(), longer);
      }
    }

    /** Turns the loop until it is over. It comes to an end because the planner has a horizon. */
    method Run(ghost within: int)
      requires Valid() && HoldsWithin(setup, within)
      modifies this
      ensures Valid() && IsOver(setup, View())
      ensures exists run :: IsRunFrom(setup, old(View()), run) && View() == Last(run)
    {
      ghost var start, run := View(), [View()];
      ghost var holds := HorizonHolds(setup, start, within);
      ghost var horizon := Cover(setup, start, holds);
      var more := true;
      while more
        invariant Valid() && IsRunFrom(setup, start, run) && View() == Last(run)
        invariant !more ==> IsOver(setup, View())
        decreases more, instants == [], Remaining(instants, horizon)
      {
        assert TimersEndBy(Last(run).timers, horizon);
        more, run := AdvanceWithin(start, run, horizon);
      }
    }
  }
}
