/** The event loop that replays recorded arrivals against a delivery planner. It stops at the next arrival, state change
    or end of a hold, whichever is first. */
module CoalescingReplay {
  import opened Options

  datatype TurnState = TurnState(at: int, to: string)
  datatype Current = Current(to: string, since: int)
  datatype Kind = Ferret | Daemon | Owner
  datatype Label = Blocker | Action | Fyi

  /** A recorded message: when it came, from whom, the label the scenario gives it, and whether it expects a reply. */
  datatype Arrival = Arrival(at: int, kind: Kind, urgency: Label, question: bool)

  /** What the planner decides about the pending messages, named by the index of their arrival. */
  datatype Plan = Nothing | Hold(until: Option<int>) | Deliver(members: seq<nat>)

  datatype Setup = Setup(arrivals: seq<Arrival>, states: seq<TurnState>, plan: (seq<nat>, Current, int) -> Plan)

  predicate Ordered(times: seq<int>) {
    forall i, j | 0 <= i < j < |times| :: times[i] <= times[j]
  }

  function ChangeTimes(states: seq<TurnState>): (times: seq<int>)
    ensures |times| == |states| && forall k | 0 <= k < |states| :: times[k] == states[k].at
  {
    seq(|states|, k requires 0 <= k < |states| => states[k].at)
  }

  function ArrivalTimes(arrivals: seq<Arrival>): (times: seq<int>)
    ensures |times| == |arrivals| && forall k | 0 <= k < |arrivals| :: times[k] == arrivals[k].at
  {
    seq(|arrivals|, k requires 0 <= k < |arrivals| => arrivals[k].at)
  }

  // ----- the receiver's state -----

  /** The last recorded state at or before an instant, found by looking back from the end. */
  function StateOf(states: seq<TurnState>, instant: int): Current {
    if states == [] then Current("working", 0)
    else
      var last := states[|states| - 1];
      if last.at <= instant then Current(last.to, last.at) else StateOf(states[..|states| - 1], instant)
  }

  lemma {:induction false} StateOfIsLast(states: seq<TurnState>, instant: int, found: int)
    requires -1 <= found < |states|
    requires found >= 0 ==> states[found].at <= instant
    requires forall k | found < k < |states| :: states[k].at > instant
    ensures StateOf(states, instant) ==
            if found < 0 then Current("working", 0) else Current(states[found].to, states[found].at)
  {
    if states != [] && found < |states| - 1 {
      StateOfIsLast(states[..|states| - 1], instant, found);
    }
  }

  /** Before any recorded change the receiver is working. */
  lemma BeforeAnyChange(states: seq<TurnState>, instant: int)
    requires forall k | 0 <= k < |states| :: states[k].at > instant
    ensures StateOf(states, instant).to == "working" && StateOf(states, instant).since == 0
  {
    if states != [] { StateOfIsLast(states, instant, -1); }
  }

  /** The binary search over recorded states; of several at the same instant, the last counts. */
  method StateAt(states: seq<TurnState>, instant: int) returns (current: Current)
    requires Ordered(ChangeTimes(states))
    ensures current == StateOf(states, instant)
  {
    var low, high, found := 0, |states| - 1, -1;
    ghost var times := ChangeTimes(states);
    while low <= high
      invariant 0 <= low <= high + 1 <= |states| && -1 <= found < |states|
      invariant found >= 0 ==> times[found] <= instant
      invariant found == low - 1
      invariant forall k | high < k < |states| :: times[k] > instant
      decreases high - low
    {
      var middle := (low + high) / 2;
      if states[middle].at <= instant {
        found, low := middle, middle + 1;
      } else {
        assert forall k | middle <= k < |states| :: times[middle] <= times[k];
        high := middle - 1;
      }
    }
    StateOfIsLast(states, instant, found);
    current := if found < 0 then Current("working", 0) else Current(states[found].to, states[found].at);
  }

  // ----- one turn of the loop -----

  datatype Batch = Batch(at: int, members: seq<nat>)

  /** What the loop has done: the arrivals taken, those not delivered yet, the holds, the state changes passed, every
      instant it stopped at, and every batch delivered. */
  datatype State = State(index: nat, pending: seq<nat>, timers: seq<int>, nextChange: nat,
                         instants: seq<int>, log: seq<Batch>)

  const BEGINNING := State(0, [], [], 0, [], [])

  /** What the planner promises: a delivery takes some of the pending messages, each once, and a hold ends later. */
  ghost predicate KeepsPromises(setup: Setup) {
    forall pending: seq<nat>, current: Current, instant: int {:trigger setup.plan(pending, current, instant)} ::
      match setup.plan(pending, current, instant)
      case Nothing => true
      case Hold(until) => until.Some? ==> until.value > instant
      case Deliver(members) => members != [] && multiset(members) <= multiset(pending)
  }

  function Without(pending: seq<nat>, member: nat): seq<nat> {
    if pending == [] then []
    else if pending[0] == member then pending[1..]
    else [pending[0]] + Without(pending[1..], member)
  }

  lemma {:induction false} WithoutIsLess(pending: seq<nat>, member: nat)
    ensures multiset(Without(pending, member)) == multiset(pending) - multiset{member}
  {
    if pending != [] {
      var head, rest := pending[0], pending[1..];
      assert pending == [head] + rest;
      if head != member {
        WithoutIsLess(rest, member);
        assert multiset(Without(pending, member)) == multiset{head} + multiset(Without(rest, member));
      }
    }
  }

  function WithoutAll(pending: seq<nat>, members: seq<nat>): seq<nat>
    decreases |members|
  {
    if members == [] then pending else WithoutAll(Without(pending, members[0]), members[1..])
  }

  lemma {:induction false} WithoutAllIsLess(pending: seq<nat>, members: seq<nat>)
    ensures multiset(WithoutAll(pending, members)) == multiset(pending) - multiset(members)
    decreases |members|
  {
    if members != [] {
      assert members == [members[0]] + members[1..];
      WithoutIsLess(pending, members[0]);
      WithoutAllIsLess(Without(pending, members[0]), members[1..]);
    }
  }

  lemma WithoutAllShrinks(pending: seq<nat>, members: seq<nat>)
    requires members != [] && multiset(members) <= multiset(pending)
    ensures |WithoutAll(pending, members)| + |members| == |pending|
  {
    WithoutAllIsLess(pending, members);
    assert |multiset(WithoutAll(pending, members))| == |multiset(pending)| - |multiset(members)|;
  }

  /** The pending messages the planner releases at an instant, batch after batch. */
  function DeliverAll(setup: Setup, s: State, instant: int): State
    requires KeepsPromises(setup)
    decreases |s.pending|
  {
    match setup.plan(s.pending, StateOf(setup.states, instant), instant)
    case Nothing => s
    case Hold(until) => if until.Some? then s.(timers := s.timers + [until.value]) else s
    case Deliver(members) =>
      WithoutAllShrinks(s.pending, members);
      DeliverAll(setup, Released(s, instant, members), instant)
  }

  function Released(s: State, instant: int, members: seq<nat>): State {
    s.(pending := WithoutAll(s.pending, members), log := s.log + [Batch(instant, members)])
  }

  /** The first index from `start` on whose time is after an instant. */
  function Past(times: seq<int>, start: nat, instant: int): (end: nat)
    requires start <= |times|
    ensures start <= end <= |times|
    ensures forall k | start <= k < end :: times[k] <= instant
    ensures end < |times| ==> times[end] > instant
    decreases |times| - start
  {
    if start < |times| && times[start] <= instant then Past(times, start + 1, instant) else start
  }

  function Range(low: nat, high: nat): (range: seq<nat>)
    requires low <= high
    ensures |range| == high - low && forall k | 0 <= k < |range| :: range[k] == low + k
  {
    seq(high - low, k requires 0 <= k < high - low => low + k)
  }

  function Min(times: seq<int>): (least: int)
    requires times != []
    ensures least in times && forall k | 0 <= k < |times| :: least <= times[k]
  {
    if |times| == 1 then times[0]
    else var rest := Min(times[1..]); if times[0] <= rest then times[0] else rest
  }

  function Later(timers: seq<int>, instant: int): (later: seq<int>)
    ensures forall t :: t in later <==> t in timers && t > instant
  {
    if timers == [] then []
    else if timers[0] > instant then [timers[0]] + Later(timers[1..], instant)
    else Later(timers[1..], instant)
  }

  /** The instants at which something may happen next. */
  function Candidates(setup: Setup, s: State): seq<int> {
    (if s.index < |setup.arrivals| then [setup.arrivals[s.index].at] else [])
    + (if s.timers != [] then [Min(s.timers)] else [])
    + (if s.nextChange < |setup.states| then [setup.states[s.nextChange].at] else [])
  }

  predicate InRange(setup: Setup, s: State) {
    s.index <= |setup.arrivals| && s.nextChange <= |setup.states|
  }

  predicate IsOver(setup: Setup, s: State) {
    Candidates(setup, s) == [] || (s.index >= |setup.arrivals| && s.pending == [])
  }

  /** Everything due at an instant, taken in but not yet offered to the planner. */
  function TakeIn(setup: Setup, s: State, instant: int): (t: State)
    requires InRange(setup, s)
    ensures InRange(setup, t)
  {
    var index := Past(ArrivalTimes(setup.arrivals), s.index, instant);
    State(index, s.pending + Range(s.index, index), Later(s.timers, instant),
          Past(ChangeTimes(setup.states), s.nextChange, instant), s.instants + [instant], s.log)
  }

  function Turn(setup: Setup, s: State): State
    requires KeepsPromises(setup) && InRange(setup, s) && !IsOver(setup, s)
  {
    var instant := Min(Candidates(setup, s));
    DeliverAll(setup, TakeIn(setup, s, instant), instant)
  }

  // ----- what every run keeps -----

  ghost predicate IsRecorded(setup: Setup) {
    KeepsPromises(setup) && Ordered(ArrivalTimes(setup.arrivals)) && Ordered(ChangeTimes(setup.states))
  }

  function Delivered(log: seq<Batch>): seq<nat> {
    if log == [] then [] else Delivered(log[..|log| - 1]) + log[|log| - 1].members
  }

  predicate Increasing(instants: seq<int>) {
    forall i, j | 0 <= i < j < |instants| :: instants[i] < instants[j]
  }

  /** Everything still to come is after the last instant. */
  ghost predicate LiesAhead(setup: Setup, s: State, instant: int)
    requires InRange(setup, s)
  {
    && (forall k | s.index <= k < |setup.arrivals| :: setup.arrivals[k].at > instant)
    && (forall k | s.nextChange <= k < |setup.states| :: setup.states[k].at > instant)
    && (forall t | t in s.timers :: t > instant)
  }

  /** Every message in a batch had arrived by the time the batch was delivered, at an instant the loop stopped at. */
  ghost predicate IsTimely(setup: Setup, instants: seq<int>, batch: Batch) {
    && batch.members != [] && batch.at in instants
    && forall m | m in batch.members :: m < |setup.arrivals| && setup.arrivals[m].at <= batch.at
  }

  ghost predicate Inv(setup: Setup, s: State) {
    && InRange(setup, s)
    && multiset(Delivered(s.log) + s.pending) == multiset(Range(0, s.index))
    && Increasing(s.instants)
    && (s.instants != [] ==> LiesAhead(setup, s, s.instants[|s.instants| - 1]))
    && StopsAtEvents(setup, s)
    && AllTimely(setup, s.instants, s.log)
  }

  ghost predicate AllTimely(setup: Setup, instants: seq<int>, log: seq<Batch>) {
    forall k | 0 <= k < |log| :: IsTimely(setup, instants, log[k])
  }

  /** The loop has stopped at the very instant of each arrival it took in and of each state change it passed. */
  ghost predicate StopsAtEvents(setup: Setup, s: State)
    requires InRange(setup, s)
  {
    && (forall k | 0 <= k < s.index :: setup.arrivals[k].at in s.instants)
    && (forall k | 0 <= k < s.nextChange :: setup.states[k].at in s.instants)
  }

  lemma BeginningIsSound(setup: Setup)
    ensures Inv(setup, BEGINNING)
  {}

  lemma InBoth(s: State, m: nat)
    requires multiset(Delivered(s.log) + s.pending) == multiset(Range(0, s.index)) && m in s.pending
    ensures m < s.index
  {
    assert m in multiset(Delivered(s.log) + s.pending);
    assert m in Range(0, s.index);
  }

  lemma CandidateIsAhead(setup: Setup, s: State, instant: int)
    requires Inv(setup, s) && instant in Candidates(setup, s)
    ensures s.instants != [] ==> instant > s.instants[|s.instants| - 1]
  {}

  /** Of ordered events none is before an instant that is not after the first. */
  lemma NoneIsBefore(times: seq<int>, start: nat, instant: int)
    requires start <= |times| && Ordered(times) && (start < |times| ==> instant <= times[start])
    ensures forall k | start <= k < |times| :: instant <= times[k]
  {
    forall k | start <= k < |times| ensures instant <= times[k] {
      assert times[start] <= times[k];
    }
  }

  lemma InstantIsLeast(setup: Setup, s: State, instant: int)
    requires InRange(setup, s) && !IsOver(setup, s) && instant == Min(Candidates(setup, s))
    ensures s.index < |setup.arrivals| ==> instant <= setup.arrivals[s.index].at
    ensures s.nextChange < |setup.states| ==> instant <= setup.states[s.nextChange].at
  {
    var cs := Candidates(setup, s);
    assert forall c | c in cs :: instant <= c;
  }

  lemma RangeGrows(low: nat, high: nat)
    requires low <= high
    ensures Range(0, low) + Range(low, high) == Range(0, high)
  {}

  /** Taking in what is due keeps every message in exactly one place. */
  lemma TakeInKeepsMessages(setup: Setup, s: State, instant: int)
    requires Inv(setup, s)
    ensures var t := TakeIn(setup, s, instant);
            multiset(Delivered(t.log) + t.pending) == multiset(Range(0, t.index))
  {
    var t := TakeIn(setup, s, instant);
    RangeGrows(s.index, t.index);
    assert Delivered(s.log) + t.pending == (Delivered(s.log) + s.pending) + Range(s.index, t.index);
  }

  lemma PastIsAhead(times: seq<int>, start: nat, instant: int)
    requires start <= |times| && Ordered(times)
    ensures forall k | Past(times, start, instant) <= k < |times| :: times[k] > instant
  {
    var end := Past(times, start, instant);
    forall k | end <= k < |times| ensures times[k] > instant {
      assert times[end] <= times[k];
    }
  }

  lemma TakeInLiesAhead(setup: Setup, s: State, instant: int)
    requires IsRecorded(setup) && InRange(setup, s)
    ensures LiesAhead(setup, TakeIn(setup, s, instant), instant)
  {
    PastIsAhead(ArrivalTimes(setup.arrivals), s.index, instant);
    PastIsAhead(ChangeTimes(setup.states), s.nextChange, instant);
    var t := TakeIn(setup, s, instant);
    forall k | t.index <= k < |setup.arrivals| ensures setup.arrivals[k].at > instant {
      assert ArrivalTimes(setup.arrivals)[k] > instant;
    }
    forall k | t.nextChange <= k < |setup.states| ensures setup.states[k].at > instant {
      assert ChangeTimes(setup.states)[k] > instant;
    }
  }

  lemma TakenAtTheirTime(times: seq<int>, start: nat, instants: seq<int>, instant: int)
    requires start <= |times| && Ordered(times) && (start < |times| ==> instant <= times[start])
    requires forall k | 0 <= k < start :: times[k] in instants
    ensures forall k | 0 <= k < Past(times, start, instant) :: times[k] in instants + [instant]
  {
    NoneIsBefore(times, start, instant);
    forall k | 0 <= k < Past(times, start, instant) ensures times[k] in instants + [instant] {
      if k >= start { assert times[k] == instant; }
    }
  }

  lemma TakeInStopsAtEvents(setup: Setup, s: State, instant: int)
    requires IsRecorded(setup) && InRange(setup, s) && StopsAtEvents(setup, s)
    requires s.index < |setup.arrivals| ==> instant <= setup.arrivals[s.index].at
    requires s.nextChange < |setup.states| ==> instant <= setup.states[s.nextChange].at
    ensures StopsAtEvents(setup, TakeIn(setup, s, instant))
  {
    var arrivals, changes, t := ArrivalTimes(setup.arrivals), ChangeTimes(setup.states), TakeIn(setup, s, instant);
    TakenAtTheirTime(arrivals, s.index, s.instants, instant);
    TakenAtTheirTime(changes, s.nextChange, s.instants, instant);
    forall k | 0 <= k < t.index ensures setup.arrivals[k].at in t.instants { assert arrivals[k] in t.instants; }
    forall k | 0 <= k < t.nextChange ensures setup.states[k].at in t.instants { assert changes[k] in t.instants; }
  }

  lemma TimelyStays(setup: Setup, instants: seq<int>, instant: int, log: seq<Batch>)
    requires AllTimely(setup, instants, log)
    ensures AllTimely(setup, instants + [instant], log)
  {
    forall k | 0 <= k < |log| ensures IsTimely(setup, instants + [instant], log[k]) {
      assert IsTimely(setup, instants, log[k]);
    }
  }

  lemma TakeInKeeps(setup: Setup, s: State, instant: int)
    requires IsRecorded(setup) && Inv(setup, s) && !IsOver(setup, s) && instant == Min(Candidates(setup, s))
    ensures Inv(setup, TakeIn(setup, s, instant))
  {
    CandidateIsAhead(setup, s, instant);
    InstantIsLeast(setup, s, instant);
    TakeInKeepsMessages(setup, s, instant);
    TakeInLiesAhead(setup, s, instant);
    TakeInStopsAtEvents(setup, s, instant);
    TimelyStays(setup, s.instants, instant, s.log);
  }

  lemma ReleaseKeepsMessages(s: State, instant: int, members: seq<nat>)
    requires multiset(members) <= multiset(s.pending)
    ensures var t := Released(s, instant, members);
            multiset(Delivered(t.log) + t.pending) == multiset(Delivered(s.log) + s.pending)
  {
    var t := Released(s, instant, members);
    WithoutAllIsLess(s.pending, members);
    assert t.log[..|t.log| - 1] == s.log;
  }

  /** Released messages were pending, so they had arrived. */
  lemma ReleaseIsTimely(setup: Setup, s: State, instant: int, members: seq<nat>)
    requires Inv(setup, s) && s.instants != [] && instant == s.instants[|s.instants| - 1]
    requires members != [] && multiset(members) <= multiset(s.pending)
    ensures IsTimely(setup, s.instants, Batch(instant, members))
  {
    forall m | m in members ensures m < |setup.arrivals| && setup.arrivals[m].at <= instant {
      assert m in multiset(members);
      assert m in s.pending;
      InBoth(s, m);
      assert setup.arrivals[m].at in s.instants;
    }
  }

  lemma TimelyGrows(setup: Setup, instants: seq<int>, log: seq<Batch>, batch: Batch)
    requires AllTimely(setup, instants, log) && IsTimely(setup, instants, batch)
    ensures AllTimely(setup, instants, log + [batch])
  {}

  /** The rest of the invariant is about what a release leaves alone. */
  lemma SameButReleased(setup: Setup, s: State, t: State)
    requires Inv(setup, s) && t == s.(pending := t.pending, log := t.log)
    requires multiset(Delivered(t.log) + t.pending) == multiset(Delivered(s.log) + s.pending)
    requires AllTimely(setup, s.instants, t.log)
    ensures Inv(setup, t)
  {}

  lemma ReleaseKeeps(setup: Setup, s: State, instant: int, members: seq<nat>)
    requires Inv(setup, s) && s.instants != [] && instant == s.instants[|s.instants| - 1]
    requires members != [] && multiset(members) <= multiset(s.pending)
    ensures Inv(setup, Released(s, instant, members))
  {
    ReleaseKeepsMessages(s, instant, members);
    ReleaseIsTimely(setup, s, instant, members);
    TimelyGrows(setup, s.instants, s.log, Batch(instant, members));
    SameButReleased(setup, s, Released(s, instant, members));
  }

  lemma HoldKeeps(setup: Setup, s: State, instant: int, until: int)
    requires Inv(setup, s) && s.instants != [] && instant == s.instants[|s.instants| - 1] && until > instant
    ensures Inv(setup, s.(timers := s.timers + [until]))
  {}

  /** Whatever the planner releases at an instant, the books balance. */
  lemma {:induction false} DeliverAllKeeps(setup: Setup, s: State, instant: int)
    requires KeepsPromises(setup) && Inv(setup, s) && s.instants != [] && instant == s.instants[|s.instants| - 1]
    ensures Inv(setup, DeliverAll(setup, s, instant))
    ensures DeliverAll(setup, s, instant).index == s.index && DeliverAll(setup, s, instant).instants == s.instants
    decreases |s.pending|
  {
    match setup.plan(s.pending, StateOf(setup.states, instant), instant)
    case Nothing =>
    case Hold(until) => if until.Some? { HoldKeeps(setup, s, instant, until.value); }
    case Deliver(members) =>
      WithoutAllShrinks(s.pending, members);
      ReleaseKeeps(setup, s, instant, members);
      DeliverAllKeeps(setup, Released(s, instant, members), instant);
  }

  /** One turn keeps the invariant, and the clock moves strictly on. */
  lemma TurnKeeps(setup: Setup, s: State)
    requires IsRecorded(setup) && Inv(setup, s) && !IsOver(setup, s)
    ensures Inv(setup, Turn(setup, s))
    ensures Turn(setup, s).instants == s.instants + [Min(Candidates(setup, s))]
  {
    var instant := Min(Candidates(setup, s));
    TakeInKeeps(setup, s, instant);
    DeliverAllKeeps(setup, TakeIn(setup, s, instant), instant);
  }

  /** States that follow one another turn by turn, the first of them given. */
  ghost predicate IsRunFrom(setup: Setup, from: State, run: seq<State>)
    requires KeepsPromises(setup)
  {
    && run != [] && run[0] == from
    && forall k | 0 <= k < |run| - 1 ::
         InRange(setup, run[k]) && !IsOver(setup, run[k]) && run[k + 1] == Turn(setup, run[k])
  }

  ghost predicate IsRun(setup: Setup, run: seq<State>)
    requires KeepsPromises(setup)
  {
    IsRunFrom(setup, BEGINNING, run)
  }

  lemma RunKeeps(setup: Setup, from: State, run: seq<State>, k: nat)
    requires IsRecorded(setup) && Inv(setup, from) && IsRunFrom(setup, from, run) && k < |run|
    ensures Inv(setup, run[k])
  {
    var step := (s, t) => KeepsPromises(setup) && InRange(setup, s) && !IsOver(setup, s) && t == Turn(setup, s);
    var holds := s => Inv(setup, s);
    forall s, t | step(s, t) && holds(s) ensures holds(t) { StepKeeps(setup, s, t, holds(t)); }
    Induction(run, step, holds, k);
  }

  lemma StepKeeps(setup: Setup, s: State, t: State, kept: bool)
    requires IsRecorded(setup) && Inv(setup, s) && !IsOver(setup, s) && t == Turn(setup, s)
    requires kept == Inv(setup, t)
    ensures kept
  {
    TurnKeeps(setup, s);
  }

  /** One turn of the loop, taken in a state its invariant holds of. */
  ghost predicate IsStep(setup: Setup, s: State, t: State) {
    IsRecorded(setup) && Inv(setup, s) && !IsOver(setup, s) && t == Turn(setup, s)
  }

  lemma StepOfRun(setup: Setup, from: State, run: seq<State>, k: nat, step: bool)
    requires IsRecorded(setup) && Inv(setup, from) && IsRunFrom(setup, from, run) && k < |run| - 1
    requires step == IsStep(setup, run[k], run[k + 1])
    ensures step
  {
    RunKeeps(setup, from, run, k);
  }

  lemma {:induction false} Induction<S>(run: seq<S>, step: (S, S) -> bool, holds: S -> bool, k: nat)
    requires k < |run| && holds(run[0])
    requires forall i | 0 <= i < |run| - 1 :: step(run[i], run[i + 1])
    requires forall s, t | step(s, t) && holds(s) :: holds(t)
    ensures holds(run[k])
  {
    if k > 0 {
      Induction(run, step, holds, k - 1);
      assert step(run[k - 1], run[k - 1 + 1]);
    }
  }

  /** What every turn keeps holds in every state of a run. */
  lemma RunInduction(setup: Setup, from: State, run: seq<State>, k: nat, holds: State -> bool)
    requires IsRecorded(setup) && Inv(setup, from) && IsRunFrom(setup, from, run) && k < |run|
    requires holds(from) && forall s, t | IsStep(setup, s, t) && holds(s) :: holds(t)
    ensures holds(run[k])
  {
    var step := (s, t) => IsStep(setup, s, t);
    forall i | 0 <= i < |run| - 1 ensures step(run[i], run[i + 1]) {
      StepOfRun(setup, from, run, i, step(run[i], run[i + 1]));
    }
    Induction(run, step, holds, k);
  }

  // ----- ending -----

  function Last(run: seq<State>): State
    requires run != []
  {
    run[|run| - 1]
  }

  /** The run from here comes to an end. */
  ghost predicate Ends(setup: Setup, from: State)
    requires KeepsPromises(setup)
  {
    exists run :: IsRunFrom(setup, from, run) && IsOver(setup, Last(run))
  }

  predicate TimersEndBy(timers: seq<int>, horizon: int) {
    forall k | 0 <= k < |timers| :: timers[k] <= horizon
  }

  /** No hold that the planner asks for from here on lies past the horizon. */
  ghost predicate HoldsEndBy(setup: Setup, from: State, horizon: int)
    requires KeepsPromises(setup)
  {
    forall run | IsRunFrom(setup, from, run) :: TimersEndBy(Last(run).timers, horizon)
  }

  /** Nor does any arrival or state change. */
  ghost predicate EventsEndBy(setup: Setup, horizon: int) {
    TimersEndBy(ArrivalTimes(setup.arrivals), horizon) && TimersEndBy(ChangeTimes(setup.states), horizon)
  }

  lemma {:induction false} SameRun(setup: Setup, from: State, a: seq<State>, b: seq<State>, k: nat)
    requires KeepsPromises(setup) && IsRunFrom(setup, from, a) && IsRunFrom(setup, from, b) && k < |a| && k < |b|
    ensures a[k] == b[k]
  {
    if k > 0 { SameRun(setup, from, a, b, k - 1); }
  }

  /** No run goes on past one that is over. */
  lemma EndIsLast(setup: Setup, from: State, ended: seq<State>, run: seq<State>)
    requires KeepsPromises(setup) && IsRunFrom(setup, from, ended) && IsRunFrom(setup, from, run)
    requires IsOver(setup, Last(ended))
    ensures |run| <= |ended| && Last(run) == ended[|run| - 1]
  {
    if |run| > |ended| {
      SameRun(setup, from, ended, run, |ended| - 1);
    } else {
      SameRun(setup, from, ended, run, |run| - 1);
    }
  }

  lemma {:induction false} Latest(times: seq<int>, least: int) returns (horizon: int)
    ensures horizon >= least && TimersEndBy(times, horizon)
  {
    horizon := least;
    if times != [] {
      var later := Latest(times[1..], least);
      horizon := if times[0] > later then times[0] else later;
      forall k | 0 <= k < |times| ensures times[k] <= horizon { assert k > 0 ==> times[k] == times[1..][k - 1]; }
    }
  }

  lemma {:induction false} LatestHold(run: seq<State>, n: nat) returns (horizon: int)
    requires n <= |run|
    ensures forall k | 0 <= k < n :: TimersEndBy(run[k].timers, horizon)
  {
    horizon := 0;
    if n > 0 {
      var earlier := LatestHold(run, n - 1);
      horizon := Latest(run[n - 1].timers, earlier);
      forall k | 0 <= k < n ensures TimersEndBy(run[k].timers, horizon) {
        if k < n - 1 { assert TimersEndBy(run[k].timers, earlier); }
      }
    }
  }

  /** A horizon on the holds, moved out to cover what was recorded as well. */
  lemma Cover(setup: Setup, from: State, holds: int) returns (horizon: int)
    requires KeepsPromises(setup) && HoldsEndBy(setup, from, holds)
    ensures HoldsEndBy(setup, from, horizon) && EventsEndBy(setup, horizon)
  {
    var arrivals := Latest(ArrivalTimes(setup.arrivals), holds);
    horizon := Latest(ChangeTimes(setup.states), arrivals);
    forall run | IsRunFrom(setup, from, run) ensures TimersEndBy(Last(run).timers, horizon) {
      assert TimersEndBy(Last(run).timers, holds);
    }
  }

  /** How far the clock may still move, once it has started. */
  function Remaining(instants: seq<int>, horizon: int): int {
    if instants == [] then 0 else horizon - instants[|instants| - 1]
  }

  /** A turn moves the clock on, and never past a horizon on the holds and the events. */
  lemma ClockMovesOn(setup: Setup, s: State, horizon: int)
    requires IsRecorded(setup) && Inv(setup, s) && !IsOver(setup, s)
    requires EventsEndBy(setup, horizon) && TimersEndBy(s.timers, horizon)
    ensures Inv(setup, Turn(setup, s))
    ensures var after := Turn(setup, s).instants;
            && after != [] && Remaining(after, horizon) >= 0
            && (s.instants != [] ==> Remaining(after, horizon) < Remaining(s.instants, horizon))
  {
    TurnKeeps(setup, s);
    NextIsWithin(setup, s, horizon);
    CandidateIsAhead(setup, s, Min(Candidates(setup, s)));
  }

  lemma NextIsWithin(setup: Setup, s: State, horizon: int)
    requires InRange(setup, s) && !IsOver(setup, s) && EventsEndBy(setup, horizon) && TimersEndBy(s.timers, horizon)
    ensures Min(Candidates(setup, s)) <= horizon
  {
    var instant := Min(Candidates(setup, s));
    assert instant in Candidates(setup, s);
    assert s.index < |setup.arrivals| ==> ArrivalTimes(setup.arrivals)[s.index] <= horizon;
    assert s.nextChange < |setup.states| ==> ChangeTimes(setup.states)[s.nextChange] <= horizon;
  }

  lemma RunGrows(setup: Setup, from: State, run: seq<State>, next: State, longer: seq<State>)
    requires KeepsPromises(setup) && IsRunFrom(setup, from, run) && longer == run + [next]
    requires InRange(setup, Last(run)) && !IsOver(setup, Last(run)) && next == Turn(setup, Last(run))
    ensures IsRunFrom(setup, from, longer)
  {
    forall k | 0 <= k < |longer| - 1
      ensures InRange(setup, longer[k]) && !IsOver(setup, longer[k]) && longer[k + 1] == Turn(setup, longer[k])
    {
      if k < |run| - 1 { assert longer[k] == run[k] && longer[k + 1] == run[k + 1]; }
    }
  }

  lemma {:induction false} EndsWithin(setup: Setup, from: State, run: seq<State>, horizon: int)
    returns (ended: seq<State>)
    requires IsRecorded(setup) && IsRunFrom(setup, from, run) && Inv(setup, Last(run))
    requires EventsEndBy(setup, horizon) && HoldsEndBy(setup, from, horizon)
    ensures IsRunFrom(setup, from, ended) && IsOver(setup, Last(ended))
    decreases Last(run).instants == [], Remaining(Last(run).instants, horizon)
  {
    var s := Last(run);
    ended := run;
    if !IsOver(setup, s) {
      ClockMovesOn(setup, s, horizon);
      var longer := run + [Turn(setup, s)];
      RunGrows(setup, from, run, Turn(setup, s), longer);
      ended := EndsWithin(setup, from, longer, horizon);
    }
  }

  /** A run comes to an end exactly when there is a horizon on the holds its planner asks for. */
  lemma EndsExactly(setup: Setup, from: State)
    requires IsRecorded(setup) && Inv(setup, from)
    ensures Ends(setup, from) <==> exists horizon :: HoldsEndBy(setup, from, horizon)
  {
    if ended :| IsRunFrom(setup, from, ended) && IsOver(setup, Last(ended)) {
      var horizon := LatestHold(ended, |ended|);
      forall run | IsRunFrom(setup, from, run) ensures TimersEndBy(Last(run).timers, horizon) {
        EndIsLast(setup, from, ended, run);
      }
      assert HoldsEndBy(setup, from, horizon);
    }
    if holds :| HoldsEndBy(setup, from, holds) {
      var horizon := Cover(setup, from, holds);
      var ended := EndsWithin(setup, from, [from], horizon);
    }
  }

  // ----- planners whose runs end -----

  /** Asked about recorded messages, the planner never holds past the horizon. */
  ghost predicate HoldsWithin(setup: Setup, horizon: int) {
    forall pending: seq<nat>, current: Current, instant: int {:trigger setup.plan(pending, current, instant)} |
      AreRecorded(setup, pending) ::
      var plan := setup.plan(pending, current, instant);
      plan.Hold? && plan.until.Some? ==> plan.until.value <= horizon
  }

  predicate AreRecorded(setup: Setup, pending: seq<nat>) {
    forall m | m in pending :: m < |setup.arrivals|
  }

  /** Every hold ends at the due time of some pending message, fixed for each message beforehand. */
  ghost predicate HoldsUntilDue(setup: Setup, due: seq<int>) {
    && |due| == |setup.arrivals|
    && forall pending: seq<nat>, current: Current, instant: int {:trigger setup.plan(pending, current, instant)} |
         AreRecorded(setup, pending) ::
         var plan := setup.plan(pending, current, instant);
         plan.Hold? && plan.until.Some? ==> exists m :: m in pending && m < |due| && due[m] == plan.until.value
  }

  lemma {:induction false} WithoutIsWithin(pending: seq<nat>, member: nat)
    ensures forall m | m in Without(pending, member) :: m in pending
  {
    if pending != [] { WithoutIsWithin(pending[1..], member); }
  }

  lemma {:induction false} WithoutAllIsWithin(pending: seq<nat>, members: seq<nat>)
    ensures forall m | m in WithoutAll(pending, members) :: m in pending
    decreases |members|
  {
    if members != [] {
      WithoutIsWithin(pending, members[0]);
      WithoutAllIsWithin(Without(pending, members[0]), members[1..]);
    }
  }

  lemma {:induction false} DeliverAllEndsBy(setup: Setup, s: State, instant: int, horizon: int)
    requires KeepsPromises(setup) && HoldsWithin(setup, horizon)
    requires AreRecorded(setup, s.pending) && TimersEndBy(s.timers, horizon)
    ensures TimersEndBy(DeliverAll(setup, s, instant).timers, horizon)
    decreases |s.pending|
  {
    match setup.plan(s.pending, StateOf(setup.states, instant), instant)
    case Nothing =>
    case Hold(until) =>
    case Deliver(members) =>
      WithoutAllShrinks(s.pending, members);
      WithoutAllIsWithin(s.pending, members);
      DeliverAllEndsBy(setup, Released(s, instant, members), instant, horizon);
  }

  lemma TurnEndsBy(setup: Setup, s: State, horizon: int)
    requires IsRecorded(setup) && Inv(setup, s) && !IsOver(setup, s)
    requires HoldsWithin(setup, horizon) && TimersEndBy(s.timers, horizon)
    ensures TimersEndBy(Turn(setup, s).timers, horizon)
  {
    var instant := Min(Candidates(setup, s));
    var t := TakeIn(setup, s, instant);
    TakeInKeepsMessages(setup, s, instant);
    forall m | m in t.pending ensures m < |setup.arrivals| { InBoth(t, m); }
    forall k | 0 <= k < |t.timers| ensures t.timers[k] <= horizon { assert t.timers[k] in s.timers; }
    DeliverAllEndsBy(setup, t, instant, horizon);
  }

  lemma RunEndsBy(setup: Setup, from: State, run: seq<State>, k: nat, horizon: int)
    requires IsRecorded(setup) && Inv(setup, from) && IsRunFrom(setup, from, run) && k < |run|
    requires HoldsWithin(setup, horizon) && TimersEndBy(from.timers, horizon)
    ensures TimersEndBy(run[k].timers, horizon)
  {
    forall s, t | IsStep(setup, s, t) && TimersEndBy(s.timers, horizon) ensures TimersEndBy(t.timers, horizon) {
      TurnEndsBy(setup, s, horizon);
    }
    RunInduction(setup, from, run, k, (s: State) => TimersEndBy(s.timers, horizon));
  }

  lemma HorizonHolds(setup: Setup, from: State, horizon: int) returns (later: int)
    requires IsRecorded(setup) && Inv(setup, from) && HoldsWithin(setup, horizon)
    ensures HoldsEndBy(setup, from, later)
  {
    later := Latest(from.timers, horizon);
    assert HoldsWithin(setup, later);
    forall run | IsRunFrom(setup, from, run) ensures TimersEndBy(Last(run).timers, later) {
      RunEndsBy(setup, from, run, |run| - 1, later);
    }
  }

  /** Whatever was recorded, the run of a planner with a horizon comes to an end. */
  lemma HorizonEnds(setup: Setup, from: State, horizon: int)
    requires IsRecorded(setup) && Inv(setup, from) && HoldsWithin(setup, horizon)
    ensures Ends(setup, from)
  {
    var later := HorizonHolds(setup, from, horizon);
    EndsExactly(setup, from);
  }

  lemma DueTimesAreHorizon(setup: Setup, due: seq<int>) returns (horizon: int)
    requires HoldsUntilDue(setup, due)
    ensures HoldsWithin(setup, horizon)
  {
    horizon := Latest(due, 0);
  }

  /** So does that of a planner whose holds are due times of pending messages. */
  lemma DueTimesEnd(setup: Setup, from: State, due: seq<int>)
    requires IsRecorded(setup) && Inv(setup, from) && HoldsUntilDue(setup, due)
    ensures Ends(setup, from)
  {
    var horizon := DueTimesAreHorizon(setup, due);
    HorizonEnds(setup, from, horizon);
  }

  // ----- a run without an end -----

  /** One message, and a planner that holds it a moment longer, always. */
  function Procrastinating(): Setup {
    Setup([Arrival(0, Ferret, Action, false)], [], (pending, current, instant) => Hold(Some(instant + 1)))
  }

  /** The message is held until the moment after. */
  predicate StillHolds(s: State) {
    s.index == 1 && s.nextChange == 0 && s.pending == [0] && |s.timers| == 1
  }

  lemma HoldsOnce(setup: Setup, s: State, instant: int)
    requires setup == Procrastinating() && KeepsPromises(setup)
    ensures DeliverAll(setup, s, instant) == s.(timers := s.timers + [instant + 1])
  {}

  lemma FirstHold(setup: Setup)
    requires setup == Procrastinating() && KeepsPromises(setup)
    ensures !IsOver(setup, BEGINNING) && StillHolds(Turn(setup, BEGINNING))
  {
    assert Candidates(setup, BEGINNING) == [0] && ArrivalTimes(setup.arrivals) == [0];
    HoldsOnce(setup, TakeIn(setup, BEGINNING, 0), 0);
  }

  lemma NextHold(setup: Setup, s: State)
    requires setup == Procrastinating() && KeepsPromises(setup) && StillHolds(s)
    ensures !IsOver(setup, s) && StillHolds(Turn(setup, s))
  {
    var instant := s.timers[0];
    assert Candidates(setup, s) == [instant];
    assert s.timers[1..] == [] && Later(s.timers, instant) == [];
    assert s.pending + Range(1, 1) == [0];
    HoldsOnce(setup, TakeIn(setup, s, instant), instant);
  }

  lemma {:induction false} HoldsOn(setup: Setup, run: seq<State>, k: nat)
    requires setup == Procrastinating() && KeepsPromises(setup) && IsRunFrom(setup, BEGINNING, run) && k < |run|
    ensures !IsOver(setup, run[k]) && (k > 0 ==> StillHolds(run[k]))
  {
    FirstHold(setup);
    if k > 0 {
      HoldsOn(setup, run, k - 1);
      if k > 1 { NextHold(setup, run[k - 1]); }
      NextHold(setup, run[k]);
    }
  }

  /** It keeps its promises and never comes to an end. */
  lemma NeverEnds()
    ensures IsRecorded(Procrastinating()) && !Ends(Procrastinating(), BEGINNING)
  {
    var setup := Procrastinating();
    forall run | IsRunFrom(setup, BEGINNING, run) ensures !IsOver(setup, Last(run)) {
      HoldsOn(setup, run, |run| - 1);
    }
  }
}
