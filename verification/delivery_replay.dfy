/** The replay with that planner ends, with every message delivered once, in time and in its sender's order. */
module DeliveryReplay {
  import opened CoalescingReplay
  import opened DeliveryPlanner
  import opened Options
  import opened ReplayLoop

  // ----- the planner keeps its promises -----

  lemma FrontIsPending(arrivals: seq<Arrival>, pending: seq<nat>, members: seq<nat>)
    requires IsFront(arrivals, pending, members)
    ensures multiset(members) <= multiset(pending)
  {
    var waiting := DeliveryOrder(arrivals, pending);
    var kind :| members <= OfKind(arrivals, kind, waiting);
    var of := OfKind(arrivals, kind, waiting);
    assert of == members + of[|members|..];
    OfKindIsPart(arrivals, kind, waiting);
    OrderIsPermutation(arrivals, pending);
  }

  /** The planner only ever delivers pending messages, each once, and holds to a later instant. */
  lemma PlannerKeepsPromises(settings: Settings, arrivals: seq<Arrival>, pending: seq<nat>, current: Current,
                             instant: int)
    ensures var plan := PlanDelivery(settings, arrivals, pending, current, instant);
            && (plan.Hold? && plan.until.Some? ==> plan.until.value > instant)
            && (plan.Deliver? ==> plan.members != [] && multiset(plan.members) <= multiset(pending))
  {
    PlanIsSound(settings, arrivals, pending, current, instant);
    var plan := PlanDelivery(settings, arrivals, pending, current, instant);
    if plan.Deliver? { FrontIsPending(arrivals, pending, plan.members); }
  }

  function ReplaySetup(settings: Settings, arrivals: seq<Arrival>, states: seq<TurnState>): (setup: Setup)
    ensures setup.arrivals == arrivals && setup.states == states && KeepsPromises(setup)
  {
    var setup :=
      Setup(arrivals, states, (pending, current, instant) =>
          PlanDelivery(settings, arrivals, pending, current, instant));
    AllKeepsPromises(settings, arrivals, setup);
    setup
  }

  lemma AllKeepsPromises(settings: Settings, arrivals: seq<Arrival>, setup: Setup)
    requires forall pending: seq<nat>, current: Current,
             instant: int {:trigger setup.plan(pending, current, instant)} ::
               setup.plan(pending, current, instant) == PlanDelivery(settings, arrivals, pending, current, instant)
    ensures KeepsPromises(setup)
  {
    forall pending: seq<nat>, current: Current, instant: int {:trigger setup.plan(pending, current, instant)}
      ensures var plan := setup.plan(pending, current, instant);
              && (plan.Hold? && plan.until.Some? ==> plan.until.value > instant)
              && (plan.Deliver? ==> plan.members != [] && multiset(plan.members) <= multiset(pending))
    {
      PlannerKeepsPromises(settings, arrivals, pending, current, instant);
    }
  }

  /** When each message's hold ends, or for one that is never held, when it comes. */
  function DueTimes(settings: Settings, arrivals: seq<Arrival>): (due: seq<int>)
    ensures |due| == |arrivals|
    ensures forall m | 0 <= m < |arrivals| ::
              due[m] == var hold := HoldUntil(settings, arrivals[m]); if hold.Some? then hold.value else arrivals[m].at
  {
    seq(|arrivals|, m requires 0 <= m < |arrivals| =>
        var hold := HoldUntil(settings, arrivals[m]); if hold.Some? then hold.value else arrivals[m].at)
  }

  lemma PlannerHoldsUntilDue(settings: Settings, arrivals: seq<Arrival>, states: seq<TurnState>)
    ensures HoldsUntilDue(ReplaySetup(settings, arrivals, states), DueTimes(settings, arrivals))
  {
    var setup, due := ReplaySetup(settings, arrivals, states), DueTimes(settings, arrivals);
    forall pending: seq<nat>, current: Current, instant: int | AreRecorded(setup, pending)
      ensures var plan := PlanDelivery(settings, arrivals, pending, current, instant);
              plan.Hold? && plan.until.Some? ==> exists m :: m in pending && m < |due| && due[m] == plan.until.value
    {
      PlanIsSound(settings, arrivals, pending, current, instant);
      var plan := PlanDelivery(settings, arrivals, pending, current, instant);
      if plan.Hold? {
        var m :| m in pending && HoldUntil(settings, MessageOf(arrivals, m)) == plan.until;
        assert m < |due| && due[m] == plan.until.value;
      }
    }
  }

  /** Whatever was recorded and however the knobs are set, the replay comes to an end. */
  lemma ReplayEnds(settings: Settings, arrivals: seq<Arrival>, states: seq<TurnState>)
    requires Ordered(ArrivalTimes(arrivals)) && Ordered(ChangeTimes(states))
    ensures var setup := ReplaySetup(settings, arrivals, states);
            IsRecorded(setup) && Ends(setup, BEGINNING)
  {
    var setup := ReplaySetup(settings, arrivals, states);
    PlannerHoldsUntilDue(settings, arrivals, states);
    BeginningIsSound(setup);
    DueTimesEnd(setup, BEGINNING, DueTimes(settings, arrivals));
  }

  // ----- nothing waits longer than its hold -----

  /** A message may wait until its hold ends; one that is never held, or whose hold is over when it comes, not at
      all. */
  function Deadline(settings: Settings, arrival: Arrival): int {
    var hold := HoldUntil(settings, arrival);
    if hold.Some? && hold.value > arrival.at then hold.value else arrival.at
  }

  ghost predicate InTime(settings: Settings, arrivals: seq<Arrival>, members: seq<nat>, instant: int) {
    forall m | m in members :: instant <= Deadline(settings, MessageOf(arrivals, m))
  }

  ghost predicate AllInTime(settings: Settings, arrivals: seq<Arrival>, log: seq<Batch>) {
    forall k | 0 <= k < |log| :: InTime(settings, arrivals, log[k].members, log[k].at)
  }

  /** A timer is set that goes off by the time the message must go. */
  ghost predicate IsTimed(settings: Settings, arrivals: seq<Arrival>, m: nat, timers: seq<int>) {
    exists t :: t in timers && t <= Deadline(settings, MessageOf(arrivals, m))
  }

  ghost predicate AllTimed(settings: Settings, arrivals: seq<Arrival>, s: State) {
    forall m | m in s.pending :: IsTimed(settings, arrivals, m, s.timers)
  }

  lemma InTimeLater(settings: Settings, arrivals: seq<Arrival>, log: seq<Batch>, batch: Batch)
    requires AllInTime(settings, arrivals, log) && InTime(settings, arrivals, batch.members, batch.at)
    ensures AllInTime(settings, arrivals, log + [batch])
  {}

  /** What the planner leaves pending it has set a timer for. */
  lemma {:induction false} DeliverAllInTime(settings: Settings, arrivals: seq<Arrival>, setup: Setup, s: State,
                                            instant: int)
    requires setup == ReplaySetup(settings, arrivals, setup.states)
    requires AllInTime(settings, arrivals, s.log) && InTime(settings, arrivals, s.pending, instant)
    ensures var t := DeliverAll(setup, s, instant);
            AllInTime(settings, arrivals, t.log) && AllTimed(settings, arrivals, t)
    decreases |s.pending|
  {
    var current := StateOf(setup.states, instant);
    PlanIsSound(settings, arrivals, s.pending, current, instant);
    match setup.plan(s.pending, current, instant)
    case Nothing =>
    case Hold(until) => HoldIsTimed(settings, arrivals, s, instant, until.value);
    case Deliver(members) =>
      WithoutAllShrinks(s.pending, members);
      WithoutAllIsWithin(s.pending, members);
      forall m | m in members ensures m in s.pending { assert m in multiset(members); }
      InTimeLater(settings, arrivals, s.log, Batch(instant, members));
      DeliverAllInTime(settings, arrivals, setup, Released(s, instant, members), instant);
  }

  lemma HoldIsTimed(settings: Settings, arrivals: seq<Arrival>, s: State, instant: int, until: int)
    requires IsHeld(settings, arrivals, s.pending, instant, until)
    ensures AllTimed(settings, arrivals, s.(timers := s.timers + [until]))
  {
    var t := s.(timers := s.timers + [until]);
    forall m | m in t.pending ensures IsTimed(settings, arrivals, m, t.timers) {
      assert HeldAtLeast(settings, arrivals, m, until);
      assert until in t.timers && until <= Deadline(settings, MessageOf(arrivals, m));
    }
  }

  /** The clock stops at a message's own arrival, and no later than any timer. */
  lemma NextIsInTime(settings: Settings, arrivals: seq<Arrival>, setup: Setup, s: State, instant: int)
    requires IsRecorded(setup) && Inv(setup, s) && setup.arrivals == arrivals && AllTimed(settings, arrivals, s)
    requires !IsOver(setup, s) && instant == Min(Candidates(setup, s))
    ensures InTime(settings, arrivals, TakeIn(setup, s, instant).pending, instant)
  {
    InstantIsLeast(setup, s, instant);
    var times := ArrivalTimes(arrivals);
    NoneIsBefore(times, s.index, instant);
    var t := TakeIn(setup, s, instant);
    forall m | m in t.pending ensures instant <= Deadline(settings, MessageOf(arrivals, m)) {
      if m in s.pending {
        var timer :| timer in s.timers && timer <= Deadline(settings, MessageOf(arrivals, m));
        LeastTimer(setup, s, instant, timer);
      } else {
        assert m in Range(s.index, t.index);
        assert times[m] >= instant;
      }
    }
  }

  lemma LeastTimer(setup: Setup, s: State, instant: int, timer: int)
    requires timer in s.timers && !IsOver(setup, s) && instant == Min(Candidates(setup, s))
    ensures instant <= timer
  {
    var least := Min(s.timers);
    assert least in Candidates(setup, s);
  }

  lemma TurnInTime(settings: Settings, arrivals: seq<Arrival>, setup: Setup, s: State, t: State)
    requires IsRecorded(setup) && Inv(setup, s) && !IsOver(setup, s)
    requires setup == ReplaySetup(settings, arrivals, setup.states)
    requires AllInTime(settings, arrivals, s.log) && AllTimed(settings, arrivals, s)
    requires t == Turn(setup, s)
    ensures AllInTime(settings, arrivals, t.log) && AllTimed(settings, arrivals, t)
  {
    var instant := Min(Candidates(setup, s));
    NextIsInTime(settings, arrivals, setup, s, instant);
    DeliverAllInTime(settings, arrivals, setup, TakeIn(setup, s, instant), instant);
  }

  ghost predicate KeepsTime(settings: Settings, arrivals: seq<Arrival>, s: State) {
    AllInTime(settings, arrivals, s.log) && AllTimed(settings, arrivals, s)
  }

  lemma RunInTime(settings: Settings, arrivals: seq<Arrival>, setup: Setup, run: seq<State>, k: nat)
    requires IsRecorded(setup) && setup == ReplaySetup(settings, arrivals, setup.states)
    requires IsRun(setup, run) && k < |run|
    ensures KeepsTime(settings, arrivals, run[k])
  {
    BeginningIsSound(setup);
    forall s, t | IsStep(setup, s, t) && KeepsTime(settings, arrivals, s) ensures KeepsTime(settings, arrivals, t) {
      TurnInTime(settings, arrivals, setup, s, t);
    }
    RunInduction(setup, BEGINNING, run, k, s => KeepsTime(settings, arrivals, s));
  }

  /** When the replay is over nothing is pending: whatever still waited would have a timer. */
  lemma NothingIsLeft(settings: Settings, arrivals: seq<Arrival>, setup: Setup, s: State)
    requires AllTimed(settings, arrivals, s) && IsOver(setup, s)
    ensures s.pending == []
  {
    if s.pending != [] { TimerIsSet(settings, arrivals, setup, s); }
  }

  lemma TimerIsSet(settings: Settings, arrivals: seq<Arrival>, setup: Setup, s: State)
    requires AllTimed(settings, arrivals, s) && s.pending != []
    ensures Candidates(setup, s) != []
  {
    assert IsTimed(settings, arrivals, s.pending[0], s.timers);
  }

  /** Every message is delivered exactly once, not before it came and not after its deadline. */
  lemma EveryMessageInTime(settings: Settings, arrivals: seq<Arrival>, states: seq<TurnState>, run: seq<State>, m: nat)
    requires Ordered(ArrivalTimes(arrivals)) && Ordered(ChangeTimes(states)) && m < |arrivals|
    requires var setup := ReplaySetup(settings, arrivals, states); IsRun(setup, run) && IsOver(setup, Last(run))
    ensures multiset(Delivered(Last(run).log))[m] == 1
    ensures forall batch | batch in Last(run).log && m in batch.members ::
              arrivals[m].at <= batch.at <= Deadline(settings, arrivals[m])
  {
    var setup, s := ReplaySetup(settings, arrivals, states), Last(run);
    RunInTime(settings, arrivals, setup, run, |run| - 1);
    BeginningIsSound(setup);
    RunKeeps(setup, BEGINNING, run, |run| - 1);
    NothingIsLeft(settings, arrivals, setup, s);
    RunEndsDelivered(setup, s, m);
    forall batch | batch in s.log && m in batch.members
        ensures arrivals[m].at <= batch.at <= Deadline(settings, arrivals[m]) {
      var k :| 0 <= k < |s.log| && s.log[k] == batch;
      assert IsTimely(setup, s.instants, s.log[k]) && InTime(settings, arrivals, s.log[k].members, s.log[k].at);
    }
  }

  // ----- in the order they came -----

  predicate Ascends(pending: seq<nat>) {
    forall i, j | 0 <= i < j < |pending| :: pending[i] < pending[j]
  }

  predicate Below(pending: seq<nat>, n: nat) {
    forall k | 0 <= k < |pending| :: pending[k] < n
  }

  lemma {:induction false} OfKindAdds(arrivals: seq<Arrival>, kind: Kind, a: seq<nat>, b: seq<nat>)
    ensures OfKind(arrivals, kind, a + b) == OfKind(arrivals, kind, a) + OfKind(arrivals, kind, b)
    decreases |a|
  {
    if a == [] {
      assert a + b == b;
    } else {
      var m, rest := a[0], a[1..];
      OfKindAdds(arrivals, kind, rest, b);
      OfKindOfCons(arrivals, kind, m, rest);
      OfKindOfCons(arrivals, kind, m, rest + b);
      assert a == [m] + rest && a + b == [m] + (rest + b);
    }
  }

  /** The first of its kind to come is sorted before the others of its kind. */
  lemma {:induction false} InsertedFirst(arrivals: seq<Arrival>, kind: Kind, m: nat, sorted: seq<nat>)
    requires forall x | x in sorted :: MessageOf(arrivals, m).at <= MessageOf(arrivals, x).at
    ensures OfKind(arrivals, kind, Insert(arrivals, m, sorted)) == OfKind(arrivals, kind, [m] + sorted)
  {
    if sorted != [] && Precedes(MessageOf(arrivals, sorted[0]), MessageOf(arrivals, m)) {
      InsertedFirst(arrivals, kind, m, sorted[1..]);
      assert ([m] + sorted)[1..] == sorted && ([m] + sorted[1..])[1..] == sorted[1..];
      var longer := [sorted[0]] + Insert(arrivals, m, sorted[1..]);
      assert longer[1..] == Insert(arrivals, m, sorted[1..]);
    }
  }

  /** Of messages pending in the order they came, each sender's are to go in that order. */
  lemma {:induction false} OrderKeepsKinds(arrivals: seq<Arrival>, kind: Kind, pending: seq<nat>)
    requires Ordered(ArrivalTimes(arrivals)) && Ascends(pending) && Below(pending, |arrivals|)
    ensures OfKind(arrivals, kind, DeliveryOrder(arrivals, pending)) == OfKind(arrivals, kind, pending)
  {
    if pending != [] {
      var m, rest := pending[0], DeliveryOrder(arrivals, pending[1..]);
      OrderKeepsKinds(arrivals, kind, pending[1..]);
      OrderIsPermutation(arrivals, pending[1..]);
      forall x | x in rest ensures MessageOf(arrivals, m).at <= MessageOf(arrivals, x).at {
        assert x in multiset(rest);
        CameLater(arrivals, pending, x);
      }
      InsertedFirst(arrivals, kind, m, rest);
      OfKindAdds(arrivals, kind, [m], rest);
      OfKindAdds(arrivals, kind, [m], pending[1..]);
      assert pending == [m] + pending[1..];
    }
  }

  lemma CameLater(arrivals: seq<Arrival>, pending: seq<nat>, x: nat)
    requires Ordered(ArrivalTimes(arrivals)) && Ascends(pending) && Below(pending, |arrivals|)
    requires pending != [] && x in pending[1..]
    ensures MessageOf(arrivals, pending[0]).at <= MessageOf(arrivals, x).at
  {
    var times := ArrivalTimes(arrivals);
    var k :| 0 <= k < |pending| - 1 && pending[1..][k] == x;
    assert pending[0] < pending[k + 1] == x;
    assert times[pending[0]] <= times[x];
  }

  lemma {:induction false} WithoutFirstOfKind(arrivals: seq<Arrival>, kind: Kind, other: Kind, pending: seq<nat>,
                                              m: nat)
    requires OfKind(arrivals, kind, pending) != [] && OfKind(arrivals, kind, pending)[0] == m
    ensures OfKind(arrivals, other, Without(pending, m)) ==
            if other == kind then OfKind(arrivals, other, pending)[1..] else OfKind(arrivals, other, pending)
  {
    var first, rest := pending[0], pending[1..];
    if MessageOf(arrivals, first).kind != kind {
      OfKindIsPart(arrivals, kind, rest);
      assert m in OfKind(arrivals, kind, rest);
      WithoutFirstOfKind(arrivals, kind, other, rest, m);
      OfKindOfCons(arrivals, other, first, Without(rest, m));
    }
  }

  lemma OfKindOfCons(arrivals: seq<Arrival>, kind: Kind, m: nat, rest: seq<nat>)
    ensures OfKind(arrivals, kind, [m] + rest) ==
            (if MessageOf(arrivals, m).kind == kind then [m] else []) + OfKind(arrivals, kind, rest)
  {
    assert ([m] + rest)[1..] == rest;
  }

  lemma {:induction false} WithoutFront(arrivals: seq<Arrival>, kind: Kind, other: Kind, pending: seq<nat>,
                                        members: seq<nat>)
    requires members <= OfKind(arrivals, kind, pending)
    ensures OfKind(arrivals, other, pending) ==
            OfKind(arrivals, other, members) + OfKind(arrivals, other, WithoutAll(pending, members))
    decreases |members|
  {
    if members != [] {
      var m, rest := members[0], members[1..];
      var shorter := Without(pending, m);
      FrontGoesOn(arrivals, kind, pending, members);
      WithoutFront(arrivals, kind, other, shorter, rest);
      FirstOfOther(arrivals, kind, other, pending, m);
      OfKindAdds(arrivals, other, [m], rest);
      assert members == [m] + rest;
      Associates(OfKind(arrivals, other, [m]), OfKind(arrivals, other, rest),
                 OfKind(arrivals, other, WithoutAll(shorter, rest)));
    }
  }

  lemma FrontGoesOn(arrivals: seq<Arrival>, kind: Kind, pending: seq<nat>, members: seq<nat>)
    requires members != [] && members <= OfKind(arrivals, kind, pending)
    ensures OfKind(arrivals, kind, pending)[0] == members[0]
    ensures members[1..] <= OfKind(arrivals, kind, Without(pending, members[0]))
  {
    WithoutFirstOfKind(arrivals, kind, kind, pending, members[0]);
  }

  /** What taking the first of one kind out leaves of another, or of that one. */
  lemma FirstOfOther(arrivals: seq<Arrival>, kind: Kind, other: Kind, pending: seq<nat>, m: nat)
    requires OfKind(arrivals, kind, pending) != [] && OfKind(arrivals, kind, pending)[0] == m
    ensures OfKind(arrivals, other, pending) ==
            OfKind(arrivals, other, [m]) + OfKind(arrivals, other, Without(pending, m))
  {
    OfKindIsPart(arrivals, kind, pending);
    assert m in OfKind(arrivals, kind, pending);
    WithoutFirstOfKind(arrivals, kind, other, pending, m);
    OfKindOfCons(arrivals, other, m, []);
    if other == kind { HeadAndTail(OfKind(arrivals, kind, pending)); }
  }

  lemma HeadAndTail(messages: seq<nat>)
    requires messages != []
    ensures messages == [messages[0]] + messages[1..] && [messages[0]] + [] == [messages[0]]
  {}

  lemma {:induction false} WithoutAscends(pending: seq<nat>, m: nat)
    requires Ascends(pending)
    ensures Ascends(Without(pending, m))
  {
    if pending != [] && pending[0] != m {
      WithoutAscends(pending[1..], m);
      WithoutIsWithin(pending[1..], m);
      var rest := Without(pending[1..], m);
      forall k | 0 <= k < |rest| ensures pending[0] < rest[k] { assert rest[k] in pending[1..]; }
    }
  }

  lemma {:induction false} WithoutAllAscends(pending: seq<nat>, members: seq<nat>)
    requires Ascends(pending)
    ensures Ascends(WithoutAll(pending, members))
    decreases |members|
  {
    if members != [] {
      WithoutAscends(pending, members[0]);
      WithoutAllAscends(Without(pending, members[0]), members[1..]);
    }
  }

  /** Each sender's messages are delivered, and then pending, in the order they came, with none left out. */
  ghost predicate InOrder(arrivals: seq<Arrival>, s: State) {
    && Ascends(s.pending) && Below(s.pending, s.index)
    && forall kind :: OfKind(arrivals, kind, Delivered(s.log)) + OfKind(arrivals, kind, s.pending)
                      == OfKind(arrivals, kind, Range(0, s.index))
  }

  lemma ReleaseInOrder(arrivals: seq<Arrival>, s: State, instant: int, members: seq<nat>)
    requires Ordered(ArrivalTimes(arrivals)) && s.index <= |arrivals| && InOrder(arrivals, s)
    requires IsFront(arrivals, s.pending, members)
    ensures InOrder(arrivals, Released(s, instant, members))
  {
    var t := Released(s, instant, members);
    var kind :| members <= OfKind(arrivals, kind, DeliveryOrder(arrivals, s.pending));
    OrderKeepsKinds(arrivals, kind, s.pending);
    WithoutAllAscends(s.pending, members);
    WithoutAllIsWithin(s.pending, members);
    forall k | 0 <= k < |t.pending| ensures t.pending[k] < s.index { assert t.pending[k] in s.pending; }
    assert t.log[..|t.log| - 1] == s.log;
    forall other
      ensures OfKind(arrivals, other, Delivered(t.log)) + OfKind(arrivals, other, t.pending)
              == OfKind(arrivals, other, Range(0, s.index))
    {
      WithoutFront(arrivals, kind, other, s.pending, members);
      OfKindAdds(arrivals, other, Delivered(s.log), members);
      Associates(OfKind(arrivals, other, Delivered(s.log)), OfKind(arrivals, other, members),
                 OfKind(arrivals, other, t.pending));
    }
  }

  lemma Associates(a: seq<nat>, b: seq<nat>, c: seq<nat>)
    ensures a + (b + c) == (a + b) + c
  {}

  lemma {:induction false} DeliverAllInOrder(settings: Settings, arrivals: seq<Arrival>, setup: Setup, s: State,
                                             instant: int)
    requires setup == ReplaySetup(settings, arrivals, setup.states) && Ordered(ArrivalTimes(arrivals))
    requires s.index <= |arrivals| && InOrder(arrivals, s)
    ensures InOrder(arrivals, DeliverAll(setup, s, instant))
    decreases |s.pending|
  {
    var current := StateOf(setup.states, instant);
    PlanIsSound(settings, arrivals, s.pending, current, instant);
    match setup.plan(s.pending, current, instant)
    case Nothing =>
    case Hold(until) => assert InOrder(arrivals, s.(timers := s.timers + [until.value]));
    case Deliver(members) =>
      WithoutAllShrinks(s.pending, members);
      ReleaseInOrder(arrivals, s, instant, members);
      DeliverAllInOrder(settings, arrivals, setup, Released(s, instant, members), instant);
  }

  lemma TakeInInOrder(arrivals: seq<Arrival>, setup: Setup, s: State, instant: int)
    requires setup.arrivals == arrivals && InRange(setup, s) && InOrder(arrivals, s)
    ensures InOrder(arrivals, TakeIn(setup, s, instant))
  {
    var t := TakeIn(setup, s, instant);
    var range := Range(s.index, t.index);
    RangeGrows(s.index, t.index);
    forall kind
      ensures OfKind(arrivals, kind, Delivered(t.log)) + OfKind(arrivals, kind, t.pending)
              == OfKind(arrivals, kind, Range(0, t.index))
    {
      OfKindAdds(arrivals, kind, s.pending, range);
      OfKindAdds(arrivals, kind, Range(0, s.index), range);
      Associates(OfKind(arrivals, kind, Delivered(t.log)), OfKind(arrivals, kind, s.pending),
                 OfKind(arrivals, kind, range));
    }
  }

  lemma RunInOrder(settings: Settings, arrivals: seq<Arrival>, setup: Setup, run: seq<State>, k: nat)
    requires setup == ReplaySetup(settings, arrivals, setup.states) && Ordered(ArrivalTimes(arrivals))
    requires IsRecorded(setup) && IsRun(setup, run) && k < |run|
    ensures InOrder(arrivals, run[k])
  {
    BeginningIsSound(setup);
    forall s, t | IsStep(setup, s, t) && InOrder(arrivals, s) ensures InOrder(arrivals, t) {
      TurnInOrder(settings, arrivals, setup, s, t);
    }
    RunInduction(setup, BEGINNING, run, k, s => InOrder(arrivals, s));
  }

  lemma TurnInOrder(settings: Settings, arrivals: seq<Arrival>, setup: Setup, s: State, t: State)
    requires setup == ReplaySetup(settings, arrivals, setup.states) && Ordered(ArrivalTimes(arrivals))
    requires InRange(setup, s) && !IsOver(setup, s) && InOrder(arrivals, s) && t == Turn(setup, s)
    ensures InOrder(arrivals, t)
  {
    var instant := Min(Candidates(setup, s));
    TakeInInOrder(arrivals, setup, s, instant);
    DeliverAllInOrder(settings, arrivals, setup, TakeIn(setup, s, instant), instant);
  }

  /** When the replay is over, what each sender sent has been delivered in the order it came. */
  lemma EachSenderInOrder(settings: Settings, arrivals: seq<Arrival>, states: seq<TurnState>, run: seq<State>,
                          kind: Kind)
    requires Ordered(ArrivalTimes(arrivals)) && Ordered(ChangeTimes(states))
    requires var setup := ReplaySetup(settings, arrivals, states); IsRun(setup, run) && IsOver(setup, Last(run))
    ensures OfKind(arrivals, kind, Delivered(Last(run).log)) == OfKind(arrivals, kind, Range(0, |arrivals|))
  {
    var setup, s := ReplaySetup(settings, arrivals, states), Last(run);
    RunInTime(settings, arrivals, setup, run, |run| - 1);
    RunInOrder(settings, arrivals, setup, run, |run| - 1);
    BeginningIsSound(setup);
    RunKeeps(setup, BEGINNING, run, |run| - 1);
    NothingIsLeft(settings, arrivals, setup, s);
    RunEndsDelivered(setup, s, 0);
  }

  // ----- the figures -----

  ghost predicate AtMost(waits: seq<int>, most: int) {
    forall k | 0 <= k < |waits| :: waits[k] <= most
  }

  function NotBelowZero(n: int): nat {
    if n > 0 then n else 0
  }

  /** Blockers never wait, actions at most their window, news at most its cap. */
  ghost predicate WaitsWithin(settings: Settings, latencies: Latencies) {
    && AtMost(latencies.blocker, 0)
    && AtMost(latencies.action, NotBelowZero(settings.actionWindow))
    && AtMost(latencies.fyi, NotBelowZero(settings.fyiMaxHold))
  }

  lemma {:induction false} MembersWaitWithin(settings: Settings, setup: Setup, latencies: Latencies, instant: int,
                                             members: seq<nat>)
    requires WaitsWithin(settings, latencies) && InTime(settings, setup.arrivals, members, instant)
    ensures WaitsWithin(settings, AddWaits(setup, latencies, instant, members))
    decreases |members|
  {
    if members != [] {
      var front, m := members[..|members| - 1], members[|members| - 1];
      assert forall x | x in front :: x in members;
      MembersWaitWithin(settings, setup, latencies, instant, front);
      assert m in members;
      OneWaitsWithin(settings, setup, AddWaits(setup, latencies, instant, front), instant, m);
    }
  }

  lemma OneWaitsWithin(settings: Settings, setup: Setup, latencies: Latencies, instant: int, m: nat)
    requires WaitsWithin(settings, latencies) && instant <= Deadline(settings, MessageOf(setup.arrivals, m))
    ensures WaitsWithin(settings, AddWait(setup, latencies, instant, m))
  {}

  /** Of any log in time, no wait that is reported exceeds what its label allows. */
  lemma {:induction false} WaitsAreBounded(settings: Settings, setup: Setup, log: seq<Batch>)
    requires AllInTime(settings, setup.arrivals, log)
    ensures WaitsWithin(settings, FiguresOf(setup, log).latencies)
    decreases |log|
  {
    if log != [] {
      var last := log[|log| - 1];
      WaitsAreBounded(settings, setup, log[..|log| - 1]);
      MembersWaitWithin(settings, setup, FiguresOf(setup, log[..|log| - 1]).latencies, last.at, last.members);
    }
  }

  /** The replay as it is run, on any recording and any knobs. */
  method ReplayMessages(settings: Settings, arrivals: seq<Arrival>, states: seq<TurnState>) returns (replay: Replay)
    requires Ordered(ArrivalTimes(arrivals)) && Ordered(ChangeTimes(states))
    ensures replay.Valid() && replay.setup == ReplaySetup(settings, arrivals, states)
    ensures IsOver(replay.setup, replay.View()) && replay.pending == []
    ensures exists run :: IsRun(replay.setup, run) && replay.View() == Last(run)
    ensures WaitsWithin(settings, replay.latencies)
  {
    var setup := ReplaySetup(settings, arrivals, states);
    replay := new Replay(setup);
    PlannerHoldsUntilDue(settings, arrivals, states);
    ghost var within := DueTimesAreHorizon(setup, DueTimes(settings, arrivals));
    replay.Run(within);
    ghost var run :| IsRunFrom(setup, BEGINNING, run) && replay.View() == Last(run);
    RunInTime(settings, arrivals, setup, run, |run| - 1);
    NothingIsLeft(settings, arrivals, setup, replay.View());
    WaitsAreBounded(settings, setup, replay.log);
    assert IsRun(setup, run);
  }
}
