/** When the planner holds and what it delivers, said of the messages themselves, and what that means for whole
    replays. */
module DeliveryRules {
  import opened CoalescingReplay
  import opened DeliveryPlanner
  import opened DeliveryReplay
  import opened Options
  import opened ReplayLoop

  // ----- one decision -----

  /** When the window of a ferret's message closes: the cap for news, the window for an action. */
  function Closing(settings: Settings, arrival: Arrival): int {
    if arrival.urgency == Fyi then arrival.at + settings.fyiMaxHold else arrival.at + settings.actionWindow
  }

  /** A ferret's message that must wait: combining is on, it is neither a question nor a blocker, its window is still
      open, and, if it is news, the receiver has not ended a turn since it came. */
  predicate MustWait(settings: Settings, arrival: Arrival, current: Current, instant: int) {
    && arrival.kind == Ferret && settings.coalesce && !arrival.question && arrival.urgency != Blocker
    && instant < Closing(settings, arrival)
    && !(arrival.urgency == Fyi && current.to == "your-turn" && arrival.at < current.since)
  }

  lemma DueMustNotWait(settings: Settings, arrival: Arrival, current: Current, instant: int)
    requires arrival.kind == Ferret
    ensures IsDue(settings, arrival, current, instant) <==> !MustWait(settings, arrival, current, instant)
  {}

  lemma SomeDueExactly(settings: Settings, arrivals: seq<Arrival>, pending: seq<nat>, ferrets: seq<nat>,
                       current: Current,
                       instant: int)
    requires forall m :: m in ferrets <==> m in pending && MessageOf(arrivals, m).kind == Ferret
    ensures SomeDue(settings, arrivals, ferrets, current, instant) <==>
            exists m :: m in pending && MessageOf(arrivals, m).kind == Ferret
                        && !MustWait(settings, MessageOf(arrivals, m), current, instant)
  {
    forall m | m in ferrets
      ensures IsDue(settings, MessageOf(arrivals, m), current, instant)
              <==> !MustWait(settings, MessageOf(arrivals, m), current, instant)
    {
      DueMustNotWait(settings, MessageOf(arrivals, m), current, instant);
    }
  }

  /** The kinds of what is pending, as the planner sees them. */
  lemma KindsPending(arrivals: seq<Arrival>, kind: Kind, pending: seq<nat>, of: seq<nat>)
    requires of == OfKind(arrivals, kind, DeliveryOrder(arrivals, pending))
    ensures forall m :: m in of <==> m in pending && MessageOf(arrivals, m).kind == kind
  {
    var waiting := DeliveryOrder(arrivals, pending);
    OrderIsPermutation(arrivals, pending);
    OfKindIsPart(arrivals, kind, waiting);
    forall m ensures m in waiting <==> m in pending { assert m in multiset(waiting) <==> m in multiset(pending); }
  }

  predicate HasKind(arrivals: seq<Arrival>, pending: seq<nat>, kind: Kind) {
    exists m :: m in pending && MessageOf(arrivals, m).kind == kind
  }

  ghost predicate HasDue(settings: Settings, arrivals: seq<Arrival>, pending: seq<nat>, current: Current,
                         instant: int) {
    exists m :: m in pending && MessageOf(arrivals, m).kind == Ferret
                && !MustWait(settings, MessageOf(arrivals, m), current, instant)
  }

  /** The decision by what is pending: whether a person's message is, whether a ferret's is that need not wait, whether
      the daemon's is. */
  lemma DecidesBy(settings: Settings, arrivals: seq<Arrival>, pending: seq<nat>, current: Current, instant: int,
                  owners: seq<nat>, ferrets: seq<nat>, daemons: seq<nat>)
    requires owners == OfKind(arrivals, Owner, DeliveryOrder(arrivals, pending))
    requires ferrets == OfKind(arrivals, Ferret, DeliveryOrder(arrivals, pending))
    requires daemons == OfKind(arrivals, Daemon, DeliveryOrder(arrivals, pending))
    ensures PlanDelivery(settings, arrivals, pending, current, instant) ==
            if pending == [] then Nothing else Decide(settings, arrivals, owners, ferrets, daemons, current, instant)
    ensures owners != [] <==> HasKind(arrivals, pending, Owner)
    ensures SomeDue(settings, arrivals, ferrets, current, instant) <==>
            HasDue(settings, arrivals, pending, current, instant)
    ensures daemons != [] <==> HasKind(arrivals, pending, Daemon)
  {
    KindsPending(arrivals, Owner, pending, owners);
    KindsPending(arrivals, Ferret, pending, ferrets);
    KindsPending(arrivals, Daemon, pending, daemons);
    SomeDueExactly(settings, arrivals, pending, ferrets, current, instant);
    OrderIsPermutation(arrivals, pending);
    assert |multiset(DeliveryOrder(arrivals, pending))| == |multiset(pending)|;
    assert owners != [] ==> owners[0] in owners;
    assert daemons != [] ==> daemons[0] in daemons;
  }

  /** The planner holds exactly when something is pending and all of it must wait. */
  lemma HoldsExactly(settings: Settings, arrivals: seq<Arrival>, pending: seq<nat>, current: Current, instant: int)
    ensures PlanDelivery(settings, arrivals, pending, current, instant).Hold? <==>
            pending != [] && forall m | m in pending :: MustWait(settings, MessageOf(arrivals, m), current, instant)
  {
    var waiting := DeliveryOrder(arrivals, pending);
    DecidesBy(settings, arrivals, pending, current, instant, OfKind(arrivals, Owner, waiting),
              OfKind(arrivals, Ferret, waiting), OfKind(arrivals, Daemon, waiting));
    if pending != [] { WaitsByKind(settings, arrivals, pending, current, instant); }
  }

  lemma WaitsByKind(settings: Settings, arrivals: seq<Arrival>, pending: seq<nat>, current: Current, instant: int)
    ensures (forall m | m in pending :: MustWait(settings, MessageOf(arrivals, m), current, instant)) <==>
            !HasKind(arrivals, pending, Owner) && !HasKind(arrivals, pending, Daemon)
            && !HasDue(settings, arrivals, pending, current, instant)
  {}

  /** And then until the first window closes. */
  lemma HoldsUntilFirstCloses(settings: Settings, arrivals: seq<Arrival>, pending: seq<nat>, current: Current,
                              instant: int)
    requires PlanDelivery(settings, arrivals, pending, current, instant).Hold?
    ensures var until := PlanDelivery(settings, arrivals, pending, current, instant).until;
            && until.Some? && (forall m | m in pending :: until.value <= Closing(settings, MessageOf(arrivals, m)))
            && exists m :: m in pending && until.value == Closing(settings, MessageOf(arrivals, m))
  {
    PlanIsSound(settings, arrivals, pending, current, instant);
    var until := PlanDelivery(settings, arrivals, pending, current, instant).until.value;
    forall m | m in pending ensures until <= Closing(settings, MessageOf(arrivals, m)) {
      assert HeldAtLeast(settings, arrivals, m, until);
    }
    var m :| m in pending && HoldUntil(settings, MessageOf(arrivals, m)) == Some(until);
    assert until == Closing(settings, MessageOf(arrivals, m));
  }

  /** What is pending is in the order it came, as every replay keeps it. */
  predicate InArrivalOrder(arrivals: seq<Arrival>, pending: seq<nat>) {
    Ordered(ArrivalTimes(arrivals)) && Ascends(pending) && Below(pending, |arrivals|)
  }

  /** A person's message goes before all else, alone, the first to come first. */
  lemma PersonGoesFirst(settings: Settings, arrivals: seq<Arrival>, pending: seq<nat>, current: Current, instant: int)
    requires InArrivalOrder(arrivals, pending) && HasKind(arrivals, pending, Owner)
    ensures exists m :: PlanDelivery(settings, arrivals, pending, current, instant) == Deliver([m])
                        && IsFirst(arrivals, pending, Owner, m)
  {
    var waiting := DeliveryOrder(arrivals, pending);
    DecidesBy(settings, arrivals, pending, current, instant, OfKind(arrivals, Owner, waiting),
              OfKind(arrivals, Ferret, waiting), OfKind(arrivals, Daemon, waiting));
    OrderKeepsKinds(arrivals, Owner, pending);
    FirstOfKind(arrivals, pending, Owner);
  }

  /** The first of its kind to have come. */
  predicate IsFirst(arrivals: seq<Arrival>, pending: seq<nat>, kind: Kind, m: nat) {
    && m in pending && MessageOf(arrivals, m).kind == kind
    && forall x | x in pending && MessageOf(arrivals, x).kind == kind :: m <= x
  }

  lemma {:induction false} FirstOfKind(arrivals: seq<Arrival>, pending: seq<nat>, kind: Kind)
    requires Ascends(pending) && HasKind(arrivals, pending, kind)
    ensures OfKind(arrivals, kind, pending) != []
            && IsFirst(arrivals, pending, kind, OfKind(arrivals, kind, pending)[0])
  {
    if MessageOf(arrivals, pending[0]).kind != kind {
      var m :| m in pending && MessageOf(arrivals, m).kind == kind;
      assert m in pending[1..];
      FirstOfKind(arrivals, pending[1..], kind);
    }
  }

  /** With no person's message pending, a ferret's that need not wait takes along all the ferrets', in the order they
      came, up to the size of a batch; one alone when combining is off. */
  lemma DueTakesAllAlong(settings: Settings, arrivals: seq<Arrival>, pending: seq<nat>, current: Current, instant: int)
    requires InArrivalOrder(arrivals, pending) && !HasKind(arrivals, pending, Owner)
    requires HasDue(settings, arrivals, pending, current, instant)
    ensures var plan, ferrets := PlanDelivery(settings, arrivals, pending, current, instant),
            OfKind(arrivals, Ferret, pending);
            var size: nat := if settings.coalesce && settings.batchMax >= 1 then settings.batchMax else 1;
            && plan.Deliver? && plan.members <= ferrets
            && |plan.members| == if |ferrets| < size then |ferrets| else size
  {
    var waiting := DeliveryOrder(arrivals, pending);
    DecidesBy(settings, arrivals, pending, current, instant, OfKind(arrivals, Owner, waiting),
              OfKind(arrivals, Ferret, waiting), OfKind(arrivals, Daemon, waiting));
    OrderKeepsKinds(arrivals, Ferret, pending);
    var m :| m in pending && MessageOf(arrivals, m).kind == Ferret
             && !MustWait(settings, MessageOf(arrivals, m), current, instant);
    FirstOfKind(arrivals, pending, Ferret);
  }

  /** The daemon's message goes past ferrets' that must wait, and past no other. */
  lemma DaemonPassesWaiting(settings: Settings, arrivals: seq<Arrival>, pending: seq<nat>, current: Current,
                            instant: int)
    requires InArrivalOrder(arrivals, pending) && HasKind(arrivals, pending, Daemon)
    ensures (exists m :: PlanDelivery(settings, arrivals, pending, current, instant) == Deliver([m])
                         && IsFirst(arrivals, pending, Daemon, m))
            <==> !HasKind(arrivals, pending, Owner) && !HasDue(settings, arrivals, pending, current, instant)
  {
    var waiting := DeliveryOrder(arrivals, pending);
    DecidesBy(settings, arrivals, pending, current, instant, OfKind(arrivals, Owner, waiting),
              OfKind(arrivals, Ferret, waiting), OfKind(arrivals, Daemon, waiting));
    OrderKeepsKinds(arrivals, Daemon, pending);
    FirstOfKind(arrivals, pending, Daemon);
    if HasKind(arrivals, pending, Owner) {
      PersonGoesFirst(settings, arrivals, pending, current, instant);
    } else if HasDue(settings, arrivals, pending, current, instant) {
      FlushIsOfFerrets(settings, arrivals, pending, current, instant);
    }
  }

  lemma FlushIsOfFerrets(settings: Settings, arrivals: seq<Arrival>, pending: seq<nat>, current: Current, instant: int)
    requires InArrivalOrder(arrivals, pending) && !HasKind(arrivals, pending, Owner)
    requires HasDue(settings, arrivals, pending, current, instant)
    ensures var plan := PlanDelivery(settings, arrivals, pending, current, instant);
            plan.Deliver? && forall m | m in plan.members :: MessageOf(arrivals, m).kind == Ferret
  {
    DueTakesAllAlong(settings, arrivals, pending, current, instant);
    OfKindIsPart(arrivals, Ferret, pending);
  }

  // ----- whole replays -----

  /** A message that was there, not delivered yet, and need not wait, as the batch at `k` went. */
  ghost predicate CallsFor(settings: Settings, setup: Setup, log: seq<Batch>, k: nat, m: nat)
    requires k < |log|
  {
    && m < |setup.arrivals| && setup.arrivals[m].kind == Ferret && setup.arrivals[m].at <= log[k].at
    && m !in Delivered(log[..k])
    && !MustWait(settings, setup.arrivals[m], StateOf(setup.states, log[k].at), log[k].at)
  }

  ghost predicate HoldsFerret(setup: Setup, batch: Batch) {
    exists m :: m in batch.members && IsFerret(setup, m)
  }

  /** No batch of ferret messages went before some ferret message called for it. */
  ghost predicate NoneEarly(settings: Settings, setup: Setup, log: seq<Batch>) {
    forall k | 0 <= k < |log| && HoldsFerret(setup, log[k]) :: exists m :: CallsFor(settings, setup, log, k, m)
  }

  lemma NoneEarlyLater(settings: Settings, setup: Setup, log: seq<Batch>, batch: Batch, longer: seq<Batch>)
    requires NoneEarly(settings, setup, log) && longer == log + [batch]
    requires HoldsFerret(setup, batch) ==> exists m :: CallsFor(settings, setup, longer, |log|, m)
    ensures NoneEarly(settings, setup, longer)
  {
    forall k | 0 <= k < |longer| && HoldsFerret(setup, longer[k])
        ensures exists m :: CallsFor(settings, setup, longer, k, m) {
      if k < |log| {
        assert longer[k] == log[k] && longer[..k] == log[..k];
        var m :| CallsFor(settings, setup, log, k, m);
        assert CallsFor(settings, setup, longer, k, m);
      }
    }
  }

  /** What the deliveries of one instant keep: each message in one place, the pending ones come by then and in order. */
  ghost predicate Keeps(setup: Setup, s: State, instant: int) {
    && multiset(Delivered(s.log) + s.pending) == multiset(Range(0, s.index)) && s.index <= |setup.arrivals|
    && InOrder(setup.arrivals, s)
    && forall m | 0 <= m < s.index :: setup.arrivals[m].at <= instant
  }

  lemma PendingIsUndelivered(s: State, m: nat)
    requires multiset(Delivered(s.log) + s.pending) == multiset(Range(0, s.index)) && m in s.pending
    ensures m !in Delivered(s.log)
  {
    AtMostOnce(s, m);
    assert multiset(s.pending)[m] >= 1;
  }

  lemma DueCalls(settings: Settings, setup: Setup, s: State, instant: int, members: seq<nat>, m: nat)
    requires setup == ReplaySetup(settings, setup.arrivals, setup.states) && Keeps(setup, s, instant)
    requires m in s.pending && MessageOf(setup.arrivals, m).kind == Ferret
    requires !MustWait(settings, MessageOf(setup.arrivals, m), StateOf(setup.states, instant), instant)
    ensures CallsFor(settings, setup, s.log + [Batch(instant, members)], |s.log|, m)
  {
    var longer := s.log + [Batch(instant, members)];
    PendingIsUndelivered(s, m);
    var k :| 0 <= k < |s.pending| && s.pending[k] == m;
    assert longer[..|s.log|] == s.log && m < s.index;
  }

  lemma DeliveryIsCalledFor(settings: Settings, setup: Setup, s: State, instant: int, members: seq<nat>)
    requires setup == ReplaySetup(settings, setup.arrivals, setup.states) && Keeps(setup, s, instant)
    requires PlanDelivery(settings, setup.arrivals, s.pending, StateOf(setup.states, instant), instant) ==
             Deliver(members)
    requires HoldsFerret(setup, Batch(instant, members)) && Ordered(ArrivalTimes(setup.arrivals))
    ensures exists m :: CallsFor(settings, setup, s.log + [Batch(instant, members)], |s.log|, m)
  {
    var arrivals, current := setup.arrivals, StateOf(setup.states, instant);
    var f :| f in members && IsFerret(setup, f);
    FerretMeansDue(settings, arrivals, s.pending, current, instant, members, f);
    var m :| m in s.pending && MessageOf(arrivals, m).kind == Ferret
             && !MustWait(settings, MessageOf(arrivals, m), current, instant);
    DueCalls(settings, setup, s, instant, members, m);
  }

  /** A ferret's message is only ever delivered when some ferret's need not wait. */
  lemma FerretMeansDue(settings: Settings, arrivals: seq<Arrival>, pending: seq<nat>, current: Current, instant: int,
                       members: seq<nat>, f: nat)
    requires PlanDelivery(settings, arrivals, pending, current, instant) == Deliver(members)
    requires f in members && MessageOf(arrivals, f).kind == Ferret
    ensures HasDue(settings, arrivals, pending, current, instant)
  {
    var waiting := DeliveryOrder(arrivals, pending);
    var owners, daemons := OfKind(arrivals, Owner, waiting), OfKind(arrivals, Daemon, waiting);
    DecidesBy(settings, arrivals, pending, current, instant, owners, OfKind(arrivals, Ferret, waiting), daemons);
    OfKindIsPart(arrivals, Owner, waiting);
    OfKindIsPart(arrivals, Daemon, waiting);
    HeadIsIn(owners);
    HeadIsIn(daemons);
  }

  lemma HeadIsIn(messages: seq<nat>)
    ensures messages != [] ==> messages[0] in messages
  {}

  lemma ReleaseKeepsAll(setup: Setup, s: State, instant: int, members: seq<nat>)
    requires Keeps(setup, s, instant) && Ordered(ArrivalTimes(setup.arrivals))
    requires multiset(members) <= multiset(s.pending) && IsFront(setup.arrivals, s.pending, members)
    ensures Keeps(setup, Released(s, instant, members), instant)
  {
    ReleaseKeepsMessages(s, instant, members);
    ReleaseInOrder(setup.arrivals, s, instant, members);
  }

  lemma {:induction false} DeliverAllNoneEarly(settings: Settings, setup: Setup, s: State, instant: int)
    requires setup == ReplaySetup(settings, setup.arrivals, setup.states) && Ordered(ArrivalTimes(setup.arrivals))
    requires Keeps(setup, s, instant) && NoneEarly(settings, setup, s.log)
    ensures NoneEarly(settings, setup, DeliverAll(setup, s, instant).log)
    decreases |s.pending|
  {
    var current := StateOf(setup.states, instant);
    PlanIsSound(settings, setup.arrivals, s.pending, current, instant);
    match setup.plan(s.pending, current, instant)
    case Nothing =>
    case Hold(until) =>
    case Deliver(members) =>
      var t := Released(s, instant, members);
      WithoutAllShrinks(s.pending, members);
      if HoldsFerret(setup, Batch(instant, members)) { DeliveryIsCalledFor(settings, setup, s, instant, members); }
      NoneEarlyLater(settings, setup, s.log, Batch(instant, members), t.log);
      ReleaseKeepsAll(setup, s, instant, members);
      DeliverAllNoneEarly(settings, setup, t, instant);
  }

  ghost predicate InOrderNoneEarly(settings: Settings, setup: Setup, s: State) {
    InOrder(setup.arrivals, s) && NoneEarly(settings, setup, s.log)
  }

  lemma TurnNoneEarly(settings: Settings, setup: Setup, s: State, t: State)
    requires setup == ReplaySetup(settings, setup.arrivals, setup.states) && IsStep(setup, s, t)
    requires InOrderNoneEarly(settings, setup, s)
    ensures InOrderNoneEarly(settings, setup, t)
  {
    var instant := Min(Candidates(setup, s));
    var taken := TakeIn(setup, s, instant);
    TakeInInOrder(setup.arrivals, setup, s, instant);
    TakeInKeepsMessages(setup, s, instant);
    TakenInHaveCome(setup, s, instant);
    DeliverAllNoneEarly(settings, setup, taken, instant);
    TurnInOrder(settings, setup.arrivals, setup, s, t);
  }

  lemma TakenInHaveCome(setup: Setup, s: State, instant: int)
    requires IsRecorded(setup) && Inv(setup, s) && !IsOver(setup, s) && instant == Min(Candidates(setup, s))
    ensures forall m | 0 <= m < TakeIn(setup, s, instant).index :: setup.arrivals[m].at <= instant
  {
    forall m | 0 <= m < TakeIn(setup, s, instant).index ensures setup.arrivals[m].at <= instant {
      if m < s.index {
        CandidateIsAhead(setup, s, instant);
        assert setup.arrivals[m].at in s.instants;
      } else {
        assert ArrivalTimes(setup.arrivals)[m] <= instant;
      }
    }
  }

  /** In every replay a batch with a ferret's message goes only when some ferret's message that is there need not wait:
      its window has closed, or it never had one, or it is news and the receiver has ended a turn. */
  lemma NothingGoesEarly(settings: Settings, arrivals: seq<Arrival>, states: seq<TurnState>, run: seq<State>, k: nat)
    requires Ordered(ArrivalTimes(arrivals)) && Ordered(ChangeTimes(states)) && k < |run|
    requires IsRun(ReplaySetup(settings, arrivals, states), run)
    ensures NoneEarly(settings, ReplaySetup(settings, arrivals, states), run[k].log)
  {
    var setup := ReplaySetup(settings, arrivals, states);
    RunNoneEarly(settings, setup, run, k, InOrderNoneEarly(settings, setup, run[k]));
  }

  lemma RunNoneEarly(settings: Settings, setup: Setup, run: seq<State>, k: nat, none: bool)
    requires IsRecorded(setup) && setup == ReplaySetup(settings, setup.arrivals, setup.states)
    requires IsRun(setup, run) && k < |run| && none == InOrderNoneEarly(settings, setup, run[k])
    ensures none
  {
    var holds := (s: State) => InOrderNoneEarly(settings, setup, s);
    BeginningIsSound(setup);
    BeginsInOrder(settings, setup, holds(BEGINNING));
    forall s, t | IsStep(setup, s, t) && holds(s) ensures holds(t) {
      TurnNoneEarly(settings, setup, s, t);
    }
    RunInduction(setup, BEGINNING, run, k, holds);
  }

  lemma BeginsInOrder(settings: Settings, setup: Setup, none: bool)
    requires none == InOrderNoneEarly(settings, setup, BEGINNING)
    ensures none
  {}
}
