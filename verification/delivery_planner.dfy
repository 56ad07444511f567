/** The planner the replay is run with: pure, for a running receiver into which nothing is being typed. */
module DeliveryPlanner {
  import opened CoalescingReplay
  import opened Options
  import opened ReplayLoop

  datatype Settings = Settings(coalesce: bool, actionWindow: int, fyiMaxHold: int, batchMax: int)

  // ----- what a message is for delivery -----

  /** Never held: a blocker, a question, and everything while combining is switched off. */
  predicate IsBlocker(settings: Settings, arrival: Arrival) {
    !settings.coalesce || arrival.question || arrival.urgency == Blocker
  }

  /** When a message's hold ends, fixed as it is queued; only a ferret's action or news is held. */
  function HoldUntil(settings: Settings, arrival: Arrival): Option<int> {
    if arrival.kind != Ferret || IsBlocker(settings, arrival) then None
    else Some(arrival.at + if arrival.urgency == Fyi then settings.fyiMaxHold else settings.actionWindow)
  }

  /** A blocker is due at once, an action when its hold ends, news then or when the receiver has ended a turn since. */
  predicate IsDue(settings: Settings, arrival: Arrival, current: Current, instant: int) {
    || IsBlocker(settings, arrival)
    || HoldUntil(settings, arrival).None? || instant >= HoldUntil(settings, arrival).value
    || (arrival.urgency == Fyi && current.to == "your-turn" && current.since > arrival.at)
  }

  // ----- the order of delivery -----

  /** The recorded message a number stands for; one that stands for none is treated like a person's. */
  function MessageOf(arrivals: seq<Arrival>, m: nat): Arrival {
    if m < |arrivals| then arrivals[m] else Arrival(0, Owner, Blocker, false)
  }

  function Rank(kind: Kind): nat {
    match kind
    case Owner => 0
    case Ferret => 1
    case Daemon => 2
  }

  /** Before another by sender, then by arrival; neither of two that tie. */
  predicate Precedes(a: Arrival, b: Arrival) {
    Rank(a.kind) < Rank(b.kind) || (Rank(a.kind) == Rank(b.kind) && a.at < b.at)
  }

  function Insert(arrivals: seq<Arrival>, m: nat, sorted: seq<nat>): seq<nat> {
    if sorted != [] && Precedes(MessageOf(arrivals, sorted[0]), MessageOf(arrivals, m))
    then [sorted[0]] + Insert(arrivals, m, sorted[1..])
    else [m] + sorted
  }

  /** Pending messages sorted by `Precedes`, ties left as they stand. */
  function DeliveryOrder(arrivals: seq<Arrival>, pending: seq<nat>): seq<nat> {
    if pending == [] then [] else Insert(arrivals, pending[0], DeliveryOrder(arrivals, pending[1..]))
  }

  lemma {:induction false} InsertAdds(arrivals: seq<Arrival>, m: nat, sorted: seq<nat>)
    ensures multiset(Insert(arrivals, m, sorted)) == multiset(sorted) + multiset{m}
  {
    if sorted != [] && Precedes(MessageOf(arrivals, sorted[0]), MessageOf(arrivals, m)) {
      InsertAdds(arrivals, m, sorted[1..]);
      assert sorted == [sorted[0]] + sorted[1..];
    }
  }

  lemma {:induction false} OrderIsPermutation(arrivals: seq<Arrival>, pending: seq<nat>)
    ensures multiset(DeliveryOrder(arrivals, pending)) == multiset(pending)
  {
    if pending != [] {
      OrderIsPermutation(arrivals, pending[1..]);
      InsertAdds(arrivals, pending[0], DeliveryOrder(arrivals, pending[1..]));
      assert pending == [pending[0]] + pending[1..];
    }
  }

  /** The messages of one kind of sender, in their order. */
  function OfKind(arrivals: seq<Arrival>, kind: Kind, messages: seq<nat>): seq<nat> {
    if messages == [] then []
    else
      (if MessageOf(arrivals, messages[0]).kind == kind then [messages[0]] else [])
      + OfKind(arrivals, kind, messages[1..])
  }

  lemma {:induction false} OfKindIsPart(arrivals: seq<Arrival>, kind: Kind, messages: seq<nat>)
    ensures multiset(OfKind(arrivals, kind, messages)) <= multiset(messages)
    ensures forall m :: m in OfKind(arrivals, kind, messages) <==> m in messages && MessageOf(arrivals, m).kind == kind
  {
    if messages != [] {
      OfKindIsPart(arrivals, kind, messages[1..]);
      assert messages == [messages[0]] + messages[1..];
    }
  }

  // ----- the decision -----

  /** The size of a flush; one when combining is off. */
  function MostOf(settings: Settings): (most: nat)
    ensures most >= 1
  {
    if settings.coalesce && settings.batchMax > 1 then settings.batchMax else 1
  }

  function Leading(most: nat, messages: seq<nat>): seq<nat> {
    if most < |messages| then messages[..most] else messages
  }

  function HoldTimes(settings: Settings, arrivals: seq<Arrival>, messages: seq<nat>): seq<int> {
    if messages == [] then []
    else
      var hold := HoldUntil(settings, MessageOf(arrivals, messages[0]));
      (if hold.Some? then [hold.value] else []) + HoldTimes(settings, arrivals, messages[1..])
  }

  predicate SomeDue(settings: Settings, arrivals: seq<Arrival>, messages: seq<nat>, current: Current, instant: int) {
    exists m :: m in messages && IsDue(settings, MessageOf(arrivals, m), current, instant)
  }

  function UntilEarliest(times: seq<int>): Plan {
    Hold(if times == [] then None else Some(Min(times)))
  }

  /** From the three kinds, each in its order: one owner message; else the leading ferret messages, if any ferret's is
      due; else one daemon message; else a hold. */
  function Decide(settings: Settings, arrivals: seq<Arrival>, owners: seq<nat>, ferrets: seq<nat>, daemons: seq<nat>,
                  current: Current, instant: int): Plan
  {
    if owners != [] then Deliver([owners[0]])
    else if SomeDue(settings, arrivals, ferrets, current, instant) then Deliver(Leading(MostOf(settings), ferrets))
    else if daemons != [] then Deliver([daemons[0]])
    else UntilEarliest(HoldTimes(settings, arrivals, ferrets))
  }

  function PlanDelivery(settings: Settings, arrivals: seq<Arrival>, pending: seq<nat>, current: Current,
                        instant: int): Plan {
    var waiting := DeliveryOrder(arrivals, pending);
    if waiting == [] then Nothing
    else
      Decide(settings, arrivals, OfKind(arrivals, Owner, waiting), OfKind(arrivals, Ferret, waiting),
             OfKind(arrivals, Daemon, waiting), current, instant)
  }

  // ----- what the planner promises -----

  /** Every message is of one of the three kinds. */
  lemma {:induction false} KindsAreAll(arrivals: seq<Arrival>, messages: seq<nat>)
    requires OfKind(arrivals, Owner, messages) == [] && OfKind(arrivals, Daemon, messages) == []
    ensures OfKind(arrivals, Ferret, messages) == messages
  {
    if messages != [] { KindsAreAll(arrivals, messages[1..]); }
  }

  lemma {:induction false} TimesAreHolds(settings: Settings, arrivals: seq<Arrival>, messages: seq<nat>)
    ensures forall t :: t in HoldTimes(settings, arrivals, messages) <==>
              exists m :: m in messages && HoldUntil(settings, MessageOf(arrivals, m)) == Some(t)
  {
    if messages != [] {
      TimesAreHolds(settings, arrivals, messages[1..]);
      assert messages == [messages[0]] + messages[1..];
    }
  }

  predicate HeldAtLeast(settings: Settings, arrivals: seq<Arrival>, m: nat, until: int) {
    var hold := HoldUntil(settings, MessageOf(arrivals, m));
    hold.Some? && hold.value >= until
  }

  /** What is held, and why: ferret messages whose holds have not ended, until the earliest of them does. */
  ghost predicate IsHeld(settings: Settings, arrivals: seq<Arrival>, pending: seq<nat>, instant: int, until: int) {
    && (forall m | m in pending :: HeldAtLeast(settings, arrivals, m, until))
    && (exists m :: m in pending && HoldUntil(settings, MessageOf(arrivals, m)) == Some(until))
    && until > instant
  }

  lemma HoldIsSound(settings: Settings, arrivals: seq<Arrival>, ferrets: seq<nat>, current: Current, instant: int)
    requires ferrets != [] && !SomeDue(settings, arrivals, ferrets, current, instant)
    ensures var plan := UntilEarliest(HoldTimes(settings, arrivals, ferrets));
            plan.until.Some? && IsHeld(settings, arrivals, ferrets, instant, plan.until.value)
  {
    var times := HoldTimes(settings, arrivals, ferrets);
    TimesAreHolds(settings, arrivals, ferrets);
    forall m | m in ferrets
      ensures HoldUntil(settings, MessageOf(arrivals, m)).Some?
      ensures HoldUntil(settings, MessageOf(arrivals, m)).value in times
      ensures HoldUntil(settings, MessageOf(arrivals, m)).value > instant
    {
      assert !IsDue(settings, MessageOf(arrivals, m), current, instant);
    }
    assert ferrets[0] in ferrets;
    var until := Min(times);
    forall m | m in ferrets ensures HeldAtLeast(settings, arrivals, m, until) {
      assert HoldUntil(settings, MessageOf(arrivals, m)).value in times;
    }
  }

  lemma SameHeld(settings: Settings, arrivals: seq<Arrival>, a: seq<nat>, b: seq<nat>, instant: int, until: int)
    requires multiset(a) == multiset(b) && IsHeld(settings, arrivals, a, instant, until)
    ensures IsHeld(settings, arrivals, b, instant, until)
  {
    forall m ensures m in a <==> m in b { assert m in multiset(a) <==> m in multiset(b); }
  }

  /** The first messages of one kind in the order of delivery. */
  ghost predicate IsFront(arrivals: seq<Arrival>, pending: seq<nat>, members: seq<nat>) {
    exists kind :: members <= OfKind(arrivals, kind, DeliveryOrder(arrivals, pending))
  }

  lemma DecideDelivers(settings: Settings, arrivals: seq<Arrival>, owners: seq<nat>, ferrets: seq<nat>,
                       daemons: seq<nat>,
                       current: Current, instant: int, plan: Plan)
    requires plan == Decide(settings, arrivals, owners, ferrets, daemons, current, instant) && plan.Deliver?
    ensures plan.members != [] && (plan.members <= owners || plan.members <= ferrets || plan.members <= daemons)
  {}

  /** It delivers messages of one kind from the front of those pending, or holds them all, or has nothing to do. */
  lemma PlanIsSound(settings: Settings, arrivals: seq<Arrival>, pending: seq<nat>, current: Current, instant: int)
    ensures var plan := PlanDelivery(settings, arrivals, pending, current, instant);
            && (plan.Nothing? ==> pending == [])
            && (plan.Hold? ==> plan.until.Some? && IsHeld(settings, arrivals, pending, instant, plan.until.value))
            && (plan.Deliver? ==> plan.members != [] && IsFront(arrivals, pending, plan.members))
  {
    var waiting := DeliveryOrder(arrivals, pending);
    OrderIsPermutation(arrivals, pending);
    assert |multiset(waiting)| == |multiset(pending)|;
    if waiting != [] {
      var plan := PlanDelivery(settings, arrivals, pending, current, instant);
      if plan.Deliver? {
        DecideDelivers(settings, arrivals, OfKind(arrivals, Owner, waiting), OfKind(arrivals, Ferret, waiting),
                       OfKind(arrivals, Daemon, waiting), current, instant, plan);
      } else {
        KindsAreAll(arrivals, waiting);
        HoldIsSound(settings, arrivals, waiting, current, instant);
        SameHeld(settings, arrivals, waiting, pending, instant, plan.until.value);
      }
    }
  }
}
