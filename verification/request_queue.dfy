/** The browser worker's request queues as a transition system. A work is one queued answer; promises appear as the
    phase of a work and the work its own promise was chained onto. Steps interleave freely. */
module RequestQueue {
  import opened Options

  datatype Phase = Waiting | Running | Settled(ok: bool)

  /** `previous` is the work whose settling this one waits for, as found in the map when it was queued. */
  datatype Work = Work(key: string, previous: Option<nat>, phase: Phase, cleaned: bool)

  /** Works are numbered in order of arrival. `queues` and `global` hold the tail of each chain. */
  datatype State = State(works: seq<Work>, queues: map<string, nat>, global: Option<nat>)

  const INITIAL := State([], map[], None)

  datatype Action =
    | Enqueue(key: string)
    | Start(work: nat)
    | Settle(work: nat, ok: bool)
    | Cleanup(work: nat)
    | Idle

  /** The tail a new work under this key is chained onto. */
  function Tail(s: State, key: string): Option<nat> {
    if key == "" then s.global
    else if key in s.queues then Some(s.queues[key]) else None
  }

  predicate HasSettled(s: State, work: nat) {
    work < |s.works| && s.works[work].phase.Settled?
  }

  predicate Enabled(s: State, a: Action) {
    match a
    case Enqueue(_) => true
    case Idle => true
    case Start(w) => && w < |s.works| && s.works[w].phase.Waiting?
                     && (s.works[w].previous.Some? ==> HasSettled(s, s.works[w].previous.value))
    case Settle(w, _) => w < |s.works| && s.works[w].phase.Running?
    case Cleanup(w) => HasSettled(s, w) && s.works[w].key != "" && !s.works[w].cleaned
  }

  function Next(s: State, a: Action): State
    requires Enabled(s, a)
  {
    match a
    case Idle => s
    case Enqueue(key) =>
      var works := s.works + [Work(key, Tail(s, key), Waiting, false)];
      if key == "" then s.(works := works, global := Some(|s.works|))
      else s.(works := works, queues := s.queues[key := |s.works|])
    case Start(w) => s.(works := s.works[w := s.works[w].(phase := Running)])
    case Settle(w, ok) => s.(works := s.works[w := s.works[w].(phase := Settled(ok))])
    case Cleanup(w) =>
      var key := s.works[w].key;
      s.(works := s.works[w := s.works[w].(cleaned := true)],
         queues := if key in s.queues && s.queues[key] == w then s.queues - {key} else s.queues)
  }

  // ----- safety -----

  ghost predicate SameKey(s: State, earlier: nat, later: nat) {
    earlier < later < |s.works| && s.works[earlier].key == s.works[later].key
  }

  /** Every earlier work under the key of `work` has settled. */
  ghost predicate EarlierSettled(s: State, work: nat) {
    forall u: nat | SameKey(s, u, work) :: HasSettled(s, u)
  }

  ghost predicate IsLast(s: State, work: nat) {
    work < |s.works| && forall u: nat :: !SameKey(s, work, u)
  }

  ghost predicate IsTailOf(s: State, work: nat, key: string) {
    IsLast(s, work) && s.works[work].key == key
  }

  /** A map entry is the last work of its key. */
  ghost predicate TailsAreLast(s: State) {
    forall key | Tail(s, key).Some? :: IsTailOf(s, Tail(s, key).value, key)
  }

  /** Where the map holds no entry, there is nothing left to wait for. */
  ghost predicate TaillessHaveSettled(s: State) {
    forall w | 0 <= w < |s.works| && Tail(s, s.works[w].key).None? :: HasSettled(s, w)
  }

  /** A work waits for its immediate predecessor, unless there was none left to wait for. */
  ghost predicate WaitsForPredecessor(s: State, w: nat)
    requires w < |s.works|
  {
    match s.works[w].previous
    case None => EarlierSettled(s, w)
    case Some(p) => SameKey(s, p, w) && forall u: nat | SameKey(s, u, w) :: u <= p
  }

  /** Nothing starts before every earlier work of its key has settled. */
  ghost predicate InTurn(s: State) {
    forall w: nat | w < |s.works| && !s.works[w].phase.Waiting? :: EarlierSettled(s, w)
  }

  ghost predicate Invariant(s: State) {
    && TailsAreLast(s) && TaillessHaveSettled(s)
    && (forall w: nat | w < |s.works| :: WaitsForPredecessor(s, w))
    && InTurn(s)
  }

  lemma InvariantStarts()
    ensures Invariant(INITIAL)
  {}

  /** In a state that satisfies the invariant, a waiting work may start exactly when its turn has come, whether the
      works before it were fulfilled or rejected. */
  lemma TurnHasCome(s: State, w: nat)
    requires Invariant(s) && w < |s.works| && s.works[w].phase.Waiting?
    ensures Enabled(s, Start(w)) <==> EarlierSettled(s, w)
  {
    assert WaitsForPredecessor(s, w);
    if s.works[w].previous.Some? {
      var p := s.works[w].previous.value;
      if HasSettled(s, p) {
        assert EarlierSettled(s, p);
        forall u: nat | SameKey(s, u, w) ensures HasSettled(s, u) {
          assert u == p || SameKey(s, u, p);
        }
      }
    }
  }

  /** Settling is for good, and neither keys nor chains are ever rewritten. */
  lemma StepKeeps(s: State, a: Action)
    requires Enabled(s, a)
    ensures var t := Next(s, a);
            && |s.works| <= |t.works|
            && (forall w: nat | w < |s.works| ::
               t.works[w].key == s.works[w].key && t.works[w].previous == s.works[w].previous)
            && (forall w: nat | HasSettled(s, w) :: HasSettled(t, w))
            && (forall u: nat, w: nat | w < |s.works| :: SameKey(t, u, w) <==> SameKey(s, u, w))
            && (forall w: nat | w < |s.works| && EarlierSettled(s, w) :: EarlierSettled(t, w))
  {}

  lemma EnqueueKeeps(s: State, key: string)
    requires Invariant(s)
    ensures Invariant(Next(s, Enqueue(key)))
  {
    var t := Next(s, Enqueue(key));
    var newest := |s.works|;
    StepKeeps(s, Enqueue(key));
    forall other | Tail(t, other).Some? ensures IsTailOf(t, Tail(t, other).value, other) {
      if other != key {
        assert Tail(t, other) == Tail(s, other) && IsTailOf(s, Tail(s, other).value, other);
        forall u: nat ensures !SameKey(t, Tail(t, other).value, u) { assert !SameKey(s, Tail(s, other).value, u); }
      }
    }
    forall w: nat | w < |t.works| ensures WaitsForPredecessor(t, w) {
      if w < newest {
        assert WaitsForPredecessor(s, w);
      } else if Tail(s, key).Some? {
        var p := Tail(s, key).value;
        forall u: nat | SameKey(t, u, w) ensures u <= p { assert !SameKey(s, p, u); }
      } else {
        forall u: nat | SameKey(t, u, w) ensures HasSettled(t, u) { assert HasSettled(s, u); }
      }
    }
  }

  lemma PhaseStepKeeps(s: State, a: Action)
    requires Invariant(s) && Enabled(s, a) && (a.Start? || a.Settle?)
    ensures Invariant(Next(s, a))
  {
    var t := Next(s, a);
    StepKeeps(s, a);
    if a.Start? { TurnHasCome(s, a.work); }
    forall key | Tail(t, key).Some? ensures IsTailOf(t, Tail(t, key).value, key) {
      assert Tail(t, key) == Tail(s, key) && IsTailOf(s, Tail(s, key).value, key);
      forall u: nat ensures !SameKey(t, Tail(t, key).value, u) { assert !SameKey(s, Tail(s, key).value, u); }
    }
    forall w: nat | w < |t.works| ensures WaitsForPredecessor(t, w) { assert WaitsForPredecessor(s, w); }
    forall w: nat | w < |t.works| && !t.works[w].phase.Waiting?
        ensures EarlierSettled(t, w) { assert EarlierSettled(s, w); }
  }

  lemma CleanupKeeps(s: State, work: nat)
    requires Invariant(s) && Enabled(s, Cleanup(work))
    ensures Invariant(Next(s, Cleanup(work)))
  {
    var t := Next(s, Cleanup(work));
    StepKeeps(s, Cleanup(work));
    forall key | Tail(t, key).Some? ensures IsTailOf(t, Tail(t, key).value, key) {
      assert Tail(t, key) == Tail(s, key) && IsTailOf(s, Tail(s, key).value, key);
      forall u: nat ensures !SameKey(t, Tail(t, key).value, u) { assert !SameKey(s, Tail(s, key).value, u); }
    }
    forall w: nat | w < |t.works| ensures WaitsForPredecessor(t, w) { assert WaitsForPredecessor(s, w); }
    forall w: nat | w < |t.works| && !t.works[w].phase.Waiting?
        ensures EarlierSettled(t, w) { assert EarlierSettled(s, w); }
    forall w: nat | w < |t.works| && Tail(t, t.works[w].key).None? ensures HasSettled(t, w) {
      if Tail(s, s.works[w].key).Some? {
        assert EarlierSettled(s, work) && IsLast(s, work);
        assert w == work || SameKey(s, w, work) || SameKey(s, work, w);
      }
    }
  }

  lemma InvariantHolds(s: State, a: Action)
    requires Invariant(s) && Enabled(s, a)
    ensures Invariant(Next(s, a))
  {
    match a
    case Idle =>
    case Enqueue(key) => EnqueueKeeps(s, key);
    case Cleanup(work) => CleanupKeeps(s, work);
    case _ => PhaseStepKeeps(s, a);
  }

  // ----- every finite run -----

  ghost predicate Run(from: State, actions: seq<Action>, to: State)
    decreases |actions|
  {
    if actions == [] then from == to
    else Enabled(from, actions[0]) && Run(Next(from, actions[0]), actions[1..], to)
  }

  ghost predicate Reachable(s: State) {
    exists actions :: Run(INITIAL, actions, s)
  }

  lemma {:induction false} RunKeepsInvariant(from: State, actions: seq<Action>, to: State)
    requires Invariant(from) && Run(from, actions, to)
    ensures Invariant(to)
    decreases |actions|
  {
    if actions != [] {
      InvariantHolds(from, actions[0]);
      RunKeepsInvariant(Next(from, actions[0]), actions[1..], to);
    }
  }

  /** In every interleaving, works queued under one key run one at a time and in the order they arrived: once one
      has started, all earlier ones have settled. */
  lemma OneAtATimeInOrder(s: State, earlier: nat, later: nat)
    requires Reachable(s) && SameKey(s, earlier, later) && !s.works[later].phase.Waiting?
    ensures s.works[earlier].phase.Settled?
  {
    var actions :| Run(INITIAL, actions, s);
    InvariantStarts();
    RunKeepsInvariant(INITIAL, actions, s);
    assert EarlierSettled(s, later) && HasSettled(s, earlier);
  }

  /** Forgetting a finished chain is safe: when the map has no entry for a key, no work of that key is unsettled, so
      a work queued next, which then waits for nothing, overtakes nothing. */
  lemma ForgettingOvertakesNothing(s: State, work: nat)
    requires Reachable(s) && work < |s.works| && Tail(s, s.works[work].key).None?
    ensures s.works[work].phase.Settled?
  {
    var actions :| Run(INITIAL, actions, s);
    InvariantStarts();
    RunKeepsInvariant(INITIAL, actions, s);
    assert HasSettled(s, work);
  }

  /** A rejection never blocks the next work, and neither does anything queued under another key. */
  lemma OnlyOwnKeyBlocks(s: State, work: nat)
    requires Reachable(s) && work < |s.works| && s.works[work].phase.Waiting?
    ensures Enabled(s, Start(work)) <==> forall u: nat | SameKey(s, u, work) :: s.works[u].phase.Settled?
  {
    var actions :| Run(INITIAL, actions, s);
    InvariantStarts();
    RunKeepsInvariant(INITIAL, actions, s);
    TurnHasCome(s, work);
    forall u: nat | SameKey(s, u, work) ensures HasSettled(s, u) <==> s.works[u].phase.Settled? {}
  }

  // ----- every infinite run -----

  type Behaviour = nat -> State

  ghost predicate Behaves(run: Behaviour, actions: nat -> Action) {
    && run(0) == INITIAL
    && forall i: nat :: Enabled(run(i), actions(i)) && run(i + 1) == Next(run(i), actions(i))
  }

  ghost predicate HasStarted(s: State, work: nat) {
    work < |s.works| && !s.works[work].phase.Waiting?
  }

  /** A work whose turn has come is eventually called: its reaction is queued and the event loop gets to it. */
  ghost predicate TurnsAreTaken(run: Behaviour) {
    forall i: nat, work | Enabled(run(i), Start(work)) :: exists j: nat :: i <= j && HasStarted(run(j), work)
  }

  /** Every work that runs settles sooner or later, one way or the other. */
  ghost predicate WorksSettle(run: Behaviour) {
    forall i: nat, work | Enabled(run(i), Settle(work, true)) :: exists j: nat :: i <= j && HasSettled(run(j), work)
  }

  lemma {:induction false} BehaviourKeepsInvariant(run: Behaviour, actions: nat -> Action, i: nat)
    requires Behaves(run, actions)
    ensures Invariant(run(i))
  {
    if i == 0 {
      InvariantStarts();
    } else {
      BehaviourKeepsInvariant(run, actions, i - 1);
      assert run(i - 1 + 1) == Next(run(i - 1), actions(i - 1));
      InvariantHolds(run(i - 1), actions(i - 1));
    }
  }

  lemma {:induction false} LaterKeeps(run: Behaviour, actions: nat -> Action, i: nat, j: nat)
    requires Behaves(run, actions) && i <= j
    ensures |run(i).works| <= |run(j).works|
    ensures forall w: nat | w < |run(i).works| :: run(j).works[w].key == run(i).works[w].key
    ensures forall w: nat | HasSettled(run(i), w) :: HasSettled(run(j), w)
    decreases j
  {
    if i < j {
      LaterKeeps(run, actions, i, j - 1);
      assert run(j - 1 + 1) == Next(run(j - 1), actions(j - 1));
      StepKeeps(run(j - 1), actions(j - 1));
    }
  }

  /** All works of this key that arrived before `work` have settled by some moment. */
  lemma {:induction false} EarlierEventuallySettle(run: Behaviour, actions: nat -> Action, i: nat, work: nat,
                                                   before: nat) returns (j: nat)
    requires Behaves(run, actions) && TurnsAreTaken(run) && WorksSettle(run)
    requires work < |run(i).works| && before <= work
    ensures i <= j && forall u: nat | u < before && SameKey(run(j), u, work) :: HasSettled(run(j), u)
    decreases before, 0
  {
    if before == 0 { return i; }
    var k := EarlierEventuallySettle(run, actions, i, work, before - 1);
    LaterKeeps(run, actions, i, k);
    j := EventuallySettles(run, actions, k, before - 1);
    LaterKeeps(run, actions, k, j);
    forall u: nat | u < before && SameKey(run(j), u, work) ensures HasSettled(run(j), u) {
      if u < before - 1 { assert SameKey(run(k), u, work); }
    }
  }

  lemma {:induction false} EventuallySettles(run: Behaviour, actions: nat -> Action, i: nat, work: nat) returns (j: nat)
    requires Behaves(run, actions) && TurnsAreTaken(run) && WorksSettle(run)
    requires work < |run(i).works|
    ensures i <= j && HasSettled(run(j), work)
    decreases work, 1
  {
    var k := EarlierEventuallySettle(run, actions, i, work, work);
    LaterKeeps(run, actions, i, k);
    var started := k;
    if run(k).works[work].phase.Waiting? {
      BehaviourKeepsInvariant(run, actions, k);
      TurnHasCome(run(k), work);
      started :| k <= started && HasStarted(run(started), work);
    }
    j := started;
    if run(started).works[work].phase.Running? {
      assert Enabled(run(started), Settle(work, true));
      j :| started <= j && HasSettled(run(j), work);
    }
  }

  /** If every work settles, every queued work eventually starts, whatever else is queued meanwhile. */
  lemma EveryWorkStarts(run: Behaviour, actions: nat -> Action, i: nat, work: nat)
    requires Behaves(run, actions) && TurnsAreTaken(run) && WorksSettle(run)
    requires work < |run(i).works|
    ensures exists j: nat :: i <= j && HasStarted(run(j), work)
  {
    var j := EventuallySettles(run, actions, i, work);
    assert HasStarted(run(j), work);
  }

  // ----- the worker -----

  /** What the dispatcher looks at: the method, the page named in the parameters, and a lifecycle operation. */
  datatype Request = Request(method_: string, pageId: Option<string>, op: Option<string>)

  /** The key a request is queued under: its page id, or the empty key of the global queue. */
  function KeyOf(request: Request): string {
    if request.pageId.Some? && request.method_ != "dispatchInput" && request.method_ != "ackFrame"
      then request.pageId.value
    else ""
  }

  /** The requests that are answered at once, ahead of everything queued. */
  predicate Unqueued(request: Request) {
    if request.method_ == "dispatchInput" || request.method_ == "ackFrame" then true
    else request.method_ == "lifecycle" && request.op in {Some("dialog"), Some("console"), Some("network")}
  }

  /** Typed input, acknowledged frames and the reads of a dialog, the console and the network, and nothing else, go
      ahead of everything queued. */
  lemma GoesAhead(request: Request)
    ensures Unqueued(request) <==>
            || request.method_ in {"dispatchInput", "ackFrame"}
            || (request.method_, request.op) in {("lifecycle", Some("dialog")), ("lifecycle", Some("console")),
                                                 ("lifecycle", Some("network"))}
  {}

  /** The requests among these that are queued at all. */
  function QueuedOf(requests: seq<Request>): seq<Request> {
    if requests == [] then []
    else (if Unqueued(requests[0]) then [] else [requests[0]]) + QueuedOf(requests[1..])
  }

  /** Two requests for one page, or two for none; an empty page id names no page. */
  predicate SamePage(a: Request, b: Request) {
    a.pageId == b.pageId || (a.pageId in {None, Some("")} && b.pageId in {None, Some("")})
  }

  /** The keys enqueued during a run, in order. */
  function EnqueuedKeys(actions: seq<Action>): seq<string> {
    if actions == [] then []
    else (if actions[0].Enqueue? then [actions[0].key] else []) + EnqueuedKeys(actions[1..])
  }

  /** A run that queues exactly what these requests ask to be queued, in their order. */
  predicate Enqueues(actions: seq<Action>, requests: seq<Request>) {
    EnqueuedKeys(actions) == Keys(QueuedOf(requests))
  }

  function Keys(requests: seq<Request>): (keys: seq<string>)
    ensures |keys| == |requests| && forall k | 0 <= k < |keys| :: keys[k] == KeyOf(requests[k])
  {
    seq(|requests|, k requires 0 <= k < |requests| => KeyOf(requests[k]))
  }

  function WorkKeys(s: State): (keys: seq<string>)
    ensures |keys| == |s.works| && forall k | 0 <= k < |keys| :: keys[k] == s.works[k].key
  {
    seq(|s.works|, k requires 0 <= k < |s.works| => s.works[k].key)
  }

  /** A run adds one work for every key it enqueues, and none of its steps renames or reorders a work. */
  lemma {:induction false} WorksAreEnqueued(from: State, actions: seq<Action>, to: State)
    requires Run(from, actions, to)
    ensures WorkKeys(to) == WorkKeys(from) + EnqueuedKeys(actions)
    decreases |actions|
  {
    if actions != [] {
      var next := Next(from, actions[0]);
      assert WorkKeys(next) == WorkKeys(from) + if actions[0].Enqueue? then [actions[0].key] else [];
      WorksAreEnqueued(next, actions[1..], to);
    }
  }

  lemma {:induction false} QueuedAreQueued(requests: seq<Request>)
    ensures forall k | 0 <= k < |QueuedOf(requests)| :: !Unqueued(QueuedOf(requests)[k])
  {
    if requests != [] { QueuedAreQueued(requests[1..]); }
  }

  /** Each work stands for one of these requests, in their order. */
  ghost predicate StandFor(s: State, queued: seq<Request>) {
    |queued| == |s.works| && forall k: nat | k < |queued| :: StandsFor(s.works[k], queued[k])
  }

  predicate StandsFor(work: Work, request: Request) {
    !Unqueued(request) && work.key == KeyOf(request)
  }

  lemma WorksStandForRequests(requests: seq<Request>, actions: seq<Action>, s: State, queued: seq<Request>)
    requires Run(INITIAL, actions, s) && Enqueues(actions, requests) && queued == QueuedOf(requests)
    ensures StandFor(s, queued)
  {
    WorksAreEnqueued(INITIAL, actions, s);
    QueuedAreQueued(requests);
    var keys := WorkKeys(s);
    assert keys == WorkKeys(INITIAL) + Keys(queued) == Keys(queued);
    forall k: nat | k < |queued| ensures StandsFor(s.works[k], queued[k]) {
      assert keys[k] == s.works[k].key;
    }
  }

  lemma SameKeyIsSamePage(a: Work, b: Work, first: Request, second: Request)
    requires StandsFor(a, first) && StandsFor(b, second)
    ensures a.key == b.key <==> SamePage(first, second)
  {}

  /** Whatever stream of requests arrives and however its answers interleave, a waiting request is held up by the
      earlier queued requests for its own page and by no others; naming no page counts as one page. */
  lemma OnlyOwnPageBlocks(requests: seq<Request>, actions: seq<Action>, s: State, work: nat, queued: seq<Request>)
    requires Run(INITIAL, actions, s) && Enqueues(actions, requests) && queued == QueuedOf(requests)
    requires work < |s.works| && s.works[work].phase.Waiting?
    ensures |queued| == |s.works|
    ensures Enabled(s, Start(work)) <==>
            forall u: nat | u < work && SamePage(queued[u], queued[work]) :: s.works[u].phase.Settled?
  {
    WorksStandForRequests(requests, actions, s, queued);
    OnlyOwnKeyBlocks(s, work);
    forall u: nat | u < work ensures SamePage(queued[u], queued[work]) <==> SameKey(s, u, work) {
      SameKeyIsSamePage(s.works[u], s.works[work], queued[u], queued[work]);
    }
  }

  /** The worker's queues. Each method is one step of the transition system above. */
  class Worker {
    var works: seq<Work>
    var queues: map<string, nat>
    var global: Option<nat>

    function View(): State
      reads this
    {
      State(works, queues, global)
    }

    constructor ()
      ensures View() == INITIAL
    {
      works, queues, global := [], map[], None;
    }

    /** Chains a work onto whatever was queued last under its key. */
    method Queued(key: string) returns (work: nat)
      modifies this
      ensures View() == Next(old(View()), Enqueue(key)) && work == |old(works)|
      ensures works[work].previous == Tail(old(View()), key) && Tail(View(), key) == Some(work)
    {
      work := |works|;
      var previous := if key == "" then global else if key in queues then Some(queues[key]) else None;
      works := works + [Work(key, previous, Waiting, false)];
      if key == "" {
        global := Some(work);
      } else {
        queues := queues[key := work];
      }
    }

    /** One request line: answered at once, or queued under its key. */
    method Dispatch(request: Request) returns (queued: Option<nat>)
      modifies this
      ensures Unqueued(request) ==> queued.None? && View() == old(View())
      ensures !Unqueued(request) ==>
                queued == Some(|old(works)|) && View() == Next(old(View()), Enqueue(KeyOf(request)))
    {
      if Unqueued(request) { return None; }
      var work := Queued(KeyOf(request));
      return Some(work);
    }

    /** The reaction on the previous promise: the work is called whether that one was fulfilled or rejected. */
    method Called(work: nat)
      requires Enabled(View(), Start(work))
      modifies this`works
      ensures View() == Next(old(View()), Start(work))
    {
      works := works[work := works[work].(phase := Running)];
    }

    method Finished(work: nat, ok: bool)
      requires Enabled(View(), Settle(work, ok))
      modifies this`works
      ensures View() == Next(old(View()), Settle(work, ok))
    {
      works := works[work := works[work].(phase := Settled(ok))];
    }

    /** The reaction on a work's own settling: its entry goes, unless something has been queued behind it. */
    method Forget(work: nat)
      requires Enabled(View(), Cleanup(work))
      modifies this
      ensures View() == Next(old(View()), Cleanup(work))
    {
      var key := works[work].key;
      works := works[work := works[work].(cleaned := true)];
      if key in queues && queues[key] == work {
        queues := queues - {key};
      }
    }
  }
}
