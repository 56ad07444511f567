/** The split of the end-to-end tier over N runners: which journeys each runner is handed. */
module E2eShards {
  import opened ListScheduling
  import opened Text

  /** `seconds` is in tenths. */
  datatype Journey = Journey(file: string, path: seq<string>, seconds: nat)

  datatype Tier = FastTier | SlowTier | AllTiers

  const SLOW_TAG := "[slow]"
  /** Ten seconds, in tenths. */
  const UNKNOWN_SECONDS: nat := 100

  type Timings = map<string, map<string, nat>>

  function Display(path: seq<string>): string {
    Join(path, " > ")
  }

  function Title(journey: Journey): string {
    if journey.path == [] then "" else journey.path[|journey.path| - 1]
  }

  predicate IsSlow(journey: Journey) {
    EndsWith(TrimEnd(Title(journey)), SLOW_TAG)
  }

  predicate InTier(tier: Tier, journey: Journey) {
    tier == AllTiers || (if tier == SlowTier then IsSlow(journey) else !IsSlow(journey))
  }

  /** The tag, then nothing but white space to the end. */
  ghost predicate IsTagged(title: string) {
    exists head, blanks :: title == head + "[slow]" + blanks && forall c | c in blanks :: IsSpace(c)
  }

  /** The slow tier is the journeys whose own title ends in the tag, the fast tier the others. */
  lemma SlowByTitle(journey: Journey)
    ensures InTier(SlowTier, journey) <==> journey.path != [] && IsTagged(journey.path[|journey.path| - 1])
    ensures InTier(FastTier, journey) <==> !InTier(SlowTier, journey)
    ensures InTier(AllTiers, journey)
  {
    var title, tag := Title(journey), "[slow]";
    var kept := TrimEnd(title);
    TrimEndCuts(title);
    if EndsWith(kept, tag) {
      var head, blanks := kept[..|kept| - |tag|], title[|kept|..];
      assert title == head + tag + blanks;
    }
    if IsTagged(title) {
      var head, blanks :| title == head + tag + blanks && forall c | c in blanks :: IsSpace(c);
      assert (head + tag)[|head + tag| - 1] == ']';
      TrimEndStops(head + tag, blanks);
    }
  }

  lemma {:induction false} TrimEndCuts(s: string)
    ensures TrimEnd(s) <= s && forall c | c in s[|TrimEnd(s)|..] :: IsSpace(c)
  {
    if s != "" && IsSpace(s[|s| - 1]) {
      var shorter := s[..|s| - 1];
      TrimEndCuts(shorter);
      assert s[|TrimEnd(s)|..] == shorter[|TrimEnd(s)|..] + [s[|s| - 1]];
    }
  }

  lemma {:induction false} TrimEndStops(s: string, blanks: string)
    requires s != "" && !IsSpace(s[|s| - 1]) && forall c | c in blanks :: IsSpace(c)
    ensures TrimEnd(s + blanks) == s
  {
    if blanks == "" {
      assert s + blanks == s;
    } else {
      var longer := s + blanks;
      assert longer[..|longer| - 1] == s + blanks[..|blanks| - 1] && IsSpace(longer[|longer| - 1]);
      TrimEndStops(s, blanks[..|blanks| - 1]);
    }
  }

  function Filter(tier: Tier, journeys: seq<Journey>): seq<Journey> {
    if journeys == [] then []
    else (if InTier(tier, journeys[0]) then [journeys[0]] else []) + Filter(tier, journeys[1..])
  }

  function Timed(timings: Timings, journey: Journey): Journey {
    journey.(seconds :=
      if journey.file in timings && Display(journey.path) in timings[journey.file]
        then timings[journey.file][Display(journey.path)]
      else UNKNOWN_SECONDS)
  }

  function AllTimed(timings: Timings, journeys: seq<Journey>): (timed: seq<Journey>)
    ensures |timed| == |journeys| && forall k :: 0 <= k < |journeys| ==> timed[k] == Timed(timings, journeys[k])
  {
    if journeys == [] then [] else [Timed(timings, journeys[0])] + AllTimed(timings, journeys[1..])
  }

  /** A journey is named by its describe names and its title, ` > ` between each two. */
  lemma DisplayOneMore(path: seq<string>, title: string)
    ensures Display([]) == "" && Display([title]) == title
    ensures path != [] ==> Display(path + [title]) == Display(path) + " > " + title
  {
    if path != [] { JoinOneMore(path, title, " > "); }
  }

  /** Seconds are looked up by file and, in it, by that name; an unrecorded journey counts as ten. */
  lemma TimedByName(timings: Timings, journey: Journey, name: string)
    requires name == Display(journey.path)
    ensures var timed := Timed(timings, journey);
            && timed.file == journey.file && timed.path == journey.path
            && (journey.file in timings && name in timings[journey.file] ==>
                 timed.seconds == timings[journey.file][name])
            && (journey.file in timings && name !in timings[journey.file] ==> timed.seconds == 100)
            && (journey.file !in timings ==> timed.seconds == 100)
  {}

  // ----- longest first -----

  /** Orders journeys of equal length; any relation will do for everything proved here. */
  type Ties = (Journey, Journey) -> bool

  predicate Before(a: Journey, b: Journey, ties: Ties) {
    a.seconds > b.seconds || (a.seconds == b.seconds && ties(a, b))
  }

  function Insert(journey: Journey, sorted: seq<Journey>, ties: Ties): seq<Journey> {
    if sorted == [] then [journey]
    else if Before(journey, sorted[0], ties) then [journey] + sorted
    else [sorted[0]] + Insert(journey, sorted[1..], ties)
  }

  /** A stable sort, longest first. */
  function Sort(journeys: seq<Journey>, ties: Ties): seq<Journey> {
    if journeys == [] then []
    else Insert(journeys[|journeys| - 1], Sort(journeys[..|journeys| - 1], ties), ties)
  }

  function Seconds(journeys: seq<Journey>): (sizes: Sizes)
    ensures |sizes| == |journeys| && forall k :: 0 <= k < |journeys| ==> sizes[k] == journeys[k].seconds
  {
    seq(|journeys|, k requires 0 <= k < |journeys| => journeys[k].seconds)
  }

  ghost predicate Descending(journeys: seq<Journey>) {
    forall i, j | 0 <= i < j < |journeys| :: journeys[i].seconds >= journeys[j].seconds
  }

  lemma {:induction false} InsertPermutes(journey: Journey, sorted: seq<Journey>, ties: Ties)
    ensures multiset(Insert(journey, sorted, ties)) == multiset(sorted) + multiset{journey}
  {
    if sorted != [] {
      assert sorted == [sorted[0]] + sorted[1..];
      InsertPermutes(journey, sorted[1..], ties);
    }
  }

  lemma {:induction false} InsertKeepsOrder(journey: Journey, sorted: seq<Journey>, ties: Ties)
    requires Descending(sorted)
    ensures Descending(Insert(journey, sorted, ties))
  {
    if sorted != [] && !Before(journey, sorted[0], ties) {
      InsertKeepsOrder(journey, sorted[1..], ties);
      InsertPermutes(journey, sorted[1..], ties);
      var rest := Insert(journey, sorted[1..], ties);
      forall k | 0 <= k < |rest| ensures sorted[0].seconds >= rest[k].seconds {
        assert rest[k] in multiset(rest);
      }
    }
  }

  lemma {:induction false} SortIsLongestFirst(journeys: seq<Journey>, ties: Ties)
    ensures Descending(Sort(journeys, ties)) && multiset(Sort(journeys, ties)) == multiset(journeys)
  {
    if journeys != [] {
      SortIsLongestFirst(journeys[..|journeys| - 1], ties);
      InsertKeepsOrder(journeys[|journeys| - 1], Sort(journeys[..|journeys| - 1], ties), ties);
      InsertPermutes(journeys[|journeys| - 1], Sort(journeys[..|journeys| - 1], ties), ties);
      assert journeys == journeys[..|journeys| - 1] + [journeys[|journeys| - 1]];
    }
  }

  /** The relation orders these journeys: it has a direction for any two that take equally long. */
  ghost predicate Decides(ties: Ties, journeys: multiset<Journey>) {
    && (forall a, b, c | ties(a, b) && ties(b, c) :: ties(a, c))
    && (forall a :: !ties(a, a))
    && (forall a, b | a in journeys && b in journeys && a != b && a.seconds == b.seconds :: ties(a, b) || ties(b, a))
  }

  predicate GoesFirst(a: Journey, b: Journey, ties: Ties) {
    a == b || a.seconds > b.seconds || (a.seconds == b.seconds && ties(a, b))
  }

  /** Earlier journeys go before later ones, unless they are equal. */
  ghost predicate InOrder(journeys: seq<Journey>, ties: Ties) {
    forall i, j | 0 <= i < j < |journeys| :: GoesFirst(journeys[i], journeys[j], ties)
  }

  lemma {:induction false} InsertInOrder(journey: Journey, sorted: seq<Journey>, ties: Ties)
    requires InOrder(sorted, ties) && Decides(ties, multiset(sorted) + multiset{journey})
    ensures InOrder(Insert(journey, sorted, ties), ties)
    decreases |sorted|
  {
    if sorted != [] {
      var head, rest := sorted[0], sorted[1..];
      assert sorted == [head] + rest;
      if Before(journey, head, ties) {
        forall k | 0 <= k < |sorted| ensures Before(journey, sorted[k], ties) {
          assert k == 0 || GoesFirst(head, sorted[k], ties);
        }
      } else {
        InsertInOrder(journey, rest, ties);
        HeadGoesFirst(journey, sorted, ties, Insert(journey, rest, ties));
      }
    }
  }

  lemma HeadGoesFirst(journey: Journey, sorted: seq<Journey>, ties: Ties, inserted: seq<Journey>)
    requires InOrder(sorted, ties) && Decides(ties, multiset(sorted) + multiset{journey})
    requires sorted != [] && !Before(journey, sorted[0], ties) && inserted == Insert(journey, sorted[1..], ties)
    ensures forall k | 0 <= k < |inserted| :: GoesFirst(sorted[0], inserted[k], ties)
  {
    InsertPermutes(journey, sorted[1..], ties);
    forall k | 0 <= k < |inserted| ensures GoesFirst(sorted[0], inserted[k], ties) {
      assert inserted[k] in multiset(inserted);
      if inserted[k] != journey {
        assert inserted[k] in sorted[1..];
        var at :| 0 < at < |sorted| && sorted[at] == inserted[k];
      }
    }
  }

  /** Journeys that take equally long stand in the order of the relation. */
  lemma {:induction false} SortBreaksTies(journeys: seq<Journey>, ties: Ties)
    requires Decides(ties, multiset(journeys))
    ensures InOrder(Sort(journeys, ties), ties)
  {
    if journeys != [] {
      var earlier, last := journeys[..|journeys| - 1], journeys[|journeys| - 1];
      assert journeys == earlier + [last];
      SortBreaksTies(earlier, ties);
      SortIsLongestFirst(earlier, ties);
      InsertInOrder(last, Sort(earlier, ties), ties);
    }
  }

  lemma {:induction false} OneOrder(a: seq<Journey>, b: seq<Journey>, ties: Ties)
    requires multiset(a) == multiset(b) && Decides(ties, multiset(a)) && InOrder(a, ties) && InOrder(b, ties)
    ensures a == b
    decreases |a|
  {
    assert |a| == |multiset(a)| && |b| == |multiset(b)|;
    if a != [] {
      FirstAgrees(a, b, ties);
      TailsAgree(a, b);
      OneOrder(a[1..], b[1..], ties);
    }
  }

  lemma TailsAgree<T>(a: seq<T>, b: seq<T>)
    requires a != [] && b != [] && a[0] == b[0] && multiset(a) == multiset(b)
    ensures multiset(a[1..]) == multiset(b[1..]) && multiset(a[1..]) <= multiset(a)
  {
    assert a == [a[0]] + a[1..] && b == [b[0]] + b[1..];
    assert multiset(a[1..]) == multiset(a) - multiset{a[0]};
  }

  lemma FirstAgrees(a: seq<Journey>, b: seq<Journey>, ties: Ties)
    requires a != [] && b != [] && multiset(a) == multiset(b) && Decides(ties, multiset(a))
    requires InOrder(a, ties) && InOrder(b, ties)
    ensures a[0] == b[0]
  {
    assert b[0] in multiset(b) && a[0] in multiset(a);
    assert b[0] in a && a[0] in b;
    var i, j :| 0 <= i < |a| && 0 <= j < |b| && a[i] == b[0] && b[j] == a[0];
    if i > 0 && j > 0 {
      assert GoesFirst(a[0], a[i], ties) && GoesFirst(b[0], b[j], ties);
    }
  }

  /** Runners that list the same journeys, in whatever order, hand them out in one and the same order. */
  lemma RunnersAgree(journeys: seq<Journey>, others: seq<Journey>, ties: Ties)
    requires multiset(journeys) == multiset(others) && Decides(ties, multiset(journeys))
    ensures Sort(journeys, ties) == Sort(others, ties)
  {
    SortBreaksTies(journeys, ties);
    SortBreaksTies(others, ties);
    SortIsLongestFirst(journeys, ties);
    SortIsLongestFirst(others, ties);
    OneOrder(Sort(journeys, ties), Sort(others, ties), ties);
  }

  // ----- dealing -----

  /** The journeys the first `k` placements hand to one runner. */
  function Deal(journeys: seq<Journey>, placement: Placement, k: nat, runner: nat): seq<Journey>
    requires k <= |journeys| == |placement|
  {
    if k == 0 then []
    else Deal(journeys, placement, k - 1, runner) + (if placement[k - 1] == runner then [journeys[k - 1]] else [])
  }

  /** The least loaded runner, the lowest-numbered one when several are. */
  method Lightest(loads: array<nat>) returns (lightest: nat)
    requires loads.Length > 0
    ensures lightest < loads.Length
    ensures forall runner | 0 <= runner < loads.Length :: loads[lightest] <= loads[runner]
    ensures forall runner | 0 <= runner < lightest :: loads[lightest] < loads[runner]
  {
    lightest := 0;
    for at := 1 to loads.Length
      invariant lightest < at
      invariant forall runner | 0 <= runner < at :: loads[lightest] <= loads[runner]
      invariant forall runner | 0 <= runner < lightest :: loads[lightest] < loads[runner]
    {
      if loads[at] < loads[lightest] { lightest := at; }
    }
  }

  /** Hands out sorted journeys, each to the least loaded runner, and keeps those of runner `index`. */
  method HandOut(journeys: seq<Journey>, index: nat, total: nat)
    returns (mine: seq<Journey>, loads: array<nat>, ghost placement: Placement)
    requires 1 <= index <= total
    ensures fresh(loads) && loads.Length == total
    ensures Greedy(Seconds(journeys), placement, total)
    ensures mine == Deal(journeys, placement, |journeys|, index - 1)
    ensures forall runner | 0 <= runner < total ::
            loads[runner] == Load(Seconds(journeys), placement, |journeys|, runner)
  {
    loads := new nat[total](_ => 0);
    mine := [];
    ghost var sizes := Seconds(journeys);
    placement := [];
    for k := 0 to |journeys|
      invariant |placement| == k && fresh(loads)
      invariant Greedy(sizes[..k], placement, total)
      invariant mine == Deal(journeys[..k], placement, k, index - 1)
      invariant forall runner | 0 <= runner < total :: loads[runner] == Load(sizes[..k], placement, k, runner)
    {
      var lightest := Lightest(loads);
      loads[lightest] := loads[lightest] + journeys[k].seconds;
      if lightest == index - 1 { mine := mine + [journeys[k]]; }
      assert sizes[..k + 1] == sizes[..k] + [sizes[k]];
      assert journeys[..k + 1] == journeys[..k] + [journeys[k]];
      PlacementExtends(sizes[..k], placement, total, sizes[k], lightest);
      DealExtends(journeys[..k], placement, k, index - 1, journeys[k], lightest);
      placement := placement + [lightest];
    }
    assert sizes[..|journeys|] == sizes && journeys[..|journeys|] == journeys;
  }

  lemma {:induction false} LoadPrefix(sizes: Sizes, placement: Placement, k: nat, runner: nat, size: nat, to: nat)
    requires k <= |sizes| == |placement|
    ensures Load(sizes + [size], placement + [to], k, runner) == Load(sizes, placement, k, runner)
  {
    if k > 0 { LoadPrefix(sizes, placement, k - 1, runner, size, to); }
  }

  lemma PlacementExtends(sizes: Sizes, placement: Placement, total: nat, size: nat, to: nat)
    requires Greedy(sizes, placement, total) && to < total && ToLightest(sizes, placement, total, |sizes|, to)
    ensures Greedy(sizes + [size], placement + [to], total)
    ensures forall runner: nat :: Load(sizes + [size], placement + [to], |sizes| + 1, runner)
                              == Load(sizes, placement, |sizes|, runner) + (if runner == to then size else 0)
  {
    forall k, runner: nat | 0 <= k <= |sizes|
      ensures Load(sizes + [size], placement + [to], k, runner) == Load(sizes, placement, k, runner)
    {
      LoadPrefix(sizes, placement, k, runner, size, to);
    }
    forall k | 0 <= k < |sizes| ensures ToLightest(sizes + [size], placement + [to], total, k, placement[k]) {
      assert ToLightest(sizes, placement, total, k, placement[k]);
    }
  }

  lemma {:induction false} DealExtends(journeys: seq<Journey>, placement: Placement, k: nat, runner: nat,
                                       journey: Journey, to: nat)
    requires k <= |journeys| == |placement|
    ensures Deal(journeys + [journey], placement + [to], k, runner) == Deal(journeys, placement, k, runner)
    ensures k == |journeys| ==> Deal(journeys + [journey], placement + [to], k + 1, runner)
                                == Deal(journeys, placement, k, runner) + (if runner == to then [journey] else [])
  {
    if k > 0 { DealExtends(journeys, placement, k - 1, runner, journey, to); }
  }

  // ----- the plan -----

  /** The order in which journeys are handed out; every runner computes the same one. */
  function Ordered(tier: Tier, listed: seq<Journey>, timings: Timings, ties: Ties): seq<Journey> {
    Sort(AllTimed(timings, Filter(tier, listed)), ties)
  }

  /** What runner `index` of `total` is handed. The promise about time is Graham's: no runner works longer than
      4/3 - 1/(3N) times what any assignment of these journeys to N runners could achieve. */
  method Plan(tier: Tier, listed: seq<Journey>, timings: Timings, ties: Ties, index: nat, total: nat)
    returns (mine: seq<Journey>, loads: array<nat>, ghost placement: Placement)
    requires 1 <= index <= total
    ensures fresh(loads) && loads.Length == total
    ensures var ordered := Ordered(tier, listed, timings, ties);
            && Greedy(Seconds(ordered), placement, total)
            && mine == Deal(ordered, placement, |ordered|, index - 1)
            && (forall runner | 0 <= runner < total ::
               loads[runner] == Work(Deal(ordered, placement, |ordered|, runner)))
    ensures forall runner, other: Placement, limit: nat |
              0 <= runner < total && Makespan(Seconds(Ordered(tier, listed, timings, ties)), other, total, limit) ::
              3 * total * loads[runner] <= (4 * total - 1) * limit
  {
    var ordered := Ordered(tier, listed, timings, ties);
    mine, loads, placement := HandOut(ordered, index, total);
    SortIsLongestFirst(AllTimed(timings, Filter(tier, listed)), ties);
    var sizes := Seconds(ordered);
    forall runner: nat | runner < total
      ensures Work(Deal(ordered, placement, |ordered|, runner)) == Load(sizes, placement, |ordered|, runner)
    {
      LoadIsWork(ordered, placement, |ordered|, runner);
    }
    forall runner, other: Placement, limit: nat | 0 <= runner < total && Makespan(sizes, other, total, limit)
      ensures 3 * total * loads[runner] <= (4 * total - 1) * limit
    {
      LongestFirstBound(sizes, placement, total, runner, other, limit);
    }
  }

  /** The seconds a list of journeys takes one after another. */
  function Work(journeys: seq<Journey>): nat {
    if journeys == [] then 0 else Work(journeys[..|journeys| - 1]) + journeys[|journeys| - 1].seconds
  }

  lemma {:induction false} LoadIsWork(journeys: seq<Journey>, placement: Placement, k: nat, runner: nat)
    requires k <= |journeys| == |placement|
    ensures Load(Seconds(journeys), placement, k, runner) == Work(Deal(journeys, placement, k, runner))
  {
    if k > 0 {
      LoadIsWork(journeys, placement, k - 1, runner);
      var dealt := Deal(journeys, placement, k - 1, runner);
      var longer := dealt + [journeys[k - 1]];
      assert longer[..|longer| - 1] == dealt && dealt + [] == dealt;
    }
  }

  /** There is only one greedy plan, so the runners agree without talking to each other. */
  lemma {:induction false} GreedyIsUnique(sizes: Sizes, a: Placement, b: Placement, runners: nat, k: nat)
    requires Greedy(sizes, a, runners) && Greedy(sizes, b, runners) && k <= |sizes|
    ensures a[..k] == b[..k]
    ensures forall runner: nat :: Load(sizes, a, k, runner) == Load(sizes, b, k, runner)
  {
    if k > 0 {
      GreedyIsUnique(sizes, a, b, runners, k - 1);
      assert ToLightest(sizes, a, runners, k - 1, a[k - 1]) && ToLightest(sizes, b, runners, k - 1, b[k - 1]);
      assert a[..k] == a[..k - 1] + [a[k - 1]] && b[..k] == b[..k - 1] + [b[k - 1]];
    }
  }

  /** Everything the first `runners` runners are handed. */
  ghost function AllDealt(journeys: seq<Journey>, placement: Placement, k: nat, runners: nat): multiset<Journey>
    requires k <= |journeys| == |placement|
  {
    if runners == 0 then multiset{}
    else AllDealt(journeys, placement, k, runners - 1) + multiset(Deal(journeys, placement, k, runners - 1))
  }

  lemma {:induction false} OneMoreDealt(journeys: seq<Journey>, placement: Placement, k: nat, runners: nat)
    requires 0 < k <= |journeys| == |placement|
    ensures AllDealt(journeys, placement, k, runners) == AllDealt(journeys, placement, k - 1, runners)
              + (if placement[k - 1] < runners then multiset{journeys[k - 1]} else multiset{})
  {
    if runners > 0 { OneMoreDealt(journeys, placement, k, runners - 1); }
  }

  lemma {:induction false} NothingDealt(journeys: seq<Journey>, placement: Placement, runners: nat)
    requires |journeys| == |placement|
    ensures AllDealt(journeys, placement, 0, runners) == multiset{}
  {
    if runners > 0 { NothingDealt(journeys, placement, runners - 1); }
  }

  lemma OneMoreJourney(journeys: seq<Journey>, k: nat)
    requires 0 < k <= |journeys|
    ensures multiset(journeys[..k]) == multiset(journeys[..k - 1]) + multiset{journeys[k - 1]}
  {
    assert journeys[..k] == journeys[..k - 1] + [journeys[k - 1]];
  }

  /** The shards partition the journeys: each is handed to exactly one runner. */
  lemma {:induction false} ShardsPartition(journeys: seq<Journey>, placement: Placement, k: nat, runners: nat)
    requires Places(Seconds(journeys), placement, runners) && k <= |journeys|
    ensures AllDealt(journeys, placement, k, runners) == multiset(journeys[..k])
  {
    if k == 0 {
      NothingDealt(journeys, placement, runners);
    } else {
      ShardsPartition(journeys, placement, k - 1, runners);
      OneMoreDealt(journeys, placement, k, runners);
      assert placement[k - 1] < runners;
      OneMoreJourney(journeys, k);
    }
  }

  /** The fast and the slow tier partition all journeys. */
  lemma {:induction false} TiersPartition(journeys: seq<Journey>)
    ensures multiset(Filter(FastTier, journeys)) + multiset(Filter(SlowTier, journeys)) == multiset(journeys)
  {
    if journeys != [] {
      var rest := journeys[1..];
      TiersPartition(rest);
      FilterStep(FastTier, journeys, Filter(FastTier, journeys), Filter(FastTier, rest));
      FilterStep(SlowTier, journeys, Filter(SlowTier, journeys), Filter(SlowTier, rest));
      assert journeys == [journeys[0]] + rest;
    }
  }

  lemma FilterStep(tier: Tier, journeys: seq<Journey>, kept: seq<Journey>, later: seq<Journey>)
    requires journeys != [] && kept == Filter(tier, journeys) && later == Filter(tier, journeys[1..])
    ensures multiset(kept) == multiset(later)
                              + (if InTier(tier, journeys[0]) then multiset{journeys[0]} else multiset{})
  {}

  /** What all runners are handed together is the tier, with its times. */
  lemma PlanCoversTier(tier: Tier, listed: seq<Journey>, timings: Timings, ties: Ties, placement: Placement,
                       runners: nat)
    requires var ordered := Ordered(tier, listed, timings, ties); Places(Seconds(ordered), placement, runners)
    ensures var ordered := Ordered(tier, listed, timings, ties);
            AllDealt(ordered, placement, |ordered|, runners) == multiset(AllTimed(timings, Filter(tier, listed)))
  {
    var ordered := Ordered(tier, listed, timings, ties);
    ShardsPartition(ordered, placement, |ordered|, runners);
    assert ordered[..|ordered|] == ordered;
    SortIsLongestFirst(AllTimed(timings, Filter(tier, listed)), ties);
  }
}
