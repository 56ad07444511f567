/** Longest-first list scheduling of the end-to-end journeys over N runners. Recorded times are rounded to a tenth
    of a second, so sizes are natural numbers of tenths. */
module ListScheduling {

  type Sizes = seq<nat>

  /** `placement[k]` is the runner of job `k`. */
  type Placement = seq<nat>

  ghost predicate Places(sizes: Sizes, placement: Placement, runners: nat) {
    |placement| == |sizes| && forall k | 0 <= k < |placement| :: placement[k] < runners
  }

  /** What the first `k` jobs put on one runner. */
  ghost function Load(sizes: Sizes, placement: Placement, k: nat, runner: nat): nat
    requires k <= |sizes| == |placement|
  {
    if k == 0 then 0
    else Load(sizes, placement, k - 1, runner) + (if placement[k - 1] == runner then sizes[k - 1] else 0)
  }

  ghost function Total(sizes: Sizes, k: nat): nat
    requires k <= |sizes|
  {
    if k == 0 then 0 else Total(sizes, k - 1) + sizes[k - 1]
  }

  /** Together, the first `runners` runners. */
  ghost function LoadSum(sizes: Sizes, placement: Placement, k: nat, runners: nat): nat
    requires k <= |sizes| == |placement|
  {
    if runners == 0 then 0 else LoadSum(sizes, placement, k, runners - 1) + Load(sizes, placement, k, runners - 1)
  }

  /** Every job goes to the lowest-numbered of the least loaded runners. */
  ghost predicate Greedy(sizes: Sizes, placement: Placement, runners: nat) {
    Places(sizes, placement, runners) && forall k | 0 <= k < |sizes| ::
        ToLightest(sizes, placement, runners, k, placement[k])
  }

  ghost predicate ToLightest(sizes: Sizes, placement: Placement, runners: nat, k: nat, lightest: nat)
    requires k <= |sizes| == |placement|
  {
    forall runner | 0 <= runner < runners ::
      && Load(sizes, placement, k, lightest) <= Load(sizes, placement, k, runner)
      && (runner < lightest ==> Load(sizes, placement, k, lightest) < Load(sizes, placement, k, runner))
  }

  ghost predicate LongestFirst(sizes: Sizes) {
    forall i, j | 0 <= i < j < |sizes| :: sizes[i] >= sizes[j]
  }

  /** No runner is busy for longer than `limit`. */
  ghost predicate Makespan(sizes: Sizes, placement: Placement, runners: nat, limit: nat) {
    && Places(sizes, placement, runners)
    && forall runner | 0 <= runner < runners :: Load(sizes, placement, |sizes|, runner) <= limit
  }

  // ----- conservation -----

  /** However jobs are placed, the loads add up to the work. */
  lemma {:induction false} LoadsConserveWork(sizes: Sizes, placement: Placement, k: nat, runners: nat)
    requires Places(sizes, placement, runners) && k <= |sizes|
    ensures LoadSum(sizes, placement, k, runners) == Total(sizes, k)
  {
    if k == 0 {
      EmptyLoads(sizes, placement, runners);
    } else {
      LoadsConserveWork(sizes, placement, k - 1, runners);
      OneJobAdds(sizes, placement, k, runners);
    }
  }

  lemma {:induction false} EmptyLoads(sizes: Sizes, placement: Placement, runners: nat)
    requires |sizes| == |placement|
    ensures LoadSum(sizes, placement, 0, runners) == 0
  {
    if runners > 0 { EmptyLoads(sizes, placement, runners - 1); }
  }

  lemma {:induction false} OneJobAdds(sizes: Sizes, placement: Placement, k: nat, runners: nat)
    requires 0 < k <= |sizes| == |placement|
    ensures LoadSum(sizes, placement, k, runners)
            == LoadSum(sizes, placement, k - 1, runners) + (if placement[k - 1] < runners then sizes[k - 1] else 0)
  {
    if runners > 0 { OneJobAdds(sizes, placement, k, runners - 1); }
  }

  lemma {:induction false} SumAtLeast(sizes: Sizes, placement: Placement, k: nat, runners: nat, floor: nat)
    requires k <= |sizes| == |placement|
    requires forall runner | 0 <= runner < runners :: Load(sizes, placement, k, runner) >= floor
    ensures LoadSum(sizes, placement, k, runners) >= runners * floor
  {
    if runners > 0 {
      SumAtLeast(sizes, placement, k, runners - 1, floor);
      assert runners * floor == (runners - 1) * floor + floor;
    }
  }

  lemma {:induction false} SumAtMost(sizes: Sizes, placement: Placement, k: nat, runners: nat, limit: nat)
    requires k <= |sizes| == |placement|
    requires forall runner | 0 <= runner < runners :: Load(sizes, placement, k, runner) <= limit
    ensures LoadSum(sizes, placement, k, runners) <= runners * limit
  {
    if runners > 0 {
      SumAtMost(sizes, placement, k, runners - 1, limit);
      assert runners * limit == (runners - 1) * limit + limit;
    }
  }

  lemma {:induction false} MoreJobsMoreLoad(sizes: Sizes, placement: Placement, j: nat, k: nat, runner: nat)
    requires j <= k <= |sizes| == |placement|
    ensures Load(sizes, placement, j, runner) <= Load(sizes, placement, k, runner)
    ensures Total(sizes, j) <= Total(sizes, k)
    decreases k - j
  {
    if j < k { MoreJobsMoreLoad(sizes, placement, j, k - 1, runner); }
  }

  /** The last job of a runner that has any. */
  lemma {:induction false} LastJob(sizes: Sizes, placement: Placement, k: nat, runner: nat) returns (j: nat)
    requires k <= |sizes| == |placement| && Load(sizes, placement, k, runner) > 0
    ensures j < k && placement[j] == runner
    ensures Load(sizes, placement, k, runner) == Load(sizes, placement, j, runner) + sizes[j]
  {
    if placement[k - 1] == runner { j := k - 1; } else { j := LastJob(sizes, placement, k - 1, runner); }
  }

  // ----- arithmetic -----

  lemma TimesSum(n: int, a: int, b: int)
    ensures n * (a + b) == n * a + n * b && (a + b) * n == a * n + b * n
  {}

  lemma TimesAtMost(n: nat, a: int, b: int)
    requires a <= b
    ensures n * a <= n * b
  {
    TimesSum(n, a, b - a);
    assert n * (b - a) >= 0;
  }

  lemma Spread(n: nat, share: nat, job: nat, work: nat, most: nat)
    requires n > 0 && n * share <= work && job <= most
    ensures n * (share + job) <= work + job + (n - 1) * most
  {
    TimesSum(n, share, job);
    TimesSum(job, n - 1, 1);
    TimesAtMost(n - 1, job, most);
  }

  lemma TwiceOf(n: nat, limit: nat)
    requires n > 0
    ensures n * limit + (n - 1) * limit == (2 * n - 1) * limit
  {
    TimesSum(limit, n, n - 1);
  }

  lemma Scale(n: nat, load: nat, limit: nat)
    requires n > 0 && load <= limit
    ensures 3 * n * load <= (4 * n - 1) * limit
  {
    TimesAtMost(3 * n, load, limit);
    TimesSum(limit, 3 * n, n - 1);
    assert (n - 1) * limit >= 0;
  }

  lemma ThirdOf(n: nat, load: nat, job: nat, limit: nat)
    requires n > 0 && 3 * job <= limit && n * load <= n * limit + (n - 1) * job
    ensures 3 * n * load <= (4 * n - 1) * limit
  {
    var m := n - 1;
    TimesAtMost(m, 3 * job, limit);
    assert m * (3 * job) == 3 * (m * job);
    TimesSum(limit, 3 * n, m);
    assert 3 * n * limit == 3 * (n * limit) && 3 * n * load == 3 * (n * load);
  }

  // ----- the bounds -----

  /** When a greedy plan gives job `j` to a runner, that runner holds at most an even share of the earlier work. */
  lemma EvenShare(sizes: Sizes, placement: Placement, runners: nat, j: nat)
    requires Greedy(sizes, placement, runners) && j < |sizes|
    ensures runners * Load(sizes, placement, j, placement[j]) <= Total(sizes, j)
  {
    assert ToLightest(sizes, placement, runners, j, placement[j]);
    SumAtLeast(sizes, placement, j, runners, Load(sizes, placement, j, placement[j]));
    LoadsConserveWork(sizes, placement, j, runners);
  }

  /** N · load ≤ total + (N - 1) · longest, for any greedy plan in any order. */
  lemma GreedyBound(sizes: Sizes, placement: Placement, runners: nat, runner: nat, longest: nat)
    requires Greedy(sizes, placement, runners) && runner < runners
    requires forall k | 0 <= k < |sizes| :: sizes[k] <= longest
    ensures runners * Load(sizes, placement, |sizes|, runner) <= Total(sizes, |sizes|) + (runners - 1) * longest
  {
    if Load(sizes, placement, |sizes|, runner) == 0 { return; }
    var j := LastJob(sizes, placement, |sizes|, runner);
    EvenShare(sizes, placement, runners, j);
    MoreJobsMoreLoad(sizes, placement, j + 1, |sizes|, runner);
    Spread(runners, Load(sizes, placement, j, runner), sizes[j], Total(sizes, j), longest);
  }

  /** A job fits under any makespan, and so does an even share of the work. */
  lemma MakespanHolds(sizes: Sizes, other: Placement, runners: nat, limit: nat, j: nat)
    requires Makespan(sizes, other, runners, limit) && j < |sizes|
    ensures sizes[j] <= limit && Total(sizes, j) + sizes[j] <= runners * limit
  {
    MoreJobsMoreLoad(sizes, other, j + 1, |sizes|, other[j]);
    SumAtMost(sizes, other, |sizes|, runners, limit);
    LoadsConserveWork(sizes, other, |sizes|, runners);
  }

  /** load ≤ (2 - 1/N) · the makespan of any plan whatever, for any greedy plan in any order. */
  lemma TwiceBest(sizes: Sizes, placement: Placement, runners: nat, runner: nat, other: Placement, limit: nat)
    requires Greedy(sizes, placement, runners) && runner < runners && Makespan(sizes, other, runners, limit)
    ensures runners * Load(sizes, placement, |sizes|, runner) <= (2 * runners - 1) * limit
  {
    if Load(sizes, placement, |sizes|, runner) == 0 { return; }
    var j := LastJob(sizes, placement, |sizes|, runner);
    EvenShare(sizes, placement, runners, j);
    MakespanHolds(sizes, other, runners, limit, j);
    Spread(runners, Load(sizes, placement, j, runner), sizes[j], Total(sizes, j), limit);
    TwiceOf(runners, limit);
  }

  // ----- longest first: Graham's 4/3 -----

  /** A job counts double when nothing as long as the critical job fits beside it. */
  ghost function Weights(sizes: Sizes, limit: nat, critical: nat): (weights: Sizes)
    ensures |weights| == |sizes|
  {
    seq(|sizes|, k requires 0 <= k < |sizes| => if sizes[k] + critical > limit then 2 else 1)
  }

  /** Under the limit, jobs longer than a third of it weigh at most two. */
  lemma {:induction false} WeightUnderLimit(sizes: Sizes, placement: Placement, k: nat, runner: nat, limit: nat,
                                            critical: nat)
    requires k <= |sizes| == |placement| && 3 * critical > limit
    requires forall i | 0 <= i < k :: sizes[i] >= critical
    ensures var weight, load := Load(Weights(sizes, limit, critical), placement, k, runner),
            Load(sizes, placement, k, runner);
            && (weight >= 1 ==> load >= critical)
            && (weight >= 2 ==> load + critical > limit)
            && (weight >= 3 ==> load > limit)
  {
    if k > 0 { WeightUnderLimit(sizes, placement, k - 1, runner, limit, critical); }
  }

  /** A runner too full for the critical job weighs at least two. */
  lemma {:induction false} WeightWhenFull(sizes: Sizes, placement: Placement, k: nat, runner: nat, limit: nat,
                                          critical: nat)
    requires k <= |sizes| == |placement| && critical <= limit
    ensures var weight, load := Load(Weights(sizes, limit, critical), placement, k, runner),
            Load(sizes, placement, k, runner);
            && (weight == 0 ==> load == 0)
            && (weight == 1 ==> load + critical <= limit)
  {
    if k > 0 { WeightWhenFull(sizes, placement, k - 1, runner, limit, critical); }
  }

  /** Up to the critical job, a plan under the limit weighs at most two on each runner. */
  lemma WeighsAtMostTwo(sizes: Sizes, other: Placement, runners: nat, j: nat, limit: nat)
    requires LongestFirst(sizes) && j < |sizes| && Makespan(sizes, other, runners, limit) && 3 * sizes[j] > limit
    ensures Total(Weights(sizes, limit, sizes[j]), j + 1) <= 2 * runners
  {
    var weights, upTo := Weights(sizes, limit, sizes[j]), j + 1;
    forall runner | 0 <= runner < runners
      ensures Load(weights, other, upTo, runner) <= 2
    {
      WeightUnderLimit(sizes, other, upTo, runner, limit, sizes[j]);
      MoreJobsMoreLoad(sizes, other, upTo, |sizes|, runner);
    }
    SumAtMost(weights, other, upTo, runners, 2);
    LoadsConserveWork(weights, other, upTo, runners);
  }

  /** When the least loaded runner is too full for the critical job, every runner already weighs two. */
  lemma WeighsAtLeastTwo(sizes: Sizes, placement: Placement, runners: nat, j: nat, limit: nat)
    requires Greedy(sizes, placement, runners) && j < |sizes| && sizes[j] <= limit
    requires Load(sizes, placement, j, placement[j]) + sizes[j] > limit
    ensures Total(Weights(sizes, limit, sizes[j]), j) >= 2 * runners
  {
    var weights := Weights(sizes, limit, sizes[j]);
    assert ToLightest(sizes, placement, runners, j, placement[j]);
    forall runner | 0 <= runner < runners
      ensures Load(weights, placement, j, runner) >= 2
    {
      WeightWhenFull(sizes, placement, j, runner, limit, sizes[j]);
    }
    SumAtLeast(weights, placement, j, runners, 2);
    LoadsConserveWork(weights, placement, j, runners);
  }

  /** A critical job longer than a third of the limit still fits: otherwise every runner already weighs two, and
      the other plan would have to carry more than two on one of its runners. */
  lemma LongCriticalJobFits(sizes: Sizes, placement: Placement, runners: nat, j: nat, other: Placement, limit: nat)
    requires Greedy(sizes, placement, runners) && LongestFirst(sizes) && j < |sizes|
    requires Makespan(sizes, other, runners, limit) && 3 * sizes[j] > limit
    ensures Load(sizes, placement, j, placement[j]) + sizes[j] <= limit
  {
    MakespanHolds(sizes, other, runners, limit, j);
    WeighsAtMostTwo(sizes, other, runners, j, limit);
    if Load(sizes, placement, j, placement[j]) + sizes[j] > limit {
      WeighsAtLeastTwo(sizes, placement, runners, j, limit);
    }
  }

  /** load ≤ (4/3 - 1/(3N)) · the makespan of any plan whatever, when jobs are taken longest first. */
  lemma LongestFirstBound(sizes: Sizes, placement: Placement, runners: nat, runner: nat, other: Placement, limit: nat)
    requires Greedy(sizes, placement, runners) && LongestFirst(sizes) && runner < runners
    requires Makespan(sizes, other, runners, limit)
    ensures 3 * runners * Load(sizes, placement, |sizes|, runner) <= (4 * runners - 1) * limit
  {
    var load := Load(sizes, placement, |sizes|, runner);
    if load == 0 { return; }
    var j := LastJob(sizes, placement, |sizes|, runner);
    if 3 * sizes[j] > limit {
      LongCriticalJobFits(sizes, placement, runners, j, other, limit);
      Scale(runners, load, limit);
    } else {
      EvenShare(sizes, placement, runners, j);
      MakespanHolds(sizes, other, runners, limit, j);
      Spread(runners, Load(sizes, placement, j, runner), sizes[j], Total(sizes, j), sizes[j]);
      ThirdOf(runners, load, sizes[j], limit);
    }
  }

  // ----- the bound is attained -----

  /** Two jobs of each length from 2n - 1 down to n, and a third of length n. */
  ghost function HardSizes(n: nat): (sizes: Sizes)
    requires n > 0
    ensures |sizes| == 2 * n + 1 && sizes[2 * n] == n && forall k | 0 <= k < 2 * n :: sizes[k] == 2 * n - 1 - k / 2
  {
    seq(2 * n + 1, k requires 0 <= k < 2 * n + 1 => if k < 2 * n then 2 * n - 1 - k / 2 else n)
  }

  /** The other runner of the pair 0 1, 2 3, ..., unless it is not among the first `n`. */
  ghost function Twin(n: nat, runner: nat): (twin: nat)
    requires runner < n
    ensures twin < n && twin / 2 == runner / 2
  {
    if runner % 2 == 1 then runner - 1 else if runner + 1 < n then runner + 1 else runner
  }

  lemma TwinOfTwin(n: nat, runner: nat)
    requires runner < n
    ensures Twin(n, Twin(n, runner)) == runner
  {}

  /** Where longest-first scheduling puts them: once along the runners, once back in pairs, and the last to the
      first. */
  ghost function HardPlacement(n: nat): (placement: Placement)
    requires n > 0
    ensures |placement| == 2 * n + 1 && placement[2 * n] == 0
    ensures forall k | 0 <= k < n :: placement[k] == k
    ensures forall k | n <= k < 2 * n :: placement[k] == Twin(n, 2 * n - 1 - k)
  {
    seq(2 * n + 1, k requires 0 <= k < 2 * n + 1 =>
        if k < n then k else if k < 2 * n then Twin(n, 2 * n - 1 - k) else 0)
  }

  /** The better plan pairs jobs to 3n, and leaves the three shortest together. */
  ghost function BetterPlacement(n: nat): (placement: Placement)
    requires n > 0
    ensures |placement| == 2 * n + 1 && forall k | 2 * n - 2 <= k < 2 * n + 1 :: placement[k] == n - 1
    ensures forall k | 0 <= k < n - 1 :: placement[k] == k
    ensures forall k | n - 1 <= k < 2 * n - 2 :: placement[k] == 2 * n - 3 - k
  {
    seq(2 * n + 1, k requires 0 <= k < 2 * n + 1 =>
        if k < n - 1 then k else if k < 2 * n - 2 then 2 * n - 3 - k else n - 1)
  }

  lemma {:induction false} FirstRound(n: nat, k: nat, runner: nat)
    requires k <= n && runner < n
    ensures Load(HardSizes(n), HardPlacement(n), k, runner) == if runner < k then 2 * n - 1 - runner / 2 else 0
  {
    if k > 0 { FirstRound(n, k - 1, runner); }
  }

  /** A job of the second round goes to its runner's twin position, and fills that runner up to 3n - 1. */
  lemma SecondJob(n: nat, k: nat, runner: nat, twin: nat)
    requires n <= k < 2 * n && runner < n && twin == Twin(n, runner)
    ensures HardPlacement(n)[k] == runner <==> 2 * n - 1 - twin == k
    ensures 2 * n - 1 - twin == k ==> 2 * n - 1 - runner / 2 + HardSizes(n)[k] == 3 * n - 1
  {
    TwinOfTwin(n, runner);
    TwinOfTwin(n, 2 * n - 1 - k);
  }

  lemma {:induction false} SecondRound(n: nat, k: nat, runner: nat)
    requires n <= k <= 2 * n && runner < n
    ensures Load(HardSizes(n), HardPlacement(n), k, runner)
            == if 2 * n - 1 - Twin(n, runner) < k then 3 * n - 1 else 2 * n - 1 - runner / 2
    decreases k
  {
    if k == n {
      FirstRound(n, n, runner);
    } else {
      SecondRound(n, k - 1, runner);
      SecondJob(n, k - 1, runner, Twin(n, runner));
    }
  }

  lemma HardIsGreedy(n: nat)
    requires n > 0
    ensures Greedy(HardSizes(n), HardPlacement(n), n)
  {
    var sizes, placement := HardSizes(n), HardPlacement(n);
    forall k | 0 <= k < |sizes| ensures ToLightest(sizes, placement, n, k, placement[k]) {
      forall runner | 0 <= runner < n
        ensures Load(sizes, placement, k, placement[k]) <= Load(sizes, placement, k, runner)
        ensures runner < placement[k] ==> Load(sizes, placement, k, placement[k]) < Load(sizes, placement, k, runner)
      {
        if k < n {
          FirstRound(n, k, k);
          FirstRound(n, k, runner);
        } else {
          SecondRound(n, k, placement[k]);
          SecondRound(n, k, runner);
          if k < 2 * n { TwinsTakeTurns(n, k, placement[k], runner); }
        }
      }
    }
  }

  /** Of the runners without a second job the next to get one is among the last pair, and the first of it. */
  lemma TwinsTakeTurns(n: nat, k: nat, next: nat, runner: nat)
    requires n <= k < 2 * n && runner < n && next == Twin(n, 2 * n - 1 - k)
    ensures 2 * n - 1 - Twin(n, next) == k
    ensures 2 * n - 1 - Twin(n, runner) >= k ==> runner / 2 <= next / 2 && (runner < next ==> runner / 2 < next / 2)
  {
    TwinOfTwin(n, 2 * n - 1 - k);
  }

  lemma {:induction false} PairedLoad(n: nat, k: nat, runner: nat)
    requires runner < n - 1 && k <= 2 * n + 1
    ensures Load(HardSizes(n), BetterPlacement(n), k, runner) ==
            (if runner < k then 2 * n - 1 - runner / 2 else 0)
                + (if 2 * n - 3 - runner < k then n + 1 + runner / 2 else 0)
  {
    if k > 0 {
      PairedLoad(n, k - 1, runner);
      Halves(n, runner);
    }
  }

  lemma Halves(n: nat, runner: nat)
    requires runner < n - 1
    ensures 2 * n - 1 - (2 * n - 3 - runner) / 2 == n + 1 + runner / 2
  {}

  lemma {:induction false} LastLoad(n: nat, k: nat)
    requires n > 0 && k <= 2 * n - 2
    ensures Load(HardSizes(n), BetterPlacement(n), k, n - 1) == 0
  {
    if k > 0 { LastLoad(n, k - 1); }
  }

  lemma BetterLoad(n: nat, runner: nat)
    requires runner < n
    ensures Load(HardSizes(n), BetterPlacement(n), 2 * n + 1, runner) == 3 * n
  {
    if runner < n - 1 {
      PairedLoad(n, 2 * n + 1, runner);
    } else {
      var sizes, other := HardSizes(n), BetterPlacement(n);
      LastLoad(n, 2 * n - 2);
      assert Load(sizes, other, 2 * n - 1, runner) == n && Load(sizes, other, 2 * n, runner) == 2 * n;
    }
  }

  /** The factor 4/3 - 1/(3n) cannot be improved for any number of runners. */
  lemma LongestFirstBoundIsTight(n: nat)
    requires n > 0
    ensures var sizes, placement, other := HardSizes(n), HardPlacement(n), BetterPlacement(n);
            && Greedy(sizes, placement, n) && LongestFirst(sizes) && Makespan(sizes, other, n, 3 * n)
            && 3 * n * Load(sizes, placement, |sizes|, 0) == (4 * n - 1) * (3 * n)
  {
    HardIsGreedy(n);
    HardIsLongestFirst(n);
    HardLoad(n);
    BetterIsBetter(n);
    assert 3 * n * (4 * n - 1) == (4 * n - 1) * (3 * n);
  }

  lemma HardIsLongestFirst(n: nat)
    requires n > 0
    ensures LongestFirst(HardSizes(n))
  {
    forall i, j | 0 <= i < j < 2 * n ensures HardSizes(n)[i] >= HardSizes(n)[j] { assert i / 2 <= j / 2; }
  }

  lemma HardLoad(n: nat)
    requires n > 0
    ensures Load(HardSizes(n), HardPlacement(n), |HardSizes(n)|, 0) == 4 * n - 1
  {
    SecondRound(n, 2 * n, 0);
  }

  lemma BetterIsBetter(n: nat)
    requires n > 0
    ensures Makespan(HardSizes(n), BetterPlacement(n), n, 3 * n)
  {
    forall runner | 0 <= runner < n ensures Load(HardSizes(n), BetterPlacement(n), |HardSizes(n)|, runner) <= 3 * n {
      BetterLoad(n, runner);
    }
  }
}
