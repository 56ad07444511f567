/** The order in which modules are taken off the queue can decide whether the walk has an answer: one code base, and the
    exact outcome of every walk over it. */
module WalkOrders {
  import opened DemandWalk
  import opened ModuleFacts
  import opened ModuleGraphs
  import opened Options

  const EMPTY := Facts({}, [], [], [], [])

  /** The root imports `bad` from `f`, which has no such name, and everything from `g`, which re-exports all of `f`. */
  const TWO_WAYS := Project(
    map["r" := EMPTY.(imports := [Import("./f", {Name("bad")}), Import("./g", {All})]), "f" := EMPTY,
        "g" := EMPTY.(starReexports := ["./f"])],
    map[("r", "./f") := "f", ("r", "./g") := "g", ("g", "./f") := "f"])

  lemma BadIsUnresolvable()
    ensures TWO_WAYS.Unresolvable("f", "bad")
  {
    forall path | TWO_WAYS.StarPath(path, "f") ensures |path| == 1 { FirstHop(TWO_WAYS, path, "f"); }
  }

  lemma FirstHop(p: Project, path: seq<File>, file: File)
    requires p.StarPath(path, file)
    ensures |path| > 1 ==> p.StarHop(file, path[1])
  {
    if |path| > 1 { assert p.StarHop(path[0], path[0 + 1]); }
  }

  // ----- what each module's turn does -----

  /** Nothing has been asked of `f` but the name it does not have, and everything of the others. */
  ghost predicate BadOnly(d: Demands) {
    d.Keys == {"r", "f", "g"} && All in d["r"] && d["f"] == {Name("bad")} && All in d["g"]
  }

  /** Everything has been asked of all three. */
  ghost predicate AllAsked(d: Demands) {
    d.Keys == {"r", "f", "g"} && All in d["r"] && All in d["f"] && All in d["g"]
  }

  lemma LeadsToFOrG(a: Item, b: Item)
    requires TWO_WAYS.Leads(a, b)
    ensures b.file in {"f", "g"}
  {}

  lemma RootLeads()
    ensures TWO_WAYS.Leads(Touch("r"), Ask("f", Name("bad"))) && TWO_WAYS.Leads(Touch("r"), Ask("g", All))
  {
    assert TWO_WAYS.ByImport(Touch("r"), Ask("f", Name("bad")), 0) && TWO_WAYS.ByImport(Touch("r"), Ask("g", All), 1);
  }

  lemma RootLeadsOnlyTo(a: Item, want: Want)
    requires a.file == "r" && TWO_WAYS.Leads(a, Ask("f", want))
    ensures want == Name("bad")
  {}

  /** No turn reaches a fourth module. */
  lemma StaysInside(file: File, d0: Demands, queue0: seq<File>, d: Demands, queue: seq<File>)
    requires Steps(TWO_WAYS, file, d0, queue0, d, queue) && d0.Keys <= {"r", "f", "g"}
    ensures d.Keys <= {"r", "f", "g"}
  {
    forall target | target in d && target !in d0 ensures target in {"f", "g"} {
      var b: Item :| b.file == target && Led(TWO_WAYS, d, file, b);
      var a :| LeadsFrom(TWO_WAYS, d, file, a, b);
      LeadsToFOrG(a, b);
    }
  }

  /** The root's own turn asks `f` for nothing but `bad`. */
  lemma RootAsksForBad(d0: Demands, queue0: seq<File>, d: Demands, queue: seq<File>)
    requires Steps(TWO_WAYS, "r", d0, queue0, d, queue) && ("f" in d0 ==> d0["f"] == {Name("bad")})
    ensures "f" in d ==> d["f"] <= {Name("bad")}
  {
    if "f" in d {
      forall want | want in d["f"] ensures want == Name("bad") {
        if !("f" in d0 && want in d0["f"]) {
          assert Led(TWO_WAYS, d, "r", Ask("f", want));
          var a :| LeadsFrom(TWO_WAYS, d, "r", a, Ask("f", want));
          RootLeadsOnlyTo(a, want);
        }
      }
    }
  }

  lemma FirstTurn(d0: Demands, queue0: seq<File>, d: Demands, queue: seq<File>)
    requires d0.Keys == {"r"} && d0["r"] == {All} && Steps(TWO_WAYS, "r", d0, queue0, d, queue)
    requires Closed(TWO_WAYS, d, "r", {All})
    ensures BadOnly(d) && "f" in queue && "g" in queue
  {
    RootLeads();
    StaysInside("r", d0, queue0, d, queue);
    RootAsksForBad(d0, queue0, d, queue);
    assert Covers(d, Ask("f", Name("bad"))) && Covers(d, Ask("g", All));
    assert Grew(d0, d, "f") && Grew(d0, d, "g");
  }

  lemma AnotherRootTurn(d0: Demands, queue0: seq<File>, d: Demands, queue: seq<File>)
    requires BadOnly(d0) && Steps(TWO_WAYS, "r", d0, queue0, d, queue)
    ensures BadOnly(d)
  {
    StaysInside("r", d0, queue0, d, queue);
    RootAsksForBad(d0, queue0, d, queue);
  }

  lemma TurnOfG(d0: Demands, queue0: seq<File>, d: Demands, queue: seq<File>)
    requires BadOnly(d0) && Steps(TWO_WAYS, "g", d0, queue0, d, queue) && Closed(TWO_WAYS, d, "g", d0["g"])
    ensures AllAsked(d)
  {
    StaysInside("g", d0, queue0, d, queue);
    assert TWO_WAYS.Edge("g", TWO_WAYS.facts["g"].starReexports[0]) == Some("f");
    assert TWO_WAYS.StarHop("g", "f");
    assert TWO_WAYS.ByStar(Ask("g", All), Ask("f", All));
    assert Covers(d, Ask("f", All));
  }

  lemma TurnAfterG(file: File, d0: Demands, queue0: seq<File>, d: Demands, queue: seq<File>)
    requires AllAsked(d0) && Steps(TWO_WAYS, file, d0, queue0, d, queue)
    ensures AllAsked(d)
  {
    StaysInside(file, d0, queue0, d, queue);
  }

  /** With nothing but `bad` asked of `f`, exactly `f`'s turn fails. */
  lemma FailsAtF(move: Move, file: File)
    requires IsMove(TWO_WAYS, move, file) && BadOnly(move.before)
    ensures FailsOver(TWO_WAYS, move, file) <==> file == "f"
  {
    BadIsUnresolvable();
    if file == "f" { assert Missing(TWO_WAYS, move.after, "f", "bad"); }
  }

  // ----- every walk -----

  /** Of the first `n` turns one took this module. */
  ghost predicate Taken(moves: seq<Move>, n: nat, file: File)
    requires n <= |moves|
  {
    exists k :: 0 <= k < n && Takes(moves[k], file)
  }

  /** Some turn took `first` when none had taken `other`. */
  ghost predicate TakenBefore(moves: seq<Move>, first: File, other: File) {
    exists k :: 0 <= k < |moves| && Takes(moves[k], first) && !Taken(moves, k, other)
  }

  lemma FirstTakesRoot(pick: seq<File> -> nat, moves: seq<Move>)
    requires IsWalk(TWO_WAYS, ["r"], pick, moves) && moves != []
    ensures Takes(moves[0], "r") && !Fails(TWO_WAYS, moves[0])
    ensures BadOnly(moves[0].after) && "f" in moves[0].left && "g" in moves[0].left
  {
    var move := moves[0];
    assert IsPicked(TWO_WAYS, pick, move);
    var file :| IsMove(TWO_WAYS, move, file);
    assert SetOf(["r"]) == {"r"};
    assert file in SetOf(move.queue);
    assert move.before[file] == {All};
    FirstTurn(move.before, move.queue[..move.at] + move.queue[move.at + 1..], move.after, move.left);
  }

  /** Before the turn of `g`, and from then on. */
  lemma {:induction false} StateAt(pick: seq<File> -> nat, moves: seq<Move>, k: nat)
    requires IsWalk(TWO_WAYS, ["r"], pick, moves) && 1 <= k < |moves|
    ensures if Taken(moves, k, "g") then AllAsked(moves[k].before) else BadOnly(moves[k].before)
  {
    FirstTakesRoot(pick, moves);
    assert Follows(TWO_WAYS, moves[k - 1], moves[k]);
    if k == 1 {
      assert !Taken(moves, 1, "g");
    } else {
      StateAt(pick, moves, k - 1);
      assert IsPicked(TWO_WAYS, pick, moves[k - 1]);
      var file :| IsMove(TWO_WAYS, moves[k - 1], file);
      TakenByOneMore(moves, k - 1, file);
      NextState(moves[k - 1], file, Taken(moves, k - 1, "g"));
    }
  }

  lemma TakenByOneMore(moves: seq<Move>, k: nat, file: File)
    requires k < |moves| && Takes(moves[k], file)
    ensures Taken(moves, k + 1, "g") <==> Taken(moves, k, "g") || file == "g"
  {
    if Taken(moves, k, "g") {
      var j :| 0 <= j < k && Takes(moves[j], "g");
      assert 0 <= j < k + 1 && Takes(moves[j], "g");
    }
  }

  lemma NextState(move: Move, file: File, gTaken: bool)
    requires IsMove(TWO_WAYS, move, file) && !Fails(TWO_WAYS, move)
    requires if gTaken then AllAsked(move.before) else BadOnly(move.before)
    ensures if gTaken || file == "g" then AllAsked(move.after) else BadOnly(move.after)
  {
    var rest := move.queue[..move.at] + move.queue[move.at + 1..];
    if gTaken {
      TurnAfterG(file, move.before, rest, move.after, move.left);
    } else {
      FailsAtF(move, file);
      if file == "g" {
        TurnOfG(move.before, rest, move.after, move.left);
      } else {
        AnotherRootTurn(move.before, rest, move.after, move.left);
      }
    }
  }

  /** A turn fails exactly when it takes `f` and no turn before it has taken `g`. */
  lemma FailsExactly(pick: seq<File> -> nat, moves: seq<Move>, k: nat)
    requires IsWalk(TWO_WAYS, ["r"], pick, moves) && k < |moves|
    ensures Fails(TWO_WAYS, moves[k]) <==> Takes(moves[k], "f") && !Taken(moves, k, "g")
  {
    if k == 0 {
      FirstTakesRoot(pick, moves);
    } else {
      StateAt(pick, moves, k);
      assert IsPicked(TWO_WAYS, pick, moves[k]);
      var file :| IsMove(TWO_WAYS, moves[k], file);
      if !Taken(moves, k, "g") { FailsAtF(moves[k], file); }
    }
  }

  /** Whatever the order, the walk over this code base fails exactly when `f` is taken off the queue before `g` is. */
  lemma OrderDecides(pick: seq<File> -> nat, moves: seq<Move>, outcome: Outcome)
    requires IsWalk(TWO_WAYS, ["r"], pick, moves) && Concludes(TWO_WAYS, ["r"], moves, outcome)
    ensures outcome.Failed? <==> TakenBefore(moves, "f", "g")
  {
    var last := |moves| - 1;
    LastDecides(moves, outcome);
    forall k | 0 <= k < |moves| ensures Fails(TWO_WAYS, moves[k]) <==> Takes(moves[k], "f") && !Taken(moves, k, "g") {
      FailsExactly(pick, moves, k);
    }
    forall k | 0 <= k < last ensures !Fails(TWO_WAYS, moves[k]) { OnlyLastFails(pick, moves, k); }
  }

  lemma OnlyLastFails(pick: seq<File> -> nat, moves: seq<Move>, k: nat)
    requires IsWalk(TWO_WAYS, ["r"], pick, moves) && k < |moves| - 1
    ensures !Fails(TWO_WAYS, moves[k])
  {
    assert Follows(TWO_WAYS, moves[k + 1 - 1], moves[k + 1]);
  }

  lemma LastDecides(moves: seq<Move>, outcome: Outcome)
    requires Concludes(TWO_WAYS, ["r"], moves, outcome)
    ensures moves != [] && (outcome.Failed? <==> Fails(TWO_WAYS, moves[|moves| - 1]))
  {}

  // ----- both happen -----

  /** Where this module is in the queue, if it is. */
  function Preferring(file: File): seq<File> -> nat {
    queue => IndexOf(queue, file)
  }

  function IndexOf(queue: seq<File>, file: File): (at: nat)
    ensures |queue| > 0 ==> at < |queue|
    ensures file in queue ==> queue[at] == file
  {
    if |queue| <= 1 || queue[0] == file then 0
    else if file in queue[1..] then 1 + IndexOf(queue[1..], file)
    else 0
  }

  /** The second turn takes what is preferred: by then both are queued. */
  lemma SecondTurn(first: File, moves: seq<Move>, outcome: Outcome)
    requires first in {"f", "g"}
    requires IsWalk(TWO_WAYS, ["r"], Preferring(first), moves) && Concludes(TWO_WAYS, ["r"], moves, outcome)
    ensures |moves| >= 2 && Takes(moves[1], first) && !Taken(moves, 1, "g") && !Takes(moves[0], "f")
  {
    LastDecides(moves, outcome);
    FirstTakesRoot(Preferring(first), moves);
    assert |moves| >= 2;
    assert Follows(TWO_WAYS, moves[1 - 1], moves[1]);
    assert IsPicked(TWO_WAYS, Preferring(first), moves[1]);
    var file :| IsMove(TWO_WAYS, moves[1], file);
  }

  /** Preferring `f` the walk fails, preferring `g` it does not. */
  lemma PreferenceDecides(first: File, moves: seq<Move>, outcome: Outcome)
    requires first in {"f", "g"}
    requires IsWalk(TWO_WAYS, ["r"], Preferring(first), moves) && Concludes(TWO_WAYS, ["r"], moves, outcome)
    ensures outcome.Failed? <==> first == "f"
  {
    SecondTurn(first, moves, outcome);
    OrderDecides(Preferring(first), moves, outcome);
    PreferredIsBefore(first, moves);
  }

  lemma PreferredIsBefore(first: File, moves: seq<Move>)
    requires first in {"f", "g"} && |moves| >= 2 && Takes(moves[1], first)
    requires !Taken(moves, 1, "g") && !Takes(moves[0], "f")
    ensures TakenBefore(moves, "f", "g") <==> first == "f"
  {
    if first == "g" {
      forall k | 0 <= k < |moves| && Takes(moves[k], "f") ensures Taken(moves, k, "g") {
        assert Takes(moves[1], "g");
      }
    }
  }

  /** Both walks, taken. */
  method WalkPreferring(graph: ModuleGraph, first: File) returns (outcome: Outcome, ghost moves: seq<Move>)
    requires graph.Valid() && graph.project == TWO_WAYS && first in {"f", "g"}
    modifies graph`exportNamesCache
    ensures IsWalk(TWO_WAYS, ["r"], Preferring(first), moves) && Concludes(TWO_WAYS, ["r"], moves, outcome)
    ensures outcome.Failed? <==> first == "f"
  {
    outcome, moves := Drain(graph, ["r"], Preferring(first));
    PreferenceDecides(first, moves, outcome);
  }
}
