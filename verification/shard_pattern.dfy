/** The test-name pattern a runner is handed, read by a matcher for literal alternations: what the anchored
    alternation of escaped names matches, and which journeys a runner therefore runs. */
module ShardPattern {
  import opened E2eShards
  import opened ListScheduling
  import opened Options
  import opened Text

  /** The characters with a meaning of their own in a regular expression. */
  predicate IsSyntax(c: char) {
    c in "^$\\.*+?()[]{}|"
  }

  /** What the escaping replaces: every syntax character, and the slash. */
  predicate IsEscaped(c: char) {
    IsSyntax(c) || c == '/'
  }

  /** The syntax characters of a regular expression (section 22.2.1 of ECMA-262), and the slash, are escaped. */
  lemma SyntaxIsEscaped(c: char, all: string)
    requires all == "^$\\.*+?()[]{}|"
    ensures IsSyntax(c) <==>
            || c == '^' || c == '$' || c == '\\' || c == '.' || c == '*' || c == '+' || c == '?' || c == '|'
            || c == '(' || c == ')' || c == '[' || c == ']' || c == '{' || c == '}'
    ensures IsEscaped(c) <==> c == '/' || IsSyntax(c)
  {
    SyntaxIsSpelled(all);
    if c in all { var k :| 0 <= k < |all| && all[k] == c; }
  }

  lemma SyntaxIsSpelled(all: string)
    requires all == "^$\\.*+?()[]{}|"
    ensures |all| == 14 && all[0] == '^' && all[1] == '$' && all[2] == '\\' && all[3] == '.' && all[4] == '*'
            && all[5] == '+' && all[6] == '?' && all[7] == '(' && all[8] == ')' && all[9] == '[' && all[10] == ']'
            && all[11] == '{' && all[12] == '}' && all[13] == '|'
  {}

  function EscapeRegex(text: string): string {
    if text == "" then ""
    else (if IsEscaped(text[0]) then ['\\', text[0]] else [text[0]]) + EscapeRegex(text[1..])
  }

  /** The name Bun matches a test by: its describe names and its title, joined by single spaces. */
  function FullName(journey: Journey): string {
    Join(journey.path, " ")
  }

  function Escaped(names: seq<string>): (escaped: seq<string>)
    ensures |escaped| == |names|
  {
    if names == [] then [] else [EscapeRegex(names[0])] + Escaped(names[1..])
  }

  function Pattern(names: seq<string>): string {
    "^(?:" + Join(Escaped(names), "|") + ")$"
  }

  // ----- the matcher -----

  function Prepend(c: char, alternatives: Option<seq<string>>): Option<seq<string>> {
    if alternatives.Some? && alternatives.value != [] then Some([[c] + alternatives.value[0]] + alternatives.value[1..])
      else None
  }

  /** Reads an alternation of literals: a backslash makes the next syntax character (or slash) a literal, a bare
      `|` starts the next alternative, and any other bare syntax character is not a literal. */
  function Alternatives(body: string): Option<seq<string>> {
    if body == "" then Some([""])
    else if body[0] == '\\' then
      if |body| > 1 && IsEscaped(body[1]) then Prepend(body[1], Alternatives(body[2..])) else None
    else if body[0] == '|' then
      var rest := Alternatives(body[1..]);
      if rest.Some? then Some([""] + rest.value) else None
    else if IsSyntax(body[0]) then None
    else Prepend(body[0], Alternatives(body[1..]))
  }

  /** An anchored group matches a text when the text is one of its alternatives. */
  predicate Matches(pattern: string, text: string) {
    && |pattern| >= 6 && StartsWith(pattern, "^(?:") && EndsWith(pattern, ")$")
    && var alternatives := Alternatives(pattern[4..|pattern| - 2]);
       alternatives.Some? && text in alternatives.value
  }

  lemma {:induction false} EscapedReadsBack(text: string, rest: string, first: string, more: seq<string>)
    requires Alternatives(rest) == Some([first] + more)
    ensures Alternatives(EscapeRegex(text) + rest) == Some([text + first] + more)
  {
    BodyReadsBack(text, rest, first, more, EscapeRegex(text) + rest, text + first);
  }

  lemma {:induction false} BodyReadsBack(text: string, rest: string, first: string, more: seq<string>,
                                         body: string, name: string)
    requires Alternatives(rest) == Some([first] + more) && body == EscapeRegex(text) + rest && name == text + first
    ensures Alternatives(body) == Some([name] + more)
  {
    if text == "" {
      assert body == rest && name == first;
    } else {
      var tail, later := EscapeRegex(text[1..]) + rest, text[1..] + first;
      BodyReadsBack(text[1..], rest, first, more, tail, later);
      EscapedStep(text[0], EscapeRegex(text[1..]), EscapeRegex(text), rest);
      assert name == [text[0]] + later;
      CharacterReadsBack(body, tail, text[0], later, more, name);
    }
  }

  lemma EscapedStep(c: char, tail: string, escaped: string, rest: string)
    requires escaped == (if IsEscaped(c) then ['\\', c] else [c]) + tail
    ensures escaped + rest == (if IsEscaped(c) then ['\\', c] else [c]) + (tail + rest)
  {}

  /** One escaped character in front of an alternation lengthens its first alternative. */
  lemma CharacterReadsBack(body: string, tail: string, c: char, first: string, more: seq<string>, name: string)
    requires body == (if IsEscaped(c) then ['\\', c] else [c]) + tail
    requires Alternatives(tail) == Some([first] + more) && name == [c] + first
    ensures Alternatives(body) == Some([name] + more)
  {
    if IsEscaped(c) {
      assert body[0] == '\\' && body[1] == c && body[2..] == tail;
    } else {
      assert body[0] == c && body[1..] == tail;
    }
    assert ([first] + more)[1..] == more;
  }

  lemma {:induction false} AlternationReadsBack(names: seq<string>)
    requires names != []
    ensures Alternatives(Join(Escaped(names), "|")) == Some(names)
  {
    var body := Join(Escaped(names), "|");
    if |names| == 1 {
      assert [""] + [] == [""];
      EscapedReadsBack(names[0], "", "", []);
      assert body == EscapeRegex(names[0]) + "" && names[0] + "" == names[0];
      assert names == [names[0]] + [];
    } else {
      AlternationReadsBack(names[1..]);
      var tail := Join(Escaped(names[1..]), "|");
      assert Escaped(names)[1..] == Escaped(names[1..]);
      assert ("|" + tail)[1..] == tail;
      EscapedReadsBack(names[0], "|" + tail, "", names[1..]);
      assert body == EscapeRegex(names[0]) + ("|" + tail);
      assert names[0] + "" == names[0] && [names[0]] + names[1..] == names;
    }
  }

  /** The pattern matches exactly the shard's own names, whatever characters they hold. */
  lemma PatternIsExact(names: seq<string>, text: string)
    requires names != []
    ensures Matches(Pattern(names), text) <==> text in names
  {
    var pattern := Pattern(names);
    assert pattern[..4] == "^(?:" && pattern[|pattern| - 2..] == ")$";
    assert pattern[4..|pattern| - 2] == Join(Escaped(names), "|");
    AlternationReadsBack(names);
  }

  // ----- which journeys a runner runs -----

  function FullNames(journeys: seq<Journey>): (names: seq<string>)
    ensures |names| == |journeys| && forall k :: 0 <= k < |journeys| ==> names[k] == FullName(journeys[k])
  {
    if journeys == [] then [] else [FullName(journeys[0])] + FullNames(journeys[1..])
  }

  /** A runner runs a test that is in one of its files and that its pattern matches. */
  predicate Runs(mine: seq<Journey>, journey: Journey) {
    && (exists other :: other in mine && other.file == journey.file)
    && mine != [] && Matches(Pattern(FullNames(mine)), FullName(journey))
  }

  lemma {:induction false} DealtTo(journeys: seq<Journey>, placement: Placement, k: nat, runner: nat, journey: Journey)
    requires k <= |journeys| == |placement|
    ensures journey in Deal(journeys, placement, k, runner)
            <==> exists at :: 0 <= at < k && journeys[at] == journey && placement[at] == runner
  {
    if k > 0 { DealtTo(journeys, placement, k - 1, runner, journey); }
  }

  /** Every journey is run by the runner it was handed to. */
  lemma RunsWhereHandedOut(journeys: seq<Journey>, placement: Placement, at: nat)
    requires at < |journeys| == |placement|
    ensures Runs(Deal(journeys, placement, |journeys|, placement[at]), journeys[at])
  {
    var mine := Deal(journeys, placement, |journeys|, placement[at]);
    DealtTo(journeys, placement, |journeys|, placement[at], journeys[at]);
    var k :| 0 <= k < |mine| && mine[k] == journeys[at];
    assert FullNames(mine)[k] == FullName(journeys[at]);
    PatternIsExact(FullNames(mine), FullName(journeys[at]));
  }

  /** A runner also runs a journey of another runner exactly when it holds one of that journey's file and one of
      that journey's full name. */
  lemma RunsElsewhere(journeys: seq<Journey>, placement: Placement, runner: nat, journey: Journey)
    requires |journeys| == |placement|
    ensures Runs(Deal(journeys, placement, |journeys|, runner), journey) <==>
            && (exists i :: 0 <= i < |journeys| && placement[i] == runner && journeys[i].file == journey.file)
            && (exists i :: 0 <= i < |journeys| && placement[i] == runner && FullName(journeys[i]) == FullName(journey))
  {
    var mine := Deal(journeys, placement, |journeys|, runner);
    forall other ensures other in mine <==> exists at ::
        0 <= at < |journeys| && journeys[at] == other && placement[at] == runner {
      DealtTo(journeys, placement, |journeys|, runner, other);
    }
    if mine != [] {
      PatternIsExact(FullNames(mine), FullName(journey));
    }
    if FullName(journey) in FullNames(mine) {
      var k :| 0 <= k < |mine| && FullNames(mine)[k] == FullName(journey);
      assert mine[k] in mine;
    }
    forall i | 0 <= i < |journeys| && placement[i] == runner
        ensures journeys[i] in mine && FullName(journeys[i]) in FullNames(mine) {
      assert journeys[i] in mine;
      var k :| 0 <= k < |mine| && mine[k] == journeys[i];
      assert FullNames(mine)[k] == FullName(journeys[i]);
    }
  }

  /** When full names are unique in the tier, every journey is run by one runner only. */
  lemma UniqueNamesRunOnce(journeys: seq<Journey>, placement: Placement, at: nat, runner: nat)
    requires at < |journeys| == |placement|
    requires forall i, j | 0 <= i < j < |journeys| :: FullName(journeys[i]) != FullName(journeys[j])
    ensures Runs(Deal(journeys, placement, |journeys|, runner), journeys[at]) <==> runner == placement[at]
  {
    RunsWhereHandedOut(journeys, placement, at);
    RunsElsewhere(journeys, placement, runner, journeys[at]);
  }

  /** Without that, a journey can run twice: joining by spaces forgets where a describe name ends. */
  lemma SharedNameRunsTwice(a: Journey, b: Journey)
    requires a == Journey("a.ts", ["opens", "a tab"], 10) && b == Journey("a.ts", ["opens a", "tab"], 10)
    ensures Greedy(Seconds([a, b]), [0, 1], 2)
    ensures Runs(Deal([a, b], [0, 1], 2, 0), a) && Runs(Deal([a, b], [0, 1], 2, 1), a)
  {
    assert FullName(a) == FullName(b) by {
      TwoNames("opens", "a tab");
      TwoNames("opens a", "tab");
      assert "opens" + " " + "a tab" == "opens a" + " " + "tab";
    }
    assert [0, 1][0] == 0 && [0, 1][1] == 1 && [a, b][0] == a && [a, b][1] == b;
    RunsElsewhere([a, b], [0, 1], 0, a);
    RunsElsewhere([a, b], [0, 1], 1, a);
    TwoEqualJobs(Seconds([a, b]));
  }

  lemma TwoNames(first: string, second: string)
    ensures Join([first, second], " ") == first + " " + second
  {
    assert [first, second][1..] == [second];
  }

  lemma TwoEqualJobs(sizes: Sizes)
    requires sizes == [10, 10]
    ensures Greedy(sizes, [0, 1], 2)
  {
    var placement := [0, 1];
    assert Load(sizes, placement, 0, 0) == 0 && Load(sizes, placement, 0, 1) == 0;
    assert Load(sizes, placement, 1, 0) == 10 && Load(sizes, placement, 1, 1) == 0;
    assert ToLightest(sizes, [0, 1], 2, 0, 0) && ToLightest(sizes, [0, 1], 2, 1, 1);
  }
}
