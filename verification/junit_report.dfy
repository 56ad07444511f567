/** Bun's JUnit report, read tag by tag with a stack of suite names. The reader of the quarantine and the reader of
    the end-to-end split work over the same tag stream. */
module JunitReport {
  import opened Options

  datatype Kind = SuiteTag | CaseTag | FailureTag | ErrorTag

  /** One matched tag, with the attributes the readers ask for. */
  datatype Tag = Tag(closing: bool, kind: Kind, name: Option<string>, file: Option<string>, selfClosing: bool)

  function Or(attribute: Option<string>, default: string): string {
    if attribute.Some? then attribute.value else default
  }

  /** `path` holds the describe names and the title. */
  datatype Result = Result(file: string, path: seq<string>, failed: bool)

  datatype Journey = Journey(file: string, path: seq<string>)

  // ----- reading -----

  datatype State = State(results: seq<Result>, suites: seq<string>, open: Option<Result>)

  const EMPTY := State([], [], None)

  /** The names below the file's own suite. */
  function Below(suites: seq<string>): seq<string> {
    if suites == [] then [] else suites[1..]
  }

  function Step(s: State, tag: Tag): State {
    match tag.kind
    case SuiteTag =>
      if tag.closing then s.(suites := if s.suites == [] then [] else s.suites[..|s.suites| - 1])
      else if tag.selfClosing then s
      else s.(suites := s.suites + [Or(tag.name, "")])
    case CaseTag =>
      if tag.closing then s.(results := if s.open.Some? then s.results + [s.open.value] else s.results, open := None)
      else
        var started := Result(Or(tag.file, ""), Below(s.suites) + [Or(tag.name, "")], false);
        if tag.selfClosing then s.(results := s.results + [started]) else s.(open := Some(started))
    case _ =>
      if !tag.closing && s.open.Some? then s.(open := Some(s.open.value.(failed := true))) else s
  }

  function Steps(s: State, tags: seq<Tag>): State
    decreases |tags|
  {
    if tags == [] then s else Steps(Step(s, tags[0]), tags[1..])
  }

  /** The quarantine's reader, with its stack and its open test. */
  method ReadResults(tags: seq<Tag>) returns (results: seq<Result>)
    ensures results == Steps(EMPTY, tags).results
  {
    results := [];
    var suites: seq<string>, open: Option<Result> := [], None;
    assert tags[0..] == tags;
    for i := 0 to |tags|
      invariant Steps(State(results, suites, open), tags[i..]) == Steps(EMPTY, tags)
    {
      var tag := tags[i];
      assert tags[i..][0] == tag && tags[i..][1..] == tags[i + 1..];
      if tag.kind == SuiteTag {
        if tag.closing {
          suites := if suites == [] then [] else suites[..|suites| - 1];
        } else if !tag.selfClosing {
          suites := suites + [Or(tag.name, "")];
        }
      } else if tag.kind == CaseTag {
        if tag.closing {
          if open.Some? { results := results + [open.value]; }
          open := None;
          continue;
        }
        var started := Result(Or(tag.file, ""), Below(suites) + [Or(tag.name, "")], false);
        if tag.selfClosing {
          results := results + [started];
        } else {
          open := Some(started);
        }
      } else if !tag.closing && open.Some? {
        open := Some(open.value.(failed := true));
      }
    }
  }

  /** The end-to-end reader takes a test when its tag opens, and does not look at failures. */
  function JourneyStep(journeys: seq<Journey>, suites: seq<string>, tag: Tag): (seq<Journey>, seq<string>) {
    match tag.kind
    case SuiteTag =>
      if tag.closing then (journeys, if suites == [] then [] else suites[..|suites| - 1])
      else if tag.selfClosing then (journeys, suites)
      else (journeys, suites + [Or(tag.name, "")])
    case CaseTag =>
      if tag.closing then (journeys, suites)
      else (journeys + [Journey(Or(tag.file, ""), Below(suites) + [Or(tag.name, "")])], suites)
    case _ => (journeys, suites)
  }

  function JourneySteps(journeys: seq<Journey>, suites: seq<string>, tags: seq<Tag>): (seq<Journey>, seq<string>)
    decreases |tags|
  {
    if tags == [] then (journeys, suites)
    else var next := JourneyStep(journeys, suites, tags[0]); JourneySteps(next.0, next.1, tags[1..])
  }

  method ReadJourneys(tags: seq<Tag>) returns (journeys: seq<Journey>)
    ensures journeys == JourneySteps([], [], tags).0
  {
    journeys := [];
    var suites: seq<string> := [];
    assert tags[0..] == tags;
    for i := 0 to |tags|
      invariant JourneySteps(journeys, suites, tags[i..]) == JourneySteps([], [], tags)
    {
      var tag := tags[i];
      assert tags[i..][0] == tag && tags[i..][1..] == tags[i + 1..];
      if tag.kind == SuiteTag {
        if tag.closing {
          suites := if suites == [] then [] else suites[..|suites| - 1];
        } else if !tag.selfClosing {
          suites := suites + [Or(tag.name, "")];
        }
      } else if tag.kind == CaseTag && !tag.closing {
        journeys := journeys + [Journey(Or(tag.file, ""), Below(suites) + [Or(tag.name, "")])];
      }
    }
  }

  // ----- reports as trees -----

  /** A failure or error element inside a test. */
  datatype Mark = Mark(isError: bool, selfClosing: bool)

  /** `compact` writes an element without children as one self-closing tag. */
  datatype Node =
    | Suite(name: string, children: seq<Node>, compact: bool)
    | Case(file: string, title: string, marks: seq<Mark>, compact: bool)

  function OneMark(mark: Mark): seq<Tag> {
    var kind := if mark.isError then ErrorTag else FailureTag;
    if mark.selfClosing then [Tag(false, kind, None, None, true)]
    else [Tag(false, kind, None, None, false)] + [Tag(true, kind, None, None, false)]
  }

  function MarkTags(marks: seq<Mark>): seq<Tag> {
    if marks == [] then [] else OneMark(marks[0]) + MarkTags(marks[1..])
  }

  /** The tag stream of one element. */
  function Render(node: Node): seq<Tag>
    decreases node, 1
  {
    match node
    case Suite(name, children, compact) =>
      if compact && children == [] then [Tag(false, SuiteTag, Some(name), None, true)]
      else
        [Tag(false, SuiteTag, Some(name), None, false)]
        + RenderAll(children)
        + [Tag(true, SuiteTag, None, None, false)]
    case Case(file, title, marks, compact) =>
      if compact && marks == [] then [Tag(false, CaseTag, Some(title), Some(file), true)]
      else
        [Tag(false, CaseTag, Some(title), Some(file), false)]
        + MarkTags(marks)
        + [Tag(true, CaseTag, None, None, false)]
  }

  function RenderAll(nodes: seq<Node>): seq<Tag>
    decreases nodes, 0
  {
    if nodes == [] then [] else Render(nodes[0]) + RenderAll(nodes[1..])
  }

  /** Every test of the tree once, in document order, with the names of the suites around it below the outermost,
      failed exactly when it has a failure or an error inside. */
  function Tests(node: Node, suites: seq<string>): seq<Result>
    decreases node, 1
  {
    match node
    case Suite(name, children, _) => AllTests(children, suites + [name])
    case Case(file, title, marks, _) => [Result(file, Below(suites) + [title], marks != [])]
  }

  function AllTests(nodes: seq<Node>, suites: seq<string>): seq<Result>
    decreases nodes, 0
  {
    if nodes == [] then [] else Tests(nodes[0], suites) + AllTests(nodes[1..], suites)
  }

  /** The tests below a file's own suite, each with the describe names around it and its title. */
  function DescribedTests(nodes: seq<Node>, describes: seq<string>): seq<Result> {
    if nodes == [] then []
    else
      (match nodes[0]
       case Suite(name, children, _) => DescribedTests(children, describes + [name])
       case Case(file, title, marks, _) => [Result(file, describes + [title], marks != [])])
      + DescribedTests(nodes[1..], describes)
  }

  lemma {:induction false} SuitesDescribe(nodes: seq<Node>, suites: seq<string>)
    requires suites != []
    ensures AllTests(nodes, suites) == DescribedTests(nodes, suites[1..])
  {
    if nodes != [] {
      SuitesDescribe(nodes[1..], suites);
      if nodes[0].Suite? {
        SuitesDescribe(nodes[0].children, suites + [nodes[0].name]);
        assert (suites + [nodes[0].name])[1..] == suites[1..] + [nodes[0].name];
      }
    }
  }

  /** A report has a suite for each file; its name is no part of the path of the tests in it. */
  lemma FileSuiteIsDropped(name: string, children: seq<Node>, compact: bool)
    ensures AllTests([Suite(name, children, compact)], []) == DescribedTests(children, [])
  {
    var report := [Suite(name, children, compact)];
    SuitesDescribe(children, [name]);
    assert report[1..] == [] && [] + [name] == [name] && [name][1..] == [];
  }

  function AsJourneys(results: seq<Result>): seq<Journey> {
    if results == [] then [] else [Journey(results[0].file, results[0].path)] + AsJourneys(results[1..])
  }

  // ----- the readers read the tree back -----

  lemma {:induction false} StepsConcat(s: State, a: seq<Tag>, b: seq<Tag>)
    ensures Steps(s, a + b) == Steps(Steps(s, a), b)
    decreases |a|
  {
    if a == [] {
      assert a + b == b;
    } else {
      assert (a + b)[1..] == a[1..] + b;
      StepsConcat(Step(s, a[0]), a[1..], b);
    }
  }

  lemma MarkFails(s: State, mark: Mark)
    requires s.open.Some?
    ensures Steps(s, OneMark(mark)) == s.(open := Some(s.open.value.(failed := true)))
  {
    var tags := OneMark(mark);
    assert [tags[0]][1..] == [];
    if mark.selfClosing {
      assert tags == [tags[0]];
    } else {
      assert tags == [tags[0]] + [tags[1]] && [tags[1]][1..] == [];
      StepsConcat(s, [tags[0]], [tags[1]]);
    }
  }

  lemma {:induction false} MarksFail(s: State, marks: seq<Mark>)
    requires s.open.Some?
    ensures Steps(s, MarkTags(marks)) == if marks == [] then s else s.(open := Some(s.open.value.(failed := true)))
    decreases |marks|
  {
    if marks != [] {
      StepsConcat(s, OneMark(marks[0]), MarkTags(marks[1..]));
      MarkFails(s, marks[0]);
      MarksFail(s.(open := Some(s.open.value.(failed := true))), marks[1..]);
    }
  }

  lemma {:induction false} ReadsCase(s: State, node: Node)
    requires node.Case? && s.open.None?
    ensures Steps(s, Render(node)) == s.(results := s.results + Tests(node, s.suites))
  {
    var tags := Render(node);
    if node.compact && node.marks == [] {
      assert tags[1..] == [];
    } else {
      var opening, closing := [tags[0]], [Tag(true, CaseTag, None, None, false)];
      assert tags == opening + MarkTags(node.marks) + closing;
      StepsConcat(s, opening + MarkTags(node.marks), closing);
      StepsConcat(s, opening, MarkTags(node.marks));
      assert opening[1..] == [] && closing[1..] == [];
      MarksFail(Step(s, tags[0]), node.marks);
    }
  }

  lemma {:induction false} ReadsNode(s: State, node: Node)
    requires s.open.None?
    ensures Steps(s, Render(node)) == s.(results := s.results + Tests(node, s.suites))
    decreases node, 1
  {
    if node.Case? {
      ReadsCase(s, node);
    } else if node.compact && node.children == [] {
      assert Render(node)[1..] == [] && s.results + [] == s.results;
    } else {
      var opening, closing := [Tag(false, SuiteTag, Some(node.name), None, false)],
          [Tag(true, SuiteTag, None, None, false)];
      assert Render(node) == opening + RenderAll(node.children) + closing;
      StepsConcat(s, opening + RenderAll(node.children), closing);
      StepsConcat(s, opening, RenderAll(node.children));
      var inner := s.(suites := s.suites + [node.name]);
      assert opening[1..] == [] && closing[1..] == [];
      assert Steps(s, opening) == inner;
      ReadsAll(inner, node.children);
      assert inner.suites[..|inner.suites| - 1] == s.suites;
    }
  }

  lemma {:induction false} ReadsAll(s: State, nodes: seq<Node>)
    requires s.open.None?
    ensures Steps(s, RenderAll(nodes)) == s.(results := s.results + AllTests(nodes, s.suites))
    decreases nodes, 0
  {
    if nodes == [] {
      assert s.results + [] == s.results;
    } else {
      var first, rest := Tests(nodes[0], s.suites), AllTests(nodes[1..], s.suites);
      ReadsNode(s, nodes[0]);
      ReadsAll(s.(results := s.results + first), nodes[1..]);
      StepsMeet(s, Render(nodes[0]), RenderAll(nodes[1..]), first, rest);
    }
  }

  lemma StepsMeet(s: State, a: seq<Tag>, b: seq<Tag>, first: seq<Result>, rest: seq<Result>)
    requires Steps(s, a) == s.(results := s.results + first)
    requires Steps(s.(results := s.results + first), b) == s.(results := s.results + first + rest)
    ensures Steps(s, a + b) == s.(results := s.results + (first + rest))
  {
    StepsConcat(s, a, b);
    assert s.results + first + rest == s.results + (first + rest);
  }

  /** The quarantine's reader yields every test of every report exactly once, in document order, under its describe
      path, and marked failed exactly when it holds a failure or an error. */
  lemma ReaderYieldsTests(report: seq<Node>)
    ensures Steps(EMPTY, RenderAll(report)).results == AllTests(report, [])
  {
    ReadsAll(EMPTY, report);
    assert [] + AllTests(report, []) == AllTests(report, []);
  }

  // ----- the two readers agree -----

  lemma {:induction false} AsJourneysConcat(a: seq<Result>, b: seq<Result>)
    ensures AsJourneys(a + b) == AsJourneys(a) + AsJourneys(b)
  {
    if a == [] {
      assert a + b == b;
    } else {
      assert (a + b)[1..] == a[1..] + b;
      AsJourneysConcat(a[1..], b);
    }
  }

  lemma {:induction false} JourneyStepsConcat(journeys: seq<Journey>, suites: seq<string>, a: seq<Tag>, b: seq<Tag>)
    ensures var middle := JourneySteps(journeys, suites, a);
            JourneySteps(journeys, suites, a + b) == JourneySteps(middle.0, middle.1, b)
    decreases |a|
  {
    if a == [] {
      assert a + b == b;
    } else {
      assert (a + b)[1..] == a[1..] + b;
      var next := JourneyStep(journeys, suites, a[0]);
      JourneyStepsConcat(next.0, next.1, a[1..], b);
    }
  }

  lemma MarkIsNoJourney(journeys: seq<Journey>, suites: seq<string>, mark: Mark)
    ensures JourneySteps(journeys, suites, OneMark(mark)) == (journeys, suites)
  {
    var tags := OneMark(mark);
    assert [tags[0]][1..] == [];
    if mark.selfClosing {
      assert tags == [tags[0]];
    } else {
      assert tags == [tags[0]] + [tags[1]] && [tags[1]][1..] == [];
      JourneyStepsConcat(journeys, suites, [tags[0]], [tags[1]]);
    }
  }

  lemma {:induction false} MarksAreNoJourneys(journeys: seq<Journey>, suites: seq<string>, marks: seq<Mark>)
    ensures JourneySteps(journeys, suites, MarkTags(marks)) == (journeys, suites)
  {
    if marks != [] {
      JourneyStepsConcat(journeys, suites, OneMark(marks[0]), MarkTags(marks[1..]));
      MarkIsNoJourney(journeys, suites, marks[0]);
      MarksAreNoJourneys(journeys, suites, marks[1..]);
    }
  }

  lemma {:induction false} CaseIsJourney(journeys: seq<Journey>, suites: seq<string>, node: Node)
    requires node.Case?
    ensures JourneySteps(journeys, suites, Render(node)) == (journeys + AsJourneys(Tests(node, suites)), suites)
  {
    var tags := Render(node);
    var journey := Journey(node.file, Below(suites) + [node.title]);
    assert Tests(node, suites)[1..] == [] && AsJourneys(Tests(node, suites)) == [journey];
    if node.compact && node.marks == [] {
      assert tags[1..] == [];
    } else {
      var opening, closing := [tags[0]], [Tag(true, CaseTag, None, None, false)];
      assert tags == opening + MarkTags(node.marks) + closing;
      JourneyStepsConcat(journeys, suites, opening + MarkTags(node.marks), closing);
      JourneyStepsConcat(journeys, suites, opening, MarkTags(node.marks));
      assert opening[1..] == [] && closing[1..] == [];
      MarksAreNoJourneys(journeys + [journey], suites, node.marks);
      assert JourneySteps(journeys, suites, opening) == (journeys + [journey], suites);
      assert JourneySteps(journeys + [journey], suites, closing) == (journeys + [journey], suites);
    }
  }

  lemma {:induction false} NodeJourneys(journeys: seq<Journey>, suites: seq<string>, node: Node)
    ensures JourneySteps(journeys, suites, Render(node)) == (journeys + AsJourneys(Tests(node, suites)), suites)
    decreases node, 1
  {
    if node.Case? {
      CaseIsJourney(journeys, suites, node);
    } else if node.compact && node.children == [] {
      assert Render(node)[1..] == [] && journeys + [] == journeys;
    } else {
      var opening, closing := [Tag(false, SuiteTag, Some(node.name), None, false)],
          [Tag(true, SuiteTag, None, None, false)];
      assert Render(node) == opening + RenderAll(node.children) + closing;
      JourneyStepsConcat(journeys, suites, opening + RenderAll(node.children), closing);
      JourneyStepsConcat(journeys, suites, opening, RenderAll(node.children));
      var inner := suites + [node.name];
      assert opening[1..] == [] && closing[1..] == [];
      AllJourneys(journeys, inner, node.children);
      assert inner[..|inner| - 1] == suites;
    }
  }

  lemma {:induction false} AllJourneys(journeys: seq<Journey>, suites: seq<string>, nodes: seq<Node>)
    ensures JourneySteps(journeys, suites, RenderAll(nodes)) == (journeys + AsJourneys(AllTests(nodes, suites)), suites)
    decreases nodes, 0
  {
    if nodes == [] {
      assert journeys + [] == journeys;
    } else {
      var first, rest := Tests(nodes[0], suites), AllTests(nodes[1..], suites);
      var before := journeys + AsJourneys(first);
      var after := before + AsJourneys(rest);
      NodeJourneys(journeys, suites, nodes[0]);
      AllJourneys(before, suites, nodes[1..]);
      AsJourneysConcat(first, rest);
      assert after == journeys + (AsJourneys(first) + AsJourneys(rest));
      JourneyStepsMeet(journeys, suites, Render(nodes[0]), RenderAll(nodes[1..]), before, after);
    }
  }

  lemma JourneyStepsMeet(journeys: seq<Journey>, suites: seq<string>, a: seq<Tag>, b: seq<Tag>,
                         before: seq<Journey>, after: seq<Journey>)
    requires JourneySteps(journeys, suites, a) == (before, suites) && JourneySteps(before, suites, b) == (after, suites)
    ensures JourneySteps(journeys, suites, a + b) == (after, suites)
  {
    JourneyStepsConcat(journeys, suites, a, b);
  }

  /** Both readers agree on file, path and order, for every report. */
  lemma ReadersAgree(report: seq<Node>)
    ensures JourneySteps([], [], RenderAll(report)).0 == AsJourneys(Steps(EMPTY, RenderAll(report)).results)
  {
    AllJourneys([], [], report);
    ReaderYieldsTests(report);
    assert [] + AsJourneys(AllTests(report, [])) == AsJourneys(AllTests(report, []));
  }

  /** The tags with an empty name or file where they have none. */
  function Filled(tags: seq<Tag>): seq<Tag> {
    if tags == [] then []
    else
      [tags[0].(name := if tags[0].name == None then Some("") else tags[0].name,
                file := if tags[0].file == None then Some("") else tags[0].file)]
      + Filled(tags[1..])
  }

  /** An attribute that is missing reads as an empty one, by either reader. */
  lemma {:induction false} MissingIsEmpty(s: State, journeys: seq<Journey>, suites: seq<string>, tags: seq<Tag>)
    ensures Steps(s, Filled(tags)) == Steps(s, tags)
    ensures JourneySteps(journeys, suites, Filled(tags)) == JourneySteps(journeys, suites, tags)
    decreases |tags|
  {
    if tags != [] {
      var filled := Filled(tags);
      assert filled[1..] == Filled(tags[1..]);
      assert Step(s, filled[0]) == Step(s, tags[0]);
      assert JourneyStep(journeys, suites, filled[0]) == JourneyStep(journeys, suites, tags[0]);
      var next := JourneyStep(journeys, suites, tags[0]);
      MissingIsEmpty(Step(s, tags[0]), next.0, next.1, tags[1..]);
    }
  }
}
