/** Reports as they are written, attributes and all: exactly when the reader's tags are the tags of the tree that was
    written, and what then follows for its results. */
module JunitText {
  import Attributes = JunitAttributes
  import opened JunitReport
  import opened Options

  type Written = seq<Attributes.Attribute>

  /** An element with whatever attributes it is written with, in their order. */
  datatype Element =
    | SuiteElement(attributes: Written, children: seq<Element>, compact: bool)
    | CaseElement(attributes: Written, marks: seq<Mark>, compact: bool)

  // ----- one attribute -----

  function FirstNamed(attributes: Written, name: string): (at: nat)
    ensures at <= |attributes| && (at < |attributes| ==> attributes[at].name == name)
    ensures forall k | 0 <= k < at :: attributes[k].name != name
  {
    if attributes == [] || attributes[0].name == name then 0 else 1 + FirstNamed(attributes[1..], name)
  }

  /** The attribute is there, and the names up to it are words. */
  predicate Carries(attributes: Written, name: string) {
    var at := FirstNamed(attributes, name);
    at < |attributes| && forall k | 0 <= k <= at :: Attributes.IsName(attributes[k].name)
  }

  function ValueOf(attributes: Written, name: string): string
    requires Carries(attributes, name)
  {
    attributes[FirstNamed(attributes, name)].value
  }

  /** No earlier value ends like the attribute's opening, or the attribute is worth what is read in its place. */
  ghost predicate IsRight(attributes: Written, name: string)
    requires Carries(attributes, name)
  {
    var at := FirstNamed(attributes, name);
    var k := Attributes.FirstMimic(attributes, at, name);
    k == at || attributes[at].value == " " + attributes[k + 1].name + "="
  }

  function Lookup(attributes: Written, name: string): Option<string> {
    Attributes.Read(Attributes.Render(attributes), name)
  }

  lemma RightIsRead(attributes: Written, name: string)
    requires Carries(attributes, name)
    ensures Lookup(attributes, name) == Some(ValueOf(attributes, name)) <==> IsRight(attributes, name)
  {
    Attributes.ReadsBack(attributes, FirstNamed(attributes, name));
  }

  // ----- whole reports -----

  /** A suite carries its name, a test its name and its file. */
  predicate IsWritten(element: Element)
    decreases element, 1
  {
    match element
    case SuiteElement(attributes, children, _) => Carries(attributes, "name") && AreWritten(children)
    case CaseElement(attributes, _, _) => Carries(attributes, "name") && Carries(attributes, "file")
  }

  predicate AreWritten(elements: seq<Element>)
    decreases elements, 0
  {
    if elements == [] then true else IsWritten(elements[0]) && AreWritten(elements[1..])
  }

  /** The tree the element stands for. */
  function NodeOf(element: Element): Node
    requires IsWritten(element)
    decreases element, 1
  {
    match element
    case SuiteElement(attributes, children, compact) => Suite(ValueOf(attributes, "name"), NodesOf(children), compact)
    case CaseElement(attributes, marks, compact) =>
      Case(ValueOf(attributes, "file"), ValueOf(attributes, "name"), marks, compact)
  }

  function NodesOf(elements: seq<Element>): (nodes: seq<Node>)
    requires AreWritten(elements)
    ensures |nodes| == |elements|
    decreases elements, 0
  {
    if elements == [] then [] else [NodeOf(elements[0])] + NodesOf(elements[1..])
  }

  /** The tags as the reader takes them from the text of the element, looking its attributes up. */
  function TagsOf(element: Element): seq<Tag>
    decreases element, 1
  {
    match element
    case SuiteElement(attributes, children, compact) =>
      var name := Lookup(attributes, "name");
      if compact && children == [] then [Tag(false, SuiteTag, name, None, true)]
      else [Tag(false, SuiteTag, name, None, false)] + AllTagsOf(children) + [Tag(true, SuiteTag, None, None, false)]
    case CaseElement(attributes, marks, compact) =>
      var name, file := Lookup(attributes, "name"), Lookup(attributes, "file");
      if compact && marks == [] then [Tag(false, CaseTag, name, file, true)]
      else [Tag(false, CaseTag, name, file, false)] + MarkTags(marks) + [Tag(true, CaseTag, None, None, false)]
  }

  function AllTagsOf(elements: seq<Element>): seq<Tag>
    decreases elements, 0
  {
    if elements == [] then [] else TagsOf(elements[0]) + AllTagsOf(elements[1..])
  }

  /** Every attribute the readers ask for reads right. */
  ghost predicate ReadsRight(element: Element)
    requires IsWritten(element)
    decreases element, 1
  {
    match element
    case SuiteElement(attributes, children, _) => IsRight(attributes, "name") && AllReadRight(children)
    case CaseElement(attributes, _, _) => IsRight(attributes, "name") && IsRight(attributes, "file")
  }

  ghost predicate AllReadRight(elements: seq<Element>)
    requires AreWritten(elements)
    decreases elements, 0
  {
    if elements == [] then true else ReadsRight(elements[0]) && AllReadRight(elements[1..])
  }

  lemma Split(a: seq<Tag>, b: seq<Tag>, c: seq<Tag>, d: seq<Tag>)
    requires |a| == |c|
    ensures a + b == c + d <==> a == c && b == d
  {
    assert (a + b)[..|a|] == a && (a + b)[|a|..] == b && (c + d)[..|c|] == c && (c + d)[|c|..] == d;
  }

  lemma {:induction false} ElementTags(element: Element, tags: seq<Tag>, rendered: seq<Tag>)
    requires IsWritten(element) && tags == TagsOf(element) && rendered == Render(NodeOf(element))
    ensures |tags| == |rendered| && (tags == rendered <==> ReadsRight(element))
    decreases element, 1
  {
    RightIsRead(element.attributes, "name");
    match element
    case SuiteElement(attributes, children, compact) =>
      SuiteTags(attributes, children, compact, tags, rendered);
    case CaseElement(attributes, marks, compact) =>
      RightIsRead(attributes, "file");
      CaseTags(attributes, marks, compact, tags, rendered);
  }

  lemma CaseTags(attributes: Written, marks: seq<Mark>, compact: bool, tags: seq<Tag>, rendered: seq<Tag>)
    requires var element := CaseElement(attributes, marks, compact);
             IsWritten(element) && tags == TagsOf(element) && rendered == Render(NodeOf(element))
    ensures |tags| == |rendered|
    ensures tags == rendered <==>
              && Lookup(attributes, "name") == Some(ValueOf(attributes, "name"))
              && Lookup(attributes, "file") == Some(ValueOf(attributes, "file"))
  {
    assert |tags| > 0 && tags[0].name == Lookup(attributes, "name") && tags[0].file == Lookup(attributes, "file");
    assert rendered[0].name == Some(ValueOf(attributes, "name"));
    assert rendered[0].file == Some(ValueOf(attributes, "file"));
    assert tags[1..] == rendered[1..];
    assert tags == [tags[0]] + tags[1..] && rendered == [rendered[0]] + rendered[1..];
  }

  lemma {:induction false} SuiteTags(attributes: Written, children: seq<Element>, compact: bool,
                                     tags: seq<Tag>, rendered: seq<Tag>)
    requires var element := SuiteElement(attributes, children, compact);
             IsWritten(element) && tags == TagsOf(element) && rendered == Render(NodeOf(element))
    ensures |tags| == |rendered|
    ensures tags == rendered <==>
              Lookup(attributes, "name") == Some(ValueOf(attributes, "name")) && AllReadRight(children)
    decreases SuiteElement(attributes, children, compact), 0
  {
    var inner, innerRendered := AllTagsOf(children), RenderAll(NodesOf(children));
    AllTags(children, inner, innerRendered);
    var closing := [Tag(true, SuiteTag, None, None, false)];
    var opening := [Tag(false, SuiteTag, Lookup(attributes, "name"), None, compact && children == [])];
    var right := [Tag(false, SuiteTag, Some(ValueOf(attributes, "name")), None, compact && children == [])];
    assert opening == right <==> opening[0] == right[0];
    if !(compact && children == []) {
      Split(opening + inner, closing, right + innerRendered, closing);
      Split(opening, inner, right, innerRendered);
    }
  }

  lemma {:induction false} AllTags(elements: seq<Element>, tags: seq<Tag>, rendered: seq<Tag>)
    requires AreWritten(elements) && tags == AllTagsOf(elements) && rendered == RenderAll(NodesOf(elements))
    ensures |tags| == |rendered| && (tags == rendered <==> AllReadRight(elements))
    decreases elements, 0
  {
    if elements != [] {
      var first, firstRendered := TagsOf(elements[0]), Render(NodeOf(elements[0]));
      var rest, restRendered := AllTagsOf(elements[1..]), RenderAll(NodesOf(elements[1..]));
      ElementTags(elements[0], first, firstRendered);
      AllTags(elements[1..], rest, restRendered);
      assert NodesOf(elements)[1..] == NodesOf(elements[1..]);
      Split(first, rest, firstRendered, restRendered);
    }
  }

  /** The reader sees the tree that was written exactly when every attribute it asks for reads right. */
  lemma ReportIsRead(report: seq<Element>)
    requires AreWritten(report)
    ensures AllTagsOf(report) == RenderAll(NodesOf(report)) <==> AllReadRight(report)
  {
    AllTags(report, AllTagsOf(report), RenderAll(NodesOf(report)));
  }

  /** Then both readers yield the tests of that tree. */
  lemma TextYieldsTests(report: seq<Element>)
    requires AreWritten(report) && AllReadRight(report)
    ensures Steps(EMPTY, AllTagsOf(report)).results == AllTests(NodesOf(report), [])
    ensures JourneySteps([], [], AllTagsOf(report)).0 == AsJourneys(AllTests(NodesOf(report), []))
  {
    ReportIsRead(report);
    ReaderYieldsTests(NodesOf(report));
    ReadersAgree(NodesOf(report));
  }

  lemma OneTestIsRead(attributes: Written, name: string, file: string, report: seq<Element>)
    requires report == [CaseElement(attributes, [], true)]
    requires Lookup(attributes, "name") == Some(name) && Lookup(attributes, "file") == Some(file)
    ensures Steps(EMPTY, AllTagsOf(report)).results == [Result(file, [name], false)]
  {
    var tag := Tag(false, CaseTag, Some(name), Some(file), true);
    assert report[1..] == [] && TagsOf(report[0]) == [tag];
    assert AllTagsOf(report) == [tag] && [tag][1..] == [];
    assert [] + [Result(file, [name], false)] == [Result(file, [name], false)] && [] + [name] == [name];
  }

  lemma OneTestIsMeant(attributes: Written, report: seq<Element>)
    requires report == [CaseElement(attributes, [], true)] && AreWritten(report)
    requires Carries(attributes, "name") && Carries(attributes, "file")
    ensures AllTests(NodesOf(report), []) == [Result(ValueOf(attributes, "file"), [ValueOf(attributes, "name")], false)]
  {
    var nodes := NodesOf(report);
    assert report[1..] == [] && nodes[1..] == [];
    assert [] + [ValueOf(attributes, "name")] == [ValueOf(attributes, "name")];
  }

  lemma TwoAttributes(attributes: Written)
    requires |attributes| == 2 && attributes[0].name == "name" && attributes[1].name == "file"
    ensures Carries(attributes, "name") && ValueOf(attributes, "name") == attributes[0].value
    ensures Carries(attributes, "file") && ValueOf(attributes, "file") == attributes[1].value
    ensures IsRight(attributes, "name")
  {
    assert Attributes.IsName("name") && Attributes.IsName("file") && "name"[0] != "file"[0];
    assert attributes[1..][0] == attributes[1];
    assert FirstNamed(attributes[1..], "file") == 0;
  }

  /** Otherwise they need not: the one test of `a.ts` is reported for a file named ` file=`. */
  lemma MisreadReport(attributes: Written, report: seq<Element>)
    requires attributes == [Attributes.Attribute("name", "sets the file="), Attributes.Attribute("file", "a.ts")]
    requires report == [CaseElement(attributes, [], true)]
    ensures AreWritten(report) && AllTests(NodesOf(report), []) == [Result("a.ts", ["sets the file="], false)]
    ensures Steps(EMPTY, AllTagsOf(report)).results == [Result(" file=", ["sets the file="], false)]
  {
    TwoAttributes(attributes);
    WrittenAlone(report);
    OneTestIsMeant(attributes, report);
    RightIsRead(attributes, "name");
    Attributes.MimicIsMisread();
    OneTestIsRead(attributes, "sets the file=", " file=", report);
  }

  lemma WrittenAlone(report: seq<Element>)
    requires |report| == 1 && IsWritten(report[0])
    ensures AreWritten(report)
  {}
}
