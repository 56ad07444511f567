/** The classification of the closed-set gate, read off the parts a source is written of. */
module WrittenClasses {
  import C = ClosedSet
  import opened Options
  import opened SourceLexer
  import opened WrittenSource

  /** A slash that opens no comment is code, and so is a quote that nothing closes, unless it is a backtick. */
  ghost predicate StandsAsRead(part: Part, after: string) {
    match part
    case Line(_) => Stands(part, "", after)
    case Block(_) => Stands(part, "", after)
    case Quoted(_, _) => Stands(part, "", after)
    case Plain(c) =>
      if c == '/' then after == "" || (after[0] != '/' && after[0] != '*')
      else c != '`' && (c in ['\'', '"'] ==> NeverCloses(after, c))
    case _ => false
  }

  ghost predicate AreRead(parts: seq<Part>, end: string) {
    parts == [] || (StandsAsRead(parts[0], Written(parts[1..]) + end) && AreRead(parts[1..], end))
  }

  function ClassOf(part: Part): C.Class {
    if part.Quoted? then C.Quoted else if part.Plain? then C.Bare else C.Trivia
  }

  function ClassesOf(parts: seq<Part>): seq<C.Class> {
    if parts == [] then [] else C.Repeat(|PartText(parts[0])|, ClassOf(parts[0])) + ClassesOf(parts[1..])
  }

  /** A comment block or a template that the source does not end. */
  ghost predicate IsUnfinished(s: string) {
    (exists body :: s == "/*" + body && HoldsNoEnd(body)) || (s != "" && s[0] == '`' && NeverCloses(s[1..], '`'))
  }

  predicate IsLexeme(s: string, length: nat, class_: C.Class) {
    s != "" && C.Lexeme(s) == Some((length, class_))
  }

  lemma LineIsLexeme(body: string, after: string, s: string)
    requires '\n' !in body && (after == "" || after[0] == '\n') && s == "//" + body + after
    ensures IsLexeme(s, |body| + 2, C.Trivia)
  {
    assert s[1..] == ("/" + body) + after && s[0] == '/' && s[1] == '/';
    LineGoesOn("/" + body, after);
  }

  lemma BlockIsLexeme(body: string, after: string, s: string)
    requires HoldsNoEnd(body) && s == "/*" + body + "*/" + after
    ensures IsLexeme(s, |body| + 4, C.Trivia)
  {
    assert s[2..] == body + ("*/" + after) && s[0] == '/' && s[1] == '*';
    BlockGoesOn(body, "*/" + after);
  }

  lemma QuotedIsLexeme(quote: char, units: seq<Unit>, after: string, s: string)
    requires IsQuote(quote) && AreLiteral(units, quote) && s == [quote] + UnitsText(units) + [quote] + after
    ensures IsLexeme(s, |UnitsText(units)| + 2, C.Quoted)
  {
    var tail := [quote] + after;
    assert s[1..] == UnitsText(units) + tail;
    UnitsGoOn(units, tail, quote, s[1..], Closes(s[1..], quote));
  }

  lemma OpenQuoteNeverCloses(quote: char, after: string)
    requires IsQuote(quote) && NeverCloses(after, quote)
    ensures Closes(after, quote) == None
  {
    var units, tail :| IsUnclosed(after, quote, units, tail);
    UnitsGoOn(units, tail, quote, after, Closes(after, quote));
  }

  lemma PlainIsLexeme(c: char, after: string, s: string)
    requires StandsAsRead(Plain(c), after) && s == [c] + after
    ensures IsLexeme(s, 1, C.Bare)
  {
    assert s[1..] == after;
    if c in ['\'', '"'] { OpenQuoteNeverCloses(c, after); }
  }

  lemma PartIsLexeme(part: Part, text: string, after: string)
    requires StandsAsRead(part, after) && text == PartText(part)
    ensures IsLexeme(text + after, |text|, ClassOf(part))
  {
    match part
    case Line(body) => LineIsLexeme(body, after, text + after);
    case Block(body) => BlockIsLexeme(body, after, text + after);
    case Quoted(quote, units) => QuotedIsLexeme(quote, units, after, text + after);
    case Plain(c) => PlainIsLexeme(c, after, text + after);
  }

  /** Parts are classified one by one, and what is not written of such parts fails where it starts. */
  lemma {:induction false} WrittenIsClassified(parts: seq<Part>, end: string, s: string, classes: Option<seq<C.Class>>)
    requires AreRead(parts, end) && s == Written(parts) + end && classes == C.Classify(s)
    ensures C.Classify(end).Some? ==> classes == Some(ClassesOf(parts) + C.Classes(end))
    ensures C.Classify(end).None? ==> classes == None
    decreases |parts|
  {
    if parts == [] {
      assert s == end;
      if C.Classify(end).Some? { assert [] + C.Classes(end) == C.Classes(end); }
    } else {
      var text, rest := PartText(parts[0]), Written(parts[1..]) + end;
      Associates(text, Written(parts[1..]), end);
      PartIsLexeme(parts[0], text, rest);
      WrittenIsClassified(parts[1..], end, rest, C.Classify(rest));
      LexemeThenRest(text, rest, ClassOf(parts[0]), s);
      if C.Classify(end).Some? {
        RepeatThenRest(C.Repeat(|text|, ClassOf(parts[0])), ClassesOf(parts[1..]), C.Classes(end));
      }
    }
  }

  lemma RepeatThenRest(a: seq<C.Class>, b: seq<C.Class>, c: seq<C.Class>)
    ensures a + (b + c) == (a + b) + c
  {}

  lemma LexemeThenRest(text: string, rest: string, class_: C.Class, s: string)
    requires s == text + rest && IsLexeme(s, |text|, class_)
    ensures C.Classify(s) == C.Prepended(|text|, class_, C.Classify(rest))
  {
    assert s[|text|..] == rest;
  }

  lemma UnfinishedFails(end: string)
    requires IsUnfinished(end)
    ensures C.Classify(end) == None
  {
    if end[0] == '`' {
      OpenQuoteNeverCloses('`', end[1..]);
    } else {
      var body :| end == "/*" + body && HoldsNoEnd(body);
      assert end[2..] == body && body + "" == body;
      BlockGoesOn(body, "");
    }
  }

  /** Every text is written of such parts, up to its end or to what it does not end. */
  lemma {:induction false} ReadParts(s: string) returns (parts: seq<Part>, end: string)
    ensures s == Written(parts) + end && AreRead(parts, end) && (end == "" || IsUnfinished(end))
    decreases |s|
  {
    if s == "" { return [], ""; }
    var part, after := FirstRead(s);
    if part.OpenBlock? || part == Plain('`') {
      return [], s;
    }
    var later;
    later, end := ReadParts(after);
    parts := [part] + later;
    assert parts[1..] == later;
    Associates(PartText(part), Written(later), end);
  }

  lemma FirstRead(s: string) returns (part: Part, after: string)
    requires s != ""
    ensures s == PartText(part) + after && |after| < |s|
    ensures if part.OpenBlock? || part == Plain('`') then IsUnfinished(s) else StandsAsRead(part, after)
  {
    if |s| > 1 && s[0] == '/' && (s[1] == '/' || s[1] == '*') {
      part, after := FirstComment(s);
      assert Stands(part, "", after);
      if part.OpenBlock? { assert s == "/*" + part.body; }
    } else if IsQuote(s[0]) {
      part, after := FirstQuote(s);
      assert Stands(part, "", after);
      if part.Plain? { assert s[1..] == after; }
    } else {
      part, after := Plain(s[0]), s[1..];
    }
  }

  /** A text has these classes exactly when it is written of parts that have them. */
  lemma ClassesAreExact(s: string, classes: seq<C.Class>)
    ensures C.Classify(s) == Some(classes) <==>
            exists parts :: s == Written(parts) && AreRead(parts, "") && ClassesOf(parts) == classes
  {
    forall parts | s == Written(parts) && AreRead(parts, "") ensures C.Classify(s) == Some(ClassesOf(parts)) {
      NothingAfter(parts, s);
    }
    if C.Classify(s) == Some(classes) {
      var parts, end := ReadParts(s);
      WrittenIsClassified(parts, end, s, C.Classify(s));
      if end != "" { UnfinishedFails(end); }
      assert s == Written(parts);
      NothingAfter(parts, s);
    }
  }

  lemma NothingAfter(parts: seq<Part>, s: string)
    requires s == Written(parts) && AreRead(parts, "")
    ensures C.Classify(s) == Some(ClassesOf(parts))
  {
    assert s + "" == s && ClassesOf(parts) + [] == ClassesOf(parts);
    WrittenIsClassified(parts, "", s, C.Classify(s));
  }

  /** After these parts the text starts what it does not end. */
  ghost predicate LeavesOpen(s: string, parts: seq<Part>, end: string) {
    s == Written(parts) + end && AreRead(parts, end) && IsUnfinished(end)
  }

  lemma LeftOpenFails(s: string, parts: seq<Part>, end: string)
    requires LeavesOpen(s, parts, end)
    ensures C.Classify(s) == None
  {
    UnfinishedFails(end);
    WrittenIsClassified(parts, end, s, C.Classify(s));
  }

  lemma FailureIsLeftOpen(s: string) returns (parts: seq<Part>, end: string)
    requires C.Classify(s) == None
    ensures LeavesOpen(s, parts, end)
  {
    parts, end := ReadParts(s);
    if end == "" {
      assert s == Written(parts);
      NothingAfter(parts, s);
    }
  }

  /** A text cannot be classified exactly when, after parts that can, a comment block or a template is never ended. */
  lemma FailsExactly(s: string)
    ensures C.Classify(s) == None <==> exists parts, end :: LeavesOpen(s, parts, end)
  {
    forall parts, end | LeavesOpen(s, parts, end) ensures C.Classify(s) == None { LeftOpenFails(s, parts, end); }
    if C.Classify(s) == None {
      var parts, end := FailureIsLeftOpen(s);
    }
  }
}
