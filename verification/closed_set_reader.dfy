/** The loops of the closed-set gate: classifying a file into a buffer, and reading an array's members from it. */
module ClosedSetReader {
  import opened ClosedSet
  import opened Options
  import opened SourceLexer
  import opened Text

  function Behind(head: seq<Class>, rest: Option<seq<Class>>): Option<seq<Class>> {
    if rest.Some? then Some(head + rest.value) else None
  }

  method BlockBodyEnd(text: string, start: nat) returns (end: nat)
    requires start <= |text|
    ensures end == start + BlockBody(text[start..])
  {
    end := start;
    while end < |text| && !(text[end] == '*' && end + 1 < |text| && text[end + 1] == '/')
      invariant start <= end <= |text| && end + BlockBody(text[end..]) == start + BlockBody(text[start..])
    {
      assert text[end..][1..] == text[end + 1..];
      end := end + 1;
    }
  }

  /** What starts at `index`, found with the scanning loops. */
  method NextLexeme(text: string, index: nat) returns (lexeme: Option<(nat, Class)>)
    requires index < |text|
    ensures lexeme == Lexeme(text[index..])
  {
    var current := text[index];
    assert text[index..][1..] == text[index + 1..];
    if current == '/' && index + 1 < |text| && text[index + 1] == '/' {
      var end := LineEnd(text, index + 1);
      return Some((end - index, Trivia));
    }
    if current == '/' && index + 1 < |text| && text[index + 1] == '*' {
      assert text[index..][2..] == text[index + 2..];
      var end := BlockBodyEnd(text, index + 2);
      return if end + 1 < |text| then Some((end + 2 - index, Trivia)) else None;
    }
    if IsQuote(current) {
      var end := LiteralEnd(text, index);
      return if end.Some? then Some((end.value - index, Quoted)) else if current == '`' then None else Some((1, Bare));
    }
    return Some((1, Bare));
  }

  method Mark(kind: array<Class>, start: nat, length: nat, class_: Class, ghost before: seq<Class>)
    requires start + length <= kind.Length && before == kind[..start]
    modifies kind
    ensures kind[..start + length] == before + Repeat(length, class_)
  {
    var i := 0;
    while i < length
      invariant i <= length && kind[..start] == before
      invariant forall k | start <= k < start + i :: kind[k] == class_
    {
      kind[start + i] := class_;
      i := i + 1;
    }
  }

  lemma BehindLexeme(head: seq<Class>, text: string, index: nat, length: nat, class_: Class,
                     further: seq<Class>, whole: Option<seq<Class>>)
    requires index < |text| && Lexeme(text[index..]) == Some((length, class_))
    requires further == head + Repeat(length, class_)
    requires whole == Behind(head, Classify(text[index..]))
    ensures whole == Behind(further, Classify(text[index + length..]))
  {
    assert text[index..][length..] == text[index + length..];
    var rest := Classify(text[index + length..]);
    if rest.Some? { assert head + (Repeat(length, class_) + rest.value) == further + rest.value; }
  }

  /** With a lexeme the classes read so far grow by it; without one there are none. */
  lemma LexemeStep(head: seq<Class>, text: string, index: nat, lexeme: Option<(nat, Class)>, whole: Option<seq<Class>>)
    requires index < |text| && lexeme == Lexeme(text[index..]) && whole == Behind(head, Classify(text[index..]))
    ensures lexeme.None? ==> whole == None
    ensures lexeme.Some? ==>
              whole == Behind(head + Repeat(lexeme.value.0, lexeme.value.1), Classify(text[index + lexeme.value.0..]))
  {
    if lexeme.Some? {
      var (length, class_) := lexeme.value;
      BehindLexeme(head, text, index, length, class_, head + Repeat(length, class_), whole);
    }
  }

  lemma NothingBehind(text: string, whole: Option<seq<Class>>)
    requires whole == Classify(text)
    ensures whole == Behind([], Classify(text[0..]))
  {
    assert text[0..] == text;
    if whole.Some? { assert [] + whole.value == whole.value; }
  }

  lemma AllBehind(head: seq<Class>, text: string, index: nat, whole: Option<seq<Class>>)
    requires index == |text| && whole == Behind(head, Classify(text[index..]))
    ensures whole == Some(head)
  {
    assert head + [] == head;
  }

  /** Marks the lexeme at `index` and says where the next one starts, if the lexer knows. */
  method MarkLexeme(text: string, kind: array<Class>, index: nat, ghost marked: seq<Class>,
                    ghost whole: Option<seq<Class>>)
    returns (next: Option<nat>, ghost longer: seq<Class>)
    requires kind.Length == |text| && index < |text| && marked == kind[..index]
    requires whole == Behind(marked, Classify(text[index..]))
    modifies kind
    ensures next.None? ==> whole == None
    ensures next.Some? ==> index < next.value <= |text| && longer == kind[..next.value]
    ensures next.Some? ==> whole == Behind(longer, Classify(text[next.value..]))
  {
    var lexeme := NextLexeme(text, index);
    LexemeStep(marked, text, index, lexeme, whole);
    if lexeme.None? { return None, marked; }
    var length, class_ := lexeme.value.0, lexeme.value.1;
    Mark(kind, index, length, class_, marked);
    return Some(index + length), marked + Repeat(length, class_);
  }

  /** One class per character, in a fixed-size buffer. */
  method ClassifyText(text: string) returns (ok: bool, kind: array<Class>)
    ensures fresh(kind) && kind.Length == |text|
    ensures ok == Classify(text).Some? && (ok ==> kind[..] == Classify(text).value)
  {
    kind := new Class[|text|](_ => Bare);
    var index := 0;
    ghost var whole, marked := Classify(text), kind[..index];
    assert marked == [];
    NothingBehind(text, whole);
    while index < |text|
      invariant index <= |text| && marked == kind[..index] && whole == Behind(marked, Classify(text[index..]))
    {
      var next;
      next, marked := MarkLexeme(text, kind, index, marked, whole);
      if next.None? { return false, kind; }
      index := next.value;
    }
    AllBehind(marked, text, index, whole);
    assert kind[..index] == kind[..];
    return true, kind;
  }

  /** Moves past whatever `Skipped` counts from here. */
  method SkipTrivia(text: string, kind: array<Class>, start: nat) returns (index: nat)
    requires kind.Length == |text| && start <= |text|
    ensures index == start + Skipped(text[start..], kind[start..])
  {
    index := start;
    while index < |text| && (kind[index] == Trivia || IsSpace(text[index]))
      invariant start <= index <= |text|
      invariant index + Skipped(text[index..], kind[index..]) == start + Skipped(text[start..], kind[start..])
    {
      assert text[index..][1..] == text[index + 1..] && kind[index..][1..] == kind[index + 1..];
      index := index + 1;
    }
  }

  lemma BalancedEndStep(s: string, classes: seq<Class>, index: nat, depth: int, open: char, close: char,
                        end: Option<nat>)
    requires |s| == |classes| && index < |s|
    requires end == Further(index, BalancedEnd(s[index..], classes[index..], depth, open, close))
    ensures end ==
            var next := if classes[index] != Bare then depth
                        else if s[index] == open then depth + 1
                        else if s[index] == close then depth - 1
                        else depth;
            if classes[index] == Bare && s[index] != open && s[index] == close && next == 0 then Some(index)
            else Further(index + 1, BalancedEnd(s[index + 1..], classes[index + 1..], next, open, close))
  {
    assert s[index..][1..] == s[index + 1..] && classes[index..][1..] == classes[index + 1..];
  }

  method FindClose(text: string, kind: array<Class>, openAt: nat, open: char, close: char) returns (end: Option<nat>)
    requires kind.Length == |text| && openAt <= |text|
    ensures end == Further(openAt, BalancedEnd(text[openAt..], kind[openAt..], 0, open, close))
  {
    var depth, index := 0, openAt;
    ghost var classes := kind[..];
    assert classes[openAt..] == kind[openAt..];
    ghost var whole := Further(openAt, BalancedEnd(text[openAt..], classes[openAt..], 0, open, close));
    while index < |text|
      invariant openAt <= index <= |text|
      invariant whole == Further(index, BalancedEnd(text[index..], classes[index..], depth, open, close))
    {
      BalancedEndStep(text, classes, index, depth, open, close, whole);
      if kind[index] == Bare {
        if text[index] == open {
          depth := depth + 1;
        } else if text[index] == close {
          depth := depth - 1;
          if depth == 0 { return Some(index); }
        }
      }
      index := index + 1;
    }
    return None;
  }

  lemma BodyStep(text: string, index: nat, quote: char)
    requires index < |text| && text[index] != quote
    ensures Further(index, BodyLength(text[index..], quote)) ==
            if text[index] == '\\' then None else Further(index + 1, BodyLength(text[index + 1..], quote))
  {
    assert text[index..][1..] == text[index + 1..];
  }

  lemma LiteralByEnd(text: string, offset: nat, quote: char, end: Option<nat>)
    requires offset < |text| && text[offset] == quote && quote in {'\'', '"'}
    requires end == Further(offset + 1, BodyLength(text[offset + 1..], quote))
    ensures end.Some? ==> offset < end.value < |text| && text[end.value] == quote
    ensures ReadLiteral(text[offset..]) ==
            if end.Some? && IsMember(text[offset + 1..end.value]) then Some(text[offset + 1..end.value]) else None
  {
    assert text[offset..][1..] == text[offset + 1..];
    if end.Some? { assert text[offset..][1..end.value - offset] == text[offset + 1..end.value]; }
  }

  /** The member named by the literal at `offset`. */
  method ReadMember(text: string, offset: nat) returns (member: Option<string>)
    requires offset < |text|
    ensures member == ReadLiteral(text[offset..])
  {
    var quote := text[offset];
    if quote != '\'' && quote != '"' { return None; }
    var index := offset + 1;
    ghost var end := Further(index, BodyLength(text[index..], quote));
    LiteralByEnd(text, offset, quote, end);
    while index < |text| && text[index] != quote
      invariant offset < index <= |text| && end == Further(index, BodyLength(text[index..], quote))
    {
      BodyStep(text, index, quote);
      if text[index] == '\\' { return None; }
      index := index + 1;
    }
    if index == |text| { return None; }
    var value := text[offset + 1..index];
    return if IsMember(value) then Some(value) else None;
  }

  function Appended(members: seq<string>, rest: Option<seq<string>>): Option<seq<string>> {
    if rest.Some? then Some(members + rest.value) else None
  }

  lemma AppendedCons(members: seq<string>, name: string, rest: Option<seq<string>>)
    ensures Appended(members, Cons(name, rest)) == Appended(members + [name], rest)
  {
    if rest.Some? { assert members + ([name] + rest.value) == members + [name] + rest.value; }
  }

  lemma AppendedNothing(members: seq<string>, rest: Option<seq<string>>)
    ensures Appended([], rest) == rest && Appended(members, Some([])) == Some(members)
  {
    if rest.Some? { assert [] + rest.value == rest.value; }
    assert members + [] == members;
  }

  /** What is still to be read from an offset on. */
  function StillToRead(text: string, classes: seq<Class>, index: nat, closeAt: nat,
                       expectsMember: bool): Option<seq<string>>
    requires |classes| == |text| && index <= |text|
  {
    Members(text[index..], classes[index..], closeAt - index, expectsMember)
  }

  lemma ReadsOn(text: string, classes: seq<Class>, index: nat, closeAt: nat, expectsMember: bool)
    requires |classes| == |text| && index < closeAt < |text| && !Skips(text[index], classes[index])
    ensures StillToRead(text, classes, index, closeAt, expectsMember) ==
            if !expectsMember then
              if text[index] == ',' && classes[index] == Bare then StillToRead(text, classes, index + 1, closeAt, true)
                else None
            else if classes[index] != Quoted then None
            else
              var member := ReadLiteral(text[index..]);
              if member.None? then None
              else Cons(member.value, StillToRead(text, classes, index + |member.value| + 2, closeAt, false))
  {
    assert text[index..][1..] == text[index + 1..] && classes[index..][1..] == classes[index + 1..];
    var member := ReadLiteral(text[index..]);
    if member.Some? {
      var length := |member.value| + 2;
      assert text[index..][length..] == text[index + length..]
        && classes[index..][length..] == classes[index + length..];
    }
  }

  /** Where a comma is due, one is taken or nothing can be read. */
  lemma TakesComma(text: string, classes: seq<Class>, index: nat, closeAt: nat, found: seq<string>,
                   whole: Option<seq<string>>)
    requires |classes| == |text| && index < closeAt < |text| && !Skips(text[index], classes[index])
    requires whole == Appended(found, StillToRead(text, classes, index, closeAt, false))
    ensures whole == if text[index] == ',' && classes[index] == Bare
                     then Appended(found, StillToRead(text, classes, index + 1, closeAt, true)) else None
  {
    ReadsOn(text, classes, index, closeAt, false);
  }

  /** Where a name is due, one is taken or nothing can be read. */
  lemma TakesName(text: string, classes: seq<Class>, index: nat, closeAt: nat, found: seq<string>,
                  whole: Option<seq<string>>)
    requires |classes| == |text| && index < closeAt < |text| && !Skips(text[index], classes[index])
    requires whole == Appended(found, StillToRead(text, classes, index, closeAt, true))
    ensures var member := ReadLiteral(text[index..]);
            whole == if classes[index] == Quoted && member.Some?
                     then Appended(found + [member.value],
                         StillToRead(text, classes, index + |member.value| + 2, closeAt, false))
                     else None
  {
    ReadsOn(text, classes, index, closeAt, true);
    var member := ReadLiteral(text[index..]);
    if member.Some? {
      AppendedCons(found, member.value, StillToRead(text, classes, index + |member.value| + 2, closeAt, false));
    }
  }

  lemma NothingLeft(text: string, classes: seq<Class>, index: nat, closeAt: nat, expectsMember: bool)
    requires |classes| == |text| && closeAt <= index <= |text|
    requires index < |text| ==> !Skips(text[index], classes[index])
    ensures StillToRead(text, classes, index, closeAt, expectsMember) == Some([])
  {}

  lemma SkipsOn(text: string, classes: seq<Class>, index: nat, closeAt: nat, expectsMember: bool, n: nat)
    requires |classes| == |text| && index <= |text| && n == Skipped(text[index..], classes[index..])
    ensures StillToRead(text, classes, index, closeAt, expectsMember) ==
            StillToRead(text, classes, index + n, closeAt, expectsMember)
  {
    var s, rest := text[index..], classes[index..];
    MembersSkip(s, rest, closeAt - index, expectsMember, n);
    assert s[n..] == text[index + n..] && rest[n..] == classes[index + n..];
  }

  method SkipWhileReading(text: string, kind: array<Class>, start: nat, closeAt: nat, ghost expectsMember: bool)
    returns (index: nat)
    requires kind.Length == |text| && start <= |text|
    ensures start <= index <= |text| && (index < |text| ==> !Skips(text[index], kind[index]))
    ensures StillToRead(text, kind[..], start, closeAt, expectsMember) ==
            StillToRead(text, kind[..], index, closeAt, expectsMember)
  {
    index := SkipTrivia(text, kind, start);
    assert kind[start..] == kind[..][start..];
    SkipsOn(text, kind[..], start, closeAt, expectsMember, index - start);
  }

  /** A comma or a name, whichever is due: where it ends, and the name. */
  method ReadSign(text: string, kind: array<Class>, index: nat, closeAt: nat, expectsMember: bool,
                  ghost found: seq<string>, ghost whole: Option<seq<string>>)
    returns (next: Option<nat>, member: string)
    requires kind.Length == |text| && index < closeAt < |text| && !Skips(text[index], kind[index])
    requires whole == Appended(found, StillToRead(text, kind[..], index, closeAt, expectsMember))
    ensures next.None? ==> whole == None
    ensures next.Some? ==> index < next.value <= |text|
    ensures next.Some? ==>
              whole == Appended(if expectsMember then found + [member] else found,
                                StillToRead(text, kind[..], next.value, closeAt, !expectsMember))
  {
    if !expectsMember {
      TakesComma(text, kind[..], index, closeAt, found, whole);
      return if text[index] == ',' && kind[index] == Bare then Some(index + 1) else None, "";
    }
    TakesName(text, kind[..], index, closeAt, found, whole);
    if kind[index] != Quoted { return None, ""; }
    var name := ReadMember(text, index);
    if name.None? { return None, ""; }
    return Some(index + |name.value| + 2), name.value;
  }

  /** Names and commas in turn up to the closing bracket, or a refusal. */
  method ReadMembers(text: string, kind: array<Class>, openAt: nat, closeAt: nat) returns (members: Option<seq<string>>)
    requires kind.Length == |text| && openAt < closeAt < |text|
    ensures members == Members(text[openAt + 1..], kind[openAt + 1..], closeAt - (openAt + 1), true)
  {
    var found: seq<string>, index, expectsMember := [], openAt + 1, true;
    ghost var classes := kind[..];
    ghost var whole := StillToRead(text, classes, index, closeAt, true);
    AppendedNothing([], whole);
    while true
      invariant index <= |text|
      invariant whole == Appended(found, StillToRead(text, classes, index, closeAt, expectsMember))
      decreases |text| - index
    {
      index := SkipWhileReading(text, kind, index, closeAt, expectsMember);
      if index >= closeAt {
        NothingLeft(text, classes, index, closeAt, expectsMember);
        AppendedNothing(found, None);
        return Some(found);
      }
      var next, member := ReadSign(text, kind, index, closeAt, expectsMember, found, whole);
      if next.None? { return None; }
      found := if expectsMember then found + [member] else found;
      index, expectsMember := next.value, !expectsMember;
    }
  }

  method ReadArray(text: string, kind: array<Class>, openAt: nat) returns (members: Option<seq<string>>)
    requires kind.Length == |text| && openAt < |text|
    ensures members == ListAt(text, kind[..], openAt)
  {
    ghost var classes := kind[..];
    var closeAt := FindClose(text, kind, openAt, '[', ']');
    assert kind[openAt..] == classes[openAt..] && kind[openAt + 1..] == classes[openAt + 1..];
    if closeAt.None? { return None; }
    EndIsAhead(text[openAt..], classes[openAt..], 0, '[', ']');
    members := ReadMembers(text, kind, openAt, closeAt.value);
  }

  method ReadArrayAfter(text: string, kind: array<Class>, start: nat) returns (members: Option<seq<string>>)
    requires kind.Length == |text| && start <= |text|
    ensures members == ListFrom(text, kind[..], start)
  {
    var openAt := SkipTrivia(text, kind, start);
    assert kind[start..] == kind[..][start..];
    if openAt == |text| || text[openAt] != '[' || kind[openAt] != Bare { return None; }
    members := ReadArray(text, kind, openAt);
  }

  /** The members of the array literal that follows a declaration marker ending at `start`. */
  method LiteralArray(text: string, start: nat) returns (members: Option<seq<string>>)
    requires start <= |text|
    ensures members == ListAfter(text, start)
  {
    var ok, kind := ClassifyText(text);
    if !ok { return None; }
    members := ReadArrayAfter(text, kind, start);
  }
}
