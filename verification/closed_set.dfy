/** The literal-list parser of the closed-set gate: a lexical classification of the whole file, and a parser that
    accepts nothing in a bracketed span but quoted member names, commas and trivia.

    What may stand in a span is described independently of the parser, as a sequence of pieces: blanks, comments, commas
    and quoted names. The main results say that the parser accepts exactly the texts of such sequences whose names and
    commas form a list, that it returns the names, and that it finds the list's own closing bracket. */
module ClosedSet {
  import opened Options
  import opened SourceLexer
  import opened Text

  /** Code, blanks included; comments; literals with their quotes. */
  datatype Class = Bare | Trivia | Quoted

  function Repeat(n: nat, class_: Class): (classes: seq<Class>)
    ensures |classes| == n && forall k | 0 <= k < n :: classes[k] == class_
  {
    seq(n, _ => class_)
  }

  function Prepended(n: nat, class_: Class, rest: Option<seq<Class>>): Option<seq<Class>> {
    if rest.Some? then Some(Repeat(n, class_) + rest.value) else None
  }

  /** What starts at a boundary, and how long it is; `None` when the lexer has lost its way. */
  function Lexeme(s: string): (lexeme: Option<(nat, Class)>)
    requires s != ""
    ensures lexeme.Some? ==> 1 <= lexeme.value.0 <= |s| && (lexeme.value.1 == Bare ==> lexeme.value.0 == 1)
  {
    if s[0] == '/' && |s| > 1 && s[1] == '/' then Some((1 + LineLength(s[1..]), Trivia))
    else if s[0] == '/' && |s| > 1 && s[1] == '*' then
      (if BlockBody(s[2..]) + 3 < |s| then Some((BlockBody(s[2..]) + 4, Trivia)) else None)
    else if IsQuote(s[0]) then
      var n := Closes(s[1..], s[0]);
      if n.Some? then Some((1 + n.value, Quoted)) else if s[0] == '`' then None else Some((1, Bare))
    else Some((1, Bare))
  }

  /** The class of every character; `None` for an unterminated block comment or template. */
  function Classify(s: string): (classes: Option<seq<Class>>)
    ensures classes.Some? ==> |classes.value| == |s|
    decreases |s|
  {
    if s == "" then Some([])
    else
      var lexeme := Lexeme(s);
      if lexeme.None? then None else Prepended(lexeme.value.0, lexeme.value.1, Classify(s[lexeme.value.0..]))
  }

  /** The classes of a text from a boundary on. */
  function Classes(s: string): (classes: seq<Class>)
    requires Classify(s).Some?
    ensures |classes| == |s|
  {
    Classify(s).value
  }

  /** The classes of a text whose first lexeme is known. */
  lemma ClassifyLexeme(s: string, length: nat, class_: Class)
    requires s != "" && Lexeme(s) == Some((length, class_)) && Classify(s).Some?
    ensures Classify(s[length..]) == Some(Classify(s).value[length..])
    ensures forall k | 0 <= k < length :: Classify(s).value[k] == class_
  {
    var rest := Classify(s[length..]).value;
    assert Classify(s).value == Repeat(length, class_) + rest;
  }

  lemma BoundaryFurther(s: string, n: nat, m: nat)
    requires Classify(s).Some? && n <= m <= |s| && Classify(s[n..]) == Some(Classes(s)[n..])
    requires Classify(s[n..][m - n..]) == Some(Classes(s[n..])[m - n..])
    ensures Classify(s[m..]) == Some(Classes(s)[m..])
  {
    DropTwice(s, n, m);
    DropTwice(Classes(s), n, m);
  }

  lemma DropTwice<T>(s: seq<T>, n: nat, m: nat)
    requires n <= m <= |s|
    ensures s[n..][m - n..] == s[m..]
  {}

  lemma BoundaryAtStart(s: string, length: nat, class_: Class, at: nat)
    requires s != "" && Lexeme(s) == Some((length, class_)) && Classify(s).Some?
    requires at < length && Classes(s)[at] == Bare
    ensures Classify(s[at..]) == Some(Classes(s)[at..])
    ensures Classify(s[at + 1..]) == Some(Classes(s)[at + 1..])
  {
    ClassifyLexeme(s, length, class_);
    assert at == 0 && length == 1;
    assert s[0..] == s && Classes(s)[0..] == Classes(s);
  }

  lemma BoundaryLater(s: string, n: nat, at: nat)
    requires Classify(s).Some? && n <= at < |s| && Classify(s[n..]) == Some(Classes(s)[n..])
    requires Classify(s[n..][at - n..]) == Some(Classes(s)[n..][at - n..])
    requires Classify(s[n..][at - n + 1..]) == Some(Classes(s)[n..][at - n + 1..])
    ensures Classify(s[at..]) == Some(Classes(s)[at..])
    ensures Classify(s[at + 1..]) == Some(Classes(s)[at + 1..])
  {
    DropTwice(s, n, at);
    DropTwice(s, n, at + 1);
    DropTwice(Classes(s), n, at);
    DropTwice(Classes(s), n, at + 1);
  }

  /** A code character ends where the lexer stands at a boundary again: what follows is classified as if it stood
      alone. */
  lemma {:induction false} CodeIsBoundary(s: string, at: nat)
    requires Classify(s).Some? && at < |s| && Classes(s)[at] == Bare
    ensures Classify(s[at..]) == Some(Classes(s)[at..])
    ensures Classify(s[at + 1..]) == Some(Classes(s)[at + 1..])
    decreases |s|
  {
    var length, class_ := FirstLexeme(s);
    if at < length {
      BoundaryAtStart(s, length, class_, at);
    } else {
      CodeIsBoundary(s[length..], at - length);
      BoundaryLater(s, length, at);
    }
  }

  lemma FirstLexeme(s: string) returns (length: nat, class_: Class)
    requires s != "" && Classify(s).Some?
    ensures 0 < length <= |s| && Lexeme(s) == Some((length, class_))
    ensures Classify(s[length..]) == Some(Classes(s)[length..])
  {
    assert Lexeme(s).Some?;
    length, class_ := Lexeme(s).value.0, Lexeme(s).value.1;
    ClassifyLexeme(s, length, class_);
  }

  // ----- the list parser -----

  predicate IsMember(s: string) {
    && s != "" && IsLetter(s[0])
    && forall k | 0 <= k < |s| :: IsWord(s[k]) || s[k] == '.' || s[k] == ':' || s[k] == '-'
  }

  /** A member starts with a letter and goes on with letters, digits and `_`, `.`, `:` or `-`. */
  lemma MemberCharacters(s: string)
    ensures IsMember(s) <==>
            && s != "" && ('a' <= s[0] <= 'z' || 'A' <= s[0] <= 'Z')
            && forall c | c in s :: 'a' <= c <= 'z' || 'A' <= c <= 'Z' || '0' <= c <= '9' || c in {'_', '.', ':', '-'}
  {
    if !IsMember(s) && s != "" && IsLetter(s[0]) {
      var k :| 0 <= k < |s| && !(IsWord(s[k]) || s[k] == '.' || s[k] == ':' || s[k] == '-');
      assert s[k] in s;
    }
  }

  /** How far the closing quote is, when there is no backslash before it. */
  function BodyLength(s: string, quote: char): (n: Option<nat>)
    ensures n.Some? ==> n.value < |s| && s[n.value] == quote
  {
    if s == "" || s[0] == '\\' then None
    else if s[0] == quote then Some(0)
    else Further(1, BodyLength(s[1..], quote))
  }

  /** The member named by the literal a text starts with. */
  function ReadLiteral(s: string): (member: Option<string>)
    ensures member.Some? ==> |member.value| + 2 <= |s|
  {
    if s == "" || (s[0] != '\'' && s[0] != '"') then None
    else
      var n := BodyLength(s[1..], s[0]);
      if n.Some? && IsMember(s[1..n.value + 1]) then Some(s[1..n.value + 1]) else None
  }

  predicate Skips(c: char, class_: Class) {
    class_ == Trivia || IsSpace(c)
  }

  function Cons(member: string, rest: Option<seq<string>>): Option<seq<string>> {
    if rest.Some? then Some([member] + rest.value) else None
  }

  /** The members of a span that ends after `n` more characters. */
  function Members(s: string, classes: seq<Class>, n: int, expectsMember: bool): Option<seq<string>>
    requires |s| == |classes|
    decreases |s|
  {
    if s != "" && Skips(s[0], classes[0]) then Members(s[1..], classes[1..], n - 1, expectsMember)
    else if n <= 0 then Some([])
    else if s == "" then None
    else if !expectsMember then
      if s[0] == ',' && classes[0] == Bare then Members(s[1..], classes[1..], n - 1, true) else None
    else if classes[0] != Quoted then None
    else
      var member := ReadLiteral(s);
      if member.None? then None
      else
        var length := |member.value| + 2;
        Cons(member.value, Members(s[length..], classes[length..], n - length, false))
  }

  // ----- what may stand in a span -----

  datatype Piece =
    | Space(c: char)
    | LineComment(body: string)
    | BlockComment(body: string)
    | Comma
    | Member(quote: char, name: string)

  predicate ValidPiece(piece: Piece) {
    match piece
    case Space(c) => IsSpace(c)
    case LineComment(body) => '\n' !in body
    case BlockComment(body) => BlockBody(body + "*/") == |body|
    case Comma => true
    case Member(quote, name) => (quote == '\'' || quote == '"') && IsMember(name)
  }

  function PieceText(piece: Piece): string {
    match piece
    case Space(c) => [c]
    case LineComment(body) => "//" + body + "\n"
    case BlockComment(body) => "/*" + body + "*/"
    case Comma => ","
    case Member(quote, name) => [quote] + name + [quote]
  }

  predicate Valid(pieces: seq<Piece>) {
    forall k | 0 <= k < |pieces| :: ValidPiece(pieces[k])
  }

  function Written(pieces: seq<Piece>): string {
    if pieces == [] then "" else PieceText(pieces[0]) + Written(pieces[1..])
  }

  /** A list's commas and members, without the trivia. */
  datatype Sign = Separator | Named(name: string)

  function Signs(pieces: seq<Piece>): seq<Sign> {
    if pieces == [] then []
    else
      (match pieces[0]
       case Comma => [Separator]
       case Member(_, name) => [Named(name)]
       case _ => [])
      + Signs(pieces[1..])
  }

  /** Members separated by commas. */
  function ListOf(members: seq<string>): seq<Sign> {
    if members == [] then []
    else if |members| == 1 then [Named(members[0])]
    else [Named(members[0]), Separator] + ListOf(members[1..])
  }

  /** The signs of a list, with or without the trailing comma a non-empty list may have. */
  ghost predicate IsListOf(signs: seq<Sign>, members: seq<string>) {
    signs == ListOf(members) || (members != [] && signs == ListOf(members) + [Separator])
  }

  /** The members a sequence of signs lists, taken one sign at a time. */
  function Taken(signs: seq<Sign>, expectsMember: bool): Option<seq<string>> {
    if signs == [] then Some([])
    else if expectsMember then
      if signs[0].Named? then Cons(signs[0].name, Taken(signs[1..], false)) else None
    else if signs[0].Separator? then Taken(signs[1..], true)
    else None
  }

  /** Taking signs one at a time accepts exactly the lists. */
  lemma {:induction false} TakenIsList(signs: seq<Sign>, members: seq<string>)
    ensures Taken(signs, true) == Some(members) <==> IsListOf(signs, members)
    ensures Taken(signs, false) == Some(members) <==>
            (signs == [] && members == []) || (signs != [] && signs[0].Separator? && IsListOf(signs[1..], members))
    decreases |signs|
  {
    if signs == [] {
      assert |ListOf(members)| == 0 <==> members == [];
    } else {
      TakenIsList(signs[1..], members);
      if members != [] {
        TakenIsList(signs[1..], members[1..]);
        ListByHead(signs, members);
        assert members == [members[0]] + members[1..];
        var rest := Taken(signs[1..], false);
        if signs[0].Named? && rest.Some? {
          assert ([signs[0].name] + rest.value)[1..] == rest.value;
        }
      }
    }
  }

  lemma ListByHead(signs: seq<Sign>, members: seq<string>)
    requires signs != [] && members != []
    ensures IsListOf(signs, members) <==>
            && signs[0] == Named(members[0])
            && ((signs[1..] == [] && members[1..] == [])
                || (signs[1..] != [] && signs[1..][0].Separator? && IsListOf(signs[1..][1..], members[1..])))
  {
    if |members| == 1 {
      assert ListOf(members) == [Named(members[0])];
    }
  }

  // ----- writing a list and reading it back -----

  lemma MembersSkipOne(s: string, classes: seq<Class>, n: int, expectsMember: bool)
    requires |s| == |classes| && s != "" && Skips(s[0], classes[0])
    ensures Members(s, classes, n, expectsMember) == Members(s[1..], classes[1..], n - 1, expectsMember)
  {}

  lemma {:induction false} MembersSkip(s: string, classes: seq<Class>, n: int, expectsMember: bool, length: nat)
    requires |s| == |classes| && length <= |s| && forall k | 0 <= k < length :: Skips(s[k], classes[k])
    ensures Members(s, classes, n, expectsMember) == Members(s[length..], classes[length..], n - length, expectsMember)
  {
    if length == 0 {
      assert s[0..] == s && classes[0..] == classes;
    } else {
      MembersSkipOne(s, classes, n, expectsMember);
      MembersSkip(s[1..], classes[1..], n - 1, expectsMember, length - 1);
      assert s[1..][length - 1..] == s[length..] && classes[1..][length - 1..] == classes[length..];
    }
  }

  /** A member name closes where its quote does, and holds nothing that could end the literal early. */
  lemma {:induction false} NameCloses(name: string, quote: char, rest: string)
    requires forall k | 0 <= k < |name| :: IsWord(name[k]) || name[k] == '.' || name[k] == ':' || name[k] == '-'
    requires quote == '\'' || quote == '"'
    ensures Closes(name + [quote] + rest, quote) == Some(|name| + 1)
    ensures BodyLength(name + [quote] + rest, quote) == Some(|name|)
  {
    var s := name + [quote] + rest;
    if name != "" {
      assert s[0] == name[0] && s[1..] == name[1..] + [quote] + rest;
      NameCloses(name[1..], quote, rest);
    }
  }

  lemma {:induction false} BlockBodyFound(body: string, s: string)
    requires body + "*/" <= s && BlockBody(body + "*/") == |body|
    ensures BlockBody(s) == |body|
  {
    var closed := body + "*/";
    assert s[0] == closed[0] && s[1] == closed[1];
    if body != "" {
      assert closed[1..] == body[1..] + "*/";
      BlockBodyFound(body[1..], s[1..]);
    }
  }

  lemma {:induction false} LineLengthFound(body: string, s: string)
    requires '\n' !in body && body + "\n" <= s
    ensures LineLength(s) == |body|
  {
    assert s[|body|] == (body + "\n")[|body|];
    if body != "" {
      assert s[0] == (body + "\n")[0] && (body + "\n")[1..] == body[1..] + "\n";
      LineLengthFound(body[1..], s[1..]);
    }
  }

  lemma LineOpens(body: string, s: string)
    requires "//" + body + "\n" <= s
    ensures s[0] == '/' && s[1] == '/' && "/" + body + "\n" <= s[1..] && s[|body| + 2] == '\n'
  {
    var text := "//" + body + "\n";
    assert text[1..] == "/" + body + "\n" && text[0] == '/' && text[1] == '/' && text[|body| + 2] == '\n';
  }

  lemma LineLexeme(body: string, s: string)
    requires '\n' !in body && |s| > 1 && s[0] == '/' && s[1] == '/' && "/" + body + "\n" <= s[1..]
    ensures Lexeme(s) == Some((|body| + 2, Trivia))
  {
    LineLengthFound("/" + body, s[1..]);
  }

  lemma BlockOpens(body: string, s: string)
    requires "/*" + body + "*/" <= s
    ensures s[0] == '/' && s[1] == '*' && body + "*/" <= s[2..]
  {
    var text := "/*" + body + "*/";
    assert text[2..] == body + "*/" && text[0] == '/' && text[1] == '*';
  }

  lemma BlockLexeme(body: string, s: string)
    requires |s| >= 2 && s[0] == '/' && s[1] == '*' && body + "*/" <= s[2..] && BlockBody(body + "*/") == |body|
    ensures Lexeme(s) == Some((|body| + 4, Trivia))
  {
    BlockBodyFound(body, s[2..]);
  }

  lemma MemberLexeme(quote: char, name: string, rest: string)
    requires (quote == '\'' || quote == '"') && IsMember(name)
    ensures Lexeme([quote] + name + [quote] + rest) == Some((|name| + 2, Quoted))
    ensures ReadLiteral([quote] + name + [quote] + rest) == Some(name)
  {
    var s := [quote] + name + [quote] + rest;
    assert s[1..] == name + [quote] + rest;
    NameCloses(name, quote, rest);
    assert s[1..|name| + 1] == name;
  }

  lemma CodeLexeme(c: char, rest: string)
    requires c != '/' && !IsQuote(c)
    ensures Lexeme([c] + rest) == Some((1, Bare))
  {}

  /** The members of the span of `n` characters a classified text starts with. */
  function SpanMembers(s: string, n: int, expectsMember: bool): Option<seq<string>>
    requires Classify(s).Some?
  {
    Members(s, Classes(s), n, expectsMember)
  }

  lemma MembersTake(s: string, classes: seq<Class>, n: nat, expectsMember: bool, name: string)
    requires |s| == |classes| && s != "" && classes[0] == Quoted && ReadLiteral(s) == Some(name) && 1 <= n
    ensures Members(s, classes, n, expectsMember) ==
            if expectsMember then Cons(name, Members(s[|name| + 2..], classes[|name| + 2..], n - (|name| + 2), false))
            else None
  {}

  lemma MemberLexemeAt(quote: char, name: string, s: string)
    requires (quote == '\'' || quote == '"') && IsMember(name) && [quote] + name + [quote] <= s
    ensures s != "" && Lexeme(s) == Some((|name| + 2, Quoted)) && ReadLiteral(s) == Some(name)
  {
    assert s == [quote] + name + [quote] + s[|name| + 2..];
    MemberLexeme(quote, name, s[|name| + 2..]);
  }

  lemma CodeIsRead(c: char, s: string, n: nat, expectsMember: bool)
    requires (IsSpace(c) || c == ',') && [c] <= s && Classify(s).Some? && 1 <= n
    ensures Classify(s[1..]) == Some(Classes(s)[1..])
    ensures SpanMembers(s, n, expectsMember) ==
            if IsSpace(c) then SpanMembers(s[1..], n - 1, expectsMember)
            else if expectsMember then None
            else SpanMembers(s[1..], n - 1, true)
  {
    assert s == [c] + s[1..];
    CodeLexeme(c, s[1..]);
    ClassifyLexeme(s, 1, Bare);
  }

  /** What reading goes on with after a piece. */
  function Onward(piece: Piece, s: string, n: int, expectsMember: bool): Option<seq<string>>
    requires Classify(s).Some?
  {
    match piece
    case Comma => if expectsMember then None else SpanMembers(s, n, true)
    case Member(_, name) => if expectsMember then Cons(name, SpanMembers(s, n, false)) else None
    case _ => SpanMembers(s, n, expectsMember)
  }

  predicate IsRead(piece: Piece, length: nat, s: string, n: int, expectsMember: bool)
    requires Classify(s).Some? && length <= |s|
  {
    && Classify(s[length..]) == Some(Classes(s)[length..])
    && SpanMembers(s, n, expectsMember) == Onward(piece, s[length..], n - length, expectsMember)
  }

  lemma TriviaIsRead(length: nat, s: string, n: nat, expectsMember: bool)
    requires s != "" && Lexeme(s) == Some((length, Trivia)) && Classify(s).Some? && length <= n
    ensures Classify(s[length..]) == Some(Classes(s)[length..])
    ensures SpanMembers(s, n, expectsMember) == SpanMembers(s[length..], n - length, expectsMember)
  {
    ClassifyLexeme(s, length, Trivia);
    MembersSkip(s, Classes(s), n, expectsMember, length);
  }

  lemma LineIsRead(piece: Piece, length: nat, s: string, n: nat, expectsMember: bool)
    requires piece.LineComment? && s != "" && Lexeme(s) == Some((length, Trivia)) && Classify(s).Some?
    requires length < |s| && s[length] == '\n' && length + 1 <= n
    ensures IsRead(piece, length + 1, s, n, expectsMember)
  {
    TrailingNewlineIsRead(length, s, n, expectsMember);
  }

  lemma TrailingNewlineIsRead(length: nat, s: string, n: nat, expectsMember: bool)
    requires s != "" && Lexeme(s) == Some((length, Trivia)) && Classify(s).Some?
    requires length < |s| && s[length] == '\n' && length + 1 <= n
    ensures Classify(s[length + 1..]) == Some(Classes(s)[length + 1..])
    ensures SpanMembers(s, n, expectsMember) == SpanMembers(s[length + 1..], n - (length + 1), expectsMember)
  {
    TriviaIsRead(length, s, n, expectsMember);
    NewlineIsRead(length, s, s[length..], n, expectsMember);
  }

  lemma NewlineIsRead(length: nat, s: string, tail: string, n: nat, expectsMember: bool)
    requires Classify(s).Some? && length < |s| && tail == s[length..] && tail[0] == '\n' && length < n
    requires Classify(tail) == Some(Classes(s)[length..])
    ensures Classify(s[length + 1..]) == Some(Classes(s)[length + 1..])
    ensures SpanMembers(tail, n - length, expectsMember) ==
            SpanMembers(s[length + 1..], n - (length + 1), expectsMember)
  {
    CodeIsRead('\n', tail, n - length, expectsMember);
    assert tail[1..] == s[length + 1..] && Classes(tail)[1..] == Classes(s)[length + 1..];
  }

  lemma BlockIsRead(piece: Piece, length: nat, s: string, n: nat, expectsMember: bool)
    requires piece.BlockComment? && s != "" && Lexeme(s) == Some((length, Trivia)) && Classify(s).Some? && length <= n
    ensures IsRead(piece, length, s, n, expectsMember)
  {
    TriviaIsRead(length, s, n, expectsMember);
  }

  lemma SignIsRead(piece: Piece, s: string, n: nat, expectsMember: bool)
    requires !piece.LineComment? && !piece.BlockComment?
    requires ValidPiece(piece) && PieceText(piece) <= s && Classify(s).Some? && |PieceText(piece)| <= n
    ensures IsRead(piece, |PieceText(piece)|, s, n, expectsMember)
  {
    match piece
    case Space(c) => SpaceIsRead(piece, s, n, expectsMember);
    case Comma => CommaIsRead(piece, s, n, expectsMember);
    case Member(quote, name) =>
      MemberLexemeAt(quote, name, s);
      NameIsRead(piece, |name| + 2, s, n, expectsMember);
  }

  lemma SpaceIsRead(piece: Piece, s: string, n: nat, expectsMember: bool)
    requires piece.Space? && IsSpace(piece.c) && [piece.c] <= s && Classify(s).Some? && 1 <= n
    ensures IsRead(piece, 1, s, n, expectsMember)
  {
    CodeIsRead(piece.c, s, n, expectsMember);
  }

  lemma CommaIsRead(piece: Piece, s: string, n: nat, expectsMember: bool)
    requires piece.Comma? && [','] <= s && Classify(s).Some? && 1 <= n
    ensures IsRead(piece, 1, s, n, expectsMember)
  {
    CodeIsRead(',', s, n, expectsMember);
  }

  lemma NameIsRead(piece: Piece, length: nat, s: string, n: nat, expectsMember: bool)
    requires piece.Member? && length == |piece.name| + 2 <= n && Classify(s).Some?
    requires s != "" && Lexeme(s) == Some((length, Quoted)) && ReadLiteral(s) == Some(piece.name)
    ensures IsRead(piece, length, s, n, expectsMember)
  {
    var tail, rest, read := s[length..], Classes(s)[length..], SpanMembers(s, n, expectsMember);
    NameIsTaken(piece.name, length, s, n, expectsMember, tail, rest, read);
    TakesOn(piece, tail, rest, n - length, expectsMember, read);
  }

  lemma NameIsTaken(name: string, length: nat, s: string, n: nat, expectsMember: bool,
                    tail: string, rest: seq<Class>, read: Option<seq<string>>)
    requires length == |name| + 2 <= n && s != "" && Lexeme(s) == Some((length, Quoted)) && ReadLiteral(s) == Some(name)
    requires Classify(s).Some? && tail == s[length..] && rest == Classes(s)[length..]
    requires read == SpanMembers(s, n, expectsMember)
    ensures Classify(tail) == Some(rest)
    ensures read == if expectsMember then Cons(name, Members(tail, rest, n - length, false)) else None
  {
    ClassifyLexeme(s, length, Quoted);
    MembersTake(s, Classes(s), n, expectsMember, name);
  }

  lemma TakesOn(piece: Piece, s: string, classes: seq<Class>, n: int, expectsMember: bool, read: Option<seq<string>>)
    requires piece.Member? && Classify(s) == Some(classes)
    requires read == if expectsMember then Cons(piece.name, Members(s, classes, n, false)) else None
    ensures read == Onward(piece, s, n, expectsMember)
  {}

  lemma LineCommentIsRead(piece: Piece, s: string, n: nat, expectsMember: bool)
    requires piece.LineComment? && ValidPiece(piece) && PieceText(piece) <= s && Classify(s).Some?
             && |PieceText(piece)| <= n
    ensures IsRead(piece, |PieceText(piece)|, s, n, expectsMember)
  {
    LineOpens(piece.body, s);
    LineLexeme(piece.body, s);
    LineIsRead(piece, |piece.body| + 2, s, n, expectsMember);
  }

  lemma BlockCommentIsRead(piece: Piece, s: string, n: nat, expectsMember: bool)
    requires piece.BlockComment? && ValidPiece(piece) && PieceText(piece) <= s && Classify(s).Some?
             && |PieceText(piece)| <= n
    ensures IsRead(piece, |PieceText(piece)|, s, n, expectsMember)
  {
    BlockOpens(piece.body, s);
    BlockLexeme(piece.body, s);
    BlockIsRead(piece, |piece.body| + 4, s, n, expectsMember);
  }

  lemma PieceIsRead(piece: Piece, s: string, n: nat, expectsMember: bool)
    requires ValidPiece(piece) && PieceText(piece) <= s && Classify(s).Some? && |PieceText(piece)| <= n
    ensures IsRead(piece, |PieceText(piece)|, s, n, expectsMember)
  {
    match piece
    case LineComment(_) => LineCommentIsRead(piece, s, n, expectsMember);
    case BlockComment(_) => BlockCommentIsRead(piece, s, n, expectsMember);
    case _ => SignIsRead(piece, s, n, expectsMember);
  }

  lemma SignsByHead(pieces: seq<Piece>, expectsMember: bool)
    requires pieces != []
    ensures Taken(Signs(pieces), expectsMember) ==
            match pieces[0]
            case Comma => if expectsMember then None else Taken(Signs(pieces[1..]), true)
            case Member(_, name) => if expectsMember then Cons(name, Taken(Signs(pieces[1..]), false)) else None
            case _ => Taken(Signs(pieces[1..]), expectsMember)
  {
    var rest := Signs(pieces[1..]);
    match pieces[0]
    case Comma => assert Signs(pieces)[1..] == rest;
    case Member(_, _) => assert Signs(pieces)[1..] == rest;
    case _ => assert [] + rest == rest;
  }

  function Expects(piece: Piece, expectsMember: bool): bool {
    match piece
    case Comma => true
    case Member(_, _) => false
    case _ => expectsMember
  }

  lemma TailIsWritten(pieces: seq<Piece>, s: string)
    requires pieces != [] && Written(pieces) <= s
    ensures PieceText(pieces[0]) <= s && Written(pieces[1..]) <= s[|PieceText(pieces[0])|..]
    ensures |Written(pieces)| == |PieceText(pieces[0])| + |Written(pieces[1..])|
  {
    PrefixParts(PieceText(pieces[0]), Written(pieces[1..]), s);
  }

  lemma PrefixParts(head: string, tail: string, s: string)
    requires head + tail <= s
    ensures head <= s && tail <= s[|head|..]
  {
    assert (head + tail)[..|head|] == head && (head + tail)[|head|..] == tail;
  }

  /** Reading a written span takes its signs one at a time. */
  lemma {:induction false} WrittenIsRead(pieces: seq<Piece>, s: string, expectsMember: bool)
    requires Valid(pieces) && Written(pieces) <= s && Classify(s).Some?
    requires |Written(pieces)| < |s| ==> !Skips(s[|Written(pieces)|], Classes(s)[|Written(pieces)|])
    ensures SpanMembers(s, |Written(pieces)|, expectsMember) == Taken(Signs(pieces), expectsMember)
    decreases |pieces|
  {
    if pieces == [] {
      NothingIsRead(s, expectsMember);
    } else {
      var length := |PieceText(pieces[0])|;
      TailIsWritten(pieces, s);
      PieceIsRead(pieces[0], s, |Written(pieces)|, expectsMember);
      EndsAlike(s, length, |Written(pieces)|);
      WrittenIsRead(pieces[1..], s[length..], Expects(pieces[0], expectsMember));
      SignsByHead(pieces, expectsMember);
    }
  }

  lemma NothingIsRead(s: string, expectsMember: bool)
    requires Classify(s).Some? && (s != "" ==> !Skips(s[0], Classes(s)[0]))
    ensures SpanMembers(s, 0, expectsMember) == Some([])
  {}

  /** What stands after a span is the same, seen from the span's start or from a later boundary. */
  lemma EndsAlike(s: string, length: nat, n: nat)
    requires Classify(s).Some? && length <= n <= |s| && Classify(s[length..]) == Some(Classes(s)[length..])
    requires n < |s| ==> !Skips(s[n], Classes(s)[n])
    ensures n < |s| ==> !Skips(s[length..][n - length], Classes(s[length..])[n - length])
  {}

  // ----- what was read was written -----

  lemma {:induction false} LineHoldsNoNewline(s: string)
    ensures '\n' !in s[..LineLength(s)]
    ensures LineLength(s) < |s| ==> s[LineLength(s)] == '\n'
  {
    if s != "" && s[0] != '\n' {
      LineHoldsNoNewline(s[1..]);
      assert s[..LineLength(s)] == [s[0]] + s[1..][..LineLength(s[1..])];
    }
  }

  lemma {:induction false} BlockBodyCloses(s: string, n: nat)
    requires BlockBody(s) == n && n + 1 < |s|
    ensures s[n] == '*' && s[n + 1] == '/' && BlockBody(s[..n] + "*/") == n
  {
    var closed := s[..n] + "*/";
    if n > 0 {
      BlockBodyCloses(s[1..], n - 1);
      assert closed[1..] == s[1..][..n - 1] + "*/";
      assert closed[0] == s[0] && closed[1] == s[1];
    }
  }

  /** A code character that is no blank ends the span: every lexeme before it, with the newline of a line comment,
      ends before it. */
  lemma LexemeFits(s: string, n: nat)
    requires s != "" && Lexeme(s).Some? && Classify(s).Some? && 0 < n < |s| && Classes(s)[n] == Bare
    ensures Lexeme(s).value.0 <= n && Classes(s)[0] == Lexeme(s).value.1
  {
    LexemeCovers(s, Lexeme(s).value.0, Lexeme(s).value.1, n);
  }

  lemma LexemeCovers(s: string, length: nat, class_: Class, n: nat)
    requires s != "" && Lexeme(s) == Some((length, class_)) && Classify(s).Some? && 0 < n < |s|
    requires Classes(s)[n] == Bare
    ensures length <= n && Classes(s)[0] == class_
  {
    ClassifyLexeme(s, length, class_);
  }

  lemma FirstLine(s: string, n: nat) returns (piece: Piece)
    requires n < |s| && !IsSpace(s[n]) && |s| > 1 && s[0] == '/' && s[1] == '/'
    requires 1 + LineLength(s[1..]) <= n
    ensures ValidPiece(piece) && PieceText(piece) <= s && |PieceText(piece)| <= n
  {
    var tail := s[2..];
    assert s[1..][1..] == tail;
    LineHoldsNoNewline(tail);
    var body := tail[..LineLength(tail)];
    piece := LineComment(body);
    assert s[|body| + 2] == tail[|body|] == '\n';
    assert s[..|body| + 3] == "//" + body + "\n";
  }

  lemma FirstBlock(s: string, n: nat) returns (piece: Piece)
    requires n < |s| && |s| > 1 && s[0] == '/' && s[1] == '*' && BlockBody(s[2..]) + 4 <= n
    ensures ValidPiece(piece) && PieceText(piece) <= s && |PieceText(piece)| <= n
  {
    var tail := s[2..];
    var length := BlockBody(tail);
    BlockBodyCloses(tail, length);
    var body := tail[..length];
    piece := BlockComment(body);
    assert s[length + 2] == tail[length] && s[length + 3] == tail[length + 1];
    assert s[..length + 4] == "/*" + body + "*/";
  }

  lemma FirstMember(s: string, n: nat) returns (piece: Piece)
    requires s != "" && ReadLiteral(s).Some? && Lexeme(s).Some? && Lexeme(s).value.0 <= n
    ensures ValidPiece(piece) && PieceText(piece) <= s && |PieceText(piece)| <= n
  {
    var name := ReadLiteral(s).value;
    piece := Member(s[0], name);
    assert s[1..][|name|] == s[0];
    assert s[..|name| + 2] == [s[0]] + name + [s[0]];
    MemberLexemeAt(s[0], name, s);
  }

  lemma FirstPiece(s: string, n: nat, expectsMember: bool) returns (piece: Piece)
    requires Accepted(s, n, expectsMember) && 0 < n
    ensures ValidPiece(piece) && PieceText(piece) <= s && |PieceText(piece)| <= n
  {
    assert Lexeme(s).Some?;
    LexemeFits(s, n);
    if Lexeme(s).value.1 == Trivia {
      if s[1] == '/' { piece := FirstLine(s, n); } else { piece := FirstBlock(s, n); }
    } else if IsSpace(s[0]) {
      piece := Space(s[0]);
    } else if s[0] == ',' {
      piece := Comma;
    } else {
      piece := FirstMember(s, n);
    }
  }

  /** A span of `n` characters that ends in code, and is accepted. */
  predicate Accepted(s: string, n: nat, expectsMember: bool) {
    && Classify(s).Some? && n < |s| && Classes(s)[n] == Bare && !IsSpace(s[n])
    && SpanMembers(s, n, expectsMember).Some?
  }

  predicate IsSpelled(pieces: seq<Piece>, s: string, n: nat, expectsMember: bool)
    requires Classify(s).Some? && n <= |s|
  {
    && Valid(pieces) && Written(pieces) == s[..n]
    && Taken(Signs(pieces), expectsMember) == SpanMembers(s, n, expectsMember)
  }

  lemma SignsGrow(piece: Piece, rest: seq<Piece>, s: string, n: nat, expectsMember: bool)
    requires Accepted(s, n, expectsMember) && ValidPiece(piece) && PieceText(piece) <= s && |PieceText(piece)| <= n
    requires Classify(s[|PieceText(piece)|..]).Some?
    requires Taken(Signs(rest), Expects(piece, expectsMember)) ==
             SpanMembers(s[|PieceText(piece)|..], n - |PieceText(piece)|, Expects(piece, expectsMember))
    ensures Taken(Signs([piece] + rest), expectsMember) == SpanMembers(s, n, expectsMember)
  {
    PieceIsRead(piece, s, n, expectsMember);
    SignsByHead([piece] + rest, expectsMember);
    assert ([piece] + rest)[1..] == rest;
  }

  lemma TextGrows(piece: Piece, rest: seq<Piece>, s: string, n: nat)
    requires PieceText(piece) <= s && |PieceText(piece)| <= n <= |s|
    requires Written(rest) == s[|PieceText(piece)|..][..n - |PieceText(piece)|]
    ensures Written([piece] + rest) == s[..n]
  {
    assert ([piece] + rest)[1..] == rest;
    PartsMeet(PieceText(piece), Written(rest), s, n);
  }

  lemma PartsMeet(head: string, tail: string, s: string, n: nat)
    requires head <= s && |head| <= n <= |s| && tail == s[|head|..][..n - |head|]
    ensures head + tail == s[..n]
  {}

  /** What is left of a span after its first piece. */
  predicate Leaves(piece: Piece, s: string, n: nat, expectsMember: bool, tail: string, left: nat, expects: bool) {
    && ValidPiece(piece) && PieceText(piece) <= s && |PieceText(piece)| <= n
    && tail == s[|PieceText(piece)|..] && left == n - |PieceText(piece)| && expects == Expects(piece, expectsMember)
  }

  lemma AcceptedOn(piece: Piece, length: nat, s: string, n: nat, expectsMember: bool, tail: string)
    requires Accepted(s, n, expectsMember) && length <= n && IsRead(piece, length, s, n, expectsMember)
    requires tail == s[length..]
    ensures Accepted(tail, n - length, Expects(piece, expectsMember))
  {}

  lemma RestIsAccepted(piece: Piece, length: nat, s: string, n: nat, expectsMember: bool, tail: string)
    requires Accepted(s, n, expectsMember) && ValidPiece(piece) && PieceText(piece) <= s
    requires length == |PieceText(piece)| <= n && tail == s[length..]
    ensures Accepted(tail, n - length, Expects(piece, expectsMember))
  {
    PieceIsRead(piece, s, n, expectsMember);
    AcceptedOn(piece, length, s, n, expectsMember, tail);
  }

  lemma NoPieceIsEmpty(piece: Piece)
    ensures PieceText(piece) != ""
  {}

  lemma PeelOff(piece: Piece, s: string, n: nat, expectsMember: bool) returns (tail: string, left: nat, expects: bool)
    requires Accepted(s, n, expectsMember) && ValidPiece(piece) && PieceText(piece) <= s && |PieceText(piece)| <= n
    ensures Leaves(piece, s, n, expectsMember, tail, left, expects) && left < n && Accepted(tail, left, expects)
  {
    var length := |PieceText(piece)|;
    NoPieceIsEmpty(piece);
    tail, left, expects := s[length..], n - length, Expects(piece, expectsMember);
    RestIsAccepted(piece, length, s, n, expectsMember, tail);
    LeavesRest(piece, length, s, n, expectsMember, Leaves(piece, s, n, expectsMember, tail, left, expects));
  }

  lemma LeavesRest(piece: Piece, length: nat, s: string, n: nat, expectsMember: bool, leaves: bool)
    requires ValidPiece(piece) && PieceText(piece) <= s && length == |PieceText(piece)| <= n
    requires leaves == Leaves(piece, s, n, expectsMember, s[length..], n - length, Expects(piece, expectsMember))
    ensures leaves
  {}

  lemma Peel(s: string, n: nat, expectsMember: bool)
    returns (piece: Piece, tail: string, left: nat, expects: bool)
    requires Accepted(s, n, expectsMember) && 0 < n
    ensures Leaves(piece, s, n, expectsMember, tail, left, expects) && left < n && Accepted(tail, left, expects)
  {
    piece := FirstPiece(s, n, expectsMember);
    tail, left, expects := PeelOff(piece, s, n, expectsMember);
  }

  lemma SpellingGrows(piece: Piece, rest: seq<Piece>, s: string, n: nat, expectsMember: bool,
                      tail: string, left: nat, expects: bool)
    requires Accepted(s, n, expectsMember) && Leaves(piece, s, n, expectsMember, tail, left, expects)
    requires Accepted(tail, left, expects) && IsSpelled(rest, tail, left, expects)
    ensures IsSpelled([piece] + rest, s, n, expectsMember)
  {
    SignsGrow(piece, rest, s, n, expectsMember);
    TextGrows(piece, rest, s, n);
  }

  lemma NothingIsSpelled(s: string, expectsMember: bool)
    requires Accepted(s, 0, expectsMember)
    ensures IsSpelled([], s, 0, expectsMember)
  {}

  /** Whatever is read from a span ending in code is written there, piece by piece. */
  lemma {:induction false} ReadIsWritten(s: string, n: nat, expectsMember: bool) returns (pieces: seq<Piece>)
    requires Accepted(s, n, expectsMember)
    ensures IsSpelled(pieces, s, n, expectsMember)
    decreases n
  {
    if n == 0 {
      pieces := [];
      NothingIsSpelled(s, expectsMember);
    } else {
      var piece, tail, left, expects := Peel(s, n, expectsMember);
      var rest := ReadIsWritten(tail, left, expects);
      SpellingGrows(piece, rest, s, n, expectsMember, tail, left, expects);
      pieces := [piece] + rest;
    }
  }

  // ----- the whole list -----

  /** The members between two offsets. */
  function ArrayMembers(text: string, classes: seq<Class>, openAt: nat, closeAt: nat): Option<seq<string>>
    requires |classes| == |text| && openAt < closeAt < |text|
  {
    Members(text[openAt + 1..], classes[openAt + 1..], closeAt - (openAt + 1), true)
  }

  /** A span spells a list: members separated by commas, a trailing comma at most, and trivia anywhere. */
  ghost predicate Spells(span: string, members: seq<string>) {
    exists pieces :: Valid(pieces) && Written(pieces) == span && IsListOf(Signs(pieces), members)
  }

  lemma AcceptedIsSpelled(s: string, n: nat, members: seq<string>)
    requires Accepted(s, n, true) && SpanMembers(s, n, true) == Some(members)
    ensures Spells(s[..n], members)
  {
    var pieces := ReadIsWritten(s, n, true);
    TakenIsList(Signs(pieces), members);
  }

  lemma SpelledIsAccepted(s: string, n: nat, members: seq<string>)
    requires Classify(s).Some? && n < |s| && Classes(s)[n] == Bare && !IsSpace(s[n]) && Spells(s[..n], members)
    ensures SpanMembers(s, n, true) == Some(members)
  {
    var pieces :| Valid(pieces) && Written(pieces) == s[..n] && IsListOf(Signs(pieces), members);
    WrittenIsRead(pieces, s, true);
    TakenIsList(Signs(pieces), members);
  }

  lemma SpanIsExact(s: string, classes: seq<Class>, n: nat, span: string, members: seq<string>)
    requires Classify(s) == Some(classes) && n < |s| && classes[n] == Bare && !IsSpace(s[n]) && span == s[..n]
    ensures Members(s, classes, n, true) == Some(members) <==> Spells(span, members)
  {
    if Members(s, classes, n, true) == Some(members) { AcceptedIsSpelled(s, n, members); }
    if Spells(span, members) { SpelledIsAccepted(s, n, members); }
  }

  lemma AfterBracket(text: string, classes: seq<Class>, openAt: nat)
    requires Classify(text) == Some(classes) && openAt < |text| && classes[openAt] == Bare
    ensures Classify(text[openAt + 1..]) == Some(classes[openAt + 1..])
  {
    CodeIsBoundary(text, openAt);
  }

  /** Between two brackets in code, exactly the member lists are accepted, and nothing in the span is skipped. */
  lemma AcceptsExactlyLists(text: string, classes: seq<Class>, openAt: nat, closeAt: nat, members: seq<string>)
    requires Classify(text) == Some(classes) && openAt < closeAt < |text|
    requires classes[openAt] == Bare && classes[closeAt] == Bare && !IsSpace(text[closeAt])
    ensures ArrayMembers(text, classes, openAt, closeAt) == Some(members) <==>
            Spells(text[openAt + 1..closeAt], members)
  {
    var s, rest, n, span := Frame(text, classes, openAt, closeAt);
    SpanIsExact(s, rest, n, span, members);
  }

  lemma Frame(text: string, classes: seq<Class>, openAt: nat, closeAt: nat)
    returns (s: string, rest: seq<Class>, n: nat, span: string)
    requires Classify(text) == Some(classes) && openAt < closeAt < |text|
    requires classes[openAt] == Bare && classes[closeAt] == Bare && !IsSpace(text[closeAt])
    ensures s == text[openAt + 1..] && rest == classes[openAt + 1..] && n == closeAt - (openAt + 1)
    ensures span == text[openAt + 1..closeAt] == s[..n]
    ensures Classify(s) == Some(rest) && n < |s| && rest[n] == Bare && !IsSpace(s[n])
  {
    AfterBracket(text, classes, openAt);
    s, rest, n, span := text[openAt + 1..], classes[openAt + 1..], closeAt - (openAt + 1), text[openAt + 1..closeAt];
    SliceOfTail(text, openAt + 1, closeAt);
    SliceOfTail(classes, openAt + 1, closeAt);
  }

  lemma SliceOfTail<T>(s: seq<T>, from: nat, to: nat)
    requires from <= to < |s|
    ensures s[from..][..to - from] == s[from..to] && s[from..][to - from] == s[to]
  {}

  // ----- finding the closing bracket -----

  /** How far the bracket is that brings the depth back to zero. */
  function BalancedEnd(s: string, classes: seq<Class>, depth: int, open: char, close: char): (end: Option<nat>)
    requires |s| == |classes|
    ensures end.Some? ==> end.value < |s| && s[end.value] == close && classes[end.value] == Bare
    decreases |s|
  {
    if s == "" then None
    else if classes[0] == Bare && s[0] == open then
      Further(1, BalancedEnd(s[1..], classes[1..], depth + 1, open, close))
    else if classes[0] == Bare && s[0] == close then
      if depth == 1 then Some(0) else Further(1, BalancedEnd(s[1..], classes[1..], depth - 1, open, close))
    else Further(1, BalancedEnd(s[1..], classes[1..], depth, open, close))
  }

  predicate IsQuiet(c: char, class_: Class) {
    class_ == Bare ==> IsSpace(c) || c == ','
  }

  /** Blanks, commas and everything that is not code hold no bracket. */
  lemma {:induction false} QuietHoldsNoBracket(s: string, classes: seq<Class>, n: nat, depth: int, open: char,
                                               close: char)
    requires |s| == |classes| && n <= |s| && forall k | 0 <= k < n :: IsQuiet(s[k], classes[k])
    requires !IsSpace(open) && open != ',' && !IsSpace(close) && close != ','
    ensures BalancedEnd(s, classes, depth, open, close) ==
            Further(n, BalancedEnd(s[n..], classes[n..], depth, open, close))
  {
    if n == 0 {
      assert s[0..] == s && classes[0..] == classes;
    } else {
      assert IsQuiet(s[0], classes[0]);
      QuietHoldsNoBracket(s[1..], classes[1..], n - 1, depth, open, close);
      assert s[1..][n - 1..] == s[n..] && classes[1..][n - 1..] == classes[n..];
    }
  }

  predicate Quiet(s: string, n: nat)
    requires Classify(s).Some? && n <= |s|
  {
    forall k | 0 <= k < n :: IsQuiet(s[k], Classes(s)[k])
  }

  lemma LexemeIsQuiet(s: string, length: nat, class_: Class)
    requires s != "" && Lexeme(s) == Some((length, class_)) && Classify(s).Some?
    requires class_ == Bare ==> IsSpace(s[0]) || s[0] == ','
    ensures Quiet(s, length)
  {
    ClassifyLexeme(s, length, class_);
  }

  lemma QuietFurther(s: string, n: nat, m: nat)
    requires Classify(s).Some? && n <= m <= |s| && Quiet(s, n)
    requires Classify(s[n..]) == Some(Classes(s)[n..]) && Quiet(s[n..], m - n)
    ensures Quiet(s, m)
  {
    forall k | 0 <= k < m ensures IsQuiet(s[k], Classes(s)[k]) {
      if k >= n { assert IsQuiet(s[n..][k - n], Classes(s[n..])[k - n]); }
    }
  }

  lemma LineIsQuiet(piece: Piece, s: string)
    requires piece.LineComment? && s != "" && Lexeme(s) == Some((|piece.body| + 2, Trivia)) && Classify(s).Some?
    requires |piece.body| + 2 < |s| && s[|piece.body| + 2] == '\n'
    ensures Quiet(s, |piece.body| + 3)
  {
    var length := |piece.body| + 2;
    LexemeIsQuiet(s, length, Trivia);
    ClassifyLexeme(s, length, Trivia);
    LexemeIsQuiet(s[length..], 1, Bare);
    QuietFurther(s, length, length + 1);
  }

  lemma SignIsQuiet(piece: Piece, s: string)
    requires !piece.LineComment? && !piece.BlockComment?
    requires ValidPiece(piece) && PieceText(piece) <= s && Classify(s).Some?
    ensures Quiet(s, |PieceText(piece)|)
  {
    match piece
    case Space(c) =>
      CodeLexeme(c, s[1..]);
      assert s == [c] + s[1..];
      LexemeIsQuiet(s, 1, Bare);
    case Comma =>
      CodeLexeme(',', s[1..]);
      assert s == [','] + s[1..];
      LexemeIsQuiet(s, 1, Bare);
    case Member(quote, name) =>
      MemberLexemeAt(quote, name, s);
      LexemeIsQuiet(s, |name| + 2, Quoted);
  }

  lemma PieceIsQuiet(piece: Piece, s: string)
    requires ValidPiece(piece) && PieceText(piece) <= s && Classify(s).Some?
    ensures Quiet(s, |PieceText(piece)|)
  {
    if piece.LineComment? {
      LineOpens(piece.body, s);
      LineLexeme(piece.body, s);
      LineIsQuiet(piece, s);
    } else if piece.BlockComment? {
      BlockOpens(piece.body, s);
      BlockLexeme(piece.body, s);
      LexemeIsQuiet(s, |piece.body| + 4, Trivia);
    } else {
      SignIsQuiet(piece, s);
    }
  }

  lemma PieceKeepsBoundary(piece: Piece, s: string)
    requires ValidPiece(piece) && PieceText(piece) <= s && Classify(s).Some?
    ensures Classify(s[|PieceText(piece)|..]) == Some(Classes(s)[|PieceText(piece)|..])
  {
    PieceIsRead(piece, s, |PieceText(piece)|, true);
  }

  /** A written list holds no bracket in code, and the lexer stands at a boundary after it. */
  lemma {:induction false} WrittenIsQuiet(pieces: seq<Piece>, s: string)
    requires Valid(pieces) && Written(pieces) <= s && Classify(s).Some?
    ensures Quiet(s, |Written(pieces)|)
    ensures Classify(s[|Written(pieces)|..]) == Some(Classes(s)[|Written(pieces)|..])
    decreases |pieces|
  {
    if pieces == [] {
      assert s[0..] == s && Classes(s)[0..] == Classes(s);
    } else {
      var length, whole := |PieceText(pieces[0])|, |Written(pieces)|;
      TailIsWritten(pieces, s);
      PieceIsQuiet(pieces[0], s);
      PieceKeepsBoundary(pieces[0], s);
      WrittenIsQuiet(pieces[1..], s[length..]);
      QuietFurther(s, length, whole);
      BoundaryFurther(s, length, whole);
    }
  }

  /** The closing bracket after a written list is in code. */
  lemma BracketIsCode(pieces: seq<Piece>, s: string)
    requires Valid(pieces) && Written(pieces) + "]" <= s && Classify(s).Some?
    ensures Classes(s)[|Written(pieces)|] == Bare && s[|Written(pieces)|] == ']'
  {
    var n := |Written(pieces)|;
    assert (Written(pieces) + "]")[n] == ']' && Written(pieces) <= s;
    WrittenIsQuiet(pieces, s);
    CodeLexeme(']', s[n..][1..]);
    assert s[n..] == [']'] + s[n..][1..];
    ClassifyLexeme(s[n..], 1, Bare);
  }

  lemma EndsHere(s: string, classes: seq<Class>)
    requires |s| == |classes| && s != "" && s[0] == ']' && classes[0] == Bare
    ensures BalancedEnd(s, classes, 1, '[', ']') == Some(0)
  {}

  lemma FoundAfterQuiet(s: string, classes: seq<Class>, n: nat)
    requires |s| == |classes| && n < |s| && s[n] == ']' && classes[n] == Bare
    requires forall k | 0 <= k < n :: IsQuiet(s[k], classes[k])
    ensures BalancedEnd(s, classes, 1, '[', ']') == Some(n)
  {
    QuietHoldsNoBracket(s, classes, n, 1, '[', ']');
    EndsHere(s[n..], classes[n..]);
  }

  lemma BracketIsFound(pieces: seq<Piece>, s: string)
    requires Valid(pieces) && Written(pieces) <= s && Written(pieces) + "]" <= s && Classify(s).Some?
    ensures BalancedEnd(s, Classes(s), 1, '[', ']') == Some(|Written(pieces)|)
  {
    BracketIsCode(pieces, s);
    WrittenIsQuiet(pieces, s);
    FoundAfterQuiet(s, Classes(s), |Written(pieces)|);
  }

  /** The offset of the bracket that closes the one at `openAt`. */
  function CloseOf(text: string, classes: seq<Class>, openAt: nat): Option<nat>
    requires |classes| == |text| && openAt < |text|
  {
    Further(openAt, BalancedEnd(text[openAt..], classes[openAt..], 0, '[', ']'))
  }

  lemma CloseIsFound(text: string, classes: seq<Class>, openAt: nat, n: nat)
    requires |text| == |classes| && openAt < |text| && text[openAt] == '[' && classes[openAt] == Bare
    requires BalancedEnd(text[openAt + 1..], classes[openAt + 1..], 1, '[', ']') == Some(n)
    ensures BalancedEnd(text[openAt..], classes[openAt..], 0, '[', ']') == Some(n + 1)
  {
    var s, rest := text[openAt..], classes[openAt..];
    assert s[1..] == text[openAt + 1..] && rest[1..] == classes[openAt + 1..];
  }

  lemma OpensText(s: string, written: string)
    requires "[" + written + "]" <= s
    ensures s[0] == '[' && written + "]" <= s[1..] && written <= s[1..]
  {
    var brackets := "[" + written + "]";
    assert brackets[0] == '[' && brackets[1..] == written + "]";
  }

  lemma ListReadsBack(pieces: seq<Piece>, s: string, members: seq<string>)
    requires Valid(pieces) && Written(pieces) + "]" <= s && Classify(s).Some? && IsListOf(Signs(pieces), members)
    ensures SpanMembers(s, |Written(pieces)|, true) == Some(members)
  {
    BracketIsCode(pieces, s);
    WrittenIsRead(pieces, s, true);
    TakenIsList(Signs(pieces), members);
  }

  lemma BracketIsFoundAt(pieces: seq<Piece>, s: string, classes: seq<Class>, members: seq<string>)
    requires Valid(pieces) && Written(pieces) <= s && Written(pieces) + "]" <= s && Classify(s) == Some(classes)
    requires IsListOf(Signs(pieces), members)
    ensures BalancedEnd(s, classes, 1, '[', ']') == Some(|Written(pieces)|)
    ensures Members(s, classes, |Written(pieces)|, true) == Some(members)
  {
    BracketIsFound(pieces, s);
    ListReadsBack(pieces, s, members);
  }

  lemma OpensAt(text: string, openAt: nat, written: string)
    requires openAt < |text| && "[" + written + "]" <= text[openAt..]
    ensures text[openAt] == '[' && written + "]" <= text[openAt + 1..] && written <= text[openAt + 1..]
  {
    OpensText(text[openAt..], written);
    assert text[openAt..][1..] == text[openAt + 1..];
  }

  // ----- the list after a declaration -----

  function Skipped(s: string, classes: seq<Class>): (n: nat)
    requires |s| == |classes|
    ensures n <= |s| && (n < |s| ==> !Skips(s[n], classes[n])) && forall k | 0 <= k < n :: Skips(s[k], classes[k])
  {
    if s != "" && Skips(s[0], classes[0]) then 1 + Skipped(s[1..], classes[1..]) else 0
  }

  /** The members of the array that opens at an offset. */
  function ListAt(text: string, classes: seq<Class>, openAt: nat): Option<seq<string>>
    requires |classes| == |text| && openAt < |text|
  {
    var end := BalancedEnd(text[openAt..], classes[openAt..], 0, '[', ']');
    if end.None? then None else Members(text[openAt + 1..], classes[openAt + 1..], end.value - 1, true)
  }

  /** The members of the array that must follow an offset, with only trivia between. */
  function ListFrom(text: string, classes: seq<Class>, start: nat): Option<seq<string>>
    requires |classes| == |text| && start <= |text|
  {
    var openAt := start + Skipped(text[start..], classes[start..]);
    if openAt == |text| || text[openAt] != '[' || classes[openAt] != Bare then None else ListAt(text, classes, openAt)
  }

  function ListAfter(text: string, start: nat): Option<seq<string>>
    requires start <= |text|
  {
    if Classify(text).None? then None else ListFrom(text, Classes(text), start)
  }

  lemma ListIsRead(text: string, classes: seq<Class>, openAt: nat, pieces: seq<Piece>, written: string,
                   members: seq<string>)
    requires |classes| == |text| && openAt < |text| && Classify(text[openAt + 1..]) == Some(classes[openAt + 1..])
    requires classes[openAt] == Bare && Valid(pieces) && IsListOf(Signs(pieces), members) && written == Written(pieces)
    requires "[" + written + "]" <= text[openAt..]
    ensures ListAt(text, classes, openAt) == Some(members)
    ensures BalancedEnd(text[openAt..], classes[openAt..], 0, '[', ']') == Some(1 + |written|)
  {
    OpensAt(text, openAt, written);
    BracketIsFoundAt(pieces, text[openAt + 1..], classes[openAt + 1..], members);
    CloseIsFound(text, classes, openAt, |written|);
  }

  /** Writing a list between brackets, with any comments and spacing, and reading it back returns the list: its own
      bracket is found, and its members are read, whatever follows. */
  lemma WrittenListReadsBack(text: string, classes: seq<Class>, openAt: nat, pieces: seq<Piece>, members: seq<string>)
    requires Classify(text) == Some(classes) && openAt < |text| && classes[openAt] == Bare
    requires Valid(pieces) && IsListOf(Signs(pieces), members) && "[" + Written(pieces) + "]" <= text[openAt..]
    ensures ListAt(text, classes, openAt) == Some(members)
    ensures BalancedEnd(text[openAt..], classes[openAt..], 0, '[', ']') == Some(1 + |Written(pieces)|)
  {
    AfterBracket(text, classes, openAt);
    ListIsRead(text, classes, openAt, pieces, Written(pieces), members);
  }

  lemma EndIsAhead(s: string, classes: seq<Class>, depth: int, open: char, close: char)
    requires |s| == |classes| && depth != 1 && BalancedEnd(s, classes, depth, open, close).Some?
    ensures BalancedEnd(s, classes, depth, open, close).value > 0
  {}

  lemma CloseIsBracket(text: string, classes: seq<Class>, openAt: nat, closeAt: nat)
    requires |classes| == |text| && openAt < |text| && CloseOf(text, classes, openAt) == Some(closeAt)
    ensures openAt < closeAt < |text| && text[closeAt] == ']' && classes[closeAt] == Bare
  {
    EndIsAhead(text[openAt..], classes[openAt..], 0, '[', ']');
    var end := closeAt - openAt;
    assert text[openAt..][end] == text[closeAt] && classes[openAt..][end] == classes[closeAt];
  }

  /** An array is accepted exactly when it spells its members from bracket to matching bracket. */
  lemma ListAtIsExact(text: string, classes: seq<Class>, openAt: nat, members: seq<string>)
    requires Classify(text) == Some(classes) && openAt < |text| && text[openAt] == '[' && classes[openAt] == Bare
    ensures ListAt(text, classes, openAt) == Some(members) <==>
            && CloseOf(text, classes, openAt).Some?
            && openAt < CloseOf(text, classes, openAt).value < |text|
            && Spells(text[openAt + 1..CloseOf(text, classes, openAt).value], members)
  {
    var closeAt := CloseOf(text, classes, openAt);
    if closeAt.Some? {
      CloseIsBracket(text, classes, openAt, closeAt.value);
      AcceptsExactlyLists(text, classes, openAt, closeAt.value, members);
      ListAtIsMembers(text, classes, openAt, closeAt.value);
    }
  }

  lemma ListAtIsMembers(text: string, classes: seq<Class>, openAt: nat, closeAt: nat)
    requires |classes| == |text| && openAt < closeAt < |text| && CloseOf(text, classes, openAt) == Some(closeAt)
    ensures ListAt(text, classes, openAt) == ArrayMembers(text, classes, openAt, closeAt)
  {}

  /** Between a declaration's end and an opening bracket in code there is nothing but white space and comments. */
  predicate OpensAfter(text: string, classes: seq<Class>, start: nat, openAt: nat)
    requires |classes| == |text|
  {
    && start <= openAt < |text| && text[openAt] == '[' && classes[openAt] == Bare
    && forall k | start <= k < openAt :: IsSpace(text[k]) || classes[k] == Trivia
  }

  /** What is written between this bracket and the one that balances it are these members. */
  ghost predicate HoldsMembers(text: string, classes: seq<Class>, openAt: nat, members: seq<string>)
    requires |classes| == |text| && openAt < |text|
  {
    var closeAt := CloseOf(text, classes, openAt);
    closeAt.Some? && openAt < closeAt.value < |text| && Spells(text[openAt + 1..closeAt.value], members)
  }

  /** The members of a declaration are those of the bracket it is followed by, and of no bracket further on. */
  lemma ListAfterIsExact(text: string, start: nat, openAt: nat, members: seq<string>)
    requires start <= |text| && Classify(text).Some?
    ensures OpensAfter(text, Classes(text), start, openAt) ==>
              (ListAfter(text, start) == Some(members) <==> HoldsMembers(text, Classes(text), openAt, members))
    ensures (forall at: nat :: !OpensAfter(text, Classes(text), start, at)) ==> ListAfter(text, start) == None
  {
    var classes := Classes(text);
    BracketIsFirst(text, classes, start, openAt, ListFrom(text, classes, start));
    if OpensAfter(text, classes, start, openAt) {
      ListAtHolds(text, classes, openAt, members, HoldsMembers(text, classes, openAt, members));
    }
  }

  lemma BracketIsFirst(text: string, classes: seq<Class>, start: nat, openAt: nat, listed: Option<seq<string>>)
    requires |classes| == |text| && start <= |text| && listed == ListFrom(text, classes, start)
    ensures OpensAfter(text, classes, start, openAt) ==> listed == ListAt(text, classes, openAt)
    ensures (forall at: nat :: !OpensAfter(text, classes, start, at)) ==> listed == None
  {
    BracketAfter(text, classes, start, start + Skipped(text[start..], classes[start..]));
  }

  lemma ListAtHolds(text: string, classes: seq<Class>, openAt: nat, members: seq<string>, holds: bool)
    requires Classify(text) == Some(classes) && openAt < |text| && text[openAt] == '[' && classes[openAt] == Bare
    requires holds == HoldsMembers(text, classes, openAt, members)
    ensures ListAt(text, classes, openAt) == Some(members) <==> holds
  {
    ListAtIsExact(text, classes, openAt, members);
  }

  lemma BracketAfter(text: string, classes: seq<Class>, start: nat, at: nat)
    requires |classes| == |text| && start <= |text| && at == start + Skipped(text[start..], classes[start..])
    ensures at < |text| && text[at] == '[' && classes[at] == Bare ==> OpensAfter(text, classes, start, at)
    ensures forall openAt: nat | OpensAfter(text, classes, start, openAt) :: openAt == at
  {
    var s, rest := text[start..], classes[start..];
    forall k | start <= k < at ensures Skips(text[k], classes[k]) { assert Skips(s[k - start], rest[k - start]); }
    assert at < |text| ==> s[at - start] == text[at] && rest[at - start] == classes[at];
  }
}
