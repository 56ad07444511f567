/** Sources written part by part: what the lexer makes of a text is what its parts say, and every text has such
    parts. */
module WrittenSource {
  import ClosedSet
  import opened Options
  import opened SourceLexer
  import opened Text

  /** A character of a literal or of a regular expression, with the backslash before it if it is escaped. */
  datatype Unit = One(c: char) | Escaped(c: char)

  /** A regular expression ends at its slash or, unfinished, at the end of its line or of the source; a comment block
      may be unfinished too. */
  datatype Part =
    | Line(body: string)
    | Block(body: string)
    | OpenBlock(body: string)
    | Quoted(quote: char, units: seq<Unit>)
    | Pattern(units: seq<Unit>, stop: char, flags: string)
    | OpenPattern(units: seq<Unit>, dangling: string)
    | Plain(c: char)

  function UnitText(unit: Unit): string {
    match unit
    case One(c) => [c]
    case Escaped(c) => ['\\', c]
  }

  function UnitsText(units: seq<Unit>): string {
    if units == [] then "" else UnitText(units[0]) + UnitsText(units[1..])
  }

  function PartText(part: Part): string {
    match part
    case Line(body) => "//" + body
    case Block(body) => "/*" + body + "*/"
    case OpenBlock(body) => "/*" + body
    case Quoted(quote, units) => [quote] + UnitsText(units) + [quote]
    case Pattern(units, stop, flags) => "/" + UnitsText(units) + [stop] + flags
    case OpenPattern(units, dangling) => "/" + UnitsText(units) + dangling
    case Plain(c) => [c]
  }

  function Written(parts: seq<Part>): string {
    if parts == [] then "" else PartText(parts[0]) + Written(parts[1..])
  }

  /** Comments leave blanks, a literal its quotes, a regular expression a zero, and everything else stays. */
  function PartMask(part: Part): string {
    match part
    case Quoted(quote, units) => [quote] + Blank(UnitsText(units)) + [quote]
    case Pattern(_, _, _) => "0" + Blank(PartText(part)[1..])
    case OpenPattern(_, _) => "0" + Blank(PartText(part)[1..])
    case Plain(c) => [c]
    case _ => Blank(PartText(part))
  }

  function Masks(parts: seq<Part>): string {
    if parts == [] then "" else PartMask(parts[0]) + Masks(parts[1..])
  }

  // ----- when a part stands where it is written -----

  predicate InLiteral(unit: Unit, quote: char) {
    unit.One? ==> unit.c != quote && unit.c != '\\' && (unit.c == '\n' ==> quote == '`')
  }

  predicate AreLiteral(units: seq<Unit>, quote: char) {
    forall k | 0 <= k < |units| :: InLiteral(units[k], quote)
  }

  /** All there is after a quote is units, up to the end of the line or of the source. */
  predicate IsUnclosed(s: string, quote: char, units: seq<Unit>, tail: string) {
    && s == UnitsText(units) + tail && AreLiteral(units, quote)
    && (tail == "" || tail == "\\" || (tail[0] == '\n' && quote != '`'))
  }

  /** No quote like this one follows, on its line or, for a backtick, at all. */
  ghost predicate NeverCloses(s: string, quote: char) {
    exists units, tail :: IsUnclosed(s, quote, units, tail)
  }

  /** The last unescaped bracket is an opening one. */
  ghost predicate IsOpen(units: seq<Unit>) {
    exists k :: 0 <= k < |units| && units[k] == One('[')
                && forall j | k < j < |units| :: units[j] != One('[') && units[j] != One(']')
  }

  ghost predicate InPattern(unit: Unit, before: seq<Unit>) {
    unit.One? ==> unit.c != '\\' && unit.c != '\n' && (unit.c == '/' ==> IsOpen(before))
  }

  ghost predicate ArePattern(units: seq<Unit>) {
    forall k | 0 <= k < |units| :: InPattern(units[k], units[..k])
  }

  predicate HoldsNoEnd(body: string) {
    forall k | 0 <= k < |body| - 1 :: !(body[k] == '*' && body[k + 1] == '/')
  }

  function Squeezed(s: string): string {
    if s == "" then "" else Squeezed(s[..|s| - 1]) + (if IsSpace(s[|s| - 1]) then "" else [s[|s| - 1]])
  }

  /** What no operand can end in. */
  predicate EndsNoOperand(c: char) {
    !('a' <= c <= 'z' || 'A' <= c <= 'Z' || '0' <= c <= '9' || c in "_$)]}<>'\"`")
  }

  /** Where a value is wanted a slash starts a regular expression: at the start, after an arrow, and after what no
      operand ends in. */
  predicate WantsValue(before: string) {
    var seen := Squeezed(before);
    seen == "" || EndsWith(seen, "=>") || EndsNoOperand(seen[|seen| - 1])
  }

  ghost predicate Stands(part: Part, before: string, after: string) {
    match part
    case Line(body) => '\n' !in body && (after == "" || after[0] == '\n')
    case Block(body) => HoldsNoEnd(body)
    case OpenBlock(body) => HoldsNoEnd(body) && after == ""
    case Quoted(quote, units) => quote in ['\'', '"', '`'] && AreLiteral(units, quote)
    case Pattern(units, stop, flags) =>
      && WantsValue(before) && ArePattern(units) && (stop == '\n' || (stop == '/' && !IsOpen(units)))
      && (units == [] ==> stop == '\n') && (units != [] ==> units[0] != One('*'))
      && (forall c | c in flags :: 'a' <= c <= 'z') && (after == "" || !('a' <= after[0] <= 'z'))
    case OpenPattern(units, dangling) =>
      && WantsValue(before) && ArePattern(units) && (units != [] ==> units[0] != One('*'))
      && after == "" && (dangling == "" || dangling == "\\")
    case Plain(c) =>
      if c == '/' then !WantsValue(before) && (after == "" || (after[0] != '/' && after[0] != '*'))
      else c in ['\'', '"', '`'] ==> NeverCloses(after, c)
  }

  ghost predicate IsWritten(parts: seq<Part>, before: string) {
    parts == [] || (Stands(parts[0], before, Written(parts[1..])) && IsWritten(parts[1..], before + PartMask(parts[0])))
  }

  // ----- literals -----

  lemma UnitGoesOn(unit: Unit, rest: string, quote: char)
    requires InLiteral(unit, quote) && quote != '\\'
    ensures Closes(UnitText(unit) + rest, quote) == Further(|UnitText(unit)|, Closes(rest, quote))
  {
    var s := UnitText(unit) + rest;
    assert s[|UnitText(unit)|..] == rest;
    if unit == Escaped(quote) { assert s[0] == '\\'; }
  }

  lemma UnitsByHead(units: seq<Unit>, tail: string, s: string, rest: string)
    requires units != [] && s == UnitsText(units) + tail && rest == UnitsText(units[1..]) + tail
    ensures s == UnitText(units[0]) + rest && |s| == |UnitText(units[0])| + |rest|
  {
    Associates(UnitText(units[0]), UnitsText(units[1..]), tail);
  }

  lemma FirstGoesOn(units: seq<Unit>, tail: string, quote: char, s: string, rest: string)
    requires AreLiteral(units, quote) && quote != '\\' && units != []
    requires s == UnitsText(units) + tail && rest == UnitsText(units[1..]) + tail
    ensures Closes(s, quote) == Further(|s| - |rest|, Closes(rest, quote)) && AreLiteral(units[1..], quote)
    ensures |tail| <= |rest| < |s|
  {
    UnitsByHead(units, tail, s, rest);
    UnitGoesOn(units[0], rest, quote);
  }

  lemma {:induction false} UnitsGoOn(units: seq<Unit>, tail: string, quote: char, s: string, end: Option<nat>)
    requires AreLiteral(units, quote) && quote != '\\'
    requires s == UnitsText(units) + tail && end == Closes(s, quote)
    ensures end == Further(|s| - |tail|, Closes(tail, quote))
    decreases |units|
  {
    if units == [] {
      assert s == tail;
    } else {
      var rest := UnitsText(units[1..]) + tail;
      FirstGoesOn(units, tail, quote, s, rest);
      UnitsGoOn(units[1..], tail, quote, rest, Closes(rest, quote));
    }
  }

  /** Every text starts with the units of a literal, up to what ends it or keeps it from ending. */
  lemma {:induction false} ReadUnits(s: string, quote: char) returns (units: seq<Unit>, tail: string)
    requires quote != '\\'
    ensures s == UnitsText(units) + tail && AreLiteral(units, quote)
    ensures tail == "" || tail == "\\" || tail[0] == quote || (tail[0] == '\n' && quote != '`')
    decreases |s|
  {
    if s == "" || s == "\\" || s[0] == quote || (s[0] == '\n' && quote != '`') {
      return [], s;
    }
    var first := if s[0] == '\\' then Escaped(s[1]) else One(s[0]);
    var n := |UnitText(first)|;
    var later;
    later, tail := ReadUnits(s[n..], quote);
    units := [first] + later;
    UnitsGrow(first, later, tail, s);
  }

  lemma UnitsGrow(first: Unit, later: seq<Unit>, tail: string, s: string)
    requires |UnitText(first)| <= |s| && s[..|UnitText(first)|] == UnitText(first)
    requires s[|UnitText(first)|..] == UnitsText(later) + tail
    ensures UnitsText([first] + later) + tail == s
  {
    assert ([first] + later)[1..] == later;
    assert s == UnitText(first) + (UnitsText(later) + tail);
  }

  // ----- regular expressions -----

  lemma OpenFurther(seen: seq<Unit>, unit: Unit)
    ensures IsOpen(seen + [unit]) <==> unit == One('[') || (unit != One(']') && IsOpen(seen))
  {
    var longer := seen + [unit];
    assert longer[|seen|] == unit;
    if unit != One('[') && unit != One(']') {
      if IsOpen(seen) {
        var k :| 0 <= k < |seen| && seen[k] == One('[')
                 && forall j | k < j < |seen| :: seen[j] != One('[') && seen[j] != One(']');
        assert longer[k] == One('[');
      }
      if IsOpen(longer) {
        var k :| 0 <= k < |longer| && longer[k] == One('[')
                 && forall j | k < j < |longer| :: longer[j] != One('[') && longer[j] != One(']');
        assert k < |seen| && forall j | k < j < |seen| :: seen[j] == longer[j];
      }
    }
  }

  lemma PatternGoesOn(unit: Unit, seen: seq<Unit>, rest: string)
    requires InPattern(unit, seen)
    ensures RegexBody(UnitText(unit) + rest, IsOpen(seen)) == |UnitText(unit)| + RegexBody(rest, IsOpen(seen + [unit]))
  {
    OpenFurther(seen, unit);
    var s := UnitText(unit) + rest;
    assert s[|UnitText(unit)|..] == rest;
  }

  lemma {:induction false} PatternsGoOn(seen: seq<Unit>, units: seq<Unit>, all: seq<Unit>, tail: string, s: string,
                                        length: nat)
    requires all == seen + units && forall k | 0 <= k < |units| :: InPattern(units[k], seen + units[..k])
    requires s == UnitsText(units) + tail && length == RegexBody(s, IsOpen(seen))
    ensures length == |s| - |tail| + RegexBody(tail, IsOpen(all))
    decreases |units|
  {
    if units == [] {
      assert s == tail && all == seen;
    } else {
      var next, later, rest := seen + [units[0]], units[1..], UnitsText(units[1..]) + tail;
      LaterInPattern(seen, units, next, later, all);
      UnitsByHead(units, tail, s, rest);
      PatternGoesOn(units[0], seen, rest);
      PatternsGoOn(next, later, all, tail, rest, RegexBody(rest, IsOpen(next)));
    }
  }

  lemma LaterInPattern(seen: seq<Unit>, units: seq<Unit>, next: seq<Unit>, later: seq<Unit>, all: seq<Unit>)
    requires units != [] && next == seen + [units[0]] && later == units[1..] && all == seen + units
    requires forall k | 0 <= k < |units| :: InPattern(units[k], seen + units[..k])
    ensures forall k | 0 <= k < |later| :: InPattern(later[k], next + later[..k])
    ensures InPattern(units[0], seen) && all == next + later
  {
    assert seen + units[..0] == seen && InPattern(units[0], seen + units[..0]);
    forall k | 0 <= k < |later| ensures InPattern(later[k], next + later[..k]) {
      OneMoreSeen(seen, units, k);
      assert InPattern(units[k + 1], seen + units[..k + 1]);
    }
  }

  lemma OneMoreSeen<T>(seen: seq<T>, units: seq<T>, k: nat)
    requires k < |units|
    ensures (seen + [units[0]]) + units[1..][..k] == seen + units[..k + 1]
  {
    assert [units[0]] + units[1..][..k] == units[..k + 1];
  }

  /** Every text starts with the units of a regular expression, up to what ends it. */
  lemma {:induction false} ReadPattern(seen: seq<Unit>, s: string) returns (units: seq<Unit>, tail: string)
    ensures s == UnitsText(units) + tail
    ensures forall k | 0 <= k < |units| :: InPattern(units[k], seen + units[..k])
    ensures tail == "" || tail == "\\" || tail[0] == '\n' || (tail[0] == '/' && !IsOpen(seen + units))
    decreases |s|
  {
    if s == "" || s == "\\" || s[0] == '\n' || (s[0] == '/' && !IsOpen(seen)) {
      assert seen + [] == seen;
      return [], s;
    }
    var first := if s[0] == '\\' then Escaped(s[1]) else One(s[0]);
    var n := |UnitText(first)|;
    var later;
    later, tail := ReadPattern(seen + [first], s[n..]);
    units := [first] + later;
    UnitsGrow(first, later, tail, s);
    assert seen + units == seen + [first] + later;
    forall k | 0 <= k < |units| ensures InPattern(units[k], seen + units[..k]) {
      if k == 0 {
        assert seen + units[..0] == seen;
      } else {
        assert seen + units[..k] == seen + [first] + later[..k - 1];
      }
    }
  }

  lemma {:induction false} FlagsGoOn(flags: string, after: string)
    requires (forall c | c in flags :: 'a' <= c <= 'z') && (after == "" || !('a' <= after[0] <= 'z'))
    ensures FlagLength(flags + after) == |flags|
  {
    if flags == "" {
      assert flags + after == after;
    } else {
      assert (flags + after)[1..] == flags[1..] + after && flags[0] in flags;
      assert forall c | c in flags[1..] :: c in flags;
      FlagsGoOn(flags[1..], after);
    }
  }

  lemma {:induction false} ReadFlags(s: string)
    ensures var n := FlagLength(s);
            (forall c | c in s[..n] :: 'a' <= c <= 'z') && (s[n..] == "" || !('a' <= s[n..][0] <= 'z'))
  {
    if s != "" && IsFlag(s[0]) {
      var n := FlagLength(s);
      ReadFlags(s[1..]);
      assert s[..n] == [s[0]] + s[1..][..n - 1] && s[n..] == s[1..][n - 1..];
    }
  }

  // ----- comments -----

  lemma {:induction false} LineGoesOn(body: string, after: string)
    requires '\n' !in body && (after == "" || after[0] == '\n')
    ensures LineLength(body + after) == |body|
  {
    if body == "" {
      assert body + after == after;
    } else {
      assert (body + after)[1..] == body[1..] + after;
      LineGoesOn(body[1..], after);
    }
  }

  lemma {:induction false} BlockGoesOn(body: string, tail: string)
    requires HoldsNoEnd(body) && (tail == "" || "*/" <= tail)
    ensures BlockBody(body + tail) == |body|
  {
    var s := body + tail;
    if body == "" {
      assert s == tail;
      if tail != "" { assert tail[0] == "*/"[0] && tail[1] == "*/"[1]; }
    } else {
      assert s[1..] == body[1..] + tail;
      if |body| == 1 && tail != "" { assert tail[0] == "*/"[0]; }
      BlockGoesOn(body[1..], tail);
    }
  }

  lemma {:induction false} BlockReads(s: string)
    ensures HoldsNoEnd(s[..BlockBody(s)])
  {
    if s != "" && !(|s| > 1 && s[0] == '*' && s[1] == '/') {
      var n := BlockBody(s[1..]);
      BlockReads(s[1..]);
      forall k | 0 <= k < n ensures !(s[k] == '*' && s[k + 1] == '/') {
        if k > 0 { assert s[k] == s[1..][..n][k - 1] && s[k + 1] == s[1..][..n][k]; }
      }
    }
  }

  // ----- what is significant -----

  lemma SqueezedFurther(s: string, c: char)
    ensures Squeezed(s + [c]) == Squeezed(s) + if IsSpace(c) then "" else [c]
  {
    assert (s + [c])[..|s + [c]| - 1] == s;
  }

  lemma EmitFurther(s: string, c: char)
    ensures EmitAll(START, s + [c]) == Emit(EmitAll(START, s), c)
  {
    EmitAllAdds(START, s, [c]);
    assert [c][1..] == "";
  }

  /** The last two characters of a text that are no white space. */
  lemma {:induction false} SignificantIsLast(s: string, seen: string, sig: Significant)
    requires seen == Squeezed(s) && sig == EmitAll(START, s)
    ensures sig.previous == if seen == "" then None else Some(seen[|seen| - 1])
    ensures sig.prior == if |seen| < 2 then None else Some(seen[|seen| - 2])
  {
    if s != "" {
      var shorter, c := s[..|s| - 1], s[|s| - 1];
      assert s == shorter + [c];
      SignificantIsLast(shorter, Squeezed(shorter), EmitAll(START, shorter));
      SqueezedFurther(shorter, c);
      EmitFurther(shorter, c);
    }
  }

  lemma OperandEnds(c: char)
    ensures EndsNoOperand(c) <==> !EndsOperand(c) && c != '>'
  {
    var ends := "_$)]}<>'\"`";
    assert ends[0] == '_' && ends[1] == '$' && ends[2] == ')' && ends[3] == ']' && ends[4] == '}' && ends[5] == '<'
           && ends[6] == '>' && ends[7] == '\'' && ends[8] == '"' && ends[9] == '`';
  }

  /** Where the lexer takes a slash for a regular expression a value is wanted, and nowhere else. */
  lemma RegexWhereValueIsWanted(before: string)
    ensures StartsRegex(EmitAll(START, before)) <==> WantsValue(before)
  {
    var seen, arrow := Squeezed(before), "=>";
    SignificantIsLast(before, seen, EmitAll(START, before));
    if seen != "" {
      var last := seen[|seen| - 1];
      OperandEnds(last);
      assert last == '>' ==> last in "_$)]}<>'\"`";
      if |seen| > 1 { assert EndsWith(seen, arrow) <==> seen[|seen| - 2..] == arrow; }
      if EndsWith(seen, arrow) { assert last == arrow[1] && seen[|seen| - 2] == arrow[0]; }
      if last == '>' && |seen| > 1 && seen[|seen| - 2] == '=' { assert seen[|seen| - 2..] == arrow; }
    }
  }

  // ----- a part is a token -----

  /** The token a text starts with, what it leaves behind, and what is significant after it. */
  predicate IsToken(s: string, sig: Significant, length: nat, mask: string, next: Significant)
    requires s != ""
  {
    var token := TokenAt(s, sig);
    token.length == length && Mask(s, token) == mask && After(s, token, sig) == next
  }

  lemma TokenIsPart(s: string, sig: Significant, token: Token, length: nat, mask: string)
    requires s != "" && token == TokenAt(s, sig) && token.length == length && Mask(s, token) == mask
    ensures IsToken(s, sig, length, mask, EmitAll(sig, mask))
  {
    if token.Code? {
      assert mask == [s[0]] && mask[1..] == "";
    } else {
      MaskOpensNothing(s, sig, token);
    }
  }

  lemma LineIsToken(body: string, after: string, s: string, sig: Significant)
    requires '\n' !in body && (after == "" || after[0] == '\n') && s == "//" + body + after
    ensures IsToken(s, sig, |body| + 2, Blank("//" + body), EmitAll(sig, Blank("//" + body)))
  {
    assert s[1..] == ("/" + body) + after && s[0] == '/' && s[1] == '/';
    LineGoesOn("/" + body, after);
    assert s[..|body| + 2] == "//" + body;
    TokenIsPart(s, sig, Comment(|body| + 2), |body| + 2, Blank("//" + body));
  }

  lemma BlockIsToken(body: string, closing: string, after: string, s: string, sig: Significant)
    requires HoldsNoEnd(body) && (closing == "*/" || (closing == "" && after == ""))
    requires s == "/*" + body + closing + after
    ensures var text := "/*" + body + closing; IsToken(s, sig, |text|, Blank(text), EmitAll(sig, Blank(text)))
  {
    var text := "/*" + body + closing;
    assert s[2..] == body + (closing + after) && s[0] == '/' && s[1] == '*';
    BlockGoesOn(body, closing + after);
    assert s[..|text|] == text;
    TokenIsPart(s, sig, Comment(|text|), |text|, Blank(text));
  }

  lemma QuotedIsToken(quote: char, units: seq<Unit>, after: string, s: string, sig: Significant)
    requires IsQuote(quote) && AreLiteral(units, quote)
    requires s == [quote] + UnitsText(units) + [quote] + after
    ensures var mask := [quote] + Blank(UnitsText(units)) + [quote]; IsToken(s, sig, |mask|, mask, EmitAll(sig, mask))
  {
    var inner := UnitsText(units);
    var n := |inner| + 2;
    assert s[1..] == inner + ([quote] + after);
    UnitsGoOn(units, [quote] + after, quote, s[1..], Closes(s[1..], quote));
    assert s[1..n - 1] == inner;
    TokenIsPart(s, sig, Literal(n), n, [quote] + Blank(inner) + [quote]);
  }

  lemma PatternIsToken(units: seq<Unit>, inner: string, stop: char, flags: string, after: string, s: string,
                       sig: Significant)
    requires StartsRegex(sig) && ArePattern(units) && (stop == '\n' || (stop == '/' && !IsOpen(units)))
    requires (units == [] ==> stop == '\n') && (units != [] ==> units[0] != One('*'))
    requires (forall c | c in flags :: 'a' <= c <= 'z') && (after == "" || !('a' <= after[0] <= 'z'))
    requires inner == UnitsText(units) && s == "/" + inner + [stop] + flags + after
    ensures var text := "/" + inner + [stop] + flags;
            IsToken(s, sig, |text|, "0" + Blank(text[1..]), EmitAll(sig, "0" + Blank(text[1..])))
  {
    var text := "/" + inner + [stop] + flags;
    FirstUnit(units, inner, [stop] + flags + after, s);
    FlagsGoOn(flags, after);
    PatternLength(units, inner, stop, flags, after, s);
    assert s[1..|text|] == text[1..];
    TokenIsPart(s, sig, Regex(|text|), |text|, "0" + Blank(text[1..]));
  }

  lemma PatternLength(units: seq<Unit>, inner: string, stop: char, flags: string, after: string, s: string)
    requires ArePattern(units) && (stop == '\n' || (stop == '/' && !IsOpen(units)))
    requires inner == UnitsText(units) && s == "/" + inner + [stop] + flags + after
    requires FlagLength(flags + after) == |flags|
    ensures RegexLength(s) == |inner| + 2 + |flags|
  {
    var tail := [stop] + flags + after;
    PatternSpelled(inner, stop, flags, after, s);
    StopsHere(tail, IsOpen(units));
    PatternReads(units, tail, s[1..]);
    PatternEnds(s, inner, stop, flags + after, |flags|);
  }

  lemma PatternSpelled(inner: string, stop: char, flags: string, after: string, s: string)
    requires s == "/" + inner + [stop] + flags + after
    ensures s[1..] == inner + ([stop] + flags + after) && s == "/" + inner + [stop] + (flags + after)
  {}

  lemma StopsHere(tail: string, inClass: bool)
    requires tail != "" && (tail[0] == '\n' || (tail[0] == '/' && !inClass))
    ensures RegexBody(tail, inClass) == 0
  {}

  lemma PatternEnds(s: string, inner: string, stop: char, rest: string, flags: nat)
    requires s == "/" + inner + [stop] + rest && RegexBody(s[1..], false) == |inner|
    requires FlagLength(rest) == flags <= |rest|
    ensures RegexLength(s) == |inner| + 2 + flags
  {
    assert s[|inner| + 2..] == rest;
  }

  lemma PatternReads(units: seq<Unit>, tail: string, s: string)
    requires ArePattern(units) && s == UnitsText(units) + tail
    ensures RegexBody(s, false) == |UnitsText(units)| + RegexBody(tail, IsOpen(units))
  {
    forall k | 0 <= k < |units| ensures InPattern(units[k], [] + units[..k]) { assert [] + units[..k] == units[..k]; }
    assert [] + units == units && !IsOpen([]);
    PatternsGoOn([], units, units, tail, s, RegexBody(s, false));
  }

  /** A regular expression starts with neither a slash nor a star, or it would be a comment. */
  lemma FirstUnit(units: seq<Unit>, inner: string, tail: string, s: string)
    requires ArePattern(units) && inner == UnitsText(units) && s == "/" + inner + tail
    requires units == [] ==> tail == "" || tail[0] == '\n' || tail[0] == '\\'
    requires units != [] ==> units[0] != One('*')
    ensures |s| > 1 ==> s[1] != '/' && s[1] != '*'
  {
    if units == [] {
      assert inner == "" && s == "/" + tail;
    } else {
      assert units[..0] == [] && InPattern(units[0], units[..0]) && !IsOpen([]);
      assert s[1] == UnitText(units[0])[0];
    }
  }

  lemma OpenPatternIsToken(units: seq<Unit>, inner: string, dangling: string, s: string, sig: Significant)
    requires StartsRegex(sig) && ArePattern(units) && (units != [] ==> units[0] != One('*'))
    requires (dangling == "" || dangling == "\\") && inner == UnitsText(units) && s == "/" + inner + dangling
    ensures IsToken(s, sig, |s|, "0" + Blank(s[1..]), EmitAll(sig, "0" + Blank(s[1..])))
  {
    assert s[0] == '/' && s[1..] == inner + dangling;
    FirstUnit(units, inner, dangling, s);
    PatternReads(units, dangling, s[1..]);
    TokenIsPart(s, sig, Regex(|s|), |s|, "0" + Blank(s[1..]));
  }

  lemma OpenQuoteIsToken(quote: char, after: string, s: string, sig: Significant)
    requires IsQuote(quote) && NeverCloses(after, quote) && s == [quote] + after
    ensures IsToken(s, sig, 1, [quote], EmitAll(sig, [quote]))
  {
    var units, tail :| IsUnclosed(after, quote, units, tail);
    assert s[1..] == after;
    UnitsGoOn(units, tail, quote, after, Closes(after, quote));
    TokenIsPart(s, sig, Code(1), 1, [quote]);
  }

  lemma PlainIsToken(c: char, before: string, after: string, s: string, sig: Significant)
    requires Stands(Plain(c), before, after) && sig == EmitAll(START, before) && s == [c] + after
    ensures IsToken(s, sig, 1, [c], EmitAll(sig, [c]))
  {
    if c == '/' {
      RegexWhereValueIsWanted(before);
      TokenIsPart(s, sig, Code(1), 1, [c]);
    } else if IsQuote(c) {
      OpenQuoteIsToken(c, after, s, sig);
    } else {
      TokenIsPart(s, sig, Code(1), 1, [c]);
    }
  }

  lemma PartIsToken(part: Part, text: string, mask: string, before: string, after: string, sig: Significant)
    requires Stands(part, before, after) && sig == EmitAll(START, before)
    requires text == PartText(part) && mask == PartMask(part)
    ensures text != "" && IsToken(text + after, sig, |text|, mask, EmitAll(sig, mask))
  {
    RegexWhereValueIsWanted(before);
    match part
    case Line(body) => LineIsToken(body, after, text + after, sig);
    case Block(body) => BlockIsToken(body, "*/", after, text + after, sig);
    case OpenBlock(body) =>
      assert "/*" + body + "" == text;
      BlockIsToken(body, "", after, text + after, sig);
    case Quoted(quote, units) => QuotedIsToken(quote, units, after, text + after, sig);
    case Pattern(units, stop, flags) => PatternIsToken(units, UnitsText(units), stop, flags, after, text + after, sig);
    case OpenPattern(units, dangling) =>
      assert text + after == text;
      OpenPatternIsToken(units, UnitsText(units), dangling, text, sig);
    case Plain(c) => PlainIsToken(c, before, after, text + after, sig);
  }

  /** A source is cleaned to what its parts leave behind. */
  lemma {:induction false} WrittenIsCleaned(parts: seq<Part>, before: string)
    requires IsWritten(parts, before)
    ensures Cleaned(Written(parts), EmitAll(START, before)) == Masks(parts)
  {
    if parts != [] {
      var text, mask, rest := PartText(parts[0]), PartMask(parts[0]), Written(parts[1..]);
      var sig := EmitAll(START, before);
      PartIsToken(parts[0], text, mask, before, rest, sig);
      EmitAllAdds(START, before, mask);
      WrittenIsCleaned(parts[1..], before + mask);
      TokenThenMasks(text, rest, sig, mask, EmitAll(sig, mask), Masks(parts[1..]));
    }
  }

  // ----- every source is written of parts -----

  lemma FirstComment(s: string) returns (part: Part, after: string)
    requires |s| > 1 && s[0] == '/' && (s[1] == '/' || s[1] == '*')
    ensures part.Line? || part.Block? || part.OpenBlock?
    ensures s == PartText(part) + after && forall before :: Stands(part, before, after)
  {
    if s[1] == '/' {
      var n := LineLength(s[2..]);
      ClosedSet.LineHoldsNoNewline(s[2..]);
      part, after := Line(s[2..][..n]), s[2..][n..];
      assert s == "//" + s[2..];
      SplitAt("//", s[2..], n, s);
    } else {
      assert s == "/*" + s[2..];
      part, after := FirstBlock(s[2..], s);
    }
  }

  lemma FirstBlock(inner: string, s: string) returns (part: Part, after: string)
    requires s == "/*" + inner
    ensures part.Block? || part.OpenBlock?
    ensures s == PartText(part) + after && forall before :: Stands(part, before, after)
  {
    var n := BlockBody(inner);
    var body, tail := inner[..n], inner[n..];
    BlockReads(inner);
    BlockEnds(inner);
    SplitAt("/*", inner, n, s);
    if tail != "" {
      part, after := Block(body), tail[2..];
      assert tail[..2] == "*/" && tail == tail[..2] + tail[2..];
      assert s == "/*" + body + ("*/" + after);
    } else {
      part, after := OpenBlock(body), tail;
    }
  }

  lemma SplitAt(head: string, rest: string, n: nat, s: string)
    requires n <= |rest| && s == head + rest
    ensures s == head + rest[..n] + rest[n..]
  {}

  lemma FirstQuote(s: string) returns (part: Part, after: string)
    requires s != "" && IsQuote(s[0])
    ensures part.Quoted? || part == Plain(s[0])
    ensures s == PartText(part) + after && forall before :: Stands(part, before, after)
  {
    var units, tail := ReadUnits(s[1..], s[0]);
    var inner := UnitsText(units);
    assert s == [s[0]] + (inner + tail);
    if tail != "" && tail[0] == s[0] {
      part, after := Quoted(s[0], units), tail[1..];
      assert tail == [s[0]] + after;
      assert s == [s[0]] + inner + [s[0]] + after;
    } else {
      part, after := Plain(s[0]), s[1..];
      assert IsUnclosed(after, s[0], units, tail);
    }
  }

  lemma FirstPattern(s: string, before: string) returns (part: Part, after: string)
    requires s != "" && s[0] == '/' && (|s| > 1 ==> s[1] != '/' && s[1] != '*') && WantsValue(before)
    ensures s == PartText(part) + after && Stands(part, before, after)
  {
    var units, tail := ReadPattern([], s[1..]);
    var inner := UnitsText(units);
    assert s == "/" + (inner + tail) && [] + units == units;
    forall k | 0 <= k < |units| ensures InPattern(units[k], units[..k]) { assert [] + units[..k] == units[..k]; }
    if units != [] { assert s[1] == UnitText(units[0])[0]; }
    if tail == "" || tail == "\\" {
      part, after := OpenPattern(units, tail), "";
      assert PartText(part) + "" == s;
    } else {
      var n := FlagLength(tail[1..]);
      ReadFlags(tail[1..]);
      part, after := Pattern(units, tail[0], tail[1..][..n]), tail[1..][n..];
      if units == [] { assert s[1] == tail[0]; }
      PatternParts(s, inner, tail, n);
    }
  }

  lemma PatternParts(s: string, inner: string, tail: string, n: nat)
    requires tail != "" && n <= |tail[1..]| && s == "/" + (inner + tail)
    ensures s == "/" + inner + [tail[0]] + tail[1..][..n] + tail[1..][n..]
  {
    assert tail == [tail[0]] + (tail[1..][..n] + tail[1..][n..]);
  }

  lemma FirstPart(s: string, before: string) returns (part: Part, after: string)
    requires s != ""
    ensures s == PartText(part) + after && |after| < |s| && Stands(part, before, after)
  {
    if |s| > 1 && s[0] == '/' && (s[1] == '/' || s[1] == '*') {
      part, after := FirstComment(s);
    } else if s[0] == '/' && WantsValue(before) {
      part, after := FirstPattern(s, before);
    } else if IsQuote(s[0]) {
      part, after := FirstQuote(s);
    } else {
      part, after := Plain(s[0]), s[1..];
    }
  }

  /** Every text is written of parts that stand where they are, whatever came before it. */
  lemma {:induction false} EveryTextIsWritten(s: string, before: string) returns (parts: seq<Part>)
    ensures Written(parts) == s && IsWritten(parts, before)
    decreases |s|
  {
    if s == "" { return []; }
    var part, after := FirstPart(s, before);
    var later := EveryTextIsWritten(after, before + PartMask(part));
    parts := [part] + later;
    assert parts[1..] == later;
  }

  /** A text has been cleaned when it is what the parts of the source leave behind, and by no other text. */
  lemma CleanedIsExact(s: string, cleaned: string)
    ensures cleaned == Cleaned(s, START) <==>
            exists parts :: Written(parts) == s && IsWritten(parts, "") && Masks(parts) == cleaned
  {
    var parts := EveryTextIsWritten(s, "");
    WrittenIsCleaned(parts, "");
    forall others | Written(others) == s && IsWritten(others, "") ensures Masks(others) == Cleaned(s, START) {
      WrittenIsCleaned(others, "");
    }
  }

  lemma TokenThenMasks(text: string, rest: string, sig: Significant, mask: string, next: Significant, masks: string)
    requires text != "" && IsToken(text + rest, sig, |text|, mask, next) && Cleaned(rest, next) == masks
    ensures Cleaned(text + rest, sig) == mask + masks
  {
    assert (text + rest)[|text|..] == rest;
  }
}
