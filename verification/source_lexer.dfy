/** The length-preserving lexer of the route gate: comments, string bodies and regular expressions are blanked,
    everything else stays where it was. The functions read a source from a token boundary on; the loops at the end are
    the lexer as it runs. */
module SourceLexer {
  import opened Options
  import opened Text

  /** The last two significant characters; the earlier one matters only for `=>`. */
  datatype Significant = Significant(previous: Option<char>, prior: Option<char>)

  const START := Significant(None, None)

  function Emit(sig: Significant, c: char): Significant {
    if IsSpace(c) then sig else Significant(Some(c), sig.previous)
  }

  predicate IsQuote(c: char) {
    c == '\'' || c == '"' || c == '`'
  }

  /** Decided by the last two significant characters: nothing, an arrow, or anything that ends no operand. */
  predicate StartsRegex(sig: Significant) {
    if sig.previous == None then true
    else if sig.previous == Some('>') then sig.prior == Some('=')
    else !EndsOperand(sig.previous.value)
  }

  predicate EndsOperand(c: char) {
    c == ')' || c == ']' || c == '}' || c == '$' || c == '<' || IsQuote(c) || IsWord(c)
  }

  // ----- the lengths of what can start at a boundary -----

  function LineLength(s: string): (n: nat)
    ensures n <= |s|
  {
    if s == "" || s[0] == '\n' then 0 else 1 + LineLength(s[1..])
  }

  /** How far the first star-slash is, or the length of the rest. */
  function BlockBody(s: string): (n: nat)
    ensures n <= |s|
  {
    if s == "" then 0
    else if |s| > 1 && s[0] == '*' && s[1] == '/' then 0
    else 1 + BlockBody(s[1..])
  }

  function BlockLength(s: string): (n: nat)
    requires |s| >= 2
    ensures 2 <= n <= |s|
  {
    var end := 2 + BlockBody(s[2..]) + 2;
    if end < |s| then end else |s|
  }

  /** How far the body of a regular expression runs; an escape at the very end runs past it. */
  function RegexBody(s: string, inClass: bool): (n: nat)
    ensures n <= |s| + 1
  {
    if s == "" then 0
    else if s[0] == '\\' then 2 + (if |s| >= 2 then RegexBody(s[2..], inClass) else 0)
    else if s[0] == '\n' || (s[0] == '/' && !inClass) then 0
    else 1 + RegexBody(s[1..], if s[0] == '[' then true else if s[0] == ']' then false else inClass)
  }

  predicate IsFlag(c: char) {
    'a' <= c <= 'z'
  }

  function FlagLength(s: string): (n: nat)
    ensures n <= |s|
  {
    if s != "" && IsFlag(s[0]) then 1 + FlagLength(s[1..]) else 0
  }

  function RegexLength(s: string): (n: nat)
    requires s != ""
    ensures 1 <= n <= |s|
  {
    var body := 1 + RegexBody(s[1..], false) + 1;
    if body < |s| then body + FlagLength(s[body..]) else |s|
  }

  /** How far after its opening quote a literal closes, if it does. A newline ends the search unless the quote is a
      backtick. */
  function Closes(s: string, quote: char): (n: Option<nat>)
    ensures n.Some? ==> 1 <= n.value <= |s| && s[n.value - 1] == quote
  {
    if s == "" then None
    else if s[0] == quote then Some(1)
    else if s[0] == '\\' then (if |s| >= 2 then Further(2, Closes(s[2..], quote)) else None)
    else if quote != '`' && s[0] == '\n' then None
    else Further(1, Closes(s[1..], quote))
  }

  function Further(step: nat, n: Option<nat>): Option<nat> {
    if n.Some? then Some(step + n.value) else None
  }

  // ----- tokens -----

  datatype Token = Comment(length: nat) | Regex(length: nat) | Literal(length: nat) | Code(length: nat)

  function TokenAt(s: string, sig: Significant): (token: Token)
    requires s != ""
    ensures 1 <= token.length <= |s|
    ensures token.Literal? ==> IsQuote(s[0]) && token.length >= 2 && s[token.length - 1] == s[0]
    ensures token.Code? ==> token.length == 1
  {
    if s[0] == '/' && |s| > 1 && s[1] == '/' then Comment(1 + LineLength(s[1..]))
    else if s[0] == '/' && |s| > 1 && s[1] == '*' then Comment(BlockLength(s))
    else if s[0] == '/' && StartsRegex(sig) then Regex(RegexLength(s))
    else if IsQuote(s[0]) && Closes(s[1..], s[0]).Some? then Literal(1 + Closes(s[1..], s[0]).value)
    else Code(1)
  }

  function Blank(span: string): (blanked: string)
    ensures |blanked| == |span|
    ensures forall k | 0 <= k < |span| :: blanked[k] == if span[k] == '\n' then '\n' else ' '
  {
    seq(|span|, k requires 0 <= k < |span| => if span[k] == '\n' then '\n' else ' ')
  }

  /** What a token leaves behind. */
  function Mask(s: string, token: Token): (mask: string)
    requires token.length <= |s| && token.length >= 1 && (token.Literal? ==> token.length >= 2)
    ensures |mask| == token.length
  {
    match token
    case Comment(n) => Blank(s[..n])
    case Regex(n) => "0" + Blank(s[1..n])
    case Literal(n) => [s[0]] + Blank(s[1..n - 1]) + [s[0]]
    case Code(n) => s[..n]
  }

  function After(s: string, token: Token, sig: Significant): Significant
    requires s != ""
  {
    match token
    case Comment(_) => sig
    case Regex(_) => Emit(sig, '0')
    case Literal(_) => Emit(Emit(sig, s[0]), s[0])
    case Code(_) => Emit(sig, s[0])
  }

  function Cleaned(s: string, sig: Significant): (out: string)
    ensures |out| == |s|
    decreases |s|
  {
    if s == "" then ""
    else var token := TokenAt(s, sig); Mask(s, token) + Cleaned(s[token.length..], After(s, token, sig))
  }

  // ----- offsets -----

  /** No character moves: each stays, or becomes a space (never from or into a newline), or, at the start of a
      regular expression, a zero. */
  lemma {:induction false} CleanedKeepsPlace(s: string, sig: Significant, k: nat)
    requires k < |s|
    ensures var c := Cleaned(s, sig)[k];
            && (c == s[k] || (c == ' ' && s[k] != '\n') || (c == '0' && s[k] == '/'))
            && (c == '\n' <==> s[k] == '\n')
    decreases |s|
  {
    var token := TokenAt(s, sig);
    if k >= token.length {
      CleanedKeepsPlace(s[token.length..], After(s, token, sig), k - token.length);
    } else {
      MaskKeepsPlace(s, token, k);
      assert Cleaned(s, sig)[k] == Mask(s, token)[k];
    }
  }

  lemma MaskKeepsPlace(s: string, token: Token, k: nat)
    requires s != "" && k < token.length <= |s|
    requires token.Literal? ==> token.length >= 2 && s[token.length - 1] == s[0]
    requires token.Regex? ==> s[0] == '/'
    requires token.Code? ==> token.length == 1
    ensures var c := Mask(s, token)[k];
            && (c == s[k] || (c == ' ' && s[k] != '\n') || (c == '0' && s[k] == '/'))
            && (c == '\n' <==> s[k] == '\n')
  {
    if !token.Code? { MaskCharacter(s, token, k, Mask(s, token)); }
  }

  /** What a blanked token leaves at each of its offsets. */
  lemma MaskCharacter(s: string, token: Token, k: nat, mask: string)
    requires s != "" && k < token.length <= |s| && !token.Code? && (token.Literal? ==> token.length >= 2)
    requires mask == Mask(s, token)
    ensures mask[k] ==
            if token.Regex? && k == 0 then '0'
            else if token.Literal? && (k == 0 || k == token.length - 1) then s[0]
            else if s[k] == '\n' then '\n' else ' '
  {
    match token
    case Comment(n) => BlankAt(s, 0, n, k);
    case Regex(n) => if k > 0 { BodyAt("0", Blank(s[1..n]), "", k); BlankAt(s, 1, n, k); }
    case Literal(n) => if 0 < k < n - 1 { BodyAt([s[0]], Blank(s[1..n - 1]), [s[0]], k); BlankAt(s, 1, n - 1, k); }
  }

  lemma BodyAt(head: string, body: string, tail: string, k: nat)
    requires |head| == 1 <= k <= |body|
    ensures (head + body + tail)[k] == (head + body)[k] == body[k - 1]
  {}

  lemma BlankAt(s: string, from: nat, to: nat, k: nat)
    requires from <= k < to <= |s|
    ensures Blank(s[from..to])[k - from] == if s[k] == '\n' then '\n' else ' '
  {
    assert s[from..to][k - from] == s[k];
  }

  // ----- cleaning twice -----

  predicate IsBlank(c: char) {
    c == ' ' || c == '\n'
  }

  lemma BlankIsCode(s: string, sig: Significant)
    requires s != "" && IsBlank(s[0])
    ensures TokenAt(s, sig) == Code(1) && Emit(sig, s[0]) == sig
  {}

  lemma CodeStep(s: string, sig: Significant)
    requires s != "" && TokenAt(s, sig).Code?
    ensures Cleaned(s, sig) == [s[0]] + Cleaned(s[1..], Emit(sig, s[0]))
  {}

  lemma Regroup(s: string, n: nat, rest: string)
    requires 0 < n <= |s|
    ensures s[1..][n - 1..] == s[n..] && [s[0]] + (s[1..][..n - 1] + rest) == s[..n] + rest
  {}

  lemma {:induction false} BlanksPassThrough(s: string, n: nat, sig: Significant)
    requires n <= |s| && forall k | 0 <= k < n :: IsBlank(s[k])
    ensures Cleaned(s, sig) == s[..n] + Cleaned(s[n..], sig)
  {
    if n == 0 {
      assert s[n..] == s;
    } else {
      BlankIsCode(s, sig);
      CodeStep(s, sig);
      BlanksPassThrough(s[1..], n - 1, sig);
      Regroup(s, n, Cleaned(s[n..], sig));
    }
  }

  /** Scanning on from inside a span for a close that never comes reaches the end of the span, or a newline. */
  lemma {:induction false} OpenThrough(span: string, rest: string, quote: char)
    requires IsQuote(quote) && Closes(span + rest, quote) == None
    requires span != "" && span[|span| - 1] == '\\' ==> rest == "" || rest[0] == '\n'
    ensures Closes(rest, quote) == None || (quote != '`' && '\n' in span)
    decreases |span|
  {
    if span == "" {
      assert span + rest == rest;
    } else if span[0] == '\\' && |span| == 1 {
      if rest != "" {
        assert (span + rest)[2..] == rest[1..];
      }
    } else if span[0] == '\\' {
      assert (span + rest)[2..] == span[2..] + rest;
      OpenThrough(span[2..], rest, quote);
    } else if !(quote != '`' && span[0] == '\n') {
      assert (span + rest)[1..] == span[1..] + rest;
      OpenThrough(span[1..], rest, quote);
    }
  }

  /** A masked span without the quote never closes anything. */
  lemma {:induction false} MaskStaysOpen(mask: string, rest: string, quote: char)
    requires quote !in mask && '\\' !in mask
    requires Closes(rest, quote) == None || (quote != '`' && '\n' in mask)
    ensures Closes(mask + rest, quote) == None
  {
    if mask == "" {
      assert mask + rest == rest;
    } else {
      assert (mask + rest)[1..] == mask[1..] + rest;
      if !(quote != '`' && mask[0] == '\n') {
        MaskStaysOpen(mask[1..], rest, quote);
      }
    }
  }

  lemma {:induction false} LineEnds(s: string)
    ensures LineLength(s) < |s| ==> s[LineLength(s)] == '\n'
  {
    if s != "" && s[0] != '\n' { LineEnds(s[1..]); }
  }

  lemma {:induction false} BlockEnds(s: string)
    ensures var n := BlockBody(s); n < |s| ==> n + 1 < |s| && s[n] == '*' && s[n + 1] == '/'
  {
    if s != "" && !(|s| > 1 && s[0] == '*' && s[1] == '/') { BlockEnds(s[1..]); }
  }

  lemma {:induction false} RegexEnds(s: string, inClass: bool)
    ensures var n := RegexBody(s, inClass); n < |s| ==> s[n] == '/' || s[n] == '\n'
  {
    if s == "" {
    } else if s[0] == '\\' {
      if |s| >= 2 { RegexEnds(s[2..], inClass); }
    } else if !(s[0] == '\n' || (s[0] == '/' && !inClass)) {
      RegexEnds(s[1..], if s[0] == '[' then true else if s[0] == ']' then false else inClass);
    }
  }

  lemma {:induction false} FlagsEnd(s: string)
    ensures var n := FlagLength(s); n > 0 ==> IsFlag(s[n - 1])
  {
    if s != "" && IsFlag(s[0]) { FlagsEnd(s[1..]); }
  }

  /** A blanked token that ends in a backslash is a line comment, so a newline follows, unless the source ends. */
  lemma TokenEnd(s: string, sig: Significant)
    requires s != ""
    ensures var token := TokenAt(s, sig);
            !token.Code? && token.length < |s| && s[token.length - 1] == '\\' ==> s[token.length] == '\n'
  {
    var token := TokenAt(s, sig);
    if token.Comment? && s[1] == '/' && token.length < |s| {
      LineEnds(s[1..]);
      assert s[token.length] == s[1..][token.length - 1] == '\n';
    } else if token.Comment? && token.length < |s| {
      var body := BlockBody(s[2..]);
      BlockEnds(s[2..]);
      assert s[2..][body + 1] == '/' && s[body + 3] == '/';
    } else if token.Regex? && token.length < |s| {
      var body := RegexBody(s[1..], false);
      RegexEnds(s[1..], false);
      assert s[1..][body] == s[body + 1];
      var flags := FlagLength(s[body + 2..]);
      FlagsEnd(s[body + 2..]);
      if flags > 0 { assert IsFlag(s[body + 2..][flags - 1]); }
    }
  }

  lemma MaskOf(s: string, token: Token, quote: char)
    requires s != "" && 1 <= token.length <= |s| && !token.Code? && IsQuote(quote)
    requires token.Literal? ==> token.length >= 2 && IsQuote(s[0]) && s[0] != quote && s[token.length - 1] == s[0]
    requires token.Regex? ==> s[0] == '/'
    ensures quote !in Mask(s, token) && '\\' !in Mask(s, token)
    ensures '\n' in s[..token.length] ==> '\n' in Mask(s, token)
    ensures '\n' in s[1..token.length] ==> '\n' in Mask(s, token)[1..]
  {
    var mask := Mask(s, token);
    forall k | 0 <= k < token.length ensures IsMasked(mask[k], s[k], quote) {
      MaskAt(s, token, quote, k);
    }
    SpanMasked(s[..token.length], mask, quote);
  }

  /** What stands for a masked character: neither the quote nor a backslash, and a newline for a newline. */
  predicate IsMasked(c: char, was: char, quote: char) {
    c != quote && c != '\\' && (was == '\n' ==> c == '\n')
  }

  lemma MaskAt(s: string, token: Token, quote: char, k: nat)
    requires s != "" && 1 <= token.length <= |s| && !token.Code? && IsQuote(quote) && k < token.length
    requires token.Literal? ==> token.length >= 2 && IsQuote(s[0]) && s[0] != quote && s[token.length - 1] == s[0]
    requires token.Regex? ==> s[0] == '/'
    ensures IsMasked(Mask(s, token)[k], s[k], quote)
  {
    MaskCharacter(s, token, k, Mask(s, token));
  }

  lemma SpanMasked(span: string, mask: string, quote: char)
    requires |span| == |mask| >= 1 && forall k | 0 <= k < |span| :: IsMasked(mask[k], span[k], quote)
    ensures quote !in mask && '\\' !in mask
    ensures '\n' in span ==> '\n' in mask
    ensures '\n' in span[1..] ==> '\n' in mask[1..]
  {
    if '\n' in span[1..] {
      var k :| 0 <= k < |span| - 1 && span[1..][k] == '\n';
      assert IsMasked(mask[k + 1], span[k + 1], quote) && mask[1..][k] == mask[k + 1];
    }
  }

  /** What never closed in the source does not close in the cleaned text either, from a boundary on. */
  lemma {:induction false} StaysOpen(s: string, sig: Significant, quote: char)
    requires IsQuote(quote) && Closes(s, quote) == None
    ensures Closes(Cleaned(s, sig), quote) == None
    decreases |s|, 1
  {
    if s != "" {
      var token := TokenAt(s, sig);
      var rest, next := s[token.length..], After(s, token, sig);
      if token.Code? {
        var out := Cleaned(s, sig);
        assert out[0] == s[0] && out[1..] == Cleaned(rest, next);
        if s[0] == '\\' {
          if |s| >= 2 {
            assert s[2..] == rest[1..];
            StaysOpenEscaped(rest, next, quote);
            assert out[2..] == Cleaned(rest, next)[1..];
          }
        } else if !(quote != '`' && s[0] == '\n') {
          StaysOpen(rest, next, quote);
        }
      } else {
        assert s == s[..token.length] + rest;
        SpanStaysOpen(s, sig, quote, 0);
      }
    }
  }

  /** The same when the first character is escaped. */
  lemma {:induction false} StaysOpenEscaped(s: string, sig: Significant, quote: char)
    requires s != "" && IsQuote(quote) && Closes(s[1..], quote) == None
    ensures Closes(Cleaned(s, sig)[1..], quote) == None
    decreases |s|, 1
  {
    var token := TokenAt(s, sig);
    if token.Code? {
      StaysOpen(s[1..], After(s, token, sig), quote);
      assert Cleaned(s, sig)[1..] == Cleaned(s[1..], After(s, token, sig));
    } else {
      SpanStaysOpen(s, sig, quote, 1);
    }
  }

  /** A scan that enters a blanked token at its first or second character leaves it still open. */
  lemma {:induction false} SpanStaysOpen(s: string, sig: Significant, quote: char, from: nat)
    requires s != "" && IsQuote(quote) && !TokenAt(s, sig).Code? && from <= 1
    requires Closes(s[from..], quote) == None
    ensures Closes(Cleaned(s, sig)[from..], quote) == None
    decreases |s|, 0
  {
    var token := TokenAt(s, sig);
    var rest, next := s[token.length..], After(s, token, sig);
    var out := Cleaned(rest, next);
    StaysOpenIfOpen(rest, next, quote, out);
    MaskedTokenStaysOpen(s, sig, quote, from, token, rest, out);
    CleanedParts(s, sig, from);
  }

  lemma MaskedTokenStaysOpen(s: string, sig: Significant, quote: char, from: nat, token: Token, rest: string,
                             out: string)
    requires s != "" && IsQuote(quote) && !TokenAt(s, sig).Code? && from <= 1
    requires Closes(s[from..], quote) == None && token == TokenAt(s, sig) && rest == s[token.length..]
    requires |out| == |rest| && (Closes(rest, quote) == None ==> Closes(out, quote) == None)
    ensures Closes(Mask(s, token)[from..] + out, quote) == None
  {
    SpanFacts(s, sig, quote, from);
    SourceParts(s, token.length, from);
    MaskedSpan(s[from..token.length], Mask(s, token)[from..], rest, out, quote);
  }

  lemma {:induction false} StaysOpenIfOpen(s: string, sig: Significant, quote: char, out: string)
    requires IsQuote(quote) && out == Cleaned(s, sig)
    ensures Closes(s, quote) == None ==> Closes(out, quote) == None
    decreases |s|, 2
  {
    if Closes(s, quote) == None { StaysOpen(s, sig, quote); }
  }

  lemma MaskedSpan(span: string, mask: string, rest: string, out: string, quote: char)
    requires IsQuote(quote) && Closes(span + rest, quote) == None
    requires quote !in mask && '\\' !in mask && ('\n' in span ==> '\n' in mask)
    requires rest != "" && span != "" && span[|span| - 1] == '\\' ==> rest[0] == '\n'
    requires if rest == "" then out == "" else Closes(rest, quote) == None ==> Closes(out, quote) == None
    ensures Closes(mask + out, quote) == None
  {
    if rest != "" { OpenThrough(span, rest, quote); }
    MaskStaysOpen(mask, out, quote);
  }

  lemma SourceParts(s: string, n: nat, from: nat)
    requires from <= n <= |s|
    ensures s[from..] == s[from..n] + s[n..]
  {}

  lemma CleanedParts(s: string, sig: Significant, from: nat)
    requires s != "" && from <= 1
    ensures var token := TokenAt(s, sig);
            Cleaned(s, sig)[from..] == Mask(s, token)[from..] + Cleaned(s[token.length..], After(s, token, sig))
  {
    var token := TokenAt(s, sig);
    DropFromConcat(Mask(s, token), Cleaned(s[token.length..], After(s, token, sig)), from);
  }

  lemma DropFromConcat(a: string, b: string, from: nat)
    requires from <= |a|
    ensures (a + b)[from..] == a[from..] + b
  {}

  /** A blanked token that does not close the quote holds neither the quote nor a backslash once masked, keeps its
      newlines, and ends in a backslash only before a newline or the end of the source. */
  lemma SpanFacts(s: string, sig: Significant, quote: char, from: nat)
    requires s != "" && IsQuote(quote) && !TokenAt(s, sig).Code? && from <= 1
    requires Closes(s[from..], quote) == None
    ensures var token := TokenAt(s, sig);
            var mask := Mask(s, token)[from..];
            && quote !in mask && '\\' !in mask
            && ('\n' in s[from..token.length] ==> '\n' in mask)
            && (token.length < |s| && from < token.length && s[from..token.length][token.length - from - 1] == '\\' ==>
                  s[token.length] == '\n')
  {
    var token := TokenAt(s, sig);
    if token.Literal? { OtherQuote(s, sig, quote, from); }
    MaskOf(s, token, quote);
    TokenEnd(s, sig);
    assert Mask(s, token)[0..] == Mask(s, token) && s[0..token.length] == s[..token.length];
  }

  /** A literal that does close is not of the quote that never closes. */
  lemma OtherQuote(s: string, sig: Significant, quote: char, from: nat)
    requires s != "" && from <= 1 && IsQuote(quote) && Closes(s[from..], quote) == None && TokenAt(s, sig).Literal?
    ensures s[0] != quote
  {}

  /** A blanked body closes exactly where the original did. */
  lemma {:induction false} BlankedBodyCloses(s: string, n: nat, quote: char)
    requires n < |s| && s[n] == quote && IsQuote(quote)
    requires forall k | 0 <= k < n :: s[k] == ' ' || (quote == '`' && s[k] == '\n')
    ensures Closes(s, quote) == Some(n + 1)
  {
    if n > 0 { BlankedBodyCloses(s[1..], n - 1, quote); }
  }

  /** A literal with a blanked body. */
  ghost predicate BlankLiteral(out: string, n: nat) {
    && 2 <= n <= |out| && IsQuote(out[0]) && out[n - 1] == out[0]
    && forall k | 1 <= k < n - 1 :: out[k] == ' ' || (out[0] == '`' && out[k] == '\n')
  }

  /** A literal in single or double quotes stays on its line; a template may cross lines. */
  predicate LiteralOnOneLine(s: string, token: Token)
    requires s != "" && 1 <= token.length <= |s|
  {
    token.Literal? && s[0] != '`' ==> forall k | 1 <= k < token.length - 1 :: s[k] != '\n'
  }

  /** Every literal in single or double quotes stays on its line. */
  predicate LiteralsOnOneLine(s: string, sig: Significant)
    decreases |s|
  {
    if s == "" then true
    else
      var token := TokenAt(s, sig);
      LiteralOnOneLine(s, token) && LiteralsOnOneLine(s[token.length..], After(s, token, sig))
  }

  lemma MaskShape(s: string, sig: Significant)
    requires s != "" && !TokenAt(s, sig).Code?
    ensures var token, out := TokenAt(s, sig), Cleaned(s, sig);
            && out[token.length..] == Cleaned(s[token.length..], After(s, token, sig))
            && (token.Comment? ==> forall k | 0 <= k < token.length :: IsBlank(out[k]))
            && (token.Regex? ==> out[0] == '0' && forall k | 1 <= k < token.length :: IsBlank(out[k]))
  {
    var token := TokenAt(s, sig);
    var mask := Mask(s, token);
    forall k | 0 <= k < token.length ensures Cleaned(s, sig)[k] == mask[k] {}
  }

  lemma LiteralShape(s: string, sig: Significant)
    requires s != "" && TokenAt(s, sig).Literal? && LiteralOnOneLine(s, TokenAt(s, sig))
    ensures var token, out := TokenAt(s, sig), Cleaned(s, sig);
            && out[token.length..] == Cleaned(s[token.length..], After(s, token, sig))
            && out[0] == s[0] && BlankLiteral(out, token.length)
  {
    var n := TokenAt(s, sig).length;
    MaskedLiteral(s, n);
    StartsBlank(Mask(s, Literal(n)), Cleaned(s[n..], After(s, Literal(n), sig)), n);
  }

  lemma MaskedLiteral(s: string, n: nat)
    requires 2 <= n <= |s| && IsQuote(s[0]) && s[n - 1] == s[0]
    requires s[0] != '`' ==> forall k | 1 <= k < n - 1 :: s[k] != '\n'
    ensures BlankLiteral(Mask(s, Literal(n)), n)
  {
    var mask := Mask(s, Literal(n));
    forall k | 1 <= k < n - 1 ensures mask[k] == ' ' || (mask[0] == '`' && mask[k] == '\n') {
      assert mask[k] == Blank(s[1..n - 1])[k - 1];
    }
  }

  lemma StartsBlank(mask: string, rest: string, n: nat)
    requires |mask| == n && BlankLiteral(mask, n)
    ensures BlankLiteral(mask + rest, n) && (mask + rest)[n..] == rest && (mask + rest)[0] == mask[0]
  {}

  // ----- the literals of a cleaned source -----

  /** A literal's first offset and the offset after it. */
  datatype Span = Span(start: nat, end: nat)

  /** What a token contributes to the spans found. */
  function SpanOf(token: Token, at: nat): seq<Span> {
    if token.Literal? then [Span(at, at + token.length)] else []
  }

  /** The literals the lexer blanked, at their offsets. */
  function Blanked(s: string, sig: Significant, at: nat): seq<Span>
    decreases |s|
  {
    if s == "" then []
    else
      var token := TokenAt(s, sig);
      SpanOf(token, at) + Blanked(s[token.length..], After(s, token, sig), at + token.length)
  }

  /** The literals found by looking at a text quote by quote. */
  function Found(s: string, at: nat): seq<Span>
    decreases |s|
  {
    if s == "" then []
    else if IsQuote(s[0]) && Closes(s[1..], s[0]).Some? then
      var n := 1 + Closes(s[1..], s[0]).value;
      [Span(at, at + n)] + Found(s[n..], at + n)
    else Found(s[1..], at + 1)
  }

  /** No quote is among the first `n` characters. */
  ghost predicate NoQuoteIn(s: string, n: nat)
    requires n <= |s|
  {
    forall k | 0 <= k < n :: !IsQuote(s[k])
  }

  lemma {:induction false} NothingFoundIn(s: string, n: nat, at: nat, rest: string, found: seq<Span>, later: seq<Span>)
    requires n <= |s| && rest == s[n..] && NoQuoteIn(s, n)
    requires found == Found(s, at) && later == Found(rest, at + n)
    ensures found == later
  {
    if n == 0 {
      assert rest == s;
    } else {
      assert rest == s[1..][n - 1..];
      NothingFoundIn(s[1..], n - 1, at + 1, rest, found, later);
    }
  }

  lemma LiteralFound(out: string, n: nat, at: nat, rest: string, found: seq<Span>, later: seq<Span>)
    requires BlankLiteral(out, n) && rest == out[n..] && found == Found(out, at) && later == Found(rest, at + n)
    ensures found == [Span(at, at + n)] + later
  {
    BlankedBodyCloses(out[1..], n - 2, out[0]);
  }

  lemma CodeFound(s: string, sig: Significant, at: nat)
    requires s != "" && TokenAt(s, sig).Code?
    ensures Found(Cleaned(s, sig), at) == Found(Cleaned(s[1..], Emit(sig, s[0])), at + 1)
  {
    CodeStep(s, sig);
    if IsQuote(s[0]) {
      StaysOpen(s[1..], Emit(sig, s[0]), s[0]);
    }
    assert Cleaned(s, sig)[1..] == Cleaned(s[1..], Emit(sig, s[0]));
  }

  lemma MaskHoldsNoQuote(s: string, sig: Significant)
    requires s != "" && (TokenAt(s, sig).Comment? || TokenAt(s, sig).Regex?)
    ensures NoQuoteIn(Cleaned(s, sig), TokenAt(s, sig).length)
  {
    MaskShape(s, sig);
    BlanksAreNoQuotes(Cleaned(s, sig), TokenAt(s, sig).length, TokenAt(s, sig).Regex?);
  }

  lemma BlanksAreNoQuotes(out: string, n: nat, zero: bool)
    requires n <= |out| && (zero && n > 0 ==> out[0] == '0')
    requires forall k | (if zero then 1 else 0) <= k < n :: IsBlank(out[k])
    ensures NoQuoteIn(out, n)
  {}

  /** What is left of a source after its first token. */
  predicate Remains(s: string, sig: Significant, at: nat, token: Token, rest: string, next: Significant, further: nat) {
    s != "" && token == TokenAt(s, sig) && rest == s[token.length..] && next == After(s, token, sig)
        && further == at + token.length
  }

  lemma FoundGoesOn(s: string, sig: Significant, at: nat, token: Token, rest: string, next: Significant, further: nat,
                    found: seq<Span>, later: seq<Span>)
    requires Remains(s, sig, at, token, rest, next, further) && LiteralOnOneLine(s, token)
    requires found == Found(Cleaned(s, sig), at) && later == Found(Cleaned(rest, next), further)
    ensures found == SpanOf(token, at) + later
  {
    if token.Code? {
      CodeGoesOn(s, sig, at, rest, next, further, found, later);
    } else {
      var out := Cleaned(s, sig);
      CleanedRest(s, sig, token, rest, next, out);
      MaskIsFound(s, sig, token, out);
      MaskGoesOn(out, token, at, Cleaned(rest, next), further, found, later);
    }
  }

  lemma CodeGoesOn(s: string, sig: Significant, at: nat, rest: string, next: Significant, further: nat,
                   found: seq<Span>, later: seq<Span>)
    requires s != "" && TokenAt(s, sig).Code? && rest == s[1..] && next == Emit(sig, s[0]) && further == at + 1
    requires found == Found(Cleaned(s, sig), at) && later == Found(Cleaned(rest, next), further)
    ensures found == later
  {
    CodeFound(s, sig, at);
  }

  lemma MaskIsFound(s: string, sig: Significant, token: Token, out: string)
    requires s != "" && token == TokenAt(s, sig) && !token.Code? && LiteralOnOneLine(s, token) && out == Cleaned(s, sig)
    ensures if token.Literal? then BlankLiteral(out, token.length) else NoQuoteIn(out, token.length)
  {
    if token.Literal? { LiteralShape(s, sig); } else { MaskHoldsNoQuote(s, sig); }
  }

  lemma MaskGoesOn(out: string, token: Token, at: nat, after: string, further: nat, found: seq<Span>, later: seq<Span>)
    requires 1 <= token.length <= |out| && after == out[token.length..] && further == at + token.length
    requires if token.Literal? then BlankLiteral(out, token.length) else NoQuoteIn(out, token.length)
    requires found == Found(out, at) && later == Found(after, further)
    ensures found == SpanOf(token, at) + later
  {
    SpanIsFound(out, token.length, token.Literal?, at, after, found, later, SpanOf(token, at));
  }

  lemma SpanIsFound(out: string, n: nat, literal: bool, at: nat, after: string, found: seq<Span>, later: seq<Span>,
                    here: seq<Span>)
    requires 1 <= n <= |out| && after == out[n..]
    requires if literal then BlankLiteral(out, n) else NoQuoteIn(out, n)
    requires found == Found(out, at) && later == Found(after, at + n)
    requires here == if literal then [Span(at, at + n)] else []
    ensures found == here + later
  {
    if literal {
      LiteralFound(out, n, at, after, found, later);
    } else {
      NothingFoundIn(out, n, at, after, found, later);
    }
  }

  lemma BlankedGoesOn(s: string, sig: Significant, at: nat, token: Token, rest: string, next: Significant, further: nat,
                      blanked: seq<Span>, later: seq<Span>)
    requires Remains(s, sig, at, token, rest, next, further)
    requires blanked == Blanked(s, sig, at) && later == Blanked(rest, next, further)
    ensures blanked == SpanOf(token, at) + later
  {}

  /** A quoted literal across lines is not found where it starts: blanked, it runs into its newline. */
  lemma LiteralIsLost(s: string, sig: Significant, at: nat, token: Token, found: seq<Span>, blanked: seq<Span>)
    requires s != "" && token == TokenAt(s, sig) && !LiteralOnOneLine(s, token)
    requires found == Found(Cleaned(s, sig), at) && blanked == Blanked(s, sig, at)
    ensures found != blanked
  {
    var out := Cleaned(s, sig);
    var at1 :| 1 <= at1 < token.length - 1 && s[at1] == '\n';
    MaskedLiteralKeeps(s, token.length, out, Cleaned(s[token.length..], After(s, token, sig)));
    NewlineStops(out[1..], at1 - 1, out[0]);
    FoundStartsLater(out[1..], at + 1);
    assert blanked[0] == Span(at, at + token.length);
    assert found == Found(out[1..], at + 1);
  }

  lemma MaskedLiteralKeeps(s: string, n: nat, out: string, rest: string)
    requires 2 <= n <= |s| && IsQuote(s[0]) && out == Mask(s, Literal(n)) + rest
    ensures out[0] == s[0] && forall k | 1 <= k < n - 1 :: out[k] == if s[k] == '\n' then '\n' else ' '
  {
    forall k | 1 <= k < n - 1 ensures out[k] == if s[k] == '\n' then '\n' else ' ' {
      BodyAt([s[0]], Blank(s[1..n - 1]), [s[0]], k);
      BlankAt(s, 1, n - 1, k);
    }
  }

  lemma {:induction false} NewlineStops(s: string, n: nat, quote: char)
    requires n < |s| && s[n] == '\n' && quote != '`' && IsQuote(quote)
    requires forall k | 0 <= k < n :: IsBlank(s[k])
    ensures Closes(s, quote) == None
  {
    if n > 0 && s[0] != '\n' { NewlineStops(s[1..], n - 1, quote); }
  }

  lemma OneLineGoesOn(s: string, sig: Significant, token: Token, rest: string, next: Significant, onOneLine: bool,
                      later: bool)
    requires Remains(s, sig, 0, token, rest, next, token.length) && onOneLine == LiteralsOnOneLine(s, sig)
    requires later == LiteralsOnOneLine(rest, next)
    ensures onOneLine == (LiteralOnOneLine(s, token) && later)
  {}

  lemma CrossingIsNoted(s: string, sig: Significant, token: Token, onOneLine: bool)
    requires s != "" && token == TokenAt(s, sig) && onOneLine == LiteralsOnOneLine(s, sig)
             && !LiteralOnOneLine(s, token)
    ensures !onOneLine
  {}

  lemma {:induction false} SpansAgree(s: string, sig: Significant, at: nat, found: seq<Span>, blanked: seq<Span>,
                                      onOneLine: bool)
    requires found == Found(Cleaned(s, sig), at) && blanked == Blanked(s, sig, at)
             && onOneLine == LiteralsOnOneLine(s, sig)
    ensures found == blanked <==> onOneLine
    decreases |s|, 1
  {
    if s != "" {
      var token := TokenAt(s, sig);
      if LiteralOnOneLine(s, token) {
        SpansAgreeLater(s, sig, at, token, found, blanked, onOneLine);
      } else {
        LiteralIsLost(s, sig, at, token, found, blanked);
        CrossingIsNoted(s, sig, token, onOneLine);
      }
    }
  }

  lemma {:induction false} SpansAgreeLater(s: string, sig: Significant, at: nat, token: Token,
                                           found: seq<Span>, blanked: seq<Span>, onOneLine: bool)
    requires s != "" && token == TokenAt(s, sig) && LiteralOnOneLine(s, token)
    requires found == Found(Cleaned(s, sig), at) && blanked == Blanked(s, sig, at)
             && onOneLine == LiteralsOnOneLine(s, sig)
    ensures found == blanked <==> onOneLine
    decreases |s|, 0
  {
    var rest, next, further := s[token.length..], After(s, token, sig), at + token.length;
    var later, laterFound, laterBlanked :=
      LiteralsOnOneLine(rest, next), Found(Cleaned(rest, next), further), Blanked(rest, next, further);
    OneLineGoesOn(s, sig, token, rest, next, onOneLine, later);
    FoundGoesOn(s, sig, at, token, rest, next, further, found, laterFound);
    BlankedGoesOn(s, sig, at, token, rest, next, further, blanked, laterBlanked);
    SpansAgree(rest, next, further, laterFound, laterBlanked, later);
    AgreeAsLater(SpanOf(token, at), found, blanked, laterFound, laterBlanked);
  }

  lemma AgreeAsLater(here: seq<Span>, found: seq<Span>, blanked: seq<Span>, laterFound: seq<Span>,
                     laterBlanked: seq<Span>)
    requires found == here + laterFound && blanked == here + laterBlanked
    ensures found == blanked <==> laterFound == laterBlanked
  {
    assert found[|here|..] == laterFound && blanked[|here|..] == laterBlanked;
  }

  /** Scanning the cleaned source finds exactly the literals that were blanked, just when quoted literals stay on
      their lines. */
  lemma FindsWhatWasBlanked(s: string, sig: Significant, at: nat)
    ensures Found(Cleaned(s, sig), at) == Blanked(s, sig, at) <==> LiteralsOnOneLine(s, sig)
  {
    var found, blanked := Found(Cleaned(s, sig), at), Blanked(s, sig, at);
    SpansAgree(s, sig, at, found, blanked, LiteralsOnOneLine(s, sig));
  }

  // ----- escaped newlines -----

  /** No backslash stands directly before a newline. */
  ghost predicate NoEscapedNewline(s: string) {
    forall k | 0 <= k < |s| - 1 :: !EscapesNewline(s, k)
  }

  predicate EscapesNewline(s: string, k: nat)
    requires k + 1 < |s|
  {
    s[k] == '\\' && s[k + 1] == '\n'
  }

  lemma RestEscapesNone(s: string, n: nat)
    requires NoEscapedNewline(s) && n <= |s|
    ensures NoEscapedNewline(s[n..])
  {
    forall k | 0 <= k < |s| - n - 1 ensures !EscapesNewline(s[n..], k) {
      assert !EscapesNewline(s, k + n);
    }
  }

  /** No newline is inside a quoted literal, unless escaped. */
  lemma {:induction false} QuotedOnOneLine(s: string, quote: char)
    requires NoEscapedNewline(s) && quote != '`' && quote != '\n' && Closes(s, quote).Some?
    ensures forall k | 0 <= k < Closes(s, quote).value :: s[k] != '\n'
  {
    var n := Closes(s, quote).value;
    if s[0] == quote {
    } else if s[0] == '\\' {
      RestEscapesNone(s, 2);
      QuotedOnOneLine(s[2..], quote);
      assert !EscapesNewline(s, 0);
      forall k | 0 <= k < n ensures s[k] != '\n' {
        if k >= 2 { assert s[2..][k - 2] == s[k]; }
      }
    } else {
      RestEscapesNone(s, 1);
      QuotedOnOneLine(s[1..], quote);
      forall k | 0 <= k < n ensures s[k] != '\n' {
        if k >= 1 { assert s[1..][k - 1] == s[k]; }
      }
    }
  }

  /** Where no backslash stands directly before a newline, quoted literals stay on their lines. */
  lemma {:induction false} NoEscapeNoCrossing(s: string, sig: Significant)
    requires NoEscapedNewline(s)
    ensures LiteralsOnOneLine(s, sig)
    decreases |s|
  {
    if s != "" {
      var token := TokenAt(s, sig);
      RestEscapesNone(s, token.length);
      NoEscapeNoCrossing(s[token.length..], After(s, token, sig));
      if token.Literal? && s[0] != '`' {
        RestEscapesNone(s, 1);
        QuotedOnOneLine(s[1..], s[0]);
        forall k | 1 <= k < token.length - 1 ensures s[k] != '\n' { assert s[1..][k - 1] == s[k]; }
      }
    }
  }

  lemma CleanedRest(s: string, sig: Significant, token: Token, rest: string, next: Significant, out: string)
    requires Remains(s, sig, 0, token, rest, next, token.length) && out == Cleaned(s, sig)
    ensures out[token.length..] == Cleaned(rest, next)
  {}

  // ----- cleaning a cleaned source -----

  /** The significant characters after a text. */
  function EmitAll(sig: Significant, text: string): Significant
    decreases |text|
  {
    if text == "" then sig else EmitAll(Emit(sig, text[0]), text[1..])
  }

  /** A slash here opens a comment or a regular expression. */
  predicate SlashOpens(s: string, sig: Significant) {
    s != "" && s[0] == '/' && ((|s| > 1 && (s[1] == '/' || s[1] == '*')) || StartsRegex(sig))
  }

  /** No slash opens anything where it stands. */
  predicate NoSlashOpens(s: string, sig: Significant)
    decreases |s|
  {
    if s == "" then true else !SlashOpens(s, sig) && NoSlashOpens(s[1..], Emit(sig, s[0]))
  }

  lemma {:induction false} BlanksEmitNothing(text: string, sig: Significant)
    requires forall k | 0 <= k < |text| :: IsBlank(text[k])
    ensures EmitAll(sig, text) == sig
  {
    if text != "" { BlanksEmitNothing(text[1..], sig); }
  }

  lemma {:induction false} EmitAllAdds(sig: Significant, a: string, b: string)
    ensures EmitAll(sig, a + b) == EmitAll(EmitAll(sig, a), b)
    decreases |a|
  {
    if a == "" {
      assert a + b == b;
    } else {
      assert (a + b)[1..] == a[1..] + b;
      EmitAllAdds(Emit(sig, a[0]), a[1..], b);
    }
  }

  /** A quoted stretch of blanks counts as its two quotes. */
  lemma QuotesAreEmitted(quote: char, body: string, sig: Significant)
    requires forall k | 0 <= k < |body| :: IsBlank(body[k])
    ensures EmitAll(sig, [quote] + body + [quote]) == Emit(Emit(sig, quote), quote)
  {
    var head := [quote] + body;
    assert head[1..] == body;
    EmitAllAdds(sig, head, [quote]);
    BlanksEmitNothing(body, Emit(sig, quote));
    assert [quote][1..] == "";
  }

  /** A mask holds no slash, and is significant for what its token was. */
  lemma MaskOpensNothing(s: string, sig: Significant, token: Token)
    requires s != "" && 1 <= token.length <= |s| && !token.Code?
    requires token.Literal? ==> token.length >= 2 && IsQuote(s[0])
    ensures '/' !in Mask(s, token) && EmitAll(sig, Mask(s, token)) == After(s, token, sig)
  {
    match token
    case Comment(n) => BlanksEmitNothing(Mask(s, token), sig);
    case Regex(n) =>
      BlanksEmitNothing(Blank(s[1..n]), Emit(sig, '0'));
      assert Mask(s, token)[1..] == Blank(s[1..n]);
    case Literal(n) => QuotesAreEmitted(s[0], Blank(s[1..n - 1]), sig);
  }

  lemma {:induction false} NoSlashAfter(mask: string, rest: string, sig: Significant, next: Significant)
    requires '/' !in mask && next == EmitAll(sig, mask) && NoSlashOpens(rest, next)
    ensures NoSlashOpens(mask + rest, sig)
  {
    if mask == "" {
      assert mask + rest == rest;
    } else {
      assert (mask + rest)[1..] == mask[1..] + rest;
      NoSlashAfter(mask[1..], rest, Emit(sig, mask[0]), next);
    }
  }

  /** A slash the lexer left as code opens nothing in the cleaned text either. */
  lemma CodeOpensNothing(s: string, sig: Significant, out: string)
    requires s != "" && TokenAt(s, sig).Code? && out == Cleaned(s, sig)
    ensures !SlashOpens(out, sig) && out[0] == s[0]
  {
    CodeStep(s, sig);
    if |s| > 1 { CleanedKeepsPlace(s, sig, 1); }
  }

  /** In a cleaned text no slash opens a comment or a regular expression: only literals are left to be blanked. */
  lemma {:induction false} CleanedOpensNothing(s: string, sig: Significant, out: string)
    requires out == Cleaned(s, sig)
    ensures NoSlashOpens(out, sig)
    decreases |s|
  {
    if s != "" {
      var token := TokenAt(s, sig);
      var rest, next := s[token.length..], After(s, token, sig);
      var later := Cleaned(rest, next);
      CleanedOpensNothing(rest, next, later);
      CleanedRest(s, sig, token, rest, next, out);
      if token.Code? {
        CodeOpensNothing(s, sig, out);
      } else {
        MaskOpensNothing(s, sig, token);
        NoSlashAfter(Mask(s, token), later, sig, next);
      }
    }
  }

  /** Every literal that scanning finds has a blank body. */
  predicate BodiesAreBlank(s: string)
    decreases |s|
  {
    if s == "" then true
    else if IsQuote(s[0]) && Closes(s[1..], s[0]).Some? then
      var n := 1 + Closes(s[1..], s[0]).value;
      BlankBetween(s, n) && BodiesAreBlank(s[n..])
    else BodiesAreBlank(s[1..])
  }

  lemma TokenOfQuiet(s: string, sig: Significant)
    requires s != "" && !SlashOpens(s, sig)
    ensures TokenAt(s, sig) == if IsQuote(s[0]) && Closes(s[1..], s[0]).Some?
            then Literal(1 + Closes(s[1..], s[0]).value) else Code(1)
  {}

  lemma {:induction false} NoSlashFurther(s: string, sig: Significant, head: string, rest: string, next: Significant)
    requires s == head + rest && NoSlashOpens(s, sig) && next == EmitAll(sig, head)
    ensures NoSlashOpens(rest, next)
    decreases |head|
  {
    if head == "" {
      assert s == rest;
    } else {
      assert s[0] == head[0] && s[1..] == head[1..] + rest;
      NoSlashFurther(s[1..], Emit(sig, s[0]), head[1..], rest, next);
    }
  }

  /** A body that is not blank is changed. */
  lemma BlankIsSame(body: string)
    ensures Blank(body) == body <==> forall k | 0 <= k < |body| :: IsBlank(body[k])
  {
    if Blank(body) == body {
      forall k | 0 <= k < |body| ensures IsBlank(body[k]) { assert Blank(body)[k] == body[k]; }
    }
  }

  lemma SplitAgain(s: string, n: nat, head: string, tail: string)
    requires n <= |s| && |head| == n
    ensures head + tail == s <==> head == s[..n] && tail == s[n..]
  {
    if head + tail == s {
      assert (head + tail)[..n] == head && (head + tail)[n..] == tail;
    }
  }

  /** Nothing but blanks stands between the first character and the last of the first `n`. */
  predicate BlankBetween(s: string, n: nat)
    requires n <= |s|
  {
    forall k | 1 <= k < n - 1 :: IsBlank(s[k])
  }

  lemma LiteralMaskIsSame(s: string, n: nat)
    requires 2 <= n <= |s| && s[n - 1] == s[0]
    ensures Mask(s, Literal(n)) == s[..n] <==> BlankBetween(s, n)
  {
    var body := s[1..n - 1];
    assert s[..n] == [s[0]] + body + [s[0]];
    SameBetween([s[0]], Blank(body), body, [s[0]]);
    BlankIsSame(body);
    BodyIsBlank(s, n, body);
  }

  lemma SameBetween(before: string, a: string, b: string, after: string)
    requires |a| == |b|
    ensures before + a + after == before + b + after <==> a == b
  {
    var left, right := before + a + after, before + b + after;
    assert left[|before|..|before| + |a|] == a && right[|before|..|before| + |b|] == b;
  }

  lemma BodyIsBlank(s: string, n: nat, body: string)
    requires 2 <= n <= |s| && body == s[1..n - 1]
    ensures BlankBetween(s, n) <==> forall k | 0 <= k < |body| :: IsBlank(body[k])
  {
    assert forall k | 1 <= k < n - 1 :: s[k] == body[k - 1];
    assert forall k | 0 <= k < |body| :: body[k] == s[k + 1];
  }

  lemma LiteralTwice(s: string, sig: Significant, n: nat, again: string, blank: bool,
                     here: bool, rest: string, later: string, laterBlank: bool)
    requires s != "" && 2 <= n <= |s| && s[n - 1] == s[0] && TokenAt(s, sig) == Literal(n)
    requires IsQuote(s[0]) && Closes(s[1..], s[0]) == Some(n - 1)
    requires again == Cleaned(s, sig) && blank == BodiesAreBlank(s) && here == BlankBetween(s, n) && rest == s[n..]
    requires later == Cleaned(rest, Emit(Emit(sig, s[0]), s[0])) && laterBlank == BodiesAreBlank(rest)
    ensures again == s <==> here && later == rest
    ensures blank <==> here && laterBlank
  {
    LiteralMaskIsSame(s, n);
    SplitAgain(s, n, Mask(s, Literal(n)), later);
  }

  lemma CodeTwice(s: string, sig: Significant, again: string, later: string)
    requires s != "" && TokenAt(s, sig) == Code(1)
    requires again == Cleaned(s, sig) && later == Cleaned(s[1..], Emit(sig, s[0]))
    ensures again == s <==> later == s[1..]
  {
    CodeStep(s, sig);
    SplitAgain(s, 1, [s[0]], later);
  }

  /** A text in which no slash opens anything is left alone exactly when its literals are blank already. */
  lemma {:induction false} SecondPass(s: string, sig: Significant, again: string, blank: bool)
    requires NoSlashOpens(s, sig) && again == Cleaned(s, sig) && blank == BodiesAreBlank(s)
    ensures again == s <==> blank
    decreases |s|, 1
  {
    if s != "" {
      TokenOfQuiet(s, sig);
      if IsQuote(s[0]) && Closes(s[1..], s[0]).Some? {
        SecondPassLiteral(s, sig, 1 + Closes(s[1..], s[0]).value, again, blank);
      } else {
        var rest, next := s[1..], Emit(sig, s[0]);
        var later := Cleaned(rest, next);
        CodeTwice(s, sig, again, later);
        SecondPass(rest, next, later, BodiesAreBlank(rest));
      }
    }
  }

  lemma {:induction false} SecondPassLiteral(s: string, sig: Significant, n: nat, again: string, blank: bool)
    requires NoSlashOpens(s, sig) && again == Cleaned(s, sig) && blank == BodiesAreBlank(s)
    requires s != "" && IsQuote(s[0]) && 2 <= n <= |s| && s[n - 1] == s[0] && Closes(s[1..], s[0]) == Some(n - 1)
    requires TokenAt(s, sig) == Literal(n)
    ensures again == s <==> blank
    decreases |s|, 0
  {
    var rest, next := s[n..], Emit(Emit(sig, s[0]), s[0]);
    var later, laterBlank := Cleaned(rest, next), BodiesAreBlank(rest);
    var here := BlankBetween(s, n);
    LiteralTwice(s, sig, n, again, blank, here, rest, later, laterBlank);
    if here {
      QuietAfterLiteral(s, sig, n, rest, next);
      SecondPass(rest, next, later, laterBlank);
    }
  }

  lemma QuietAfterLiteral(s: string, sig: Significant, n: nat, rest: string, next: Significant)
    requires 2 <= n <= |s| && s[n - 1] == s[0] && BlankBetween(s, n) && rest == s[n..]
    requires NoSlashOpens(s, sig) && next == Emit(Emit(sig, s[0]), s[0])
    ensures NoSlashOpens(rest, next)
  {
    var quote, body := s[0], s[1..n - 1];
    assert s[..n] == [quote] + body + [quote];
    QuotesAreEmitted(quote, body, sig);
    NoSlashFurther(s, sig, s[..n], rest, next);
  }

  /** The text of a span of `whole`, without its quotes, is blank. */
  predicate BlankBody(whole: string, span: Span) {
    span.start < span.end <= |whole| && forall k | span.start < k < span.end - 1 :: IsBlank(whole[k])
  }

  lemma {:induction false} BodiesOfFound(whole: string, at: nat, s: string, found: seq<Span>, blank: bool)
    requires at <= |whole| && s == whole[at..] && found == Found(s, at) && blank == BodiesAreBlank(s)
    ensures blank <==> forall span | span in found :: BlankBody(whole, span)
    decreases |s|
  {
    if s != "" {
      var literal := IsQuote(s[0]) && Closes(s[1..], s[0]).Some?;
      var n := if literal then 1 + Closes(s[1..], s[0]).value else 1;
      var later := Found(s[n..], at + n);
      assert s[n..] == whole[at + n..];
      BodiesOfFound(whole, at + n, s[n..], later, BodiesAreBlank(s[n..]));
      if literal {
        BodyOfFirst(whole, at, n);
        FirstAndLater(whole, Span(at, at + n), later, found);
      }
    }
  }

  lemma FirstAndLater(whole: string, first: Span, later: seq<Span>, found: seq<Span>)
    requires found == [first] + later
    ensures (forall span | span in found :: BlankBody(whole, span)) <==>
            BlankBody(whole, first) && forall span | span in later :: BlankBody(whole, span)
  {
    assert forall span :: span in found <==> span == first || span in later;
  }

  lemma BodyOfFirst(whole: string, at: nat, n: nat)
    requires 1 <= n && at + n <= |whole|
    ensures BlankBody(whole, Span(at, at + n)) <==> BlankBetween(whole[at..], n)
  {
    if BlankBetween(whole[at..], n) {
      forall k | at < k < at + n - 1 ensures IsBlank(whole[k]) { assert whole[at..][k - at] == whole[k]; }
    }
  }

  /** Cleaning a cleaned source changes nothing exactly when every literal that scanning it finds is blank already. */
  lemma CleaningIsIdempotent(s: string, sig: Significant)
    ensures var out := Cleaned(s, sig);
            Cleaned(out, sig) == out <==> forall span | span in Found(out, 0) :: BlankBody(out, span)
  {
    var out := Cleaned(s, sig);
    CleanedOpensNothing(s, sig, out);
    SecondPass(out, sig, Cleaned(out, sig), BodiesAreBlank(out));
    assert out[0..] == out;
    BodiesOfFound(out, 0, out, Found(out, 0), BodiesAreBlank(out));
  }

  /** The literals the lexer blanked are blank in the cleaned text. */
  lemma {:induction false} BlankedBodies(s: string, sig: Significant, whole: string, at: nat, blanked: seq<Span>)
    requires at <= |whole| && whole[at..] == Cleaned(s, sig) && blanked == Blanked(s, sig, at)
    ensures forall span | span in blanked :: BlankBody(whole, span)
    decreases |s|
  {
    if s != "" {
      var token := TokenAt(s, sig);
      var rest, next, further := s[token.length..], After(s, token, sig), at + token.length;
      var later := Blanked(rest, next, further);
      BlankedGoesOn(s, sig, at, token, rest, next, further, blanked, later);
      CleanedRest(s, sig, token, rest, next, whole[at..]);
      assert whole[at..][token.length..] == whole[further..];
      BlankedBodies(rest, next, whole, further, later);
      if token.Literal? { BlankedBody(s, sig, whole, at, token); }
    }
  }

  lemma BlankedBody(s: string, sig: Significant, whole: string, at: nat, token: Token)
    requires s != "" && at <= |whole| && whole[at..] == Cleaned(s, sig) && token == TokenAt(s, sig) && token.Literal?
    ensures BlankBody(whole, Span(at, at + token.length))
  {
    MaskedLiteralKeeps(s, token.length, whole[at..], Cleaned(s[token.length..], After(s, token, sig)));
    BodyOfFirst(whole, at, token.length);
  }

  /** So it is idempotent wherever quoted literals stay on their lines. */
  lemma OnOneLineIsIdempotent(s: string, sig: Significant)
    requires LiteralsOnOneLine(s, sig)
    ensures Cleaned(Cleaned(s, sig), sig) == Cleaned(s, sig)
  {
    var out := Cleaned(s, sig);
    assert out[0..] == out;
    FindsWhatWasBlanked(s, sig, 0);
    BlankedBodies(s, sig, out, 0, Blanked(s, sig, 0));
    CleaningIsIdempotent(s, sig);
  }

  /** With an escaped newline inside a quoted literal cleaning again can change the text: the blanked literal no longer
      closes, so its closing quote opens another. */
  lemma EscapedNewlineCleansTwice()
    ensures Cleaned("'\\\n'x'", START) == "' \n'x'" && Cleaned("' \n'x'", START) == "' \n' '"
  {
    CrossingLiteral();
    ReopenedLiteral();
  }

  lemma CrossingLiteral()
    ensures Cleaned("'\\\n'x'", START) == "' \n'x'"
  {
    var s := "'\\\n'x'";
    var next := After(s, Literal(4), START);
    FirstLiteral(s);
    UnclosedQuote("x", next);
    TokenThenRest(s, START, Literal(4), "' \n'", "x'", next);
  }

  lemma TokenThenRest(s: string, sig: Significant, token: Token, mask: string, rest: string, next: Significant)
    requires s != "" && token == TokenAt(s, sig) && mask == Mask(s, token)
    requires rest == s[token.length..] && next == After(s, token, sig)
    ensures Cleaned(s, sig) == mask + Cleaned(rest, next)
  {}

  lemma FirstLiteral(s: string)
    requires s == "'\\\n'x'"
    ensures TokenAt(s, START) == Literal(4) && Mask(s, Literal(4)) == "' \n'" && s[4..] == "x'"
  {
    assert s[1..][2..] == "'x'" && Closes("'x'", '\'') == Some(1);
    assert s[1..3] == "\\\n" && Blank("\\\n") == " \n";
  }

  /** Its literal is not among those found in the cleaned text; one that was never blanked is. */
  lemma EscapedNewlineHidesLiteral()
    ensures Blanked("'\\\n'x'", START, 0) == [Span(0, 4)] && Found(Cleaned("'\\\n'x'", START), 0) == [Span(3, 6)]
  {
    CrossingLiteral();
    CrossingBlanked(After("'\\\n'x'", Literal(4), START));
    ReopenedFound();
  }

  lemma CrossingBlanked(next: Significant)
    requires next == After("'\\\n'x'", Literal(4), START)
    ensures Blanked("'\\\n'x'", START, 0) == [Span(0, 4)]
  {
    var s := "'\\\n'x'";
    FirstLiteral(s);
    assert s[4..] == "x'" && TokenAt("x'", next) == Code(1);
    assert "x'"[1..] == "'" && TokenAt("'", Emit(next, 'x')) == Code(1);
  }

  lemma ReopenedFound()
    ensures Found("' \n'x'", 0) == [Span(3, 6)]
  {
    var s := "' \n'x'";
    assert s[1..] == " \n'x'" && s[1..][1..] == "\n'x'" && "\n'x'"[1..] == "'x'";
    assert Closes("\n'x'", '\'') == None && Closes(s[1..], '\'') == None;
    assert "'x'"[1..] == "x'" && "x'"[1..] == "'" && Closes("'", '\'') == Some(1) && Closes("x'", '\'') == Some(2);
    assert Found("'x'", 3) == [Span(3, 6)];
    assert Found("\n'x'", 2) == Found("'x'", 3);
  }

  lemma UnclosedQuote(before: string, sig: Significant)
    requires before == "x"
    ensures Cleaned(before + "'", sig) == before + "'"
  {
    var s := before + "'";
    assert s[1..] == "'" && TokenAt(s, sig) == Code(1);
    assert TokenAt("'", Emit(sig, 'x')) == Code(1);
    CodeStep("'", Emit(sig, 'x'));
    CodeStep(s, sig);
  }

  lemma LoneQuote(tail: string, sig: Significant)
    requires Closes(tail, '\'') == None
    ensures Cleaned("'" + tail, sig) == "'" + Cleaned(tail, Emit(sig, '\''))
  {
    var s := "'" + tail;
    assert s[1..] == tail && TokenAt(s, sig) == Code(1);
    CodeStep(s, sig);
  }

  lemma BlanksAndQuote(sig: Significant)
    ensures Closes(" \n'x'", '\'') == None && Cleaned(" \n'x'", sig) == " \n" + Cleaned("'x'", sig)
  {
    var s := " \n'x'";
    assert s[1..][0] == '\n' && Closes(s[1..], '\'') == None;
    BlanksPassThrough(s, 2, sig);
    assert s[..2] == " \n" && s[2..] == "'x'";
  }

  lemma ReopenedLiteral()
    ensures Cleaned("' \n'x'", START) == "' \n' '"
  {
    var sig, tail := Emit(START, '\''), " \n'x'";
    BlanksAndQuote(sig);
    ShortLiteral(sig);
    Spelled();
    LoneQuote(tail, START);
  }

  lemma Spelled()
    ensures "'" + " \n'x'" == "' \n'x'" && "'" + (" \n" + "' '") == "' \n' '"
  {}

  lemma ShortLiteral(sig: Significant)
    ensures Cleaned("'x'", sig) == "' '"
  {
    var s := "'x'";
    assert s[1..] == "x'" && s[1..][1..] == "'";
    assert Closes("'", '\'') == Some(1) && Closes("x'", '\'') == Some(2);
    assert TokenAt(s, sig) == Literal(3);
    assert s[3..] == "" && s[1..2] == "x" && Blank("x") == " ";
  }

  lemma {:induction false} FoundStartsLater(s: string, at: nat)
    ensures forall k | 0 <= k < |Found(s, at)| :: Found(s, at)[k].start >= at
    decreases |s|
  {
    if s != "" {
      if IsQuote(s[0]) && Closes(s[1..], s[0]).Some? {
        FoundStartsLater(s[1 + Closes(s[1..], s[0]).value..], at + 1 + Closes(s[1..], s[0]).value);
      } else {
        FoundStartsLater(s[1..], at + 1);
      }
    }
  }

  // ----- the lexer as it runs -----

  method LineEnd(source: string, start: nat) returns (end: nat)
    requires start <= |source|
    ensures end == start + LineLength(source[start..])
  {
    end := start;
    while end < |source| && source[end] != '\n'
      invariant start <= end <= |source| && end + LineLength(source[end..]) == start + LineLength(source[start..])
    {
      assert source[end..][1..] == source[end + 1..];
      end := end + 1;
    }
  }

  method BlockEnd(source: string, start: nat) returns (end: nat)
    requires start + 2 <= |source|
    ensures end == start + BlockLength(source[start..])
  {
    assert source[start..][2..] == source[start + 2..];
    var index := start + 2;
    while index < |source| && !(source[index] == '*' && index + 1 < |source| && source[index + 1] == '/')
      invariant start + 2 <= index <= |source|
                && index + BlockBody(source[index..]) == start + 2 + BlockBody(source[start + 2..])
    {
      assert source[index..][1..] == source[index + 1..];
      index := index + 1;
    }
    end := if index + 2 < |source| then index + 2 else |source|;
  }

  /** The rest of a source from an offset that may lie past its end. */
  function From(source: string, index: nat): string {
    if index <= |source| then source[index..] else ""
  }

  lemma FromStep(source: string, index: nat, n: nat)
    requires index < |source|
    ensures From(source, index)[0] == source[index] && |From(source, index)| == |source| - index
    ensures n <= |source| - index ==> From(source, index)[n..] == From(source, index + n)
  {}

  lemma RegexStep(source: string, at: nat, inClass: bool)
    requires at < |source|
    ensures RegexBody(From(source, at), inClass) ==
            if source[at] == '\\' then 2 + RegexBody(From(source, at + 2), inClass)
            else if source[at] == '\n' || (source[at] == '/' && !inClass) then 0
            else 1 + RegexBody(From(source, at + 1),
                               if source[at] == '[' then true else if source[at] == ']' then false else inClass)
  {
    FromTwice(source, at);
    RegexUnfolds(From(source, at), From(source, at + 1), From(source, at + 2), inClass);
  }

  lemma RegexUnfolds(s: string, one: string, two: string, inClass: bool)
    requires s != "" && one == s[1..] && two == (if |s| >= 2 then s[2..] else "")
    ensures RegexBody(s, inClass) ==
            if s[0] == '\\' then 2 + RegexBody(two, inClass)
            else if s[0] == '\n' || (s[0] == '/' && !inClass) then 0
            else 1 + RegexBody(one, if s[0] == '[' then true else if s[0] == ']' then false else inClass)
  {}

  method RegexBodyEnd(source: string, start: nat) returns (end: nat)
    requires start <= |source|
    ensures end == start + RegexBody(From(source, start), false)
  {
    end := start;
    var inClass := false;
    ghost var length := RegexBody(From(source, start), false);
    while end < |source|
      invariant start <= end && end + RegexBody(From(source, end), inClass) == start + length
      decreases |source| - end
    {
      var current := source[end];
      RegexStep(source, end, inClass);
      if current == '\\' {
        end := end + 2;
        continue;
      }
      if current == '\n' { break; }
      if current == '[' {
        inClass := true;
      } else if current == ']' {
        inClass := false;
      } else if current == '/' && !inClass {
        break;
      }
      end := end + 1;
    }
  }

  method FlagEnd(source: string, start: nat) returns (end: nat)
    ensures end == start + FlagLength(From(source, start))
  {
    end := start;
    while end < |source| && IsFlag(source[end])
      invariant start <= end && end + FlagLength(From(source, end)) == start + FlagLength(From(source, start))
    {
      FromStep(source, end, 1);
      end := end + 1;
    }
  }

  method RegexEnd(source: string, start: nat) returns (end: nat)
    requires start < |source|
    ensures end == start + RegexLength(source[start..])
  {
    assert source[start..][1..] == From(source, start + 1);
    var body := RegexBodyEnd(source, start + 1);
    if body + 1 < |source| { assert source[start..][body + 1 - start..] == From(source, body + 1); }
    var flags := FlagEnd(source, body + 1);
    end := if flags < |source| then flags else |source|;
  }

  lemma ClosesStep(source: string, index: nat, quote: char)
    requires index < |source| && source[index] != quote
    ensures Further(index, Closes(From(source, index), quote)) ==
            if source[index] == '\\' then Further(index + 2, Closes(From(source, index + 2), quote))
            else if quote != '`' && source[index] == '\n' then None
            else Further(index + 1, Closes(From(source, index + 1), quote))
  {
    FromTwice(source, index);
    ClosesUnfolds(From(source, index), From(source, index + 1), From(source, index + 2), quote);
  }

  lemma FromTwice(source: string, index: nat)
    requires index < |source|
    ensures var s := From(source, index);
            && s != "" && s[0] == source[index] && From(source, index + 1) == s[1..]
            && From(source, index + 2) == (if |s| >= 2 then s[2..] else "")
  {}

  lemma ClosesUnfolds(s: string, one: string, two: string, quote: char)
    requires s != "" && s[0] != quote && one == s[1..] && two == (if |s| >= 2 then s[2..] else "")
    ensures Closes(s, quote) ==
            if s[0] == '\\' then Further(2, Closes(two, quote))
            else if quote != '`' && s[0] == '\n' then None
            else Further(1, Closes(one, quote))
  {}

  /** `Closes` from the character after the opening quote on, as an offset; none where no quote stands. */
  method LiteralEnd(source: string, start: nat) returns (end: Option<nat>)
    ensures end == if start < |source| && IsQuote(source[start])
            then Further(start + 1, Closes(source[start + 1..], source[start])) else None
  {
    if start >= |source| || !IsQuote(source[start]) { return None; }
    var quote, index := source[start], start + 1;
    assert source[start + 1..] == From(source, start + 1);
    ghost var closes := Further(index, Closes(From(source, index), quote));
    while index < |source| && source[index] != quote
      invariant start + 1 <= index && closes == Further(index, Closes(From(source, index), quote))
      decreases |source| - index
    {
      ClosesStep(source, index, quote);
      if source[index] == '\\' {
        index := index + 2;
        continue;
      }
      if quote != '`' && source[index] == '\n' { return None; }
      index := index + 1;
    }
    return if index < |source| then Some(index + 1) else None;
  }

  /** The token at `index`, found with the scanning loops. */
  method NextToken(source: string, index: nat, sig: Significant) returns (token: Token)
    requires index < |source|
    ensures token == TokenAt(source[index..], sig)
  {
    var character := source[index];
    assert source[index..][1..] == source[index + 1..];
    if character == '/' && index + 1 < |source| && source[index + 1] == '/' {
      var end := LineEnd(source, index + 1);
      return Comment(end - index);
    }
    if character == '/' && index + 1 < |source| && source[index + 1] == '*' {
      var end := BlockEnd(source, index);
      return Comment(end - index);
    }
    if character == '/' && StartsRegex(sig) {
      var end := RegexEnd(source, index);
      return Regex(end - index);
    }
    if IsQuote(character) {
      var end := LiteralEnd(source, index);
      if end.Some? { return Literal(end.value - index); }
    }
    return Code(1);
  }

  /** Lexes one token and writes what it leaves behind. */
  method CleanToken(source: string, index: nat, sig: Significant) returns (mask: string, end: nat, next: Significant)
    requires index < |source|
    ensures index < end <= |source|
    ensures Cleaned(source[index..], sig) == mask + Cleaned(source[end..], next)
  {
    var token := NextToken(source, index, sig);
    mask := Mask(source[index..], token);
    next := After(source[index..], token, sig);
    end := index + token.length;
    assert source[index..][token.length..] == source[end..];
  }

  lemma CleanedKeepsNewlines(source: string)
    ensures forall k | 0 <= k < |source| :: Cleaned(source, START)[k] == '\n' <==> source[k] == '\n'
  {
    forall k | 0 <= k < |source| ensures Cleaned(source, START)[k] == '\n' <==> source[k] == '\n' {
      CleanedKeepsPlace(source, START, k);
    }
  }

  /** The specified text, as long as the source and with the same newlines. */
  method Clean(source: string) returns (out: string)
    ensures out == Cleaned(source, START)
    ensures |out| == |source| && forall k | 0 <= k < |source| :: out[k] == '\n' <==> source[k] == '\n'
  {
    out := CleanTokens(source);
    CleanedKeepsNewlines(source);
  }

  lemma Associates(a: string, b: string, c: string)
    ensures a + (b + c) == (a + b) + c && "" + a == a && a + "" == a
  {}

  method CleanTokens(source: string) returns (out: string)
    ensures out == Cleaned(source, START)
  {
    out := "";
    var index, sig := 0, START;
    ghost var rest := Cleaned(source, START);
    assert source[0..] == source;
    Associates(rest, "", "");
    while index < |source|
      invariant index <= |source| && rest == Cleaned(source[index..], sig) && out + rest == Cleaned(source, START)
    {
      var mask, end, next := CleanToken(source, index, sig);
      rest := Cleaned(source[end..], next);
      Associates(out, mask, rest);
      out, index, sig := out + mask, end, next;
    }
    assert source[index..] == "" && rest == "";
    Associates(out, "", "");
  }

  lemma FoundFrom(cleaned: string, index: nat, end: Option<nat>)
    requires index < |cleaned|
    requires end == if IsQuote(cleaned[index])
                    then Further(index + 1, Closes(cleaned[index + 1..], cleaned[index])) else None
    ensures end.Some? ==> index < end.value <= |cleaned|
    ensures Found(cleaned[index..], index) ==
            if end.None? then Found(cleaned[index + 1..], index + 1)
            else [Span(index, end.value)] + Found(cleaned[end.value..], end.value)
  {
    assert cleaned[index..][1..] == cleaned[index + 1..];
    if end.Some? { assert cleaned[index..][end.value - index..] == cleaned[end.value..]; }
  }

  /** The literals of a text, found quote by quote. */
  method FindLiterals(cleaned: string) returns (spans: seq<Span>)
    ensures spans == Found(cleaned, 0)
  {
    spans := [];
    var index := 0;
    assert cleaned[0..] == cleaned;
    while index < |cleaned|
      invariant index <= |cleaned| && spans + Found(cleaned[index..], index) == Found(cleaned, 0)
    {
      var end := LiteralEnd(cleaned, index);
      FoundFrom(cleaned, index, end);
      if end.None? {
        index := index + 1;
      } else {
        spans := spans + [Span(index, end.value)];
        index := end.value;
      }
    }
    assert cleaned[index..] == "" && spans + [] == spans;
  }
}
