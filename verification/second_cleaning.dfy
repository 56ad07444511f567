/** Which sources a second cleaning changes: those where the close of a literal across lines opens another. */
module SecondCleaning {
  import opened Options
  import opened SourceLexer

  /** From a token boundary on, nothing that is taken for a literal holds more than blanks. */
  ghost predicate Settles(s: string, sig: Significant)
    decreases |s|, 0
  {
    if s == "" then true
    else
      var token := TokenAt(s, sig);
      var rest, next := s[token.length..], After(s, token, sig);
      if LiteralOnOneLine(s, token) then Settles(rest, next) else SettlesAfter(rest, next, s[0])
  }

  /** The same when the quote before the boundary is taken for an opening one: either it does not close, or only blanks
      and comments stand between it and the quote that closes it. */
  ghost predicate SettlesAfter(s: string, sig: Significant, quote: char)
    decreases |s|, 1
  {
    if Closes(Cleaned(s, sig), quote).None? then Settles(s, sig) else SettlesUpTo(s, sig, quote)
  }

  /** The next quote of this kind is met before anything but blanks; what follows it settles. */
  ghost predicate SettlesUpTo(s: string, sig: Significant, quote: char)
    decreases |s|, 0
  {
    if s == "" then true
    else
      var token := TokenAt(s, sig);
      var rest, next := s[token.length..], After(s, token, sig);
      if token.Literal? && s[0] == quote then SettlesAfter(rest, next, quote)
      else if token.Code? && s[0] == quote then Settles(rest, next)
      else (token.Comment? || (token.Code? && IsBlank(s[0]))) && SettlesUpTo(rest, next, quote)
  }

  // ----- scanning a cleaned text -----

  lemma {:induction false} NoQuotePasses(out: string, n: nat, rest: string, blank: bool, later: bool)
    requires n <= |out| && NoQuoteIn(out, n) && rest == out[n..]
    requires blank == BodiesAreBlank(out) && later == BodiesAreBlank(rest)
    ensures blank == later
  {
    if n == 0 {
      assert rest == out;
    } else {
      assert rest == out[1..][n - 1..];
      NoQuotePasses(out[1..], n - 1, rest, blank, later);
    }
  }

  lemma LiteralPasses(out: string, n: nat, rest: string, blank: bool, later: bool)
    requires BlankLiteral(out, n) && rest == out[n..]
    requires blank == BodiesAreBlank(out) && later == BodiesAreBlank(rest)
    ensures blank == later
  {
    BlankedBodyCloses(out[1..], n - 2, out[0]);
  }

  lemma OpenPasses(out: string, blank: bool, later: bool)
    requires out != "" && (IsQuote(out[0]) ==> Closes(out[1..], out[0]) == None)
    requires blank == BodiesAreBlank(out) && later == BodiesAreBlank(out[1..])
    ensures blank == later
  {}

  lemma TokenPasses(s: string, sig: Significant, token: Token, rest: string, next: Significant, blank: bool,
                    later: bool)
    requires Remains(s, sig, 0, token, rest, next, token.length) && LiteralOnOneLine(s, token)
    requires blank == BodiesAreBlank(Cleaned(s, sig)) && later == BodiesAreBlank(Cleaned(rest, next))
    ensures blank == later
  {
    var out := Cleaned(s, sig);
    CleanedRest(s, sig, token, rest, next, out);
    if token.Code? {
      CodeStep(s, sig);
      if IsQuote(s[0]) { StaysOpen(s[1..], Emit(sig, s[0]), s[0]); }
      OpenPasses(out, blank, later);
    } else {
      MaskIsFound(s, sig, token, out);
      if token.Literal? {
        LiteralPasses(out, token.length, Cleaned(rest, next), blank, later);
      } else {
        NoQuotePasses(out, token.length, Cleaned(rest, next), blank, later);
      }
    }
  }

  /** What a cleaned literal leaves after its opening quote: no quote, until its closing one. */
  lemma AfterOpening(s: string, sig: Significant, n: nat, rest: string, next: Significant, out: string)
    requires s != "" && TokenAt(s, sig) == Literal(n) && rest == s[n..] && next == After(s, Literal(n), sig)
    requires out == Cleaned(s, sig)
    ensures out[0] == s[0] && out[1..] != "" && NoQuoteIn(out[1..], n - 2)
    ensures out[1..][n - 2..] == [s[0]] + Cleaned(rest, next)
    ensures forall k | 1 <= k < n - 1 :: out[k] == if s[k] == '\n' then '\n' else ' '
  {
    var after := Cleaned(rest, next);
    MaskedLiteralKeeps(s, n, out, after);
    LiteralTail(s[0], Blank(s[1..n - 1]), after, out);
  }

  lemma LiteralTail(quote: char, body: string, after: string, out: string)
    requires out == [quote] + body + [quote] + after && forall k | 0 <= k < |body| :: IsBlank(body[k])
    ensures out[1..] != "" && NoQuoteIn(out[1..], |body|) && out[1..][|body|..] == [quote] + after
  {
    assert out[1..] == body + ([quote] + after);
  }

  lemma CrossingIsOpen(s: string, n: nat, out: string)
    requires 2 <= n <= |s| && n <= |out| && IsQuote(s[0]) && out[0] == s[0] && !LiteralOnOneLine(s, Literal(n))
    requires forall k | 1 <= k < n - 1 :: out[k] == if s[k] == '\n' then '\n' else ' '
    ensures Closes(out[1..], out[0]) == None
  {
    var at :| 1 <= at < n - 1 && s[at] == '\n';
    NewlineStops(out[1..], at - 1, out[0]);
  }

  lemma CrossingPasses(s: string, sig: Significant, token: Token, rest: string, next: Significant, blank: bool,
                       later: bool)
    requires Remains(s, sig, 0, token, rest, next, token.length) && !LiteralOnOneLine(s, token)
    requires blank == BodiesAreBlank(Cleaned(s, sig)) && later == BodiesAreBlank([s[0]] + Cleaned(rest, next))
    ensures blank == later
  {
    var out, n := Cleaned(s, sig), token.length;
    AfterOpening(s, sig, n, rest, next, out);
    CrossingIsPassed(s, n, out, [s[0]] + Cleaned(rest, next), blank, later);
  }

  lemma CrossingIsPassed(s: string, n: nat, out: string, after: string, blank: bool, later: bool)
    requires 2 <= n <= |s| && n <= |out| && IsQuote(s[0]) && out[0] == s[0] && !LiteralOnOneLine(s, Literal(n))
    requires forall k | 1 <= k < n - 1 :: out[k] == if s[k] == '\n' then '\n' else ' '
    requires NoQuoteIn(out[1..], n - 2) && out[1..][n - 2..] == after
    requires blank == BodiesAreBlank(out) && later == BodiesAreBlank(after)
    ensures blank == later
  {
    CrossingIsOpen(s, n, out);
    BlankedOpening(out, n - 2, after, blank, later);
  }

  lemma BlankedOpening(out: string, n: nat, rest: string, blank: bool, later: bool)
    requires out != "" && Closes(out[1..], out[0]) == None
    requires n <= |out[1..]| && NoQuoteIn(out[1..], n) && rest == out[1..][n..]
    requires blank == BodiesAreBlank(out) && later == BodiesAreBlank(rest)
    ensures blank == later
  {
    var inner := BodiesAreBlank(out[1..]);
    OpenPasses(out, blank, inner);
    NoQuotePasses(out[1..], n, rest, inner, later);
  }

  predicate BlankUpTo(out: string, n: int)
    requires n <= |out|
  {
    forall k | 0 <= k < n :: IsBlank(out[k])
  }

  /** Blanks before the closing quote only move it. */
  lemma {:induction false} BlanksClose(out: string, n: nat, quote: char, m: nat, rest: string, left: Option<nat>)
    requires n <= |out| && BlankUpTo(out, n) && quote in {'\'', '"'} && Closes(out, quote) == Some(m)
    requires rest == out[n..] && left == Closes(rest, quote)
    ensures n < m && left == Some(m - n)
  {
    if n == 0 {
      assert rest == out;
    } else {
      var tail := out[1..];
      BlankClosesLater(out, quote, m, tail);
      BlankTail(out, n, tail);
      assert rest == tail[n - 1..];
      BlanksClose(tail, n - 1, quote, m - 1, rest, left);
    }
  }

  lemma BlankClosesLater(out: string, quote: char, m: nat, rest: string)
    requires out != "" && IsBlank(out[0]) && quote in {'\'', '"'} && Closes(out, quote) == Some(m) && rest == out[1..]
    ensures m > 1 && Closes(rest, quote) == Some(m - 1)
  {}

  lemma BlankTail(out: string, n: nat, rest: string)
    requires 0 < n <= |out| && BlankUpTo(out, n) && rest == out[1..]
    ensures IsBlank(out[0]) && BlankUpTo(rest, n - 1)
  {
    forall k | 0 <= k < n - 1 ensures IsBlank(rest[k]) { assert IsBlank(out[k + 1]); }
  }

  lemma BlankFurther(out: string, n: nat, m: nat, rest: string)
    requires n < m <= |out| && BlankUpTo(out, n) && rest == out[n..]
    ensures BlankUpTo(out, m - 1) <==> BlankUpTo(rest, m - n - 1)
    ensures out[m..] == rest[m - n..]
  {
    if BlankUpTo(rest, m - n - 1) {
      forall k | 0 <= k < m - 1 ensures IsBlank(out[k]) { if k >= n { assert IsBlank(rest[k - n]); } }
    }
  }

  lemma TakenForOpening(quote: char, out: string, m: nat, blank: bool)
    requires IsQuote(quote) && Closes(out, quote) == Some(m) && blank == BodiesAreBlank([quote] + out)
    ensures blank == Fits(out, m)
  {
    var s := [quote] + out;
    assert s[1..] == out && s[1 + m..] == out[m..];
    if BlankUpTo(out, m - 1) {
      forall k | 1 <= k < m ensures IsBlank(s[k]) { assert IsBlank(out[k - 1]); }
    }
    if BlankBetween(s, 1 + m) {
      forall k | 0 <= k < m - 1 ensures IsBlank(out[k]) { assert IsBlank(s[k + 1]); }
    }
  }

  // ----- the tokens tell -----

  lemma {:induction false} Aligned(s: string, sig: Significant, blank: bool, settles: bool)
    requires blank == BodiesAreBlank(Cleaned(s, sig)) && settles == Settles(s, sig)
    ensures blank == settles
    decreases |s|, 0
  {
    if s != "" {
      var token := TokenAt(s, sig);
      var rest, next := s[token.length..], After(s, token, sig);
      if LiteralOnOneLine(s, token) {
        var later := BodiesAreBlank(Cleaned(rest, next));
        TokenPasses(s, sig, token, rest, next, blank, later);
        Aligned(rest, next, later, Settles(rest, next));
      } else {
        var later := BodiesAreBlank([s[0]] + Cleaned(rest, next));
        CrossingPasses(s, sig, token, rest, next, blank, later);
        Shifted(rest, next, s[0], later, SettlesAfter(rest, next, s[0]));
      }
    }
  }

  lemma {:induction false} Shifted(s: string, sig: Significant, quote: char, blank: bool, settles: bool)
    requires quote in {'\'', '"'}
    requires blank == BodiesAreBlank([quote] + Cleaned(s, sig)) && settles == SettlesAfter(s, sig, quote)
    ensures blank == settles
    decreases |s|, 1
  {
    var out := Cleaned(s, sig);
    if Closes(out, quote).None? {
      var later := BodiesAreBlank(out);
      assert ([quote] + out)[1..] == out;
      OpenPasses([quote] + out, blank, later);
      Aligned(s, sig, later, settles);
    } else {
      var m := Closes(out, quote).value;
      TakenForOpening(quote, out, m, blank);
      ShiftedUpTo(s, sig, quote, out, m, blank, settles);
    }
  }

  /** What is taken for a literal fits when only blanks precede its close, and what follows fits too. */
  ghost predicate Fits(out: string, m: nat)
    requires 1 <= m <= |out|
  {
    BlankUpTo(out, m - 1) && BodiesAreBlank(out[m..])
  }

  lemma UpToUnfolds(s: string, sig: Significant, quote: char, token: Token, rest: string, next: Significant,
                    settles: bool, after: bool, settled: bool, upTo: bool)
    requires Remains(s, sig, 0, token, rest, next, token.length) && settles == SettlesUpTo(s, sig, quote)
    requires after == SettlesAfter(rest, next, quote) && settled == Settles(rest, next)
    requires upTo == SettlesUpTo(rest, next, quote)
    ensures settles ==
            if token.Literal? && s[0] == quote then after
            else if token.Code? && s[0] == quote then settled
            else (token.Comment? || (token.Code? && IsBlank(s[0]))) && upTo
  {}

  lemma {:induction false} ShiftedUpTo(s: string, sig: Significant, quote: char, out: string, m: nat, blank: bool,
                                       settles: bool)
    requires quote in {'\'', '"'} && out == Cleaned(s, sig) && Closes(out, quote) == Some(m)
    requires blank == Fits(out, m) && settles == SettlesUpTo(s, sig, quote)
    ensures blank == settles
    decreases |s|, 0
  {
    var token := TokenAt(s, sig);
    var rest, next := s[token.length..], After(s, token, sig);
    var after, settled, upTo := SettlesAfter(rest, next, quote), Settles(rest, next), SettlesUpTo(rest, next, quote);
    UpToUnfolds(s, sig, quote, token, rest, next, settles, after, settled, upTo);
    if token.Literal? && s[0] == quote {
      var later := BodiesAreBlank([quote] + Cleaned(rest, next));
      UpToLiteral(s, sig, token, rest, next, out, m, blank, later);
      Shifted(rest, next, quote, later, after);
    } else if token.Code? && s[0] == quote {
      var later := BodiesAreBlank(Cleaned(rest, next));
      UpToCode(s, sig, rest, next, out, m, blank, later);
      Aligned(rest, next, later, settled);
    } else if token.Comment? || (token.Code? && IsBlank(s[0])) {
      var left := PastBlanks(s, sig, token, rest, next, quote, out, m, Cleaned(rest, next), blank);
      ShiftedUpTo(rest, next, quote, Cleaned(rest, next), left, blank, upTo);
    } else {
      NeverFits(s, sig, token, out, quote, m, blank);
    }
  }

  lemma NeverFits(s: string, sig: Significant, token: Token, out: string, quote: char, m: nat, blank: bool)
    requires s != "" && token == TokenAt(s, sig) && out == Cleaned(s, sig)
    requires !token.Comment? && !(token.Code? && IsBlank(s[0])) && s[0] != quote && IsQuote(quote)
    requires Closes(out, quote) == Some(m) && blank == Fits(out, m)
    ensures !blank
  {
    NeitherBlankNorQuote(s, sig, token, out, quote);
  }

  lemma UpToLiteral(s: string, sig: Significant, token: Token, rest: string, next: Significant, out: string, m: nat,
                    blank: bool, later: bool)
    requires Remains(s, sig, 0, token, rest, next, token.length) && token.Literal? && out == Cleaned(s, sig)
    requires Closes(out, s[0]) == Some(m) && blank == Fits(out, m)
    requires later == BodiesAreBlank([s[0]] + Cleaned(rest, next))
    ensures blank == later
  {
    AfterOpening(s, sig, token.length, rest, next, out);
    NoQuotePasses(out[1..], token.length - 2, [s[0]] + Cleaned(rest, next), BodiesAreBlank(out[1..]), later);
  }

  lemma UpToCode(s: string, sig: Significant, rest: string, next: Significant, out: string, m: nat,
                 blank: bool, later: bool)
    requires s != "" && TokenAt(s, sig).Code? && rest == s[1..] && next == Emit(sig, s[0]) && out == Cleaned(s, sig)
    requires Closes(out, s[0]) == Some(m) && blank == Fits(out, m) && later == BodiesAreBlank(Cleaned(rest, next))
    ensures blank == later
  {
    CodeStep(s, sig);
    assert out[1..] == Cleaned(rest, next);
  }

  lemma PastBlanks(s: string, sig: Significant, token: Token, rest: string, next: Significant, quote: char,
                   out: string, m: nat, after: string, blank: bool) returns (left: nat)
    requires Remains(s, sig, 0, token, rest, next, token.length)
    requires token.Comment? || (token.Code? && IsBlank(s[0]))
    requires quote in {'\'', '"'} && out == Cleaned(s, sig) && Closes(out, quote) == Some(m)
    requires after == Cleaned(rest, next) && blank == Fits(out, m)
    ensures Closes(after, quote) == Some(left) && blank == Fits(after, left)
  {
    CleanedRest(s, sig, token, rest, next, out);
    BlankToken(s, sig, token, out);
    left := BlanksPassed(out, token.length, quote, m, after, blank);
  }

  lemma BlanksPassed(out: string, n: nat, quote: char, m: nat, after: string, blank: bool) returns (left: nat)
    requires n <= |out| && BlankUpTo(out, n) && quote in {'\'', '"'} && Closes(out, quote) == Some(m)
    requires after == out[n..] && blank == Fits(out, m)
    ensures Closes(after, quote) == Some(left) && blank == Fits(after, left)
  {
    BlanksClose(out, n, quote, m, after, Closes(after, quote));
    BlankFurther(out, n, m, after);
    left := m - n;
  }

  lemma BlankToken(s: string, sig: Significant, token: Token, out: string)
    requires s != "" && token == TokenAt(s, sig) && out == Cleaned(s, sig)
    requires token.Comment? || (token.Code? && IsBlank(s[0]))
    ensures BlankUpTo(out, token.length)
  {
    if token.Comment? { MaskShape(s, sig); } else { CodeStep(s, sig); }
  }

  lemma NeitherBlankNorQuote(s: string, sig: Significant, token: Token, out: string, quote: char)
    requires s != "" && token == TokenAt(s, sig) && out == Cleaned(s, sig)
    requires !token.Comment? && !(token.Code? && IsBlank(s[0])) && s[0] != quote && IsQuote(quote)
    ensures !IsBlank(out[0]) && out[0] != quote
  {
    match token
    case Code(_) => CodeStep(s, sig);
    case Regex(_) => MaskShape(s, sig);
    case Literal(n) => AfterOpening(s, sig, n, s[n..], After(s, token, sig), out);
  }

  /** A second cleaning changes nothing exactly when the source settles: when after every literal across lines whose
      quote comes again on its last line, as the first cleaning leaves that line, only blanks stand before it; and so on
      from there. */
  lemma SecondCleaningSettles(s: string, sig: Significant)
    ensures Cleaned(Cleaned(s, sig), sig) == Cleaned(s, sig) <==> Settles(s, sig)
  {
    var out := Cleaned(s, sig);
    var blank := BodiesAreBlank(out);
    CleanedOpensNothing(s, sig, out);
    SecondPass(out, sig, Cleaned(out, sig), blank);
    Aligned(s, sig, blank, Settles(s, sig));
  }
}
