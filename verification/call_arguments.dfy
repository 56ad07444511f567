/** The two argument splitters: one reads a call from its opening bracket to the matching close, the other splits a span
    that is already cut out. Both split at commas outside any bracket, counting all three kinds of bracket alike. */
module CallArguments {
  import opened Options
  import opened Text

  predicate Opens(c: char) {
    c == '(' || c == '[' || c == '{'
  }

  predicate Shuts(c: char) {
    c == ')' || c == ']' || c == '}'
  }

  function Turned(depth: int, c: char): int {
    if Opens(c) then depth + 1 else if Shuts(c) then depth - 1 else depth
  }

  /** The bracket depth after a text. */
  function Depth(s: string, start: int): int {
    if s == "" then start else Depth(s[1..], Turned(start, s[0]))
  }

  lemma {:induction false} DepthAdds(a: string, b: string, start: int)
    ensures Depth(a + b, start) == Depth(b, Depth(a, start))
  {
    if a == "" {
      assert a + b == b;
    } else {
      assert (a + b)[1..] == a[1..] + b;
      DepthAdds(a[1..], b, Turned(start, a[0]));
    }
  }

  // ----- splitting a span -----

  /** The pieces of a span between its commas at depth zero; never empty. */
  function Pieces(s: string, depth: int): (pieces: seq<string>)
    ensures pieces != []
  {
    if s == "" then [""]
    else if s[0] == ',' && depth == 0 then [""] + Pieces(s[1..], 0)
    else Longer(s[0], Pieces(s[1..], Turned(depth, s[0])))
  }

  function Longer(c: char, pieces: seq<string>): (longer: seq<string>)
    requires pieces != []
    ensures |longer| == |pieces|
  {
    [[c] + pieces[0]] + pieces[1..]
  }

  /** No comma of an argument stands at depth zero. */
  ghost predicate HoldsNoComma(argument: string, start: int) {
    forall k | 0 <= k < |argument| && argument[k] == ',' :: Depth(argument[..k], start) != 0
  }

  /** Arguments are the split of a span: joined by commas they are the span, every comma between them is at depth zero,
      and no other is. `start` is the depth the first one starts at. */
  ghost predicate IsSplit(arguments: seq<string>, span: string, start: int) {
    && arguments != [] && Join(arguments, ",") == span
    && HoldsNoComma(arguments[0], start)
    && (|arguments| > 1 ==> Depth(arguments[0], start) == 0)
    && forall i | 1 <= i < |arguments| ::
         HoldsNoComma(arguments[i], 0) && (i + 1 < |arguments| ==> Depth(arguments[i], 0) == 0)
  }

  lemma JoinLonger(c: char, pieces: seq<string>)
    requires pieces != []
    ensures Join(Longer(c, pieces), ",") == [c] + Join(pieces, ",")
  {
    if |pieces| > 1 {
      assert Longer(c, pieces)[1..] == pieces[1..];
      assert [c] + pieces[0] + "," + Join(pieces[1..], ",") == [c] + (pieces[0] + "," + Join(pieces[1..], ","));
    }
  }

  lemma CommaFurther(c: char, argument: string, start: int)
    ensures HoldsNoComma([c] + argument, start) <==>
            !(c == ',' && start == 0) && HoldsNoComma(argument, Turned(start, c))
  {
    var whole := [c] + argument;
    forall k | 0 <= k < |argument| ensures Depth(whole[..k + 1], start) == Depth(argument[..k], Turned(start, c)) {
      assert whole[..k + 1][1..] == argument[..k];
    }
    if HoldsNoComma(whole, start) {
      assert whole[..0] == "";
      forall k | 0 <= k < |argument| && argument[k] == ',' ensures Depth(argument[..k], Turned(start, c)) != 0 {
        assert whole[k + 1] == ',';
      }
    }
    if !(c == ',' && start == 0) && HoldsNoComma(argument, Turned(start, c)) {
      forall k | 0 <= k < |whole| && whole[k] == ',' ensures Depth(whole[..k], start) != 0 {
        if k > 0 { assert argument[k - 1] == ','; } else { assert whole[..0] == ""; }
      }
    }
  }

  /** A span's pieces are its split. */
  lemma {:induction false} PiecesAreSplit(s: string, depth: int)
    ensures IsSplit(Pieces(s, depth), s, depth)
  {
    if s == "" {
    } else if s[0] == ',' && depth == 0 {
      var rest := Pieces(s[1..], 0);
      PiecesAreSplit(s[1..], 0);
      assert ([""] + rest)[1..] == rest;
      assert "" + "," + Join(rest, ",") == s;
    } else {
      var rest, next := Pieces(s[1..], Turned(depth, s[0])), Turned(depth, s[0]);
      PiecesAreSplit(s[1..], next);
      JoinLonger(s[0], rest);
      CommaFurther(s[0], rest[0], depth);
      assert [s[0]] + s[1..] == s;
      assert ([s[0]] + rest[0])[1..] == rest[0];
    }
  }

  /** And nothing else is: a span has one split. */
  lemma {:induction false} SplitIsPieces(arguments: seq<string>, s: string, depth: int)
    requires IsSplit(arguments, s, depth)
    ensures arguments == Pieces(s, depth)
    decreases |s|
  {
    var first := arguments[0];
    if first != "" {
      var rest := [first[1..]] + arguments[1..];
      assert Longer(first[0], rest) == arguments by { assert [first[0]] + first[1..] == first; }
      JoinLonger(first[0], rest);
      assert s == [first[0]] + Join(rest, ",");
      assert s[1..] == Join(rest, ",");
      CommaFurther(first[0], first[1..], depth);
      SplitIsPieces(rest, s[1..], Turned(depth, s[0]));
    } else if |arguments| > 1 {
      assert s == "," + Join(arguments[1..], ",");
      assert s[1..] == Join(arguments[1..], ",");
      SplitIsPieces(arguments[1..], s[1..], 0);
      assert [""] + arguments[1..] == arguments;
    }
  }

  // ----- reading to the matching close -----

  /** The arguments from inside a call's bracket to its close, at a depth of one or more; nothing if it never closes. */
  function ToClose(s: string, depth: nat): (arguments: Option<seq<string>>)
    requires depth >= 1
    ensures arguments.Some? ==> arguments.value != []
    decreases |s|
  {
    if s == "" then None
    else if Shuts(s[0]) && depth == 1 then Some([""])
    else if s[0] == ',' && depth == 1 then
      var rest := ToClose(s[1..], 1);
      if rest.None? then None else Some([""] + rest.value)
    else
      var rest := ToClose(s[1..], Turned(depth, s[0]));
      if rest.None? then None else Some(Longer(s[0], rest.value))
  }

  /** The bracket depth of a span is never negative, and ends at zero. */
  ghost predicate IsBalanced(span: string, start: int) {
    Depth(span, start) == 0 && forall k | 0 <= k <= |span| :: Depth(span[..k], start) >= 0
  }

  lemma BalancedFurther(span: string, start: nat)
    requires span != ""
    ensures IsBalanced(span, start) <==> Turned(start, span[0]) >= 0 && IsBalanced(span[1..], Turned(start, span[0]))
  {
    var next := Turned(start, span[0]);
    forall k | 0 <= k < |span| ensures Depth(span[..k + 1], start) == Depth(span[1..][..k], next) {
      assert span[..k + 1][1..] == span[1..][..k];
    }
    if IsBalanced(span, start) {
      forall k | 0 <= k <= |span[1..]| ensures Depth(span[1..][..k], next) >= 0 {
        assert Depth(span[..k + 1], start) >= 0;
      }
      assert span[1..][..0] == "";
    }
    if next >= 0 && IsBalanced(span[1..], next) {
      forall k | 0 <= k <= |span| ensures Depth(span[..k], start) >= 0 {
        if k > 0 { assert Depth(span[1..][..k - 1], next) >= 0; }
      }
    }
  }

  /** On a balanced span followed by a close, the reader takes the span's pieces. */
  lemma {:induction false} BalancedIsRead(span: string, close: char, after: string, depth: nat)
    requires IsBalanced(span, depth) && Shuts(close)
    ensures ToClose(span + [close] + after, depth + 1) == Some(Pieces(span, depth))
    decreases |span|
  {
    var s := span + [close] + after;
    if span == "" {
      assert s[0] == close;
    } else {
      BalancedFurther(span, depth);
      assert s[0] == span[0] && s[1..] == span[1..] + [close] + after;
      BalancedIsRead(span[1..], close, after, Turned(depth, span[0]));
    }
  }

  /** What the reader takes is the split of a balanced text up to a close. */
  lemma {:induction false} ReadIsBalanced(s: string, depth: nat) returns (n: nat)
    requires ToClose(s, depth + 1).Some?
    ensures n < |s| && Shuts(s[n]) && IsBalanced(s[..n], depth) && Join(ToClose(s, depth + 1).value, ",") == s[..n]
    decreases |s|
  {
    if Shuts(s[0]) && depth == 0 {
      n := 0;
    } else {
      var next := if s[0] == ',' && depth == 0 then 0 else Turned(depth, s[0]);
      var m := ReadIsBalanced(s[1..], next);
      n := m + 1;
      assert s[..n][1..] == s[1..][..m];
      BalancedFurther(s[..n], depth);
      var rest := ToClose(s[1..], next + 1).value;
      if s[0] == ',' && depth == 0 {
        assert ([""] + rest)[1..] == rest && "" + "," + Join(rest, ",") == s[..n];
      } else {
        JoinLonger(s[0], rest);
        assert [s[0]] + s[1..][..m] == s[..n];
      }
    }
  }

  lemma JoinOfPieces(span: string)
    ensures Join(Pieces(span, 0), ",") == span
  {
    PiecesAreSplit(span, 0);
  }

  /** The two splitters agree on a span and its call exactly when the span's bracket depth never goes negative and ends
      at zero; otherwise the reader stops early, goes on past the span, or finds no close at all. */
  lemma SplittersAgree(span: string, close: char, after: string)
    requires Shuts(close)
    ensures ToClose(span + [close] + after, 1) == Some(Pieces(span, 0)) <==> IsBalanced(span, 0)
  {
    var s := span + [close] + after;
    if IsBalanced(span, 0) { BalancedIsRead(span, close, after, 0); }
    if ToClose(s, 1) == Some(Pieces(span, 0)) {
      var n := ReadIsBalanced(s, 0);
      JoinOfPieces(span);
      assert s[..|span|] == span;
    }
  }

  ghost predicate ClosesAt(s: string, n: nat) {
    n < |s| && Shuts(s[n]) && IsBalanced(s[..n], 0)
  }

  lemma ReadsUpTo(s: string, n: nat)
    requires ClosesAt(s, n)
    ensures ToClose(s, 1) == Some(Pieces(s[..n], 0))
  {
    assert s == s[..n] + [s[n]] + s[n + 1..];
    BalancedIsRead(s[..n], s[n], s[n + 1..], 0);
  }

  /** The reader takes exactly the split of the balanced text before a close. */
  lemma CallIsReadExactly(s: string, arguments: seq<string>)
    ensures ToClose(s, 1) == Some(arguments) <==> exists n: nat :: ClosesAt(s, n) && IsSplit(arguments, s[..n], 0)
  {
    if ToClose(s, 1) == Some(arguments) {
      var n := ReadIsBalanced(s, 0);
      ReadsUpTo(s, n);
      PiecesAreSplit(s[..n], 0);
    }
    if n: nat :| ClosesAt(s, n) && IsSplit(arguments, s[..n], 0) {
      ReadsUpTo(s, n);
      SplitIsPieces(arguments, s[..n], 0);
    }
  }

  // ----- the loops -----

  datatype Argument = Argument(text: string, start: nat)

  /** Pieces with the offsets they start at, one comma apart. */
  function Placed(pieces: seq<string>, start: nat): (placed: seq<Argument>)
    ensures |placed| == |pieces|
  {
    if pieces == [] then [] else [Argument(pieces[0], start)] + Placed(pieces[1..], start + |pieces[0]| + 1)
  }

  /** Each argument's text stands in the span at its start. */
  lemma {:induction false} ArgumentsStandInSpan(pieces: seq<string>, span: string, at: nat, i: nat)
    requires at <= |span| && i < |pieces| && Join(pieces, ",") == span[at..]
    ensures var argument := Placed(pieces, at)[i];
            && argument.start + |argument.text| <= |span|
            && span[argument.start..argument.start + |argument.text|] == argument.text
    decreases |pieces|
  {
    var head := |pieces[0]|;
    if |pieces| == 1 {
      assert span[at..at + head] == span[at..];
    } else {
      var rest := pieces[0] + "," + Join(pieces[1..], ",");
      assert rest[..head] == pieces[0] && rest[head + 1..] == Join(pieces[1..], ",");
      assert span[at..][..head] == span[at..at + head] && span[at..][head + 1..] == span[at + head + 1..];
      if i > 0 { ArgumentsStandInSpan(pieces[1..], span, at + head + 1, i - 1); }
    }
  }

  function Prefixed(prefix: string, pieces: seq<string>): (prefixed: seq<string>)
    requires pieces != []
    ensures prefixed != []
  {
    [prefix + pieces[0]] + pieces[1..]
  }

  lemma PrefixedNothing(pieces: seq<string>)
    requires pieces != []
    ensures Prefixed("", pieces) == pieces
  {
    assert "" + pieces[0] == pieces[0];
  }

  /** Splitting on, with what the current argument holds so far. */
  lemma PiecesOn(span: string, start: nat, index: nat, depth: int)
    requires start <= index < |span|
    ensures Prefixed(span[start..index], Pieces(span[index..], depth)) ==
            if span[index] == ',' && depth == 0 then [span[start..index]] + Pieces(span[index + 1..], 0)
            else Prefixed(span[start..index + 1], Pieces(span[index + 1..], Turned(depth, span[index])))
  {
    assert span[index..][1..] == span[index + 1..];
    if span[index] == ',' && depth == 0 {
      assert span[start..index] + "" == span[start..index];
    } else {
      var rest := Pieces(span[index + 1..], Turned(depth, span[index]));
      assert span[start..index] + ([span[index]] + rest[0]) == span[start..index + 1] + rest[0];
    }
  }

  lemma PlacedFirst(piece: string, rest: seq<string>, start: nat)
    ensures Placed([piece] + rest, start) == [Argument(piece, start)] + Placed(rest, start + |piece| + 1)
  {
    assert ([piece] + rest)[1..] == rest;
  }

  /** What is still to be split off, with the offsets it will start at. */
  function StillToSplit(span: string, start: nat, index: nat, depth: int): seq<Argument>
    requires start <= index <= |span|
  {
    Placed(Prefixed(span[start..index], Pieces(span[index..], depth)), start)
  }

  lemma SplitOn(span: string, start: nat, index: nat, depth: int)
    requires start <= index < |span|
    ensures StillToSplit(span, start, index, depth) ==
            if span[index] == ',' && depth == 0
            then [Argument(span[start..index], start)] + StillToSplit(span, index + 1, index + 1, 0)
            else StillToSplit(span, start, index + 1, Turned(depth, span[index]))
  {
    PiecesOn(span, start, index, depth);
    if span[index] == ',' && depth == 0 {
      PlacedFirst(span[start..index], Pieces(span[index + 1..], 0), start);
      PrefixedNothing(Pieces(span[index + 1..], 0));
    }
  }

  /** One character on: a comma at depth zero takes an argument off what is still to be split, nothing else does. */
  lemma SplitStep(arguments: seq<Argument>, span: string, start: nat, index: nat, depth: int, whole: seq<Argument>)
    requires start <= index < |span| && whole == arguments + StillToSplit(span, start, index, depth)
    ensures whole ==
            if span[index] == ',' && depth == 0
            then arguments + [Argument(span[start..index], start)] + StillToSplit(span, index + 1, index + 1, 0)
            else arguments + StillToSplit(span, start, index + 1, Turned(depth, span[index]))
  {
    SplitOn(span, start, index, depth);
  }

  lemma SplitBegins(span: string, whole: seq<Argument>)
    requires whole == Placed(Pieces(span, 0), 0)
    ensures whole == [] + StillToSplit(span, 0, 0, 0)
  {
    assert span[0..] == span && span[0..0] == "";
    PrefixedNothing(Pieces(span, 0));
  }

  lemma SplitEnds(span: string, start: nat, depth: int)
    requires start <= |span|
    ensures StillToSplit(span, start, |span|, depth) == [Argument(span[start..], start)]
  {
    var last := span[start..];
    assert span[|span|..] == "" && span[start..|span|] == last && last + "" == last;
    assert Prefixed(last, [""]) == [last];
    PlacedLast(last, start);
  }

  lemma SplitDone(arguments: seq<Argument>, span: string, start: nat, depth: int, whole: seq<Argument>)
    requires start <= |span| && whole == arguments + StillToSplit(span, start, |span|, depth)
    ensures whole == arguments + [Argument(span[start..], start)]
  {
    SplitEnds(span, start, depth);
  }

  lemma PlacedLast(piece: string, start: nat)
    ensures Placed([piece], start) == [Argument(piece, start)]
  {
    assert [piece][1..] == [];
  }

  /** One pass over the span: its pieces, each with the offset it was cut at. */
  method SplitSpan(span: string) returns (arguments: seq<Argument>)
    ensures arguments == Placed(Pieces(span, 0), 0)
  {
    arguments := [];
    var depth, start, index := 0, 0, 0;
    ghost var whole := Placed(Pieces(span, 0), 0);
    SplitBegins(span, whole);
    while index < |span|
      invariant start <= index <= |span|
      invariant whole == arguments + StillToSplit(span, start, index, depth)
    {
      var character := span[index];
      SplitStep(arguments, span, start, index, depth, whole);
      if Opens(character) {
        depth := depth + 1;
      } else if Shuts(character) {
        depth := depth - 1;
      } else if character == ',' && depth == 0 {
        arguments := arguments + [Argument(span[start..index], start)];
        start := index + 1;
      }
      index := index + 1;
    }
    SplitDone(arguments, span, start, depth, whole);
    arguments := arguments + [Argument(span[start..], start)];
  }

  function ReadOn(arguments: seq<string>, current: string, rest: Option<seq<string>>): Option<seq<string>>
    requires rest.Some? ==> rest.value != []
  {
    if rest.None? then None else Some(arguments + Prefixed(current, rest.value))
  }

  /** Reading on, with the arguments read and what the current one holds. */
  lemma ReadOnStep(arguments: seq<string>, current: string, s: string, depth: nat)
    requires s != "" && depth >= 1
    ensures ReadOn(arguments, current, ToClose(s, depth)) ==
            if Shuts(s[0]) && depth == 1 then Some(arguments + [current])
            else if s[0] == ',' && depth == 1 then ReadOn(arguments + [current], "", ToClose(s[1..], 1))
            else ReadOn(arguments, current + [s[0]], ToClose(s[1..], Turned(depth, s[0])))
  {
    if Shuts(s[0]) && depth == 1 {
      assert current + "" == current;
      assert Prefixed(current, [""]) == [current];
    } else if s[0] == ',' && depth == 1 {
      var rest := ToClose(s[1..], 1);
      if rest.Some? {
        assert current + "" == current;
        PrefixedNothing(rest.value);
        assert Prefixed(current, [""] + rest.value) == [current] + rest.value;
        assert arguments + ([current] + rest.value) == arguments + [current] + rest.value;
      }
    } else {
      var rest := ToClose(s[1..], Turned(depth, s[0]));
      if rest.Some? {
        assert current + ([s[0]] + rest.value[0]) == current + [s[0]] + rest.value[0];
      }
    }
  }

  /** The arguments of the call whose bracket stands at `open`; empty when the call never closes. */
  method ReadCall(text: string, open: nat) returns (arguments: seq<string>)
    requires open < |text| && Opens(text[open])
    ensures var read := ToClose(text[open + 1..], 1); arguments == if read.Some? then read.value else []
  {
    var depth, current, index := 0, "", open;
    arguments := [];
    ghost var whole := ToClose(text[open + 1..], 1);
    if whole.Some? {
      PrefixedNothing(whole.value);
      assert [] + whole.value == whole.value;
    }
    while index < |text|
      invariant open <= index <= |text| && (index == open ==> depth == 0 && current == "" && arguments == [])
      invariant index > open ==> depth >= 1 && whole == ReadOn(arguments, current, ToClose(text[index..], depth))
    {
      var character := text[index];
      if index > open { ReadOnStep(arguments, current, text[index..], depth); }
      assert text[index..][1..] == text[index + 1..];
      index := index + 1;
      if Opens(character) {
        depth := depth + 1;
        if depth == 1 { continue; }
      } else if Shuts(character) {
        depth := depth - 1;
        if depth == 0 { return arguments + [current]; }
      } else if character == ',' && depth == 1 {
        arguments, current := arguments + [current], "";
        continue;
      }
      current := current + [character];
    }
    return [];
  }

  /** The three kinds of bracket. */
  predicate IsPair(open: char, close: char) {
    (open == '(' && close == ')') || (open == '[' && close == ']') || (open == '{' && close == '}')
  }

  lemma {:induction false} InsideIsOnePiece(span: string, depth: int, rest: string)
    requires depth > 0 && forall k | 0 <= k <= |span| :: Depth(span[..k], depth) > 0
    ensures Pieces(span + rest, depth) == Prefixed(span, Pieces(rest, Depth(span, depth)))
    decreases |span|
  {
    if span == "" {
      assert span + rest == rest;
      PrefixedNothing(Pieces(rest, depth));
    } else {
      var next := Turned(depth, span[0]);
      var pieces := Pieces(rest, Depth(span, depth));
      assert (span + rest)[1..] == span[1..] + rest && span[..1] == [span[0]] && Depth(span[..1], depth) == next;
      forall k | 0 <= k <= |span[1..]| ensures Depth(span[1..][..k], next) > 0 {
        assert span[..k + 1][1..] == span[1..][..k] && Depth(span[..k + 1], depth) > 0;
      }
      InsideIsOnePiece(span[1..], next, rest);
      assert [span[0]] + (span[1..] + pieces[0]) == span + pieces[0];
    }
  }

  /** Whatever a bracket of any kind encloses, commas included, is part of one argument. */
  lemma EnclosedIsOneArgument(open: char, close: char, inner: string)
    requires IsPair(open, close) && IsBalanced(inner, 0)
    ensures Pieces([open] + inner + [close], 0) == [[open] + inner + [close]]
  {
    var text := [open] + inner + [close];
    assert text[1..] == inner + [close];
    forall k | 0 <= k <= |inner| ensures Depth(inner[..k], 1) > 0 {
      DepthShifts(inner[..k], 0, 1);
      assert Depth(inner[..k], 0) >= 0;
    }
    DepthShifts(inner, 0, 1);
    InsideIsOnePiece(inner, 1, [close]);
    assert [close][1..] == "" && [close] + "" == [close] && Pieces([close], 1) == [[close]];
    assert Prefixed(inner, [[close]]) == [inner + [close]];
    assert [open] + (inner + [close]) == text;
  }

  /** No other character is a bracket: without any of the six a span is split at each of its commas. */
  lemma {:induction false} SplitAtEveryComma(span: string)
    requires forall k | 0 <= k < |span| :: span[k] !in {'(', ')', '[', ']', '{', '}'}
    ensures Pieces(span, 0) == Split(span, ',')
  {
    if span != "" { SplitAtEveryComma(span[1..]); }
  }

  lemma {:induction false} DepthShifts(s: string, from: int, shift: int)
    ensures Depth(s, from + shift) == Depth(s, from) + shift
  {
    if s != "" { DepthShifts(s[1..], Turned(from, s[0]), shift); }
  }

  // ----- brackets line by line -----

  function LineDepths(lines: seq<string>, start: int): seq<int> {
    if lines == [] then [] else [start] + LineDepths(lines[1..], Depth(lines[0], start))
  }

  lemma NewlineTurnsNothing(head: string, tail: string, start: int)
    ensures Depth(head + "\n" + tail, start) == Depth(tail, Depth(head, start))
  {
    DepthAdds(head + "\n", tail, start);
    DepthAdds(head, "\n", start);
  }

  /** Each line's depth is the depth of everything before the line, and the depth after the last line is that of the
      whole text. */
  lemma {:induction false} LineDepthIsDepthBefore(lines: seq<string>, start: int, k: nat)
    requires k < |lines|
    ensures |LineDepths(lines, start)| == |lines|
    ensures LineDepths(lines, start)[k] == if k == 0 then start else Depth(Join(lines[..k], "\n"), start)
    ensures k == |lines| - 1 ==> Depth(lines[k], LineDepths(lines, start)[k]) == Depth(Join(lines, "\n"), start)
  {
    if |lines| > 1 {
      var next := Depth(lines[0], start);
      LineDepthIsDepthBefore(lines[1..], next, if k > 0 then k - 1 else 0);
      NewlineTurnsNothing(lines[0], Join(lines[1..], "\n"), start);
      if k > 1 {
        assert lines[..k][1..] == lines[1..][..k - 1];
        NewlineTurnsNothing(lines[0], Join(lines[1..][..k - 1], "\n"), start);
      }
    }
  }

  /** The depths of the lines of a text are depths in the text itself: zero before the first, and before any other that
      of the text up to and including the newline before it. The last line ends at the depth of the whole text. */
  lemma LineDepthIsDepthInText(text: string, lines: seq<string>, depths: seq<int>, k: nat)
    requires lines == Split(text, '\n') && depths == LineDepths(lines, 0) && k < |lines|
    ensures |depths| == |lines| && depths[0] == 0
    ensures k > 0 ==> var before := Join(lines[..k], "\n") + "\n"; before <= text && depths[k] == Depth(before, 0)
    ensures Depth(lines[|lines| - 1], depths[|lines| - 1]) == Depth(text, 0)
  {
    JoinOfSplit(text, '\n', lines);
    LineDepthIsDepthBefore(lines, 0, 0);
    LineDepthIsDepthBefore(lines, 0, |lines| - 1);
    if k > 0 {
      LineDepthIsDepthBefore(lines, 0, k);
      JoinBegins(lines, "\n", k);
      NewlineTurnsNothing(Join(lines[..k], "\n"), "", 0);
      assert Join(lines[..k], "\n") + "\n" + "" == Join(lines[..k], "\n") + "\n";
    }
  }

  method FinalDepth(text: string) returns (depth: int)
    ensures depth == Depth(text, 0)
  {
    depth := 0;
    var index := 0;
    assert text[0..] == text;
    while index < |text|
      invariant index <= |text| && Depth(text[index..], depth) == Depth(text, 0)
    {
      assert text[index..][1..] == text[index + 1..];
      if Opens(text[index]) { depth := depth + 1; } else if Shuts(text[index]) { depth := depth - 1; }
      index := index + 1;
    }
  }

  /** Line after line, the depth its first character stands at. */
  method BraceDepths(text: string) returns (depths: seq<int>)
    ensures depths == LineDepths(Split(text, '\n'), 0)
  {
    var lines, depth, i := Split(text, '\n'), 0, 0;
    depths := [];
    assert lines[0..] == lines;
    while i < |lines|
      invariant i <= |lines| && depths + LineDepths(lines[i..], depth) == LineDepths(lines, 0)
    {
      var line, index := lines[i], 0;
      depths := depths + [depth];
      ghost var next := Depth(line, depth);
      assert line[0..] == line && lines[i..][1..] == lines[i + 1..];
      while index < |line|
        invariant index <= |line| && Depth(line[index..], depth) == next
      {
        assert line[index..][1..] == line[index + 1..];
        if Opens(line[index]) { depth := depth + 1; } else if Shuts(line[index]) { depth := depth - 1; }
        index := index + 1;
      }
      i := i + 1;
    }
    assert lines[i..] == [];
  }
}
