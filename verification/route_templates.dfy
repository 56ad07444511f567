/** Expansion of a path template: each `${...}` hole is replaced by every value its name stands for, with a cap on
    how many paths may come out and a depth at which a hole becomes unknown. */
module RouteTemplates {
  import opened Options
  import opened RoutePaths
  import opened Text

  /** What each name can be; a value is a template itself. */
  type Names = map<string, seq<string>>

  const MAX_RESOLUTIONS := 64
  const MAX_DEPTH := 4
  const UNKNOWN := "*"

  // ----- the name an expression goes by -----

  predicate StartsName(c: char) {
    IsLetter(c) || c == '_' || c == '$'
  }

  predicate ContinuesName(c: char) {
    IsWord(c) || c == '$'
  }

  function NameEnd(s: string, from: nat): (end: nat)
    requires from <= |s|
    ensures from <= end <= |s|
    decreases |s| - from
  {
    if from < |s| && ContinuesName(s[from]) then NameEnd(s, from + 1) else from
  }

  function SpaceEnd(s: string, from: nat): (end: nat)
    requires from <= |s|
    ensures from <= end <= |s|
    decreases |s| - from
  {
    if from < |s| && IsSpace(s[from]) then SpaceEnd(s, from + 1) else from
  }

  /** The last name of a dotted chain that is the whole expression or is being called. */
  function CalleeName(s: string, from: nat): Option<string>
    requires from <= |s|
    decreases |s| - from
  {
    if from == |s| || !StartsName(s[from]) then None
    else
      var end := NameEnd(s, from + 1);
      if end < |s| && s[end] == '.' then CalleeName(s, end + 1)
      else
        var next := SpaceEnd(s, end);
        if next == |s| || s[next] == '(' then Some(s[from..end]) else None
  }

  /** The values a hole stands for, when it stands for any. */
  function ValuesOf(expression: string, names: Names): seq<string> {
    var name := CalleeName(expression, 0);
    if name.Some? && name.value in names then names[name.value] else []
  }

  // ----- holes -----

  predicate OpensHole(body: string) {
    |body| >= 2 && body[0] == '$' && body[1] == '{'
  }

  /** One past the brace that balances the open ones, or the end. */
  function HoleEnd(body: string, cursor: nat, braces: nat): (end: nat)
    requires cursor <= |body|
    ensures cursor <= end <= |body|
    decreases |body| - cursor
  {
    if cursor == |body| || braces == 0 then cursor
    else
      HoleEnd(body, cursor + 1,
              if body[cursor] == '{' then braces + 1 else if body[cursor] == '}' then braces - 1 else braces)
  }

  /** The text inside the hole a body opens with; the last character before the end of the hole is its brace. */
  function HoleText(body: string): string
    requires OpensHole(body)
  {
    var end := HoleEnd(body, 2, 1);
    TrimEnd(TrimStart(if end > 2 then body[2..end - 1] else ""))
  }

  // ----- the expansion -----

  function AppendTo(outputs: seq<string>, value: string): (longer: seq<string>)
    ensures |longer| == |outputs| && forall k :: 0 <= k < |outputs| ==> longer[k] == outputs[k] + value
  {
    seq(|outputs|, k requires 0 <= k < |outputs| => outputs[k] + value)
  }

  function Prefixed(text: string, values: seq<string>): (longer: seq<string>)
    ensures |longer| == |values| && forall k :: 0 <= k < |values| ==> longer[k] == text + values[k]
  {
    seq(|values|, k requires 0 <= k < |values| => text + values[k])
  }

  function Product(outputs: seq<string>, values: seq<string>): (product: seq<string>)
    ensures |product| == |outputs| * |values|
  {
    if outputs == [] then []
    else
      assert |outputs| * |values| == |values| + |outputs[1..]| * |values|;
      Prefixed(outputs[0], values) + Product(outputs[1..], values)
  }

  function Levels(depth: nat): nat {
    if depth < MAX_DEPTH then MAX_DEPTH - depth else 0
  }

  function Expand(body: string, names: Names, depth: nat, outputs: seq<string>): seq<string>
    decreases Levels(depth), 1, |body|
  {
    if body == "" then outputs
    else if !OpensHole(body) then Expand(body[1..], names, depth, AppendTo(outputs, [body[0]]))
    else Expand(body[HoleEnd(body, 2, 1)..], names, depth,
        Product(outputs, Capped(outputs, Resolve(HoleText(body), names, depth))))
  }

  function Capped(outputs: seq<string>, resolved: seq<string>): seq<string> {
    if |outputs| * |resolved| > MAX_RESOLUTIONS then [UNKNOWN] else resolved
  }

  function Resolve(expression: string, names: Names, depth: nat): seq<string>
    decreases Levels(depth), 0, 0
  {
    if depth >= MAX_DEPTH then [UNKNOWN]
    else
      var values := ValuesOf(expression, names);
      if values == [] then [UNKNOWN] else ExpandAll(values, names, depth + 1)
  }

  function ExpandAll(values: seq<string>, names: Names, depth: nat): seq<string>
    decreases Levels(depth), 2, |values|
  {
    if values == [] then [] else Expand(values[0], names, depth, [""]) + ExpandAll(values[1..], names, depth)
  }

  /** Finds the end of the hole that opens at `index`, counting braces. */
  method ScanHole(body: string, index: nat) returns (cursor: nat)
    requires index + 2 <= |body|
    ensures index + 2 <= cursor <= |body| && cursor - index == HoleEnd(body[index..], 2, 1)
  {
    ghost var rest := body[index..];
    var braces := 1;
    cursor := index + 2;
    while cursor < |body| && braces > 0
      invariant index + 2 <= cursor <= |body| && braces >= 0
      invariant HoleEnd(rest, cursor - index, braces) == HoleEnd(rest, 2, 1)
      decreases |body| - cursor
    {
      assert rest[cursor - index] == body[cursor];
      if body[cursor] == '{' { braces := braces + 1; } else if body[cursor] == '}' { braces := braces - 1; }
      cursor := cursor + 1;
    }
  }

  lemma CharacterStep(body: string, index: nat, names: Names, depth: nat, outputs: seq<string>)
    requires index < |body| && !OpensHole(body[index..])
    ensures Expand(body[index..], names, depth, outputs) ==
            Expand(body[index + 1..], names, depth, AppendTo(outputs, [body[index]]))
  {
    assert body[index..][1..] == body[index + 1..];
  }

  lemma HoleStep(body: string, index: nat, cursor: nat, names: Names, depth: nat, outputs: seq<string>,
                 values: seq<string>)
    requires index + 2 <= cursor <= |body| && OpensHole(body[index..]) && cursor - index == HoleEnd(body[index..], 2, 1)
    requires values == Capped(outputs, Resolve(HoleText(body[index..]), names, depth))
    ensures Expand(body[index..], names, depth, outputs) ==
            Expand(body[cursor..], names, depth, Product(outputs, values))
  {
    assert body[index..][cursor - index..] == body[cursor..];
  }

  lemma HoleTextAt(body: string, index: nat, cursor: nat)
    requires index + 2 <= cursor <= |body| && OpensHole(body[index..]) && cursor - index == HoleEnd(body[index..], 2, 1)
    ensures HoleText(body[index..]) ==
            TrimEnd(TrimStart(if cursor > index + 2 then body[index + 2..cursor - 1] else ""))
  {
    if cursor > index + 2 {
      assert body[index..][2..cursor - index - 1] == body[index + 2..cursor - 1];
    }
  }

  /** The expansion as it runs, with its cursor and its growing list of outputs. */
  method SubstituteInterpolations(body: string, names: Names, depth: nat) returns (outputs: seq<string>)
    ensures outputs == Expand(body, names, depth, [""])
    ensures 1 <= |outputs| <= MAX_RESOLUTIONS
    decreases Levels(depth), 1
  {
    outputs := [""];
    var index := 0;
    assert body[0..] == body;
    while index < |body|
      invariant index <= |body|
      invariant Expand(body[index..], names, depth, outputs) == Expand(body, names, depth, [""])
      invariant 1 <= |outputs| <= MAX_RESOLUTIONS
      decreases |body| - index
    {
      if body[index] != '$' || index + 1 >= |body| || body[index + 1] != '{' {
        CharacterStep(body, index, names, depth, outputs);
        outputs := AppendTo(outputs, [body[index]]);
        index := index + 1;
      } else {
        var cursor := ScanHole(body, index);
        HoleTextAt(body, index, cursor);
        var inner := if cursor > index + 2 then body[index + 2..cursor - 1] else "";
        var resolved := ResolveExpression(TrimEnd(TrimStart(inner)), names, depth);
        var values := if |outputs| * |resolved| > MAX_RESOLUTIONS then [UNKNOWN] else resolved;
        HoleStep(body, index, cursor, names, depth, outputs, values);
        ProductAtLeastOne(|outputs|, |values|);
        outputs := Product(outputs, values);
        index := cursor;
      }
    }
    assert body[index..] == "";
  }

  lemma ProductAtLeastOne(a: nat, b: nat)
    requires a >= 1 && b >= 1
    ensures a * b >= 1
  {}

  method ResolveExpression(expression: string, names: Names, depth: nat) returns (resolved: seq<string>)
    ensures resolved == Resolve(expression, names, depth)
    ensures |resolved| >= 1
    decreases Levels(depth), 0
  {
    if depth >= MAX_DEPTH { return [UNKNOWN]; }
    var values := ValuesOf(expression, names);
    if |values| == 0 { return [UNKNOWN]; }
    resolved := [];
    assert values[0..] == values && [] + ExpandAll(values, names, depth + 1) == ExpandAll(values, names, depth + 1);
    for i := 0 to |values|
      invariant i > 0 ==> |resolved| >= 1
      invariant resolved + ExpandAll(values[i..], names, depth + 1) == ExpandAll(values, names, depth + 1)
    {
      var expanded := SubstituteInterpolations(values[i], names, depth + 1);
      ExpandAllStep(values, i, names, depth + 1, resolved, expanded);
      resolved := resolved + expanded;
    }
    assert values[|values|..] == [];
    assert resolved + [] == resolved;
  }

  lemma ExpandAllStep(values: seq<string>, i: nat, names: Names, depth: nat, resolved: seq<string>,
                      expanded: seq<string>)
    requires i < |values| && expanded == Expand(values[i], names, depth, [""])
    ensures resolved + ExpandAll(values[i..], names, depth) ==
            (resolved + expanded) + ExpandAll(values[i + 1..], names, depth)
  {
    assert values[i..][1..] == values[i + 1..];
    assert resolved + (expanded + ExpandAll(values[i + 1..], names, depth))
        == (resolved + expanded) + ExpandAll(values[i + 1..], names, depth);
  }

  // ----- what a template can denote -----

  /** `text` is an address the template can name: holes with values name what one of the values names, to any
      number of levels, and holes without values name anything at all. */
  ghost predicate Denotes(body: string, names: Names, text: string, levels: nat)
    decreases levels, 1, |body|
  {
    if body == "" then text == ""
    else if !OpensHole(body) then text != "" && text[0] == body[0] && Denotes(body[1..], names, text[1..], levels)
    else exists k :: 0 <= k <= |text| && HoleDenotes(HoleText(body), names, text[..k], levels)
                     && Denotes(body[HoleEnd(body, 2, 1)..], names, text[k..], levels)
  }

  ghost predicate HoleDenotes(expression: string, names: Names, text: string, levels: nat)
    decreases levels, 0, 0
  {
    var values := ValuesOf(expression, names);
    values != [] ==> levels > 0 && exists i :: 0 <= i < |values| && Denotes(values[i], names, text, levels - 1)
  }

  ghost predicate Covered(outputs: seq<string>, text: string) {
    exists i :: 0 <= i < |outputs| && Fills(outputs[i], text)
  }

  lemma {:induction false} FillsConcat(a: string, b: string, s: string, t: string)
    requires Fills(a, s) && Fills(b, t)
    ensures Fills(a + b, s + t)
  {
    if a == "" {
      assert a + b == b && s + t == t;
    } else {
      assert (a + b)[1..] == a[1..] + b;
      if a[0] == MARKER {
        var k :| 0 <= k <= |s| && Fills(a[1..], s[k..]);
        FillsConcat(a[1..], b, s[k..], t);
        assert (s + t)[k..] == s[k..] + t;
      } else {
        FillsConcat(a[1..], b, s[1..], t);
        assert (s + t)[1..] == s[1..] + t;
      }
    }
  }

  lemma UnknownFillsAnything(text: string)
    ensures Fills(UNKNOWN, text)
  {
    assert UNKNOWN[1..] == "" && text[|text|..] == "";
  }

  lemma {:induction false} ProductCovers(outputs: seq<string>, values: seq<string>, s: string, t: string)
    requires Covered(outputs, s) && Covered(values, t)
    ensures Covered(Product(outputs, values), s + t)
  {
    var first, rest := Prefixed(outputs[0], values), Product(outputs[1..], values);
    var i :| 0 <= i < |outputs| && Fills(outputs[i], s);
    if i == 0 {
      var k :| 0 <= k < |values| && Fills(values[k], t);
      FillsConcat(outputs[0], values[k], s, t);
      assert Product(outputs, values)[k] == first[k];
    } else {
      assert outputs[1..][i - 1] == outputs[i];
      ProductCovers(outputs[1..], values, s, t);
      var k :| 0 <= k < |rest| && Fills(rest[k], s + t);
      assert Product(outputs, values)[|first| + k] == rest[k];
    }
  }

  lemma AppendCovers(outputs: seq<string>, c: char, s: string)
    requires Covered(outputs, s)
    ensures Covered(AppendTo(outputs, [c]), s + [c])
  {
    var i :| 0 <= i < |outputs| && Fills(outputs[i], s);
    var longer := AppendTo(outputs, [c]);
    if c == MARKER {
      UnknownFillsAnything([c]);
      FillsConcat(outputs[i], UNKNOWN, s, [c]);
      assert longer[i] == outputs[i] + UNKNOWN;
    } else {
      assert [c][1..] == "";
      FillsConcat(outputs[i], [c], s, [c]);
    }
    assert Fills(longer[i], s + [c]);
  }

  /** The expansion loses nothing, whatever the cap and the depth collapse. */
  lemma {:induction false} ExpandCovers(body: string, names: Names, depth: nat, outputs: seq<string>, s: string,
                                        text: string, levels: nat)
    requires Covered(outputs, s) && Denotes(body, names, text, levels)
    ensures Covered(Expand(body, names, depth, outputs), s + text)
    decreases Levels(depth), 1, |body|
  {
    if body == "" {
      assert s + text == s;
    } else if !OpensHole(body) {
      AppendCovers(outputs, body[0], s);
      ExpandCovers(body[1..], names, depth, AppendTo(outputs, [body[0]]), s + [body[0]], text[1..], levels);
      Regrouped(s, text, 1);
      assert text[..1] == [body[0]];
    } else {
      var k := HoleCovers(body, names, depth, outputs, s, text, levels);
      var longer := Product(outputs, Capped(outputs, Resolve(HoleText(body), names, depth)));
      ExpandCovers(body[HoleEnd(body, 2, 1)..], names, depth, longer, s + text[..k], text[k..], levels);
      Regrouped(s, text, k);
    }
  }

  lemma Regrouped(s: string, text: string, k: nat)
    requires k <= |text|
    ensures s + text[..k] + text[k..] == s + text
  {}

  lemma {:induction false} HoleCovers(body: string, names: Names, depth: nat, outputs: seq<string>, s: string,
                                      text: string, levels: nat) returns (k: nat)
    requires OpensHole(body) && Covered(outputs, s) && Denotes(body, names, text, levels)
    ensures k <= |text| && Denotes(body[HoleEnd(body, 2, 1)..], names, text[k..], levels)
    ensures Covered(Product(outputs, Capped(outputs, Resolve(HoleText(body), names, depth))), s + text[..k])
    decreases Levels(depth), 0, 1
  {
    k :| 0 <= k <= |text| && HoleDenotes(HoleText(body), names, text[..k], levels)
         && Denotes(body[HoleEnd(body, 2, 1)..], names, text[k..], levels);
    ResolveCovers(HoleText(body), names, depth, text[..k], levels);
    UnknownFillsAnything(text[..k]);
    assert Fills([UNKNOWN][0], text[..k]);
    ProductCovers(outputs, Capped(outputs, Resolve(HoleText(body), names, depth)), s, text[..k]);
  }

  lemma {:induction false} ResolveCovers(expression: string, names: Names, depth: nat, text: string, levels: nat)
    requires HoleDenotes(expression, names, text, levels)
    ensures Covered(Resolve(expression, names, depth), text)
    decreases Levels(depth), 0, 0
  {
    UnknownFillsAnything(text);
    var values := ValuesOf(expression, names);
    if depth >= MAX_DEPTH || values == [] {
      assert Fills(Resolve(expression, names, depth)[0], text);
    } else {
      var i :| 0 <= i < |values| && Denotes(values[i], names, text, levels - 1);
      ExpandAllCovers(values, names, depth + 1, i, text, levels - 1);
    }
  }

  lemma {:induction false} ExpandAllCovers(values: seq<string>, names: Names, depth: nat, i: nat, text: string,
                                           levels: nat)
    requires i < |values| && Denotes(values[i], names, text, levels)
    ensures Covered(ExpandAll(values, names, depth), text)
    decreases Levels(depth), 2, |values|
  {
    var first, rest := Expand(values[0], names, depth, [""]), ExpandAll(values[1..], names, depth);
    if i == 0 {
      assert Fills([""][0], "");
      ExpandCovers(values[0], names, depth, [""], "", text, levels);
      assert "" + text == text;
      CoveredByEither(first, rest, text);
    } else {
      assert values[1..][i - 1] == values[i];
      ExpandAllCovers(values[1..], names, depth, i - 1, text, levels);
      CoveredByEither(first, rest, text);
    }
  }

  lemma CoveredByEither(a: seq<string>, b: seq<string>, text: string)
    requires Covered(a, text) || Covered(b, text)
    ensures Covered(a + b, text)
  {
    if Covered(a, text) {
      var k :| 0 <= k < |a| && Fills(a[k], text);
      assert (a + b)[k] == a[k];
    } else {
      var k :| 0 <= k < |b| && Fills(b[k], text);
      assert (a + b)[|a| + k] == b[k];
    }
  }

  /** Every concrete text the template can denote is covered by some returned path. */
  lemma EveryAddressIsCovered(body: string, names: Names, text: string, levels: nat)
    requires Denotes(body, names, text, levels)
    ensures Covered(Expand(body, names, 0, [""]), text)
  {
    assert Fills([""][0], "");
    ExpandCovers(body, names, 0, [""], "", text, levels);
    assert "" + text == text;
  }
}
