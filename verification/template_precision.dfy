/** When the expansion of a path template is exact: what is returned is then denoted, and no hole was collapsed. */
module TemplatePrecision {
  import opened Options
  import opened RoutePaths
  import opened RouteTemplates

  // ----- membership -----

  /** The text is one of these outputs followed by something the template denotes. */
  ghost predicate Joins(outputs: seq<string>, body: string, names: Names, levels: nat, text: string) {
    exists s, t :: s in outputs && text == s + t && Denotes(body, names, t, levels)
  }

  lemma {:induction false} InProduct(outputs: seq<string>, values: seq<string>, text: string)
    ensures text in Product(outputs, values) <==> exists s, v :: s in outputs && v in values && text == s + v
  {
    if outputs != [] {
      var first, rest := Prefixed(outputs[0], values), Product(outputs[1..], values);
      InProduct(outputs[1..], values, text);
      assert text in first <==> exists v :: v in values && text == outputs[0] + v by {
        InPrefixed(outputs[0], values, text); }
      assert text in Product(outputs, values) <==> text in first || text in rest;
      forall s ensures s in outputs <==> s == outputs[0] || s in outputs[1..] {}
    }
  }

  lemma InPrefixed(head: string, values: seq<string>, text: string)
    ensures text in Prefixed(head, values) <==> exists v :: v in values && text == head + v
  {
    if v :| v in values && text == head + v {
      var k :| 0 <= k < |values| && values[k] == v;
      assert Prefixed(head, values)[k] == text;
    }
  }

  // ----- what is returned without a marker -----

  lemma CharacterJoins(outputs: seq<string>, body: string, names: Names, levels: nat, text: string)
    requires body != "" && !OpensHole(body)
    ensures Joins(AppendTo(outputs, [body[0]]), body[1..], names, levels, text)
            <==> Joins(outputs, body, names, levels, text)
  {
    var longer := AppendTo(outputs, [body[0]]);
    if s, t :| s in longer && text == s + t && Denotes(body[1..], names, t, levels) {
      CharacterTaken(outputs, body, names, levels, s, t);
    }
    if s, t :| s in outputs && text == s + t && Denotes(body, names, t, levels) {
      CharacterAdded(outputs, body, names, levels, s, t);
    }
  }

  lemma CharacterTaken(outputs: seq<string>, body: string, names: Names, levels: nat, s: string, t: string)
    requires body != "" && !OpensHole(body)
    requires s in AppendTo(outputs, [body[0]]) && Denotes(body[1..], names, t, levels)
    ensures Joins(outputs, body, names, levels, s + t)
  {
    var k :| 0 <= k < |outputs| && AppendTo(outputs, [body[0]])[k] == s;
    CharacterDenotes(body, names, levels, t);
    assert outputs[k] in outputs && s + t == outputs[k] + ([body[0]] + t);
  }

  lemma CharacterAdded(outputs: seq<string>, body: string, names: Names, levels: nat, s: string, t: string)
    requires body != "" && !OpensHole(body) && s in outputs && Denotes(body, names, t, levels)
    ensures Joins(AppendTo(outputs, [body[0]]), body[1..], names, levels, s + t)
  {
    var k :| 0 <= k < |outputs| && outputs[k] == s;
    var longer := AppendTo(outputs, [body[0]]);
    assert longer[k] in longer && t == [body[0]] + t[1..] && s + t == longer[k] + t[1..];
  }

  lemma CharacterDenotes(body: string, names: Names, levels: nat, t: string)
    requires body != "" && !OpensHole(body)
    ensures Denotes(body, names, [body[0]] + t, levels) <==> Denotes(body[1..], names, t, levels)
  {
    assert ([body[0]] + t)[1..] == t;
  }

  lemma HoleJoins(outputs: seq<string>, body: string, names: Names, levels: nat, s: string, v: string, t: string)
    requires OpensHole(body) && s in outputs && HoleDenotes(HoleText(body), names, v, levels)
    requires Denotes(body[HoleEnd(body, 2, 1)..], names, t, levels)
    ensures Joins(outputs, body, names, levels, s + (v + t))
  {
    var text := v + t;
    assert text[..|v|] == v && text[|v|..] == t;
    assert Denotes(body, names, text, levels);
  }

  /** What is returned without a marker goes on from one of the outputs with what the template denotes. */
  lemma {:induction false} MarkerFreeJoins(body: string, names: Names, depth: nat, outputs: seq<string>, text: string)
    requires text in Expand(body, names, depth, outputs) && MARKER !in text
    ensures Joins(outputs, body, names, Levels(depth), text)
    decreases Levels(depth), 1, |body|
  {
    if body == "" {
      assert text == text + "" && Denotes(body, names, "", Levels(depth));
    } else if !OpensHole(body) {
      MarkerFreeJoins(body[1..], names, depth, AppendTo(outputs, [body[0]]), text);
      CharacterJoins(outputs, body, names, Levels(depth), text);
    } else {
      var values := Capped(outputs, Resolve(HoleText(body), names, depth));
      var rest := body[HoleEnd(body, 2, 1)..];
      MarkerFreeJoins(rest, names, depth, Product(outputs, values), text);
      var s, v, t := SplitJoin(outputs, values, rest, names, Levels(depth), text);
      ReadableParts(s, v, t, text);
      MarkerFreeValue(outputs, HoleText(body), names, depth, v);
      HoleJoins(outputs, body, names, Levels(depth), s, v, t);
    }
  }

  lemma SplitJoin(outputs: seq<string>, values: seq<string>, rest: string, names: Names, levels: nat, text: string)
    returns (s: string, v: string, t: string)
    requires Joins(Product(outputs, values), rest, names, levels, text)
    ensures s in outputs && v in values && Denotes(rest, names, t, levels) && text == s + (v + t) == s + v + t
  {
    var longer, tail :| longer in Product(outputs, values) && text == longer + tail
        && Denotes(rest, names, tail, levels);
    InProduct(outputs, values, longer);
    s, v :| s in outputs && v in values && longer == s + v;
    t := tail;
  }

  lemma {:induction false} MarkerFreeValue(outputs: seq<string>, expression: string, names: Names, depth: nat,
                                           v: string)
    requires v in Capped(outputs, Resolve(expression, names, depth)) && MARKER !in v
    ensures HoleDenotes(expression, names, v, Levels(depth))
    decreases Levels(depth), 0, 1
  {
    assert UNKNOWN[0] == MARKER;
    MarkerFreeResolves(expression, names, depth, v);
  }

  lemma ReadableParts(s: string, v: string, t: string, text: string)
    requires text == s + v + t && MARKER !in text
    ensures MARKER !in v
  {
    forall k | 0 <= k < |v| ensures v[k] != MARKER { assert text[|s| + k] == v[k]; }
  }

  lemma {:induction false} MarkerFreeResolves(expression: string, names: Names, depth: nat, v: string)
    requires v in Resolve(expression, names, depth) && MARKER !in v
    ensures HoleDenotes(expression, names, v, Levels(depth))
    decreases Levels(depth), 0, 0
  {
    var values := ValuesOf(expression, names);
    assert UNKNOWN[0] == MARKER;
    if depth < 4 && values != [] {
      var i := MarkerFreeOfAll(values, names, depth + 1, v);
      assert Denotes(values[i], names, v, Levels(depth) - 1);
    }
  }

  lemma {:induction false} MarkerFreeOfAll(values: seq<string>, names: Names, depth: nat, v: string) returns (i: nat)
    requires v in ExpandAll(values, names, depth) && MARKER !in v
    ensures i < |values| && Denotes(values[i], names, v, Levels(depth))
    decreases Levels(depth), 2, |values|
  {
    var first := Expand(values[0], names, depth, [""]);
    if v in first {
      MarkerFreeJoins(values[0], names, depth, [""], v);
      var s, t :| s in [""] && v == s + t && Denotes(values[0], names, t, Levels(depth));
      assert v == t;
      i := 0;
    } else {
      var k := MarkerFreeOfAll(values[1..], names, depth, v);
      i := k + 1;
    }
  }

  /** Every path returned without a marker is one the template denotes. */
  lemma MarkerFreeIsDenoted(body: string, names: Names, text: string)
    requires text in Expand(body, names, 0, [""]) && MARKER !in text
    ensures Denotes(body, names, text, 4)
  {
    MarkerFreeJoins(body, names, 0, [""], text);
    var s, t :| s in [""] && text == s + t && Denotes(body, names, t, 4);
    assert text == t;
  }

  // ----- exact expansions -----

  /** Every hole names values, and so do theirs, to this many levels at most. */
  predicate IsNamed(body: string, names: Names, levels: nat)
    decreases levels, 1, |body|
  {
    if body == "" then true
    else if !OpensHole(body) then IsNamed(body[1..], names, levels)
    else
      var values := ValuesOf(HoleText(body), names);
      && values != [] && levels > 0 && AreNamed(values, names, levels - 1)
      && IsNamed(body[HoleEnd(body, 2, 1)..], names, levels)
  }

  predicate AreNamed(values: seq<string>, names: Names, levels: nat)
    decreases levels, 2, |values|
  {
    if values == [] then true else IsNamed(values[0], names, levels) && AreNamed(values[1..], names, levels)
  }

  /** How many ways there are to choose a value for every hole. */
  function Choices(body: string, names: Names, levels: nat): nat
    requires IsNamed(body, names, levels)
    decreases levels, 1, |body|
  {
    if body == "" then 1
    else if !OpensHole(body) then Choices(body[1..], names, levels)
    else
      AllChoices(ValuesOf(HoleText(body), names), names, levels - 1)
      * Choices(body[HoleEnd(body, 2, 1)..], names, levels)
  }

  function AllChoices(values: seq<string>, names: Names, levels: nat): nat
    requires AreNamed(values, names, levels)
    decreases levels, 2, |values|
  {
    if values == [] then 0 else Choices(values[0], names, levels) + AllChoices(values[1..], names, levels)
  }

  lemma {:induction false} SomeChoice(body: string, names: Names, levels: nat)
    requires IsNamed(body, names, levels)
    ensures Choices(body, names, levels) >= 1
    decreases levels, 1, |body|
  {
    if body != "" && !OpensHole(body) {
      SomeChoice(body[1..], names, levels);
    } else if body != "" {
      var values := ValuesOf(HoleText(body), names);
      SomeChoice(values[0], names, levels - 1);
      SomeChoice(body[HoleEnd(body, 2, 1)..], names, levels);
      AtLeast(AllChoices(values, names, levels - 1), Choices(body[HoleEnd(body, 2, 1)..], names, levels));
    }
  }

  lemma AtLeast(a: nat, b: nat)
    requires a >= 1 && b >= 1
    ensures a * b >= a >= 1 && a * b >= b
  {
    assert a * b == a + a * (b - 1) == b + (a - 1) * b;
    assert a * (b - 1) >= 0 && (a - 1) * b >= 0;
  }

  lemma Regroup(outputs: nat, values: nat, rest: nat)
    requires outputs >= 1 && rest >= 1 && outputs * (values * rest) <= 64
    ensures outputs * values <= 64 && outputs * values * rest == outputs * (values * rest)
    ensures values <= outputs * values
  {
    assert outputs * values * rest == outputs * (values * rest);
    if values >= 1 {
      AtLeast(outputs, values);
      AtLeast(outputs * values, rest);
    } else {
      assert outputs * values == 0;
    }
  }

  /** As many paths as choices, and each goes on from an output with what the template denotes; and all that do. */
  ghost predicate IsExact(body: string, names: Names, depth: nat, outputs: seq<string>, levels: nat)
    requires IsNamed(body, names, levels)
  {
    && |Expand(body, names, depth, outputs)| == |outputs| * Choices(body, names, levels)
    && forall text :: text in Expand(body, names, depth, outputs) <==> Joins(outputs, body, names, levels, text)
  }

  lemma {:induction false} ExpansionIsExact(body: string, names: Names, depth: nat, outputs: seq<string>, levels: nat)
    requires IsNamed(body, names, levels) && levels <= Levels(depth)
    requires outputs != [] && |outputs| * Choices(body, names, levels) <= 64
    ensures IsExact(body, names, depth, outputs, levels)
    decreases levels, 1, |body|
  {
    if body == "" {
      forall text ensures text in outputs <==>
          Joins(outputs, body, names, levels, text) { NothingJoins(outputs, names, levels, text); }
    } else if !OpensHole(body) {
      var longer := AppendTo(outputs, [body[0]]);
      ExpansionIsExact(body[1..], names, depth, longer, levels);
      forall text ensures text in Expand(body, names, depth, outputs) <==> Joins(outputs, body, names, levels, text) {
        CharacterJoins(outputs, body, names, levels, text);
      }
    } else {
      HoleIsExact(body, names, depth, outputs, levels);
    }
  }

  lemma NothingJoins(outputs: seq<string>, names: Names, levels: nat, text: string)
    ensures text in outputs <==> Joins(outputs, "", names, levels, text)
  {
    if text in outputs { assert text == text + "" && Denotes("", names, "", levels); }
    if s, t :| s in outputs && text == s + t && Denotes("", names, t, levels) { assert t == "" && text == s; }
  }

  lemma {:induction false} HoleIsExact(body: string, names: Names, depth: nat, outputs: seq<string>, levels: nat)
    requires OpensHole(body) && IsNamed(body, names, levels) && levels <= Levels(depth)
    requires outputs != [] && |outputs| * Choices(body, names, levels) <= 64
    ensures IsExact(body, names, depth, outputs, levels)
    decreases levels, 1, |body|, 0
  {
    var values, rest := ValuesOf(HoleText(body), names), body[HoleEnd(body, 2, 1)..];
    var some, others := AllChoices(values, names, levels - 1), Choices(rest, names, levels);
    var resolved := Resolve(HoleText(body), names, depth);
    SomeChoice(rest, names, levels);
    SomeChoice(values[0], names, levels - 1);
    AtLeast(|outputs|, some);
    Regroup(|outputs|, some, others);
    ValuesAreExact(values, names, depth + 1, levels - 1);
    assert resolved == ExpandAll(values, names, depth + 1) && Capped(outputs, resolved) == resolved;
    var longer := Product(outputs, resolved);
    ExpansionIsExact(rest, names, depth, longer, levels);
    forall text ensures text in Expand(body, names, depth, outputs) <==> Joins(outputs, body, names, levels, text) {
      HoleJoinsExactly(outputs, body, names, levels, resolved, text);
    }
  }

  lemma HoleJoinsExactly(outputs: seq<string>, body: string, names: Names, levels: nat, resolved: seq<string>,
                         text: string)
    requires OpensHole(body)
    requires forall v :: v in resolved <==> HoleDenotes(HoleText(body), names, v, levels)
    ensures Joins(Product(outputs, resolved), body[HoleEnd(body, 2, 1)..], names, levels, text)
            <==> Joins(outputs, body, names, levels, text)
  {
    var rest := body[HoleEnd(body, 2, 1)..];
    if Joins(Product(outputs, resolved), rest, names, levels, text) {
      var s, v, t := SplitJoin(outputs, resolved, rest, names, levels, text);
      HoleJoins(outputs, body, names, levels, s, v, t);
    }
    if s, t :| s in outputs && text == s + t && Denotes(body, names, t, levels) {
      HoleSplits(outputs, body, names, levels, resolved, s, t);
    }
  }

  lemma HoleSplits(outputs: seq<string>, body: string, names: Names, levels: nat, resolved: seq<string>,
                   s: string, t: string)
    requires OpensHole(body) && s in outputs && Denotes(body, names, t, levels)
    requires forall v :: v in resolved <==> HoleDenotes(HoleText(body), names, v, levels)
    ensures Joins(Product(outputs, resolved), body[HoleEnd(body, 2, 1)..], names, levels, s + t)
  {
    var rest := body[HoleEnd(body, 2, 1)..];
    var k :| 0 <= k <= |t| && HoleDenotes(HoleText(body), names, t[..k], levels)
        && Denotes(rest, names, t[k..], levels);
    InProduct(outputs, resolved, s + t[..k]);
    Rejoined(s, t, k);
    assert s + t[..k] in Product(outputs, resolved);
  }

  lemma Rejoined(s: string, t: string, k: nat)
    requires k <= |t|
    ensures s + t == s + t[..k] + t[k..]
  {}

  lemma {:induction false} ValuesAreExact(values: seq<string>, names: Names, depth: nat, levels: nat)
    requires AreNamed(values, names, levels) && levels <= Levels(depth)
             && AllChoices(values, names, levels) <= 64
    ensures |ExpandAll(values, names, depth)| == AllChoices(values, names, levels)
    ensures forall v :: v in ExpandAll(values, names, depth) <==>
              exists i :: 0 <= i < |values| && Denotes(values[i], names, v, levels)
    decreases levels, 2, |values|
  {
    if values != [] {
      var first, others := Expand(values[0], names, depth, [""]), ExpandAll(values[1..], names, depth);
      ExpansionIsExact(values[0], names, depth, [""], levels);
      ValuesAreExact(values[1..], names, depth, levels);
      forall v ensures v in first + others <==> exists i :: 0 <= i < |values| && Denotes(values[i], names, v, levels) {
        OneMoreValue(values, names, levels, v);
        FromNothing(values[0], names, levels, v);
      }
    }
  }

  lemma FromNothing(body: string, names: Names, levels: nat, text: string)
    ensures Joins([""], body, names, levels, text) <==> Denotes(body, names, text, levels)
  {
    assert "" in [""] && text == "" + text;
    if s, t :| s in [""] && text == s + t && Denotes(body, names, t, levels) { assert text == t; }
  }

  lemma OneMoreValue(values: seq<string>, names: Names, levels: nat, v: string)
    requires values != []
    ensures (exists i :: 0 <= i < |values| && Denotes(values[i], names, v, levels)) <==>
            Denotes(values[0], names, v, levels)
            || exists i :: 0 <= i < |values[1..]| && Denotes(values[1..][i], names, v, levels)
  {
    if i :| 0 <= i < |values[1..]| && Denotes(values[1..][i], names, v, levels) {
      assert values[i + 1] == values[1..][i]; }
    if i :| 0 < i < |values| && Denotes(values[i], names, v, levels) { assert values[1..][i - 1] == values[i]; }
  }

  /** When every hole names values, to at most four levels, and there are at most 64 ways to choose, the paths returned
      are exactly the texts the template denotes. */
  lemma NothingIsCollapsed(body: string, names: Names, levels: nat)
    requires IsNamed(body, names, levels) && levels <= 4 && Choices(body, names, levels) <= 64
    ensures forall text :: text in Expand(body, names, 0, [""]) <==> Denotes(body, names, text, levels)
    ensures |Expand(body, names, 0, [""])| == Choices(body, names, levels)
  {
    ExpansionIsExact(body, names, 0, [""], levels);
    forall text ensures text in Expand(body, names, 0, [""]) <==> Denotes(body, names, text, levels) {
      FromNothing(body, names, levels, text);
    }
  }
}
