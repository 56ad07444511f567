/** What a hole of a path template is looked up as, said of the text between its braces. */
module TemplateNames {
  import opened Options
  import opened RouteTemplates
  import opened Text

  // ----- names -----

  predicate IsNameAt(s: string, from: nat, end: nat) {
    && from < end <= |s| && !('0' <= s[from] <= '9')
    && forall k | from <= k < end ::
         'a' <= s[k] <= 'z' || 'A' <= s[k] <= 'Z' || '0' <= s[k] <= '9' || s[k] == '_' || s[k] == '$'
  }

  predicate SpacesLeadTo(s: string, end: nat, next: nat) {
    end <= next <= |s| && (forall k | end <= k < next :: IsSpace(s[k])) && (next == |s| || s[next] == '(')
  }

  /** After white space the text ends, or something is called. */
  ghost predicate EndsOrCalls(s: string, end: nat) {
    exists next: nat :: SpacesLeadTo(s, end, next)
  }

  /** Names that start at these offsets, a dot between each two; the last of them is the whole rest, or is called. */
  ghost predicate IsChain(s: string, starts: seq<nat>, end: nat) {
    && starts != []
    && (forall k | 0 <= k < |starts| - 1 :: DotsOn(s, starts[k], starts[k + 1]))
    && IsNameAt(s, starts[|starts| - 1], end) && EndsOrCalls(s, end)
  }

  predicate DotsOn(s: string, from: nat, next: nat) {
    0 < next <= |s| && IsNameAt(s, from, next - 1) && s[next - 1] == '.'
  }

  /** The name an expression goes by: it ends the text or is called there, perhaps reached through others. */
  ghost predicate GoesBy(s: string, name: string) {
    exists starts: seq<nat>, end: nat :: IsChain(s, starts, end) && starts[0] == 0
        && s[starts[|starts| - 1]..end] == name
  }

  lemma {:induction false} NameGoesOn(s: string, from: nat, end: nat)
    requires from <= end <= |s| && (forall k | from <= k < end :: ContinuesName(s[k]))
    requires end == |s| || !ContinuesName(s[end])
    ensures NameEnd(s, from) == end
    decreases end - from
  {
    if from < end { NameGoesOn(s, from + 1, end); }
  }

  lemma {:induction false} NameStops(s: string, from: nat, end: nat)
    requires from <= |s| && end == NameEnd(s, from)
    ensures (forall k | from <= k < end :: ContinuesName(s[k])) && (end == |s| || !ContinuesName(s[end]))
    decreases |s| - from
  {
    if from < |s| && ContinuesName(s[from]) { NameStops(s, from + 1, end); }
  }

  lemma {:induction false} SpacesGoOn(s: string, from: nat, end: nat)
    requires from <= end <= |s| && (forall k | from <= k < end :: IsSpace(s[k])) && (end == |s| || !IsSpace(s[end]))
    ensures SpaceEnd(s, from) == end
    decreases end - from
  {
    if from < end { SpacesGoOn(s, from + 1, end); }
  }

  lemma {:induction false} SpacesStop(s: string, from: nat, end: nat)
    requires from <= |s| && end == SpaceEnd(s, from)
    ensures (forall k | from <= k < end :: IsSpace(s[k])) && (end == |s| || !IsSpace(s[end]))
    decreases |s| - from
  {
    if from < |s| && IsSpace(s[from]) { SpacesStop(s, from + 1, end); }
  }

  lemma CallIsRead(s: string, end: nat)
    requires end <= |s| && EndsOrCalls(s, end)
    ensures end < |s| ==> s[end] != '.' && !ContinuesName(s[end])
    ensures var next := SpaceEnd(s, end); next == |s| || s[next] == '('
  {
    var next: nat :| SpacesLeadTo(s, end, next);
    SpacesGoOn(s, end, next);
  }

  lemma LastOfChain(s: string, from: nat, end: nat)
    requires IsNameAt(s, from, end) && EndsOrCalls(s, end)
    ensures CalleeName(s, from) == Some(s[from..end])
  {
    CallIsRead(s, end);
    NameGoesOn(s, from + 1, end);
  }

  lemma DotIsRead(s: string, from: nat, next: nat)
    requires DotsOn(s, from, next)
    ensures CalleeName(s, from) == CalleeName(s, next)
  {
    NameGoesOn(s, from + 1, next - 1);
  }

  lemma {:induction false} ChainIsRead(s: string, starts: seq<nat>, end: nat, k: nat, name: string)
    requires IsChain(s, starts, end) && k < |starts| && name == s[starts[|starts| - 1]..end]
    ensures starts[k] <= |s| && CalleeName(s, starts[k]) == Some(name)
    decreases |starts| - k
  {
    if k == |starts| - 1 {
      LastOfChain(s, starts[k], end);
    } else {
      ChainIsRead(s, starts, end, k + 1, name);
      DotIsRead(s, starts[k], starts[k + 1]);
    }
  }

  lemma {:induction false} ChainIsThere(s: string, from: nat) returns (starts: seq<nat>, end: nat)
    requires from <= |s| && CalleeName(s, from).Some?
    ensures IsChain(s, starts, end) && starts[0] == from
    ensures CalleeName(s, from) == Some(s[starts[|starts| - 1]..end])
    decreases |s| - from
  {
    end := NameEnd(s, from + 1);
    if end < |s| && s[end] == '.' {
      var next, later := end + 1, [];
      DotIsThere(s, from, end);
      later, end := ChainIsThere(s, next);
      starts := [from] + later;
      ChainGrows(s, from, later, end, starts);
    } else {
      LastIsThere(s, from, end);
      starts := [from];
    }
  }

  lemma DotIsThere(s: string, from: nat, end: nat)
    requires from <= |s| && CalleeName(s, from).Some? && end == NameEnd(s, from + 1)
    requires end < |s| && s[end] == '.'
    ensures DotsOn(s, from, end + 1) && CalleeName(s, from) == CalleeName(s, end + 1)
  {
    NameStops(s, from + 1, end);
  }

  lemma LastIsThere(s: string, from: nat, end: nat)
    requires from <= |s| && CalleeName(s, from).Some? && end == NameEnd(s, from + 1)
    requires end == |s| || s[end] != '.'
    ensures IsNameAt(s, from, end) && EndsOrCalls(s, end) && CalleeName(s, from) == Some(s[from..end])
  {
    NameStops(s, from + 1, end);
    var next := SpaceEnd(s, end);
    SpacesStop(s, end, next);
    assert SpacesLeadTo(s, end, next);
  }

  lemma ChainGrows(s: string, from: nat, later: seq<nat>, end: nat, starts: seq<nat>)
    requires IsChain(s, later, end) && DotsOn(s, from, later[0]) && starts == [from] + later
    ensures IsChain(s, starts, end) && starts[|starts| - 1] == later[|later| - 1]
  {
    forall k | 0 <= k < |starts| - 1 ensures DotsOn(s, starts[k], starts[k + 1]) {
      if k > 0 { assert DotsOn(s, later[k - 1], later[k - 1 + 1]); }
    }
  }

  /** An expression goes by one name at most, and it is the one that is read. */
  lemma CalleeIsExact(s: string, name: string)
    ensures CalleeName(s, 0) == Some(name) <==> GoesBy(s, name)
  {
    if CalleeName(s, 0) == Some(name) {
      var starts, end := ChainIsThere(s, 0);
    }
    if GoesBy(s, name) {
      var starts: seq<nat>, end: nat :| IsChain(s, starts, end) && starts[0] == 0
          && s[starts[|starts| - 1]..end] == name;
      ChainIsRead(s, starts, end, 0, name);
    }
  }

  /** A hole stands for the values of the name it goes by, and for none if it goes by no name that is known. */
  lemma ValuesAreExact(expression: string, names: Names, name: string)
    ensures GoesBy(expression, name) && name in names ==> ValuesOf(expression, names) == names[name]
    ensures GoesBy(expression, name) && name !in names ==> ValuesOf(expression, names) == []
    ensures (forall other :: !GoesBy(expression, other)) ==> ValuesOf(expression, names) == []
  {
    CalleeIsExact(expression, name);
    var found := CalleeName(expression, 0);
    if found.Some? { CalleeIsExact(expression, found.value); }
  }

  // ----- holes -----

  predicate AreSpaces(s: string) {
    forall k | 0 <= k < |s| :: IsSpace(s[k])
  }

  function BraceDepth(s: string): int {
    if s == "" then 0
    else
      var last := s[|s| - 1];
      BraceDepth(s[..|s| - 1]) + if last == '{' then 1 else if last == '}' then -1 else 0
  }

  /** Every closing brace has its opening one before it. */
  predicate StaysInside(inner: string) {
    forall k | 0 <= k <= |inner| :: BraceDepth(inner[..k]) >= 0
  }

  lemma {:induction false} HoleGoesOn(body: string, inner: string, k: nat)
    requires k <= |inner| && |body| >= |inner| + 2 && body[2..|inner| + 2] == inner && StaysInside(inner)
    ensures BraceDepth(inner[..k]) >= 0 && HoleEnd(body, 2, 1) == HoleEnd(body, 2 + k, 1 + BraceDepth(inner[..k]))
  {
    if k > 0 {
      HoleGoesOn(body, inner, k - 1);
      var before := inner[..k - 1];
      assert inner[..k][..k - 1] == before && inner[k - 1] == body[2 + k - 1];
    }
  }

  /** What `trim` leaves: no white space at either end, and nothing but white space taken off. */
  predicate IsTrimmed(s: string, before: string, trimmed: string, after: string) {
    && s == before + trimmed + after && AreSpaces(before) && AreSpaces(after)
    && (trimmed == "" ==> after == "") && (trimmed != "" ==> !IsSpace(trimmed[0]) && !IsSpace(trimmed[|trimmed| - 1]))
  }

  lemma {:induction false} StartIsTrimmed(before: string, rest: string)
    requires AreSpaces(before) && (rest == "" || !IsSpace(rest[0]))
    ensures TrimStart(before + rest) == rest
  {
    if before == "" {
      assert before + rest == rest;
    } else {
      assert (before + rest)[1..] == before[1..] + rest;
      StartIsTrimmed(before[1..], rest);
    }
  }

  lemma {:induction false} EndIsTrimmed(rest: string, after: string)
    requires AreSpaces(after) && (rest == "" || !IsSpace(rest[|rest| - 1]))
    ensures TrimEnd(rest + after) == rest
  {
    if after == "" {
      assert rest + after == rest;
    } else {
      var s := rest + after;
      assert s[..|s| - 1] == rest + after[..|after| - 1] && s[|s| - 1] == after[|after| - 1];
      EndIsTrimmed(rest, after[..|after| - 1]);
    }
  }

  lemma Trims(s: string, before: string, trimmed: string, after: string)
    requires IsTrimmed(s, before, trimmed, after)
    ensures TrimEnd(TrimStart(s)) == trimmed
  {
    assert s == before + (trimmed + after);
    if trimmed == "" { assert trimmed + after == ""; }
    StartIsTrimmed(before, trimmed + after);
    EndIsTrimmed(trimmed, after);
  }

  lemma HoleSpelled(body: string, inner: string, rest: string)
    requires body == "${" + inner + "}" + rest
    ensures OpensHole(body) && body[2..|inner| + 2] == inner && body[|inner| + 2] == '}' && body[|inner| + 3..] == rest
  {}

  /** A hole ends at the brace that balances its own, and its text is what stands between them, trimmed. */
  lemma HoleIsBalanced(inner: string, rest: string, before: string, trimmed: string, after: string)
    requires StaysInside(inner) && BraceDepth(inner) == 0 && IsTrimmed(inner, before, trimmed, after)
    ensures var body := "${" + inner + "}" + rest;
            OpensHole(body) && body[HoleEnd(body, 2, 1)..] == rest && HoleText(body) == trimmed
  {
    var body := "${" + inner + "}" + rest;
    HoleSpelled(body, inner, rest);
    BalancedEnds(body, inner);
    Trims(inner, before, trimmed, after);
  }

  lemma BalancedEnds(body: string, inner: string)
    requires StaysInside(inner) && BraceDepth(inner) == 0
    requires |body| > |inner| + 2 && body[2..|inner| + 2] == inner && body[|inner| + 2] == '}'
    ensures HoleEnd(body, 2, 1) == |inner| + 3
  {
    HoleGoesOn(body, inner, |inner|);
    assert inner[..|inner|] == inner;
  }

  /** A hole that is never closed runs to the end, and its last character is taken for the brace. */
  lemma OpenHole(inner: string, last: char, before: string, trimmed: string, after: string)
    requires StaysInside(inner + [last]) && IsTrimmed(inner, before, trimmed, after)
    ensures var body := "${" + inner + [last];
            OpensHole(body) && HoleEnd(body, 2, 1) == |body| && HoleText(body) == trimmed
  {
    var body, all := "${" + inner + [last], inner + [last];
    assert body[2..|all| + 2] == all && body[2..|body| - 1] == inner;
    HoleGoesOn(body, all, |all|);
    assert all[..|all|] == all;
    Trims(inner, before, trimmed, after);
  }
}
