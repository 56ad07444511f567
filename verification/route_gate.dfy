/** The gate: its findings, its allowlist, and whether a changed verb can go unnoticed. */
module RouteGate {
  import opened RoutePaths
  import opened Text

  const HTTP_VERBS: set<string> := {"GET", "POST", "PUT", "PATCH", "DELETE", "HEAD", "OPTIONS"}

  /** Stands for the verb of a dial whose verb is unreadable; it is compatible with every verb. */
  const ANY_VERB := "*"

  datatype Route = Route(verb: string, path: string)

  /** What a client sends. Verbs are upper-case words, or `ANY_VERB`; either way they hold no space. */
  datatype Dial = Dial(verb: string, path: string)

  datatype Direction = Unserved | Unreached | VerbUnproven

  datatype Finding = Finding(direction: Direction, target: string)

  predicate VerbMatches(routeVerb: string, clientVerb: string) {
    clientVerb == ANY_VERB || routeVerb == clientVerb
  }

  predicate Agrees(route: Route, dial: Dial) {
    VerbMatches(route.verb, dial.verb) && PathMatches(route.path, dial.path)
  }

  function Target(verb: string, path: string): string {
    verb + " " + path
  }

  function Word(direction: Direction): string {
    match direction
    case Unserved => "unserved"
    case Unreached => "unreached"
    case VerbUnproven => "verb-unproven"
  }

  /** A finding's key, which is also the allowlist line that exempts it. */
  function Key(finding: Finding): string {
    Word(finding.direction) + " " + finding.target
  }

  /** Routes carry one of the known verbs, and no dialled verb holds a space. */
  ghost predicate Readable(routes: seq<Route>, dials: seq<Dial>) {
    (forall i | 0 <= i < |routes| :: routes[i].verb in HTTP_VERBS)
        && (forall i | 0 <= i < |dials| :: ' ' !in dials[i].verb)
  }

  // ----- what there is to find -----

  ghost predicate Served(routes: seq<Route>, dial: Dial) {
    exists i :: 0 <= i < |routes| && Agrees(routes[i], dial)
  }

  ghost predicate Reached(route: Route, dials: seq<Dial>) {
    exists i :: 0 <= i < |dials| && Agrees(route, dials[i])
  }

  /** Some dial that reaches the route names its verb. */
  ghost predicate Proven(route: Route, dials: seq<Dial>) {
    exists i :: 0 <= i < |dials| && Agrees(route, dials[i]) && dials[i].verb != ANY_VERB
  }

  ghost predicate IsUnserved(routes: seq<Route>, dials: seq<Dial>, target: string) {
    exists i :: 0 <= i < |dials| && !Served(routes, dials[i]) && target == Target(dials[i].verb, dials[i].path)
  }

  /** What the gate says of one route: nothing, unreached, or reached with its verb unproven. */
  ghost predicate SaidOf(route: Route, dials: seq<Dial>, finding: Finding) {
    && finding.target == Target(route.verb, route.path)
    && match finding.direction
       case Unserved => false
       case Unreached => !Reached(route, dials)
       case VerbUnproven => Reached(route, dials) && !Proven(route, dials)
  }

  ghost predicate IsFinding(routes: seq<Route>, dials: seq<Dial>, finding: Finding) {
    if finding.direction == Unserved then IsUnserved(routes, dials, finding.target)
    else exists i :: 0 <= i < |routes| && SaidOf(routes[i], dials, finding)
  }

  /** The gate passes when the keys of its findings are exactly the keys of the allowlist. */
  ghost predicate Passes(routes: seq<Route>, dials: seq<Dial>, allowed: set<Finding>) {
    forall finding :: IsFinding(routes, dials, finding) <==> finding in allowed
  }

  // ----- the gate as it runs -----

  method AnyAgrees(routes: seq<Route>, dial: Dial) returns (served: bool)
    ensures served <==> Served(routes, dial)
  {
    for i := 0 to |routes|
      invariant forall k | 0 <= k < i :: !Agrees(routes[k], dial)
    {
      if Agrees(routes[i], dial) { return true; }
    }
    return false;
  }

  method FindUnserved(routes: seq<Route>, dials: seq<Dial>) returns (findings: seq<Finding>)
    ensures forall finding :: finding in findings <==>
            finding.direction == Unserved && IsUnserved(routes, dials, finding.target)
    ensures forall i, j | 0 <= i < j < |findings| :: findings[i] != findings[j]
  {
    findings := [];
    var seen: set<string> := {};
    for i := 0 to |dials|
      invariant forall finding :: finding in findings <==>
                finding.direction == Unserved && IsUnserved(routes, dials[..i], finding.target)
      invariant forall target :: target in seen <==> Finding(Unserved, target) in findings
      invariant forall j, k | 0 <= j < k < |findings| :: findings[j] != findings[k]
    {
      assert dials[..i + 1] == dials[..i] + [dials[i]];
      UnservedGrows(routes, dials[..i], dials[i]);
      var served := AnyAgrees(routes, dials[i]);
      if served { continue; }
      var target := Target(dials[i].verb, dials[i].path);
      if target in seen { continue; }
      seen := seen + {target};
      findings := findings + [Finding(Unserved, target)];
    }
    assert dials[..|dials|] == dials;
  }

  lemma UnservedGrows(routes: seq<Route>, dials: seq<Dial>, dial: Dial)
    ensures forall target :: IsUnserved(routes, dials + [dial], target)
                         <==> (|| IsUnserved(routes, dials, target)
                               || (!Served(routes, dial) && target == Target(dial.verb, dial.path)))
  {
    var longer := dials + [dial];
    forall target | IsUnserved(routes, dials, target) ensures IsUnserved(routes, longer, target) {
      var i :| 0 <= i < |dials| && !Served(routes, dials[i]) && target == Target(dials[i].verb, dials[i].path);
      assert longer[i] == dials[i];
    }
    assert longer[|dials|] == dial;
  }

  /** Reads one route against all dials. */
  method ReachOf(route: Route, dials: seq<Dial>) returns (reached: bool, proven: bool)
    ensures reached <==> Reached(route, dials)
    ensures proven <==> Proven(route, dials)
  {
    reached, proven := false, false;
    for i := 0 to |dials|
      invariant reached <==> exists k :: 0 <= k < i && Agrees(route, dials[k])
      invariant proven <==> exists k :: 0 <= k < i && Agrees(route, dials[k]) && dials[k].verb != ANY_VERB
    {
      if Agrees(route, dials[i]) {
        reached := true;
        if dials[i].verb != ANY_VERB { proven := true; }
      }
    }
  }

  method FindUnreached(routes: seq<Route>, dials: seq<Dial>) returns (findings: seq<Finding>)
    ensures forall finding :: finding in findings <==>
            exists i :: 0 <= i < |routes| && SaidOf(routes[i], dials, finding)
    ensures forall i, j | 0 <= i < j < |findings| :: findings[i] != findings[j]
  {
    findings := [];
    var seenUnreached: set<string>, seenUnproven: set<string> := {}, {};
    for i := 0 to |routes|
      invariant forall finding :: finding in findings <==> exists k :: 0 <= k < i && SaidOf(routes[k], dials, finding)
      invariant forall target :: target in seenUnreached <==> Finding(Unreached, target) in findings
      invariant forall target :: target in seenUnproven <==> Finding(VerbUnproven, target) in findings
      invariant forall j, k | 0 <= j < k < |findings| :: findings[j] != findings[k]
    {
      var target := Target(routes[i].verb, routes[i].path);
      var reached, proven := ReachOf(routes[i], dials);
      if !reached {
        if target in seenUnreached { continue; }
        seenUnreached := seenUnreached + {target};
        findings := findings + [Finding(Unreached, target)];
        continue;
      }
      if proven { continue; }
      if target in seenUnproven { continue; }
      seenUnproven := seenUnproven + {target};
      findings := findings + [Finding(VerbUnproven, target)];
    }
  }

  /** Findings held against the allowlist by their printed keys: what is not exempt, and what is exempted in vain. */
  method Reconcile(findings: seq<Finding>, allowed: seq<Finding>) returns (unallowed: seq<Finding>, stale: seq<Finding>)
    ensures forall finding :: finding in unallowed <==> finding in findings && finding !in allowed
    ensures forall finding :: finding in stale <==> finding in allowed && finding !in findings
  {
    var allowedKeys: set<string> := set finding | finding in allowed :: Key(finding);
    var matched: set<string> := {};
    unallowed, stale := [], [];
    for i := 0 to |findings|
      invariant forall finding :: finding in unallowed <==> finding in findings[..i] && finding !in allowed
      invariant forall key :: key in matched <==>
                exists finding :: finding in findings[..i] && finding in allowed && key == Key(finding)
    {
      KeysOfAllowed(findings[i], allowed);
      assert findings[..i + 1] == findings[..i] + [findings[i]];
      if Key(findings[i]) in allowedKeys {
        matched := matched + {Key(findings[i])};
      } else {
        unallowed := unallowed + [findings[i]];
      }
    }
    assert findings[..|findings|] == findings;
    for i := 0 to |allowed|
      invariant forall finding :: finding in stale <==> finding in allowed[..i] && finding !in findings
    {
      assert allowed[..i + 1] == allowed[..i] + [allowed[i]];
      KeysOfAllowed(allowed[i], findings);
      if Key(allowed[i]) !in matched { stale := stale + [allowed[i]]; }
    }
    assert allowed[..|allowed|] == allowed;
  }

  /** A printed key says which finding it is of. */
  lemma KeyIsInjective(a: Finding, b: Finding)
    requires Key(a) == Key(b)
    ensures a == b
  {
    var x, y := Word(a.direction), Word(b.direction);
    assert Key(a)[0] == x[0] && Key(b)[0] == y[0];
    assert Key(a)[2] == x[2] && Key(b)[2] == y[2];
    assert a.target == Key(a)[|x| + 1..] && b.target == Key(b)[|y| + 1..];
  }

  lemma KeysOfAllowed(finding: Finding, list: seq<Finding>)
    ensures (exists other :: other in list && Key(other) == Key(finding)) <==> finding in list
  {
    forall other | other in list && Key(other) == Key(finding)
        ensures other == finding { KeyIsInjective(other, finding); }
  }

  /** The whole gate. */
  method Gate(routes: seq<Route>, dials: seq<Dial>, allowlist: seq<Finding>) returns (passes: bool)
    ensures passes <==> Passes(routes, dials, set finding | finding in allowlist)
  {
    var unserved := FindUnserved(routes, dials);
    var others := FindUnreached(routes, dials);
    var findings := unserved + others;
    assert forall finding :: finding in findings <==> IsFinding(routes, dials, finding);
    var unallowed, stale := Reconcile(findings, allowlist);
    passes := |unallowed| == 0 && |stale| == 0;
    if !passes {
      assert exists finding :: finding in unallowed || finding in stale by {
        assert if |unallowed| > 0 then unallowed[0] in unallowed else stale[0] in stale;
      }
    }
  }

  // ----- changing a verb -----

  function FirstSpace(s: string): nat {
    if s == "" || s[0] == ' ' then 0 else 1 + FirstSpace(s[1..])
  }

  lemma {:induction false} VerbEndsAtSpace(verb: string, path: string)
    requires ' ' !in verb
    ensures FirstSpace(Target(verb, path)) == |verb|
  {
    if verb != "" {
      VerbEndsAtSpace(verb[1..], path);
      assert Target(verb, path)[1..] == Target(verb[1..], path);
    }
  }

  /** The first space of a target ends its verb. */
  lemma TargetIsInjective(verb: string, path: string, otherVerb: string, otherPath: string)
    requires ' ' !in verb && ' ' !in otherVerb && Target(verb, path) == Target(otherVerb, otherPath)
    ensures verb == otherVerb && path == otherPath
  {
    VerbEndsAtSpace(verb, path);
    VerbEndsAtSpace(otherVerb, otherPath);
    assert verb == Target(verb, path)[..|verb|] && path == Target(verb, path)[|verb| + 1..];
    assert otherVerb == Target(otherVerb, otherPath)[..|otherVerb|]
      && otherPath == Target(otherVerb, otherPath)[|otherVerb| + 1..];
  }

  lemma VerbsHoldNoSpace(verb: string)
    requires verb in HTTP_VERBS
    ensures ' ' !in verb && verb != ANY_VERB
  {
    assert "GET"[0] != '*' && "POST"[0] != '*' && "PUT"[0] != '*' && "PATCH"[0] != '*' && "DELETE"[0] != '*';
    assert "HEAD"[0] != '*' && "OPTIONS"[0] != '*';
  }

  function WithVerb(routes: seq<Route>, at: nat, verb: string): seq<Route>
    requires at < |routes|
  {
    routes[at := routes[at].(verb := verb)]
  }

  /** Some other declaration serves this very verb and path. */
  ghost predicate Twin(routes: seq<Route>, at: nat, route: Route)
    requires at < |routes|
  {
    exists j :: 0 <= j < |routes| && j != at && routes[j] == route
  }

  ghost predicate ServedElsewhere(routes: seq<Route>, at: nat, dial: Dial)
    requires at < |routes|
  {
    exists j :: 0 <= j < |routes| && j != at && Agrees(routes[j], dial)
  }

  /** When the change of one route's verb leaves every finding as it was: no dial of either verb relies on this
      route, and before as well as after it the gate has nothing to say of the route that it would not say anyway. */
  ghost predicate GoesUnnoticed(routes: seq<Route>, dials: seq<Dial>, at: nat, verb: string)
    requires at < |routes|
  {
    var before, after := routes[at], routes[at].(verb := verb);
    && (forall i | 0 <= i < |dials| && dials[i].verb in {before.verb, verb}
       && PathMatches(before.path, dials[i].path) ::
          ServedElsewhere(routes, at, dials[i]))
    && (Proven(before, dials) || Twin(routes, at, before))
    && (Proven(after, dials) || Twin(routes, at, after))
  }

  lemma ServedAfter(routes: seq<Route>, at: nat, verb: string, dial: Dial)
    requires at < |routes|
    ensures Served(routes, dial) <==> Agrees(routes[at], dial) || ServedElsewhere(routes, at, dial)
    ensures Served(WithVerb(routes, at, verb), dial) <==>
            Agrees(routes[at].(verb := verb), dial) || ServedElsewhere(routes, at, dial)
  {
    var changed := WithVerb(routes, at, verb);
    if j :| 0 <= j < |routes| && j != at && Agrees(routes[j], dial) {
      assert changed[j] == routes[j];
    }
    assert changed[at] == routes[at].(verb := verb);
    forall j | 0 <= j < |routes| && j != at ensures changed[j] == routes[j] {}
  }

  /** Two routes of which the gate says the same thing are the same route. */
  lemma SaidOfOne(a: Route, b: Route, dials: seq<Dial>, finding: Finding)
    requires a.verb in HTTP_VERBS && b.verb in HTTP_VERBS && SaidOf(a, dials, finding) && SaidOf(b, dials, finding)
    ensures a == b
  {
    VerbsHoldNoSpace(a.verb);
    VerbsHoldNoSpace(b.verb);
    TargetIsInjective(a.verb, a.path, b.verb, b.path);
  }

  /** The gate has something to say of a route exactly when its verb is not proven. */
  lemma SomethingSaid(route: Route, dials: seq<Dial>)
    ensures (exists finding :: SaidOf(route, dials, finding)) <==> !Proven(route, dials)
  {
    var target := Target(route.verb, route.path);
    if !Proven(route, dials) {
      assert SaidOf(route, dials, Finding(if Reached(route, dials) then VerbUnproven else Unreached, target));
    }
  }

  /** What is said of routes other than the changed one stays said; what was said of it is still said only by a twin. */
  lemma SaidAfter(routes: seq<Route>, dials: seq<Dial>, at: nat, verb: string, finding: Finding)
    requires at < |routes| && Readable(routes, dials) && verb in HTTP_VERBS && finding.direction != Unserved
    ensures IsFinding(routes, dials, finding) <==>
            SaidOf(routes[at], dials, finding) || SaidElsewhere(routes, dials, at, finding)
    ensures IsFinding(WithVerb(routes, at, verb), dials, finding)
            <==> SaidOf(routes[at].(verb := verb), dials, finding) || SaidElsewhere(routes, dials, at, finding)
    ensures SaidOf(routes[at], dials, finding) ==>
            (SaidElsewhere(routes, dials, at, finding) <==> Twin(routes, at, routes[at]))
    ensures SaidOf(routes[at].(verb := verb), dials, finding) ==>
              (SaidElsewhere(routes, dials, at, finding) <==> Twin(routes, at, routes[at].(verb := verb)))
  {
    var changed := WithVerb(routes, at, verb);
    assert changed[at] == routes[at].(verb := verb);
    forall j | 0 <= j < |routes| && j != at ensures changed[j] == routes[j] {}
    if j :| 0 <= j < |routes| && j != at && SaidOf(routes[j], dials, finding) {
      assert SaidOf(changed[j], dials, finding);
      if SaidOf(routes[at], dials, finding) { SaidOfOne(routes[j], routes[at], dials, finding); }
      if SaidOf(changed[at], dials, finding) { SaidOfOne(routes[j], changed[at], dials, finding); }
    }
  }

  ghost predicate SaidElsewhere(routes: seq<Route>, dials: seq<Dial>, at: nat, finding: Finding)
    requires at < |routes|
  {
    exists j :: 0 <= j < |routes| && j != at && SaidOf(routes[j], dials, finding)
  }

  /** The findings of two route tables are the same. */
  ghost predicate SameFindings(routes: seq<Route>, changed: seq<Route>, dials: seq<Dial>) {
    forall finding :: IsFinding(routes, dials, finding) <==> IsFinding(changed, dials, finding)
  }

  lemma UnnoticedKeepsFindings(routes: seq<Route>, dials: seq<Dial>, at: nat, verb: string)
    requires at < |routes| && Readable(routes, dials) && verb in HTTP_VERBS && verb != routes[at].verb
    requires GoesUnnoticed(routes, dials, at, verb)
    ensures SameFindings(routes, WithVerb(routes, at, verb), dials)
  {
    var changed := WithVerb(routes, at, verb);
    forall finding ensures IsFinding(routes, dials, finding) <==> IsFinding(changed, dials, finding) {
      if finding.direction == Unserved {
        forall i | 0 <= i < |dials| ensures Served(routes, dials[i]) <==> Served(changed, dials[i]) {
          ServedAfter(routes, at, verb, dials[i]);
        }
      } else {
        SaidAfter(routes, dials, at, verb, finding);
        SomethingSaid(routes[at], dials);
        SomethingSaid(routes[at].(verb := verb), dials);
      }
    }
  }

  lemma SameFindingsUnnoticed(routes: seq<Route>, dials: seq<Dial>, at: nat, verb: string)
    requires at < |routes| && Readable(routes, dials) && verb in HTTP_VERBS && verb != routes[at].verb
    requires SameFindings(routes, WithVerb(routes, at, verb), dials)
    ensures GoesUnnoticed(routes, dials, at, verb)
  {
    var changed := WithVerb(routes, at, verb);
    var before, after := routes[at], routes[at].(verb := verb);
    VerbsHoldNoSpace(before.verb);
    VerbsHoldNoSpace(verb);
    forall i | 0 <= i < |dials| && dials[i].verb in {before.verb, verb} && PathMatches(before.path, dials[i].path)
      ensures ServedElsewhere(routes, at, dials[i])
    {
      ServedAfter(routes, at, verb, dials[i]);
      if !ServedElsewhere(routes, at, dials[i]) {
        var target := Target(dials[i].verb, dials[i].path);
        assert IsFinding(routes, dials, Finding(Unserved, target)) <==>
          IsFinding(changed, dials, Finding(Unserved, target));
        OnlySameDials(routes, dials, i);
        OnlySameDials(changed, dials, i);
      }
    }
    if !Proven(before, dials) {
      SomethingSaid(before, dials);
      var finding :| SaidOf(before, dials, finding);
      SaidAfter(routes, dials, at, verb, finding);
      if SaidOf(after, dials, finding) { SaidOfOne(before, after, dials, finding); }
    }
    if !Proven(after, dials) {
      SomethingSaid(after, dials);
      var finding :| SaidOf(after, dials, finding);
      SaidAfter(routes, dials, at, verb, finding);
      if SaidOf(before, dials, finding) { SaidOfOne(before, after, dials, finding); }
    }
  }

  /** A dial's target is found unserved exactly when that very dial is unserved. */
  lemma OnlySameDials(routes: seq<Route>, dials: seq<Dial>, i: nat)
    requires i < |dials| && forall k | 0 <= k < |dials| :: ' ' !in dials[k].verb
    ensures IsUnserved(routes, dials, Target(dials[i].verb, dials[i].path)) <==> !Served(routes, dials[i])
  {
    if k :| && 0 <= k < |dials| && !Served(routes, dials[k])
            && Target(dials[k].verb, dials[k].path) == Target(dials[i].verb, dials[i].path)
    {
      TargetIsInjective(dials[k].verb, dials[k].path, dials[i].verb, dials[i].path);
      assert dials[k] == dials[i];
    }
  }

  /** Exactly when a changed verb slips through: the gate passed, the verb of one route changes, and on the same
      allowlist the gate passes again. */
  lemma VerbChangeSlipsThrough(routes: seq<Route>, dials: seq<Dial>, allowed: set<Finding>, at: nat, verb: string)
    requires at < |routes| && Readable(routes, dials) && verb in HTTP_VERBS && verb != routes[at].verb
    requires Passes(routes, dials, allowed)
    ensures Passes(WithVerb(routes, at, verb), dials, allowed) <==> GoesUnnoticed(routes, dials, at, verb)
  {
    var changed := WithVerb(routes, at, verb);
    if GoesUnnoticed(routes, dials, at, verb) {
      UnnoticedKeepsFindings(routes, dials, at, verb);
      forall finding ensures IsFinding(changed, dials, finding) <==> finding in allowed {
        assert IsFinding(routes, dials, finding) <==> finding in allowed;
      }
    }
    if Passes(changed, dials, allowed) {
      forall finding ensures IsFinding(routes, dials, finding) <==> IsFinding(changed, dials, finding) {
        assert IsFinding(routes, dials, finding) <==> finding in allowed;
      }
      SameFindingsUnnoticed(routes, dials, at, verb);
    }
  }

  /** A route declared once, none of whose dials any other route would answer, cannot change its verb unnoticed,
      whether its verb was proven, unproven, or the route was not reached at all. */
  lemma VerbChangeIsNoticed(routes: seq<Route>, dials: seq<Dial>, allowed: set<Finding>, at: nat, verb: string)
    requires at < |routes| && Readable(routes, dials) && verb in HTTP_VERBS && verb != routes[at].verb
    requires Passes(routes, dials, allowed)
    requires !Twin(routes, at, routes[at])
    requires forall i | 0 <= i < |dials| && Agrees(routes[at], dials[i]) :: !ServedElsewhere(routes, at, dials[i])
    ensures !Passes(WithVerb(routes, at, verb), dials, allowed)
  {
    VerbChangeSlipsThrough(routes, dials, allowed, at, verb);
  }

  /** A declared `verb-unproven` or `unreached` line holds the verb of a route declared once, whatever else is
      served. */
  lemma DeclaredVerbIsHeld(routes: seq<Route>, dials: seq<Dial>, allowed: set<Finding>, at: nat, verb: string)
    requires at < |routes| && Readable(routes, dials) && verb in HTTP_VERBS && verb != routes[at].verb
    requires Passes(routes, dials, allowed)
    requires !Twin(routes, at, routes[at]) && !Proven(routes[at], dials)
    ensures !Passes(WithVerb(routes, at, verb), dials, allowed)
  {
    VerbChangeSlipsThrough(routes, dials, allowed, at, verb);
  }

  lemma SplitsInTwo(name: string)
    requires '/' !in name
    ensures Split("/" + name, '/') == ["", name]
  {
    SplitFirst("", '/', name);
    SplitNone(name, '/');
    assert "" + ['/'] + name == "/" + name;
  }

  lemma ShadowingPaths()
    ensures PathMatches("/:id", "/x") && PathMatches("/x", "/x")
  {
    SplitsInTwo(":id");
    SplitsInTwo("x");
    assert "/" + ":id" == "/:id" && "/" + "x" == "/x";
  }

  lemma NothingIsSaid(routes: seq<Route>, dials: seq<Dial>)
    requires forall i | 0 <= i < |routes| :: Proven(routes[i], dials)
    requires forall i | 0 <= i < |dials| :: Served(routes, dials[i])
    ensures Passes(routes, dials, {})
  {
    forall finding ensures !IsFinding(routes, dials, finding) {
      forall i | 0 <= i < |routes| ensures !SaidOf(routes[i], dials, finding) {}
    }
  }

  /** Both dials of `/x` have a route of their own, whichever of the two verbs the parameter route declares. */
  lemma ShadowedPasses(get: string, post: string, verb: string, routes: seq<Route>, dials: seq<Dial>)
    requires get != ANY_VERB && post != ANY_VERB && (verb == get || verb == post)
    requires routes == [Route(verb, "/:id"), Route(get, "/x"), Route(post, "/x")]
    requires dials == [Dial(get, "/x"), Dial(post, "/x")]
    ensures Passes(routes, dials, {})
  {
    ShadowingPaths();
    assert Agrees(routes[1], dials[0]) && Agrees(routes[2], dials[1]);
    assert Agrees(routes[0], if verb == get then dials[0] else dials[1]);
    NothingIsSaid(routes, dials);
  }

  /** Without the conditions it can go unnoticed: every dial of the parameter route is answered by a literal one. */
  lemma ShadowedRouteSlipsThrough(routes: seq<Route>, dials: seq<Dial>)
    requires routes == [Route("GET", "/:id"), Route("GET", "/x"), Route("POST", "/x")]
    requires dials == [Dial("GET", "/x"), Dial("POST", "/x")]
    ensures Passes(routes, dials, {}) && Passes(WithVerb(routes, 0, "POST"), dials, {})
  {
    VerbsAreKnown();
    ShadowedPasses("GET", "POST", "GET", routes, dials);
    ShadowedPasses("GET", "POST", "POST", WithVerb(routes, 0, "POST"), dials);
  }

  lemma VerbsAreKnown()
    ensures "GET" != ANY_VERB && "POST" != ANY_VERB
  {}

  /** A route's findings, in terms of the dials alone: none fits it, or only dials of an unreadable verb do. */
  lemma RouteIsReported(route: Route, dials: seq<Dial>)
    ensures SaidOf(route, dials, Finding(Unreached, route.verb + " " + route.path)) <==>
            forall dial | dial in dials && dial.verb in {"*", route.verb} :: !PathMatches(route.path, dial.path)
    ensures SaidOf(route, dials, Finding(VerbUnproven, route.verb + " " + route.path)) <==>
            && (exists dial :: dial in dials && dial.verb == "*" && PathMatches(route.path, dial.path))
            && (route.verb != "*" ==>
                 forall dial | dial in dials && dial.verb == route.verb :: !PathMatches(route.path, dial.path))
  {
    forall i | 0 <= i < |dials| ensures dials[i] in dials {}
  }

  /** A line of the allowlist spells the direction, the verb and the path. */
  lemma KeysAreSpelled(verb: string, path: string)
    ensures Key(Finding(Unserved, Target(verb, path))) == "unserved" + " " + (verb + " " + path)
    ensures Key(Finding(Unreached, Target(verb, path))) == "unreached" + " " + (verb + " " + path)
    ensures Key(Finding(VerbUnproven, Target(verb, path))) == "verb-unproven" + " " + (verb + " " + path)
  {}

  /** A dial whose verb is unreadable stands for every verb: a route that only such dials reach is reported unproven,
      and for each of them the route is there. */
  lemma UnreadableVerbProvesNothing(routes: seq<Route>, dials: seq<Dial>, at: nat)
    requires Readable(routes, dials) && at < |routes|
    requires exists i :: 0 <= i < |dials| && PathMatches(routes[at].path, dials[i].path)
    requires forall i | 0 <= i < |dials| && PathMatches(routes[at].path, dials[i].path) :: dials[i].verb == "*"
    ensures IsFinding(routes, dials, Finding(VerbUnproven, Target(routes[at].verb, routes[at].path)))
    ensures forall i | 0 <= i < |dials| && PathMatches(routes[at].path, dials[i].path) :: Served(routes, dials[i])
  {
    var i :| 0 <= i < |dials| && PathMatches(routes[at].path, dials[i].path);
    assert Agrees(routes[at], dials[i]);
    assert SaidOf(routes[at], dials, Finding(VerbUnproven, Target(routes[at].verb, routes[at].path)));
    forall j | 0 <= j < |dials| && PathMatches(routes[at].path, dials[j].path) ensures Served(routes, dials[j]) {
      assert Agrees(routes[at], dials[j]);
    }
  }
}
