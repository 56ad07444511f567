/** Agreement between one served path and one dialled path, where `*` in a dialled path marks text the gate could
    not read, and what such an agreement is worth: whether the two can name the same concrete address. */
module RoutePaths {
  import opened Text

  const MARKER := '*'

  /** The offset of the first marker, or the length when there is none. */
  function FirstMarker(s: string): (at: nat)
    ensures at <= |s| && (forall k | 0 <= k < at :: s[k] != MARKER) && (at < |s| ==> s[at] == MARKER)
  {
    if s == "" || s[0] == MARKER then 0 else 1 + FirstMarker(s[1..])
  }

  /** One past the offset of the last marker, or 0 when there is none. */
  function AfterLastMarker(s: string): (at: nat)
    ensures at <= |s| && (forall k | at <= k < |s| :: s[k] != MARKER) && (at > 0 ==> s[at - 1] == MARKER)
  {
    if s == "" then 0
    else if s[|s| - 1] == MARKER then |s|
    else AfterLastMarker(s[..|s| - 1])
  }

  predicate IsParam(routeSegment: string) {
    StartsWith(routeSegment, ":")
  }

  /** How a dialled segment, markers included, is held against the route segment in its place. */
  predicate SegmentMatches(routeSegment: string, clientSegment: string) {
    if IsParam(routeSegment) then |clientSegment| > 0
    else if MARKER !in clientSegment then routeSegment == clientSegment
    else if clientSegment == [MARKER] then false
    else routeSegment == clientSegment[..FirstMarker(clientSegment)] + clientSegment[AfterLastMarker(clientSegment)..]
  }

  predicate SegmentsMatch(route: seq<string>, client: seq<string>) {
    |route| == |client| && forall i | 0 <= i < |route| :: SegmentMatches(route[i], client[i])
  }

  /** As many segments on both sides, each pair of them matching. */
  predicate PathMatches(routePath: string, clientPath: string) {
    SegmentsMatch(Split(routePath, '/'), Split(clientPath, '/'))
  }

  /** The comparison as it is made: segment by segment, giving up where the client runs out of path. */
  method ComparePaths(routePath: string, clientPath: string) returns (matches: bool)
    ensures matches <==> PathMatches(routePath, clientPath)
  {
    var route, client := Split(routePath, '/'), Split(clientPath, '/');
    for index := 0 to |route|
      invariant index <= |client| && forall i | 0 <= i < index :: SegmentMatches(route[i], client[i])
    {
      if index >= |client| { return false; }
      if !SegmentMatches(route[index], client[index]) { return false; }
    }
    return |client| == |route|;
  }

  // ----- concrete addresses -----

  /** The ordinary router: a parameter takes any non-empty segment, anything else only itself. */
  predicate Answers(routeSegment: string, segment: string) {
    if IsParam(routeSegment) then |segment| > 0 else segment == routeSegment
  }

  predicate RouterAnswers(route: seq<string>, address: seq<string>) {
    |route| == |address| && forall i | 0 <= i < |route| :: Answers(route[i], address[i])
  }

  /** `text` is the client segment with some text in place of each marker. */
  ghost predicate Fills(clientSegment: string, text: string) {
    if clientSegment == "" then text == ""
    else if clientSegment[0] == MARKER then exists k :: 0 <= k <= |text| && Fills(clientSegment[1..], text[k..])
    else text != "" && text[0] == clientSegment[0] && Fills(clientSegment[1..], text[1..])
  }

  ghost predicate CouldDial(client: seq<string>, address: seq<string>) {
    |client| == |address| && forall i | 0 <= i < |client| :: Fills(client[i], address[i])
  }

  /** Nothing readable stands between the first marker and the last. */
  predicate Tight(clientSegment: string) {
    forall k | FirstMarker(clientSegment) <= k < AfterLastMarker(clientSegment) :: clientSegment[k] == MARKER
  }

  // ----- soundness -----

  function WithMarkersAs(s: string, fill: string): string {
    if s == "" then "" else (if s[0] == MARKER then fill else [s[0]]) + WithMarkersAs(s[1..], fill)
  }

  lemma {:induction false} FillsWith(s: string, fill: string)
    ensures Fills(s, WithMarkersAs(s, fill))
    ensures fill != "" && s != "" ==> WithMarkersAs(s, fill) != ""
  {
    if s != "" {
      FillsWith(s[1..], fill);
      var text := WithMarkersAs(s, fill);
      if s[0] == MARKER {
        assert text[|fill|..] == WithMarkersAs(s[1..], fill);
      } else {
        assert text[1..] == WithMarkersAs(s[1..], fill);
      }
    }
  }

  lemma {:induction false} WithMarkersSplits(a: string, b: string, fill: string)
    ensures WithMarkersAs(a + b, fill) == WithMarkersAs(a, fill) + WithMarkersAs(b, fill)
  {
    if a == "" {
      assert a + b == b;
    } else {
      var head := if a[0] == MARKER then fill else [a[0]];
      WithMarkersSplits(a[1..], b, fill);
      assert (a + b)[0] == a[0] && (a + b)[1..] == a[1..] + b;
      assert head + (WithMarkersAs(a[1..], fill) + WithMarkersAs(b, fill))
          == (head + WithMarkersAs(a[1..], fill)) + WithMarkersAs(b, fill);
    }
  }

  lemma {:induction false} MarkerFreeUnchanged(s: string, fill: string)
    requires MARKER !in s
    ensures WithMarkersAs(s, fill) == s
  {
    if s != "" { MarkerFreeUnchanged(s[1..], fill); }
  }

  lemma {:induction false} OnlyMarkersErase(s: string)
    ensures WithMarkersAs(s, "") == "" <==> forall k | 0 <= k < |s| :: s[k] == MARKER
  {
    if s != "" {
      OnlyMarkersErase(s[1..]);
      assert forall k | 0 < k < |s| :: s[k] == s[1..][k - 1];
    }
  }

  /** A filled segment is at least as long as what can be read of it, and equal to it when nothing is unread. */
  lemma {:induction false} FillsAtLeast(s: string, text: string)
    requires Fills(s, text)
    ensures |text| >= |WithMarkersAs(s, "")|
    ensures MARKER !in s ==> text == s
  {
    if s != "" {
      if s[0] == MARKER {
        var k :| 0 <= k <= |text| && Fills(s[1..], text[k..]);
        FillsAtLeast(s[1..], text[k..]);
      } else {
        FillsAtLeast(s[1..], text[1..]);
      }
    }
  }

  lemma ReadableAround(prefix: string, middle: string, suffix: string)
    requires MARKER !in prefix && MARKER !in suffix
    ensures var readable := WithMarkersAs(prefix + middle + suffix, "");
            if forall k | 0 <= k < |middle| :: middle[k] == MARKER then prefix + suffix == readable
            else |prefix| + |suffix| < |readable|
  {
    WithMarkersSplits(prefix + middle, suffix, "");
    WithMarkersSplits(prefix, middle, "");
    MarkerFreeUnchanged(prefix, "");
    MarkerFreeUnchanged(suffix, "");
    OnlyMarkersErase(middle);
    assert prefix + "" == prefix;
  }

  lemma KeptAround(client: string, first: nat, after: nat)
    requires first <= after <= |client| && MARKER !in client[..first] && MARKER !in client[after..]
    ensures var kept := client[..first] + client[after..];
            if forall k | first <= k < after :: client[k] == MARKER then kept == WithMarkersAs(client, "")
            else |kept| < |WithMarkersAs(client, "")|
  {
    var middle := client[first..after];
    ReadableAround(client[..first], middle, client[after..]);
    assert client[..first] + middle + client[after..] == client;
    MiddleMarkers(client, first, after, middle);
  }

  lemma MiddleMarkers(client: string, first: nat, after: nat, middle: string)
    requires first <= after <= |client| && middle == client[first..after]
    ensures (forall k | first <= k < after :: client[k] == MARKER) <==>
            forall k | 0 <= k < |middle| :: middle[k] == MARKER
  {
    if forall k | 0 <= k < |middle| :: middle[k] == MARKER {
      forall k | first <= k < after ensures client[k] == MARKER { assert middle[k - first] == MARKER; }
    }
  }

  /** What the matcher keeps of a partly unknown segment is all that can be read of it exactly when it is tight. */
  lemma KeptIsReadable(client: string)
    requires MARKER in client
    ensures var kept := client[..FirstMarker(client)] + client[AfterLastMarker(client)..];
            if Tight(client) then kept == WithMarkersAs(client, "") else |kept| < |WithMarkersAs(client, "")|
  {
    KeptAround(client, FirstMarker(client), AfterLastMarker(client));
  }

  /** A matched segment names a concrete one on both sides exactly when it is a parameter's or it is tight. */
  lemma SegmentSoundness(route: string, client: string)
    requires SegmentMatches(route, client)
    ensures (exists text :: Answers(route, text) && Fills(client, text)) <==> IsParam(route) || Tight(client)
  {
    FillsWith(client, "x");
    FillsWith(client, "");
    if IsParam(route) {
      assert Answers(route, WithMarkersAs(client, "x"));
    } else if MARKER !in client {
      MarkerFreeUnchanged(client, "");
      assert Answers(route, WithMarkersAs(client, ""));
    } else {
      KeptIsReadable(client);
      if Tight(client) {
        assert Answers(route, WithMarkersAs(client, ""));
      } else {
        forall text | Fills(client, text) ensures !Answers(route, text) { FillsAtLeast(client, text); }
      }
    }
  }

  // ----- completeness -----

  /** A parameter matches exactly the segments that can be filled with something it takes. */
  lemma ParameterIsExact(route: string, client: string)
    requires IsParam(route)
    ensures SegmentMatches(route, client) <==> exists text :: Answers(route, text) && Fills(client, text)
  {
    if client == "" {
      forall text | Fills(client, text) ensures !Answers(route, text) {}
    } else {
      FillsWith(client, "x");
      assert Answers(route, WithMarkersAs(client, "x"));
    }
  }

  /** A client segment as two marker-free ends and, between them, what runs from marker to marker. */
  ghost predicate Frames(client: string, before: string, unread: string, after: string) {
    && client == before + unread + after && MARKER !in before && MARKER !in after
    && (unread != "" ==> unread[0] == MARKER && unread[|unread| - 1] == MARKER)
  }

  /** There is a marker just when something is unread. */
  lemma MarkerIsUnread(client: string, before: string, unread: string, after: string)
    requires Frames(client, before, unread, after)
    ensures MARKER in client <==> unread != ""
    ensures unread == "" ==> before + after == client
  {
    if unread == "" {
      assert before + "" == before;
      forall k | 0 <= k < |client| ensures client[k] != MARKER {
        assert client[k] == if k < |before| then before[k] else after[k - |before|];
      }
    } else {
      assert client[|before|] == unread[0];
    }
  }

  lemma MarkersBound(client: string)
    requires MARKER in client
    ensures var first, last := FirstMarker(client), AfterLastMarker(client);
            first < last && client[first] == MARKER && client[last - 1] == MARKER
  {
    var k :| 0 <= k < |client| && client[k] == MARKER;
    assert FirstMarker(client) <= k < AfterLastMarker(client);
  }

  lemma EndsAreReadable(client: string)
    ensures MARKER !in client[..FirstMarker(client)] && MARKER !in client[AfterLastMarker(client)..]
  {
    var last := AfterLastMarker(client);
    forall k | 0 <= k < |client| - last ensures client[last..][k] != MARKER {
        assert client[last..][k] == client[last + k]; }
  }

  lemma FramedByMarkers(client: string, first: nat, last: nat, framed: bool)
    requires MARKER in client && first == FirstMarker(client) && last == AfterLastMarker(client) && first <= last
    requires framed == Frames(client, client[..first], client[first..last], client[last..])
    ensures framed
  {
    MarkersBound(client);
    EndsAreReadable(client);
    ThreeParts(client, first, last);
  }

  lemma ThreeParts(s: string, i: nat, j: nat)
    requires i < j <= |s|
    ensures s == s[..i] + s[i..j] + s[j..] && s[i..j][0] == s[i] && s[i..j][j - i - 1] == s[j - 1]
  {}

  lemma FrameIsUnique(client: string, before: string, unread: string, after: string)
    requires MARKER in client && Frames(client, before, unread, after)
    ensures before == client[..FirstMarker(client)] && after == client[AfterLastMarker(client)..]
  {
    var n, m := |before|, |before| + |unread|;
    MarkerIsUnread(client, before, unread, after);
    assert client[n] == unread[0] && client[m - 1] == unread[|unread| - 1];
    forall k | 0 <= k < n ensures client[k] != MARKER { assert client[k] == before[k]; }
    forall k | m <= k < |client| ensures client[k] != MARKER { assert client[k] == after[k - m]; }
    assert FirstMarker(client) == n && AfterLastMarker(client) == m;
  }

  /** What is left of a segment framed by its markers. */
  ghost predicate Leaves(client: string, left: string) {
    exists before, unread, after :: Frames(client, before, unread, after) && left == before + after
  }

  lemma EndsAreLeft(client: string, first: nat, last: nat, leaves: bool)
    requires MARKER in client && first == FirstMarker(client) && last == AfterLastMarker(client) && first <= last
    requires leaves == Leaves(client, client[..first] + client[last..])
    ensures leaves
  {
    var before, unread, after := client[..first], client[first..last], client[last..];
    var framed := Frames(client, before, unread, after);
    FramedByMarkers(client, first, last, framed);
    FrameLeaves(client, before, unread, after, framed, leaves);
  }

  lemma FrameLeaves(client: string, before: string, unread: string, after: string, framed: bool, leaves: bool)
    requires framed && framed == Frames(client, before, unread, after) && leaves == Leaves(client, before + after)
    ensures leaves
  {}

  lemma OnlyEndsAreLeft(client: string, left: string)
    requires MARKER in client && Leaves(client, left)
    ensures left == client[..FirstMarker(client)] + client[AfterLastMarker(client)..]
  {
    var before, unread, after :| Frames(client, before, unread, after) && left == before + after;
    FrameIsUnique(client, before, unread, after);
  }

  lemma LeavesAll(client: string, left: string)
    requires MARKER !in client
    ensures Leaves(client, left) <==> left == client
  {
    assert client == client + "" + "" && client + "" == client && Frames(client, client, "", "");
    if before, unread, after :| Frames(client, before, unread, after) && left == before + after {
      MarkerIsUnread(client, before, unread, after);
    }
  }

  /** A literal matches exactly the segments, other than a lone marker, whose readable ends together are the literal. */
  lemma LiteralIsExact(route: string, client: string)
    requires !IsParam(route)
    ensures SegmentMatches(route, client) <==> client != [MARKER] && Leaves(client, route)
  {
    if MARKER !in client {
      LeavesAll(client, route);
    } else {
      var first, last := FirstMarker(client), AfterLastMarker(client);
      MarkersBound(client);
      EndsAreLeft(client, first, last, Leaves(client, client[..first] + client[last..]));
      if Leaves(client, route) { OnlyEndsAreLeft(client, route); }
    }
  }

  /** A literal matches a tight segment, other than a lone marker, exactly when it is all that can be read of it. */
  lemma TightIsExact(route: string, client: string)
    requires !IsParam(route) && Tight(client)
    ensures SegmentMatches(route, client) <==> client != [MARKER] && WithMarkersAs(client, "") == route
  {
    if MARKER in client { KeptIsReadable(client); } else { MarkerFreeUnchanged(client, ""); }
  }

  /** What a route segment takes of what can be read of a client segment. */
  ghost predicate TakesReadable(route: string, client: string) {
    if IsParam(route) then exists text :: Answers(route, text) && Fills(client, text)
    else client != [MARKER] && WithMarkersAs(client, "") == route
  }

  /** On paths of tight segments the matcher misses nothing: it compares them segment by segment, a parameter with
      whatever the segment can be filled with, a literal with what can be read of it. */
  lemma MatchIsExact(routePath: string, clientPath: string)
    requires forall segment | segment in Split(clientPath, '/') :: Tight(segment)
    ensures var route, client := Split(routePath, '/'), Split(clientPath, '/');
            PathMatches(routePath, clientPath) <==>
            |route| == |client| && forall i | 0 <= i < |route| :: TakesReadable(route[i], client[i])
  {
    var route, client := Split(routePath, '/'), Split(clientPath, '/');
    forall i | 0 <= i < |route| && i < |client|
        ensures SegmentMatches(route[i], client[i]) <==> TakesReadable(route[i], client[i]) {
      assert client[i] in client;
      if IsParam(route[i]) { ParameterIsExact(route[i], client[i]); } else { TightIsExact(route[i], client[i]); }
    }
  }

  // ----- whole paths -----

  /** When a route and a client path match, some filling of markers and parameters makes them the same address
      exactly when every literal route segment met a tight client segment. */
  lemma MatchSoundness(route: seq<string>, client: seq<string>)
    requires SegmentsMatch(route, client)
    ensures (exists address :: RouterAnswers(route, address) && CouldDial(client, address))
            <==> forall i | 0 <= i < |route| :: IsParam(route[i]) || Tight(client[i])
  {
    if forall i | 0 <= i < |route| :: IsParam(route[i]) || Tight(client[i]) {
      var address: seq<string> := [];
      for i := 0 to |route|
        invariant |address| == i
        invariant forall k | 0 <= k < i :: Answers(route[k], address[k]) && Fills(client[k], address[k])
      {
        SegmentSoundness(route[i], client[i]);
        var text :| Answers(route[i], text) && Fills(client[i], text);
        address := address + [text];
      }
      assert RouterAnswers(route, address) && CouldDial(client, address);
    }
    forall address | RouterAnswers(route, address) && CouldDial(client, address)
      ensures forall i | 0 <= i < |route| :: IsParam(route[i]) || Tight(client[i])
    {
      forall i | 0 <= i < |route| ensures IsParam(route[i]) || Tight(client[i]) {
        assert Answers(route[i], address[i]) && Fills(client[i], address[i]);
        SegmentSoundness(route[i], client[i]);
      }
    }
  }

  /** At most one marker in each segment is enough: then every match names a common address. */
  lemma OneMarkerIsSound(routePath: string, clientPath: string)
    requires PathMatches(routePath, clientPath)
    requires forall segment | segment in Split(clientPath, '/') :: AtMostOneMarker(segment)
    ensures exists address ::
              RouterAnswers(Split(routePath, '/'), address) && CouldDial(Split(clientPath, '/'), address)
  {
    var client := Split(clientPath, '/');
    forall i | 0 <= i < |client| ensures Tight(client[i]) {
      assert AtMostOneMarker(client[i]);
      OneMarkerIsTight(client[i]);
    }
    MatchSoundness(Split(routePath, '/'), client);
  }

  lemma OneMarkerIsTight(segment: string)
    requires AtMostOneMarker(segment)
    ensures Tight(segment)
  {
    var first, after := FirstMarker(segment), AfterLastMarker(segment);
    assert first < after ==> first == after - 1;
  }

  predicate AtMostOneMarker(s: string) {
    forall i, j | 0 <= i < |s| && 0 <= j < |s| && s[i] == MARKER && s[j] == MARKER :: i == j
  }

  /** With two markers and text between them a match can be wrong: the address on the left cannot be dialled. */
  lemma TwoMarkersCanBeUnsound()
    ensures SegmentMatches("ac", "a*b*c") && !exists text :: Answers("ac", text) && Fills("a*b*c", text)
  {
    var client := "a*b*c";
    assert client[1] == MARKER && client[2] != MARKER && client[3] == MARKER;
    assert FirstMarker(client) == 1;
    assert AfterLastMarker(client) == 4;
    assert client[..1] + client[4..] == "ac";
    assert !Tight(client) by { assert 1 <= 2 < 4; }
    assert !IsParam("ac") by { assert "ac"[0] != ':'; }
    SegmentSoundness("ac", client);
  }

  /** On a client path without markers the match is the ordinary router's. */
  lemma MarkerFreeIsRouting(routePath: string, clientPath: string)
    requires MARKER !in clientPath
    ensures PathMatches(routePath, clientPath) <==> RouterAnswers(Split(routePath, '/'), Split(clientPath, '/'))
  {
    SplitStaysMarkerFree(clientPath);
    forall i | 0 <= i < |Split(clientPath, '/')| ensures MARKER !in Split(clientPath, '/')[i] {}
  }

  lemma {:induction false} SplitStaysMarkerFree(s: string)
    requires MARKER !in s
    ensures forall piece | piece in Split(s, '/') :: MARKER !in piece
  {
    if s != "" { SplitStaysMarkerFree(s[1..]); }
  }
}
