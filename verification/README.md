# Checkers and schedulers, proved

This project models the repository's own checkers and schedulers, and proves what they are for. Nothing here runs the
TypeScript; every file is checked by the Dafny verifier alone:

```
dafny verify dfyconfig.toml
```

## What is modelled

**Reachability from composition roots** (`module_facts`, `module_graph`, `demand_walk`, `demand_rules`, `walk_orders`,
`reachability_gate`). A project is a map from files to facts plus a partial function from (file, specifier) to file. The
specification is a relation between single demands ("a demand for `n` on module `f` leads to a demand for `m` on `g`")
and chains of it from the roots. The walk is a class with the source's two variables; it is proved to return exactly the
modules some chain reaches, whatever order the queue is drained in, and to terminate because the pairs not yet recorded
shrink. What each kind of link passes on is said apart, for modules that only one link leads to.

**Route agreement** (`source_lexer`, `written_source`, `second_cleaning`, `route_templates`, `template_precision`,
`template_names`, `route_paths`, `route_gate`, `call_arguments`). The length-preserving lexer, against sources described
part by part; the capped expansion of template holes, which covers what a template denotes and, within its limits, is
exactly that; the unknown-aware path matcher; the gate with its allowlist, and the two argument splitters.

**End-to-end shards** (`shard_plan`, `e2e_shards`, `shard_pattern`). Greedy longest-first scheduling with Graham's two
bounds, the partition of the tier, and the anchored name pattern read by a matcher for literal alternations.

**The browser worker's queues** (`request_queue`). A transition system with the steps enqueue, start, settle and
clean up; safety holds in every interleaving and progress on every infinite behaviour.

**Reports and ledgers** (`junit_report`, `junit_attributes`, `junit_text`, `entities`, `lcov`, `lcov_text`,
`ledger_read`, `ledger_print`, `quarantine`). The two JUnit readers over a rendered tag stream, entity decoding,
attribute lookup, the LCOV merge down to the printed text, and the quarantine's verdict.

**The closed-set gate** (`closed_set`, `written_classes`, `closed_set_reader`). The classification of a file and the
exhaustive literal-list parser, against an independent description of what may stand between the brackets.

**The message replay** (`replay`, `replay_loop`, `delivery_planner`, `delivery_rules`, `delivery_replay`). The event
loop over an abstract delivery planner, then with the planner it is run with: no message is lost, late, sent without
cause or out of its sender's order, and the loop always comes to an end.

**Line numbers** (`line_numbers`). Counting newlines against a binary search over line starts.

`text` and `options` hold shared string operations and the option type. Where the source works by loops over indices or by
updating fields, the model does too; each such method is proved equal to a function, and the theorems are about that
function.

## Where the code does less than its comments say

Each of these is proved with a concrete input on which the code does something else, next to the exact condition under
which it does what is promised; of the last, what is exact is said with it.

- `RouteGate.ShadowedRouteSlipsThrough`: a changed verb can go unnoticed when every dial of the route is also answered by
  another route. `VerbChangeSlipsThrough` gives the exact condition, in terms of the routes and dials before the change;
  `VerbChangeIsNoticed` and `DeclaredVerbIsHeld` are the cases in which the comment at
  `scripts/validate/route-agreement.ts:134-148` holds.
- `RoutePaths.TwoMarkersCanBeUnsound`: a segment with two unknown parts and text between them (`a*b*c`) matches a route
  segment (`ac`) it can never dial. `SegmentSoundness` and `MatchSoundness` give the exact condition.
- `SourceLexer.EscapedNewlineHidesLiteral`: a literal with an escaped newline is not found again in the cleaned text, and
  one that was never blanked is. `FindsWhatWasBlanked`: scanning the cleaned text finds exactly the blanked literals if and
  only if no single- or double-quoted literal crosses a line, which takes an escaped newline (`NoEscapeNoCrossing`).
- `SourceLexer.EscapedNewlineCleansTwice`: cleaning such a source twice can differ from cleaning it once.
  `CleaningIsIdempotent`: it does not if and only if every literal found by scanning the cleaned text has a blank body;
  `SecondCleaning.SecondCleaningSettles` says the same of the source's tokens.
- `ShardPattern.SharedNameRunsTwice`: two tests of one file whose describe names and titles join to the same text run on
  both their shards. `RunsElsewhere` says exactly when, and `UniqueNamesRunOnce` that distinct names are enough.
- `JunitAttributes.MimicIsMisread`: an attribute value that ends in white space, the wanted name and `=` is taken for the
  opening of that attribute; in a tag with the name `sets the file=` and then a file, the file reads as ` file=`.
  `ReadsExactly` says what the lookup reads for every tag, and `ReadsBack` that it is right if and only if no earlier value
  does this, or the value happens to be the text read in its place.
- `Lcov.OverclaimIsCappedLater`: merging a rerun twice can differ from merging it once. `SameRerunTwiceWhole`: it does for
  a file exactly when only the rerun knows the file and claims more functions hit than found; the lines never differ.
- `WalkOrders.OrderDecides`: whether the reachability walk fails over an unanswered name can depend on the order in which
  modules are taken off the queue. On one code base, over every order: it fails exactly when one module is taken before
  another, and `PreferenceDecides` and `WalkPreferring` show both kinds of order. For a given order `DemandWalk.Drain`
  is exact: the walk fails exactly when one of its turns does, and `Walk.Process` says when a turn fails. No condition is
  given under which some order fails and another does not.

## Model

| member | source | states |
|---|---|---|
| ModuleFacts.FirstExportHop | scripts/validate/composition-reachability.ts:522-533 | a name exported beyond a module's own is exported by some star target along a chain that avoids the module itself, which is why the path-local cut of the search loses nothing |
| ModuleFacts.FirstLeavingHop | scripts/validate/composition-reachability.ts:541-546 | the same for star chains that leave the code base |
| ModuleFacts.ExportsUnfold | scripts/validate/composition-reachability.ts:519-537 | exported names, defined over star chains of any shape, satisfy the one-step equation the search computes by, cycles included |
| ModuleFacts.ExportsAreProvided | scripts/validate/composition-reachability.ts:519-537 | a module exports exactly what some module at the end of a chain of its stars declares, re-exports by name or gives to a namespace |
| ModuleFacts.StarlessExports | scripts/validate/composition-reachability.ts:524-527 | so one without stars exports exactly its local exports, the keys of its named re-exports and its namespace aliases |
| ModuleFacts.ForwardedIsResolvable | scripts/validate/composition-reachability.ts:583-626 | a name that a named or namespace re-export forwards is never one to fail over |
| ModuleGraphs.ModuleGraph.ExportNames | scripts/validate/composition-reachability.ts:519-537 | at the top level exactly the union of own names over all star-reachable modules, for any valid earlier cache; under a cut, sound and complete for chains that avoid the cut; the cache stays valid |
| ModuleGraphs.ModuleGraph.HasExternalStar | scripts/validate/composition-reachability.ts:539-549 | at the top level true exactly when some star chain ends in a specifier that leads out of the code base |
| DemandWalk.ClosedCoversChain | scripts/validate/composition-reachability.ts:551-633 | demands that contain the roots and are closed under the rules cover every demand at the end of every chain, a recorded `ALL` standing for every name |
| DemandWalk.ReachableIsLeast | scripts/validate/composition-reachability.ts:551-633 | every set of demands closed under the rules contains all reachable modules: what the walk returns is the least such set |
| DemandWalk.ReachOfUnion | scripts/validate/composition-reachability.ts:568-568 | the reach of a union of roots is the union of their reaches |
| DemandRules.ImportPassesOn | scripts/validate/composition-reachability.ts:577-581 | a module that only one import resolves to is reachable exactly when the importing module is, and is asked exactly for the names imported |
| DemandRules.NamePassesOn | scripts/validate/composition-reachability.ts:589-596 | one that only a named re-export resolves to is asked exactly for the source names of those of its names that were asked of the re-exporting module, and is reachable exactly when one was |
| DemandRules.NamespacePassesOn | scripts/validate/composition-reachability.ts:583-587 | one that only a namespace re-export resolves to is asked for everything, exactly when the alias or everything was asked |
| DemandRules.StarPassesOn | scripts/validate/composition-reachability.ts:598-629 | one that only a star resolves to is asked for everything when the barrel is, and for a name exactly when the barrel is, does not provide it, and the target exports it |
| DemandRules.RootsAreWanted | scripts/validate/composition-reachability.ts:568-568 | a root is wanted whole, and a module nothing resolves to is reachable only if it is a root |
| DemandWalk.GrowthShrinksLeft | scripts/validate/composition-reachability.ts:556-566 | whenever a demand is new, the set of pairs not yet recorded strictly shrinks; otherwise the queue did not grow |
| DemandWalk.Walk.Demand | scripts/validate/composition-reachability.ts:556-566 | records the names, and requeues the module exactly when one was new |
| DemandWalk.Walk.Process | scripts/validate/composition-reachability.ts:570-631 | everything one module's demands lead to is recorded, and nothing they do not lead to in one step; it fails exactly when not everything was wanted of the module and a name recorded of it is accounted for by nothing |
| DemandWalk.Drain | scripts/validate/composition-reachability.ts:570-633 | for any way of picking from the queue, terminates and returns exactly the reachable modules; fails exactly when its last turn does, over a name that turn found missing in a module of which not everything had been asked as the turn began; and always over an unanswered name of a module never asked for everything. Its turns begin with the roots, follow one another, and each records what its module's demands lead to in one step |
| WalkOrders.OrderDecides | scripts/validate/composition-reachability.ts:570-626 | over one code base every walk, in whatever order, fails exactly when `f` is taken off the queue before `g` |
| WalkOrders.PreferenceDecides | scripts/validate/composition-reachability.ts:570-626 | orders of both kinds exist: preferring `f` the walk fails, preferring `g` it does not |
| WalkOrders.WalkPreferring | scripts/validate/composition-reachability.ts:570-633 | the two walks, taken with the walk's own method |
| DemandWalk.ReachableFrom | scripts/validate/composition-reachability.ts:551-634 | the walk as run, last in first out, with all of the same promises |
| ReachabilityGate.Check | scripts/validate/composition-reachability.ts:732-770 | passes exactly when the allowlist names the modules their own package's roots do not reach, and no other; violations and stale entries are the two differences; breaks only over an unanswered name, and always over one in a module its package never asks for everything |
| SourceLexer.CleanedKeepsPlace | scripts/validate/route-agreement.ts:198-319 | every offset keeps its character or becomes a space, or a zero where a regular expression opened; newlines stay and none appears |
| WrittenSource.WrittenIsCleaned | scripts/validate/route-agreement.ts:198-319 | a source written of comments, literals, regular expressions and plain characters, each where it may stand, is cleaned to blanks for comments, the quotes of literals, a zero for each regular expression, and the plain characters |
| WrittenSource.EveryTextIsWritten | scripts/validate/route-agreement.ts:198-319 | every text is written of such parts, those included that it does not finish |
| WrittenSource.CleanedIsExact | scripts/validate/route-agreement.ts:198-319 | so the cleaned text is that one and no other |
| WrittenSource.RegexWhereValueIsWanted | scripts/validate/route-agreement.ts:235-239 | a slash opens a regular expression exactly at the start, after an arrow, or after a character no operand ends in, white space apart |
| SourceLexer.CleaningIsIdempotent | scripts/validate/route-agreement.ts:198-319 | cleaning a cleaned source changes nothing if and only if every literal that scanning it finds has a blank body |
| SourceLexer.OnOneLineIsIdempotent | scripts/validate/route-agreement.ts:198-319 | so it is wherever every quoted literal of the source stays on its line |
| SecondCleaning.SecondCleaningSettles | scripts/validate/route-agreement.ts:198-319 | the same condition read off the tokens of the source: after a literal across lines whose quote comes again on that line, nothing but blanks and comments may stand before it, and so on from there |
| SourceLexer.CleanedOpensNothing | scripts/validate/route-agreement.ts:198-319 | in a cleaned text no slash opens a comment or a regular expression, judged by the significant characters before it |
| SourceLexer.FindsWhatWasBlanked | scripts/validate/route-agreement.ts:1463-1471 | scanning the cleaned source quote by quote finds exactly the literals the lexer blanked, at their offsets, if and only if every quoted literal stays on its line |
| SourceLexer.NoEscapeNoCrossing | scripts/validate/route-agreement.ts:283-300 | quoted literals stay on their lines wherever no backslash stands directly before a newline |
| SourceLexer.EscapedNewlineCleansTwice | scripts/validate/route-agreement.ts:198-319 | a concrete source with an escaped newline that a second cleaning changes again |
| SourceLexer.EscapedNewlineHidesLiteral | scripts/validate/route-agreement.ts:1463-1471 | on that source the literal blanked and the literal found are different ones |
| SourceLexer.StaysOpen | scripts/validate/route-agreement.ts:283-300 | a quote that never closes in the source does not close in the cleaned text, from any token boundary on |
| SourceLexer.LiteralEnd | scripts/validate/route-agreement.ts:330-344 | the loop finds the literal's end the specification gives, or none |
| SourceLexer.Clean | scripts/validate/route-agreement.ts:198-319 | the loop yields the specified text, of the same length and with the same newlines |
| SourceLexer.FindLiterals | scripts/validate/route-agreement.ts:1463-1471 | the scanning loop yields the specified spans |
| RouteTemplates.SubstituteInterpolations | scripts/validate/route-agreement.ts:1330-1365 | terminates with between 1 and 64 paths, equal to the specified expansion |
| RouteTemplates.ResolveExpression | scripts/validate/route-agreement.ts:1367-1374 | equal to the specified resolution, cut at the depth limit, and never empty |
| RouteTemplates.ProductCovers | scripts/validate/route-agreement.ts:1355-1362 | if two lists of paths cover two texts, their product covers the joined text |
| RouteTemplates.ExpandCovers | scripts/validate/route-agreement.ts:1342-1374 | the expansion loses no text the template can denote, whichever holes the cap or the depth cut collapses |
| RouteTemplates.EveryAddressIsCovered | scripts/validate/route-agreement.ts:1342-1374 | every concrete text a template can denote, to any number of levels, is covered by a returned path with the marker read as a wildcard |
| TemplatePrecision.MarkerFreeIsDenoted | scripts/validate/route-agreement.ts:1342-1374 | every returned path without the marker is one the template denotes |
| TemplatePrecision.NothingIsCollapsed | scripts/validate/route-agreement.ts:1342-1374 | if every hole names values, to at most 4 levels and with at most 64 choices in all, the returned paths are exactly the texts the template denotes |
| TemplateNames.CalleeIsExact | scripts/validate/route-agreement.ts:1370-1370 | the name an expression is looked up by is the last of a dotted chain of names that is the whole expression or is called there, and there is none otherwise |
| TemplateNames.ValuesAreExact | scripts/validate/route-agreement.ts:1370-1373 | a hole stands for the values of that name, and for none if it has no such name or the name is not known |
| TemplateNames.HoleIsBalanced | scripts/validate/route-agreement.ts:1352-1359 | a hole ends at the brace that balances its own, and its expression is what stands between, without the white space at its ends |
| TemplateNames.OpenHole | scripts/validate/route-agreement.ts:1352-1359 | a hole that is never closed takes the rest of the text, and loses its last character |
| RoutePaths.ComparePaths | scripts/validate/route-agreement.ts:1537-1569 | the segment loop decides the matching relation |
| RoutePaths.SegmentSoundness | scripts/validate/route-agreement.ts:1510-1535 | a matched segment and route segment have a common concrete text exactly when the route's is a parameter or the client's markers leave no readable text between them |
| RoutePaths.MatchSoundness | scripts/validate/route-agreement.ts:1537-1569 | a matched path and route have a common concrete address exactly when that holds of every segment |
| RoutePaths.OneMarkerIsSound | scripts/validate/route-agreement.ts:1537-1569 | with at most one marker in a segment every match names a common address |
| RoutePaths.TwoMarkersCanBeUnsound | scripts/validate/route-agreement.ts:1510-1535 | a concrete match with two markers that no address realises |
| RoutePaths.MarkerFreeIsRouting | scripts/validate/route-agreement.ts:1537-1569 | on marker-free paths the matcher is the ordinary router predicate |
| RoutePaths.ParameterIsExact | scripts/validate/route-agreement.ts:1510-1535 | a parameter segment matches a client segment exactly when some text answers the one and fills the other |
| RoutePaths.LiteralIsExact | scripts/validate/route-agreement.ts:1510-1535 | a literal segment matches exactly when it is what is left of the client segment without the stretch from its first marker to its last, and more than a marker is there |
| RoutePaths.TightIsExact | scripts/validate/route-agreement.ts:1510-1535 | where markers leave no text between them, exactly when it is the client segment with its markers erased |
| RoutePaths.MatchIsExact | scripts/validate/route-agreement.ts:1537-1569 | both for whole paths, segment by segment |
| RouteGate.FindUnserved | scripts/validate/route-agreement.ts:1759-1775 | exactly the dials no route answers, each reported once |
| RouteGate.FindUnreached | scripts/validate/route-agreement.ts:1776-1800 | exactly the routes nothing dials and those only an unreadable verb reaches |
| RouteGate.RouteIsReported | scripts/validate/route-agreement.ts:1776-1800 | a route is unreached exactly when no dial of its verb or of an unreadable one fits its path, and unproven exactly when only dials of an unreadable verb do |
| RouteGate.UnreadableVerbProvesNothing | scripts/validate/route-agreement.ts:1776-1800 | a route that only dials of unreadable verbs fit is reported unproven, and each of those dials is served |
| RouteGate.KeysAreSpelled | scripts/validate/route-agreement.ts:1802-1843 | an allowlist line is direction, verb and path with blanks between |
| RouteGate.KeyIsInjective | scripts/validate/route-agreement.ts:1802-1843 | a finding's key tells direction and target apart, so comparing keys compares findings |
| RouteGate.TargetIsInjective | scripts/validate/route-agreement.ts:1759-1800 | verb and path can be read back from a target |
| RouteGate.Reconcile | scripts/validate/route-agreement.ts:1802-1843 | the two lists are the findings not allowed and the allowed lines not found |
| RouteGate.Gate | scripts/validate/route-agreement.ts:1759-1843 | passes exactly when the findings are the allowlist |
| RouteGate.VerbChangeSlipsThrough | scripts/validate/route-agreement.ts:134-148 | after a passing gate, changing one route's verb passes again exactly when no dial relies on the route and neither version of it has anything to report |
| RouteGate.VerbChangeIsNoticed | scripts/validate/route-agreement.ts:134-148 | a route declared once, none of whose dials another route answers, cannot change its verb unnoticed, be it proven, unproven or unreached |
| RouteGate.DeclaredVerbIsHeld | scripts/validate/route-agreement.ts:134-148 | an allowlisted `verb-unproven` or `unreached` line holds the verb of a route declared once, whatever else is served |
| RouteGate.ShadowedRouteSlipsThrough | scripts/validate/route-agreement.ts:134-148 | a concrete set of routes and dials on which a changed verb passes |
| CallArguments.PiecesAreSplit | scripts/validate/route-agreement.ts:1096-1112 | joining a span's arguments with commas restores the span, the commas between them are at depth zero, and no argument holds one |
| CallArguments.SplitIsPieces | scripts/validate/route-agreement.ts:1096-1112 | no other list has these properties |
| CallArguments.ArgumentsStandInSpan | scripts/validate/route-agreement.ts:1096-1112 | each argument's text stands in the span at its reported start |
| CallArguments.SplitSpan | scripts/validate/route-agreement.ts:1096-1112 | the loop yields those arguments with their starts |
| CallArguments.EnclosedIsOneArgument | scripts/validate/route-agreement.ts:1096-1112 | what a bracket of any of three kinds encloses is one argument, commas and all |
| CallArguments.SplitAtEveryComma | scripts/validate/route-agreement.ts:1096-1112 | no other character is a bracket: without those six a span is split at each of its commas |
| CallArguments.CallIsReadExactly | scripts/validate/daemon-scope.ts:246-273 | the other splitter's result is the split of the balanced text before a close, and it has one exactly when there is such a text |
| CallArguments.ReadCall | scripts/validate/daemon-scope.ts:246-273 | the loop from the opening bracket yields that, and the empty list when the call never closes |
| CallArguments.SplittersAgree | scripts/validate/daemon-scope.ts:246-273 | the two agree on a span and its call exactly when the span's depth is never negative and ends at zero, whatever follows |
| CallArguments.LineDepthIsDepthInText | scripts/validate/daemon-scope.ts:214-244 | for the lines split from any text: the depth at a line is the depth of the text before it, and the last line ends at the depth of the whole text |
| CallArguments.BraceDepths | scripts/validate/daemon-scope.ts:214-226 | the two nested loops yield one such depth for each line |
| CallArguments.FinalDepth | scripts/validate/daemon-scope.ts:228-244 | the loop yields the depth after the whole text |
| ListScheduling.LoadsConserveWork | scripts/ci/e2e-shards.ts:186-192 | however jobs are placed, the loads add up to the work |
| ListScheduling.EvenShare | scripts/ci/e2e-shards.ts:188-190 | the runner given a job holds at most an even share of the earlier work |
| ListScheduling.GreedyBound | scripts/ci/e2e-shards.ts:186-192 | N times any load is at most the total plus N - 1 times the longest job |
| ListScheduling.TwiceBest | scripts/ci/e2e-shards.ts:186-192 | any load is at most 2 - 1/N times the makespan of any plan whatever |
| ListScheduling.LongCriticalJobFits | scripts/ci/e2e-shards.ts:179-192 | taken longest first, a critical job longer than a third of another plan's makespan still fits under it |
| ListScheduling.LongestFirstBound | scripts/ci/e2e-shards.ts:179-192 | taken longest first, any load is at most 4/3 - 1/(3N) times the makespan of any plan whatever |
| ListScheduling.LongestFirstBoundIsTight | scripts/ci/e2e-shards.ts:179-192 | for every number of runners there are jobs on which that factor is attained |
| E2eShards.SortIsLongestFirst | scripts/ci/e2e-shards.ts:182-184 | for any way of breaking ties the order is longest first and a permutation |
| E2eShards.SortBreaksTies | scripts/ci/e2e-shards.ts:182-184 | journeys that take equally long stand in the order of the names, if that order tells them apart |
| E2eShards.RunnersAgree | scripts/ci/e2e-shards.ts:21-24 | then runners that list the same journeys in whatever order hand them out in the same order |
| E2eShards.SlowByTitle | scripts/ci/e2e-shards.ts:158-161 | the slow tier is the journeys whose own title ends in the tag and white space, the fast tier the others |
| E2eShards.DisplayOneMore | scripts/ci/e2e-shards.ts:83-83 | a journey is named by its describe names and its title with ` > ` between each two |
| E2eShards.TimedByName | scripts/ci/e2e-shards.ts:180-181 | it takes the seconds recorded for its file and that name, or ten |
| Text.SpacesAreSpelled | scripts/ci/e2e-shards.ts:158-158 | what counts as white space, and is trimmed, is the white space and line terminators of ECMA-262 (sections 12.2 and 12.3) |
| E2eShards.Lightest | scripts/ci/e2e-shards.ts:189-189 | the least loaded runner, the lowest-numbered of several |
| E2eShards.HandOut | scripts/ci/e2e-shards.ts:186-192 | the loop makes the greedy placement, its loads, and the list of one runner |
| E2eShards.Plan | scripts/ci/e2e-shards.ts:173-192 | each load is the seconds of its runner's journeys, and no runner works longer than 4/3 - 1/(3N) times what any assignment could achieve |
| E2eShards.LoadIsWork | scripts/ci/e2e-shards.ts:186-192 | a final load is the sum of its shard's seconds |
| E2eShards.GreedyIsUnique | scripts/ci/e2e-shards.ts:21-24 | there is one greedy plan, so runners that compute it separately agree |
| E2eShards.ShardsPartition | scripts/ci/e2e-shards.ts:186-192 | every journey is handed to exactly one runner |
| E2eShards.TiersPartition | scripts/ci/e2e-shards.ts:158-161 | the fast and the slow tier partition all journeys |
| E2eShards.PlanCoversTier | scripts/ci/e2e-shards.ts:173-192 | together the shards are the tier, with its times |
| ShardPattern.EscapedReadsBack | scripts/ci/e2e-shards.ts:163-163 | an escaped name reads as that literal name in front of any alternation |
| ShardPattern.SyntaxIsEscaped | scripts/ci/e2e-shards.ts:163-163 | what is escaped is the syntax characters of a regular expression (section 22.2.1 of ECMA-262) and the slash |
| ShardPattern.PatternIsExact | scripts/ci/e2e-shards.ts:204-208 | the anchored alternation matches exactly the shard's names, whatever characters they hold |
| ShardPattern.RunsWhereHandedOut | scripts/ci/e2e-shards.ts:204-208 | every journey is run by the runner it was handed to |
| ShardPattern.RunsElsewhere | scripts/ci/e2e-shards.ts:204-208 | a runner runs a journey exactly when it holds one of its file and one of its full name |
| ShardPattern.UniqueNamesRunOnce | scripts/ci/e2e-shards.ts:8-17 | with distinct full names every journey is run by one runner only |
| ShardPattern.SharedNameRunsTwice | scripts/ci/e2e-shards.ts:204-208 | two journeys with one joined name, each run on two shards |
| RequestQueue.InvariantHolds | packages/daemon/bin/browser-worker.ts:232-248 | every step keeps it: the map's entry is the last work of its key, a key without one has nothing unsettled, and what has started had its predecessors settled |
| RequestQueue.OneAtATimeInOrder | packages/daemon/bin/browser-worker.ts:232-248 | in every interleaving, once a work has started all earlier works of its key have settled |
| RequestQueue.ForgettingOvertakesNothing | packages/daemon/bin/browser-worker.ts:242-246 | when the map has no entry for a key, no work of that key is unsettled, so the next one overtakes nothing |
| RequestQueue.OnlyOwnKeyBlocks | packages/daemon/bin/browser-worker.ts:233-236 | a waiting work may start exactly when all earlier works of its key have settled, by success or rejection alike |
| RequestQueue.EveryWorkStarts | packages/daemon/bin/browser-worker.ts:232-248 | on every infinite behaviour in which works settle and turns are taken, every queued work starts |
| RequestQueue.OnlyOwnPageBlocks | packages/daemon/bin/browser-worker.ts:919-931 | for every stream of requests and every interleaving of their answers, a waiting request may start exactly when the earlier queued requests for its own page have settled, naming no page or an empty one counting as one page |
| RequestQueue.GoesAhead | packages/daemon/bin/browser-worker.ts:919-931 | typed input, acknowledged frames and the reads of a dialog, the console and the network go ahead of the queues, and nothing else does |
| RequestQueue.Worker.Queued | packages/daemon/bin/browser-worker.ts:233-248 | the method on the map and the global tail is the enqueue step |
| RequestQueue.Worker.Dispatch | packages/daemon/bin/browser-worker.ts:1263-1266 | a request is queued under its key, or not at all |
| RequestQueue.Worker.Forget | packages/daemon/bin/browser-worker.ts:243-245 | the entry is removed only while it is still this work's |
| JunitReport.ReadResults | scripts/ci/quarantine.ts:117-148 | the loop with its stack and open test is the specified fold over the tags |
| JunitReport.ReaderYieldsTests | scripts/ci/quarantine.ts:117-148 | over the tags of any tree of suites and tests, every test once, in document order, with its describe path less the file's suite, and failed exactly when it has a failure or error child |
| JunitReport.FileSuiteIsDropped | scripts/ci/quarantine.ts:117-148 | the suite of a file is no part of the path of its tests; the describe suites below it are |
| JunitReport.MissingIsEmpty | scripts/ci/quarantine.ts:117-148 | an attribute that a tag lacks reads as an empty one, by either reader |
| JunitReport.ReadJourneys | scripts/ci/e2e-shards.ts:90-110 | the other reader's loop is its fold |
| JunitReport.ReadersAgree | scripts/ci/e2e-shards.ts:90-110 | both readers list the same files and paths in the same order |
| Entities.OneMoreEntity | scripts/ci/quarantine.ts:104-110 | replacing one more entity after a pass that knew others equals one pass that knows it too, if none can produce or destroy the other |
| Entities.ChainIsPass | scripts/ci/quarantine.ts:104-110 | the chained replacements equal one pass over the table |
| Entities.OnceIsPass | scripts/ci/unit-timings.ts:3-7 | so does the single replacement |
| Entities.DecodersAgree | scripts/ci/unit-timings.ts:3-7 | the chained and the one-pass decoder agree on every string |
| Entities.DecodeUndoesEscape | scripts/ci/e2e-shards.ts:70-76 | decoding inverts escaping of the five predefined entities (section 4.6 of XML 1.0) |
| Entities.PredefinedEntities | scripts/ci/quarantine.ts:104-110 | the five entities, each spelled out, are read by both decoders as their characters |
| JunitAttributes.ReadsExactly | scripts/ci/quarantine.ts:112-115 | what the lookup of an attribute written into any tag reads: its value, or the opening that follows the first earlier value ending like its own opening |
| JunitAttributes.ReadsBack | scripts/ci/quarantine.ts:112-115 | it is read back, decoded, if and only if no earlier value ends like its opening or it is worth the text read instead |
| JunitAttributes.MimicIsMisread | scripts/ci/quarantine.ts:112-115 | a concrete tag on which the lookup of `file` reads something that was not written for it |
| JunitText.ReportIsRead | scripts/ci/quarantine.ts:112-148 | the tags read from a written report are those of its tree if and only if every name and file asked for has no earlier value in its tag that ends like its opening, or is worth the text read instead |
| JunitText.TextYieldsTests | scripts/ci/quarantine.ts:112-148 | then both readers yield exactly the tests of the tree |
| JunitText.MisreadReport | scripts/ci/quarantine.ts:112-148 | a report of one test whose file comes out wrong |
| Lcov.MergedLines | scripts/ci/quarantine.ts:197-209 | the merged ledger holds the first run's lines and the lines the rerun hit, each with the larger count |
| Lcov.MissedStaysMissed | scripts/ci/quarantine.ts:161-175 | a line the first run missed stays missed exactly when the rerun did not hit it |
| Lcov.SameRerunTwice | scripts/ci/quarantine.ts:197-209 | merging the same rerun again changes no line |
| Lcov.RerunsInEitherOrder | scripts/ci/quarantine.ts:197-209 | two reruns give the same lines in either order |
| Lcov.RecordAfterMerge | scripts/ci/quarantine.ts:197-209 | each file's record after the merge depends on its two records alone |
| Lcov.MergedFunctions | scripts/ci/quarantine.ts:204-209 | a file of both runs keeps the first run's number of functions, and has the larger number hit, but no more than that |
| Lcov.OneRunsFunctions | scripts/ci/quarantine.ts:199-204 | a file of one run has that run's functions |
| Lcov.MergeKeepsOrder | scripts/ci/quarantine.ts:197-209 | the merged ledger lists the first run's files in their order, and then the rerun's new ones in theirs |
| Lcov.SameRerunTwiceWhole | scripts/ci/quarantine.ts:197-209 | whole records are the same exactly when a file only the rerun knows claims no more functions hit than found |
| Lcov.OverclaimIsCappedLater | scripts/ci/quarantine.ts:197-209 | a concrete rerun that a second merge changes |
| LcovText.TotalsAreRight | scripts/ci/quarantine.ts:210-216 | the printed totals are the number of lines and of lines hit |
| LedgerPrint.RecordIsSaid | scripts/ci/quarantine.ts:213-215 | in every printed record the number on the `LF:` line is the number of its `DA:` lines, and that on the `LH:` line how many of them carry a positive count |
| LedgerPrint.TextIsSaid | scripts/ci/quarantine.ts:210-218 | and the whole text is such records, one for each file |
| LcovText.PrintedParsesBack | scripts/ci/quarantine.ts:178-218 | parsing a printed ledger returns it, every count and in order |
| LcovText.MergedLedgerParsesBack | scripts/ci/quarantine.ts:176-218 | the printed merge of two parsed texts parses back to the merge |
| LcovText.ParseText | scripts/ci/quarantine.ts:178-197 | the line loop is the specified parser |
| LedgerRead.TextIsRead | scripts/ci/quarantine.ts:178-197 | a parsed ledger holds the files whose records the text opens; of each line of a file the last count stated in a record since the file was last opened, and of its functions likewise, or zero |
| LedgerRead.RefusedExactly | scripts/ci/quarantine.ts:178-197 | a text is refused exactly when a garbled count stands inside a record |
| LedgerRead.HitsLine | scripts/ci/quarantine.ts:186-188 | the number and the hits of a line are its first two fields, whatever fields follow |
| LedgerRead.CountLine | scripts/ci/quarantine.ts:189-192 | the functions found and hit are the numbers after their prefixes |
| LedgerRead.FileLine | scripts/ci/quarantine.ts:183-185 | a record is opened by exactly the lines that begin with the prefix, for the file named after it |
| LedgerRead.EndLine | scripts/ci/quarantine.ts:193-195 | and ended by exactly the one line that says so |
| LcovText.RaiseLines | scripts/ci/quarantine.ts:206-207 | the update loop yields the raised line map, whatever order the lines come in |
| LcovText.SortNumbers | scripts/ci/quarantine.ts:212-212 | the line numbers in ascending order, each once |
| LcovText.MergeLcov | scripts/ci/quarantine.ts:176-218 | from two texts to the printed merge |
| Quarantine.KeyIsInjective | scripts/ci/quarantine.ts:76-76 | file and name can be read back from a key |
| Quarantine.FailuresAreCounted | scripts/ci/quarantine.ts:264-274 | the failures are as many as the places in the report at which a test failed |
| Quarantine.ListedByFullName | scripts/ci/quarantine.ts:66-76 | a test is listed by its describe names and title with ` > ` between them |
| Quarantine.Decide | scripts/ci/quarantine.ts:256-319 | a red tier is rescued exactly when it has failures, the report names them all, each is listed, the rerun wrote its ledger and exited clean, and each passes in it |
| Quarantine.RescueExcusesEveryFailure | scripts/ci/quarantine.ts:12-28 | from tree to tree: in a rescued tier every failing test is listed by file and full name, and the rerun's report has it without failure |
| Quarantine.RescueExcusesWrittenFailure | scripts/ci/quarantine.ts:12-28 | the same for reports as they are written, if their attributes read right |
| ClosedSet.CodeIsBoundary | scripts/validate/closed-set-agreement.ts:125-201 | from a code character on, a file's classification is that of the rest alone |
| ClosedSet.TakenIsList | scripts/validate/closed-set-agreement.ts:380-413 | alternating member and separator accepts exactly the comma lists, with a trailing comma only after a member |
| ClosedSet.ReadIsWritten | scripts/validate/closed-set-agreement.ts:367-416 | whatever is read from a span is written there, piece by piece: quoted names, commas, comments and blanks |
| ClosedSet.WrittenIsRead | scripts/validate/closed-set-agreement.ts:367-416 | a span written of such pieces reads as its names and commas, whatever the comments hold |
| ClosedSet.AcceptsExactlyLists | scripts/validate/closed-set-agreement.ts:60-63 | between two brackets in code a list of members is accepted exactly when the span spells it; nothing in the span is skipped |
| ClosedSet.ListAtIsExact | scripts/validate/closed-set-agreement.ts:299-318 | the same for the bracket that balances the opening one |
| ClosedSet.ListAfterIsExact | scripts/validate/closed-set-agreement.ts:252-285 | a declaration's members are those of the bracket in code that follows it with nothing but white space and comments between, and without one it has none |
| ClosedSet.MemberCharacters | scripts/validate/closed-set-agreement.ts:321-321 | a member is a letter followed by letters, digits and four signs |
| WrittenClasses.ClassesAreExact | scripts/validate/closed-set-agreement.ts:125-201 | a text has these classes exactly when it is written of comments, literals and plain characters that have them, a quote that nothing closes being plain |
| WrittenClasses.FailsExactly | scripts/validate/closed-set-agreement.ts:125-201 | it cannot be classified exactly when, after such parts, a comment block or a template is never ended |
| ClosedSet.WrittenListReadsBack | scripts/validate/closed-set-agreement.ts:299-416 | a list written between brackets with any comments and spacing is read back: its own bracket is found, and its members, whatever follows in the file |
| ClosedSetReader.ClassifyText | scripts/validate/closed-set-agreement.ts:125-201 | the loop fills the buffer with the specified classes, or fails on an unterminated comment or template |
| ClosedSetReader.FindClose | scripts/validate/closed-set-agreement.ts:299-318 | the depth loop finds the balancing close |
| ClosedSetReader.ReadMember | scripts/validate/closed-set-agreement.ts:329-355 | the literal at an offset is read when it is quoted, holds no escape and names a member |
| ClosedSetReader.ReadMembers | scripts/validate/closed-set-agreement.ts:367-416 | the alternating loop yields the specified members, or refuses |
| ClosedSetReader.LiteralArray | scripts/validate/closed-set-agreement.ts:252-318 | from the end of a declaration's marker to its members |
| CoalescingReplay.StateOfIsLast | scripts/local/simulate-message-coalescing.ts:86-100 | any index with an earlier-or-equal state and only later ones after it gives the state at an instant, duplicates included |
| CoalescingReplay.BeforeAnyChange | scripts/local/simulate-message-coalescing.ts:86-100 | before any recorded change the receiver is working |
| CoalescingReplay.StateAt | scripts/local/simulate-message-coalescing.ts:86-100 | the binary search gives what looking back from the end gives |
| CoalescingReplay.DeliverAllKeeps | scripts/local/simulate-message-coalescing.ts:149-180 | whatever a planner that keeps its promises releases at an instant, messages stay balanced and timely |
| CoalescingReplay.TurnKeeps | scripts/local/simulate-message-coalescing.ts:188-226 | one turn keeps the invariant, and stops next at the earliest event, strictly later |
| CoalescingReplay.ClockMovesOn | scripts/local/simulate-message-coalescing.ts:188-226 | below a horizon on holds and events, the time left strictly shrinks |
| CoalescingReplay.EndsExactly | scripts/local/simulate-message-coalescing.ts:182-228 | a run comes to an end if and only if there is a horizon on the holds its planner asks for |
| CoalescingReplay.NeverEnds | scripts/local/simulate-message-coalescing.ts:182-228 | the loop itself does not ensure that: with a planner unlike the repository's own, which puts one message off for ever, it never ends |
| CoalescingReplay.HorizonEnds | scripts/local/simulate-message-coalescing.ts:182-228 | it comes to an end for every planner that never holds recorded messages past some instant |
| CoalescingReplay.DueTimesEnd | packages/daemon/src/lib/session/queue/service.ts:114-119 | and for every planner whose holds are due times of pending messages, fixed for each beforehand |
| ReplayLoop.EveryRunBalances | scripts/local/simulate-message-coalescing.ts:182-228 | in every run the clock strictly increases, each arrival taken in is delivered once or pending and never both, none before it arrived, and the clock stops at each arrival |
| ReplayLoop.FiguresAreSound | scripts/local/simulate-message-coalescing.ts:166-179 | of any timely log: no wait is negative, there is one for each ferret message delivered, and every counted turn delivered at least one and at most the largest batch |
| ReplayLoop.FiguresAreExact | scripts/local/simulate-message-coalescing.ts:160-179 | turns are the batches that hold a ferret's message, wakes those of them that met a waiting receiver, the largest is the largest of the log, and each label's waits are from arrival to delivery in the order of delivery |
| ReplayLoop.WokenAreCounted | scripts/local/simulate-message-coalescing.ts:197-212 | the wakes before are the ferret messages that came while the receiver waited |
| ReplayLoop.NeverMoreTurns | scripts/local/simulate-message-coalescing.ts:149-228 | turns after plus ferret messages pending are at most the turns before |
| ReplayLoop.RunEndsDelivered | scripts/local/simulate-message-coalescing.ts:188-193 | a run ends with every arrival taken in, and with one pending only when nothing is left that could release it |
| ReplayLoop.DropTimers | scripts/local/simulate-message-coalescing.ts:195-195 | removing the least while it is due leaves exactly the later timers, in order |
| ReplayLoop.Replay.DeliverDue | scripts/local/simulate-message-coalescing.ts:149-180 | the inner loop is the specified delivery, and its counters are the log's figures |
| ReplayLoop.Replay.Advance | scripts/local/simulate-message-coalescing.ts:188-226 | one pass of the loop is the specified turn, or nothing when the run is over |
| ReplayLoop.Replay.Run | scripts/local/simulate-message-coalescing.ts:182-228 | terminates, for every planner with a horizon, in a state that is over and that turns lead to |
| DeliveryPlanner.PlanIsSound | packages/daemon/src/lib/session/queue/policy.ts:114-153 | the planner delivers the front of one sender's messages in the order of delivery; or, when all that is pending is ferret messages whose holds have not ended, holds until the earliest does; or has nothing to do |
| DeliveryRules.HoldsExactly | packages/daemon/src/lib/session/queue/policy.ts:114-153 | something pending is held exactly when all of it is ferret messages that must wait: combining is on, each is no question and no blocker, its window or cap has not run out, and for news no turn has ended since |
| DeliveryRules.HoldsUntilFirstCloses | packages/daemon/src/lib/session/queue/policy.ts:148-152 | and then until the first window or cap runs out |
| DeliveryRules.PersonGoesFirst | packages/daemon/src/lib/session/queue/policy.ts:123-124 | a person's message goes before all, alone, the first that came |
| DeliveryRules.DueTakesAllAlong | packages/daemon/src/lib/session/queue/policy.ts:126-143 | a ferret message that need not wait takes along all pending ferret messages, in the order they came, up to the size of a batch |
| DeliveryRules.DaemonPassesWaiting | packages/daemon/src/lib/session/queue/policy.ts:144-147 | the daemon's message passes ferret messages that must wait, and none that need not |
| DeliveryReplay.PlannerKeepsPromises | packages/daemon/src/lib/session/queue/policy.ts:114-153 | it delivers some of what is pending, each once, and only holds to a later instant |
| DeliveryReplay.ReplayEnds | scripts/local/simulate-message-coalescing.ts:182-228 | with it the replay comes to an end on every recording and for every setting of the knobs |
| DeliveryReplay.EveryMessageInTime | packages/daemon/src/lib/session/queue/policy.ts:73-77 | by then every message has been delivered exactly once, not before it came and not after its hold; one that is never held, at the instant it came |
| DeliveryRules.NothingGoesEarly | packages/daemon/src/lib/session/queue/policy.ts:65-77 | in every run of the replay a batch with a ferret message goes only when one of those pending need not wait |
| DeliveryReplay.EachSenderInOrder | packages/daemon/src/lib/session/queue/policy.ts:6-9 | and the messages of people, of ferrets and of the daemon each in the order they came |
| DeliveryReplay.WaitsAreBounded | scripts/local/simulate-message-coalescing.ts:166-179 | so no reported wait of a blocker is above zero, of an action above its window, of news above its cap |
| DeliveryReplay.ReplayMessages | scripts/local/simulate-message-coalescing.ts:122-228 | the replay as run ends with nothing pending and those waits |
| LineNumbers.LineIsLastPiece | scripts/validate/closed-set-agreement.ts:105-112 | an offset's line is the number of lines of what is before it |
| LineNumbers.LineAt | scripts/validate/route-agreement.ts:321-328 | the linear count, for every offset, before, in or past the text |
| LineNumbers.LineStarts | scripts/validate/no-sync-io.ts:112-113 | the search from newline to newline collects the start of every line |
| LineNumbers.StartsUpTo | scripts/validate/no-sync-io.ts:112-124 | a line starts at or before an offset exactly when the line count there reaches it |
| LineNumbers.LineByHalving | scripts/validate/no-sync-io.ts:114-124 | the binary search gives the linear count's line, for every integer offset |

## Left out

- Files, processes, git, exit codes and messages: the models take text already read and facts already built, and a failing
  exit is a result value without its message.
- The extraction of facts from source text (`parseModule`, `namesIn`, `verbFor`, helper and producer discovery,
  `soleDeclaration`): heuristic pattern matching without a crisp specification; its outputs are inputs here.
- Resolving a specifier to a file, and caching parsed facts: one partial function and one map stand for both.
- The order of names in a `Set`: it can decide which missing name is reported first, not whether one is.
- `grantEntries`, `trueEntries` and the agreements over them: variations of the array parser that would add shorter proofs
  of the same kind.
- `cors-header-agreement.ts`, whose lexer repeats the modelled one.
- In the delivery planner: stopped receivers, interactive sessions, messages being typed, interrupts and parked questions.
  The replay never has any (`scripts/local/simulate-message-coalescing.ts:152-160`).
- The queue service: its log and identifiers. A message is queued at the instant it came, because the clock stops there.
- RequestQueue.EveryWorkStarts: the two fairness assumptions (a work whose turn has come is called, a running work settles)
  are assumptions on the event loop and on the works; `racing`, which may abandon an inner act, is below the modelled
  promise.
- RequestQueue.InvariantHolds: the result promise and the promise derived from it that the map holds settle in one step here;
  in the source a microtask lies between them.
- LcovText.ParseText: a count that is not a plain decimal number makes the parse fail here, where the source would carry
  JavaScript's `Number` of it; a number too large for a double is exact here.
- LcovText.MergeLcov: has no result for such a ledger, where the source would merge and print what `Number` gives.
- LcovText.MergedLedgerParsesBack: is about ledgers that parse here, so not about such counts.
- E2eShards.Plan: recorded seconds are natural numbers of tenths, and the locale's order of names is an arbitrary relation
  for breaking ties.
- ShardPattern.PatternIsExact: the regular expression engine is a matcher for anchored alternations of literals.
- Strings are sequences of Dafny characters, so lone surrogates do not occur.
- Playwright, screencasts, dialogs and page state in the browser worker.
- The times in the JUnit reports, the timings file, and the printed summaries.
