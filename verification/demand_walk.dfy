/** The walk that spreads demand from the composition roots, over its two variables: demands and a queue. */
module DemandWalk {
  import opened ModuleFacts
  import opened ModuleGraphs
  import opened Options

  type Demands = map<File, set<Want>>

  datatype Outcome = Reached(files: set<File>) | Failed(file: File, name: string)

  // ----- what a set of recorded demands covers -----

  /** A demand is covered when it is recorded, or subsumed by a recorded demand for everything. */
  ghost predicate Covers(d: Demands, item: Item) {
    item.file in d && (item.Ask? ==> item.want in d[item.file] || All in d[item.file])
  }

  /** Whatever these demands on `file` lead to is covered. */
  ghost predicate Closed(p: Project, d: Demands, file: File, wanted: set<Want>) {
    forall a: Item, b: Item :: a.file == file && (a.Ask? ==> a.want in wanted) && p.Leads(a, b) ==> Covers(d, b)
  }

  ghost predicate NamespaceCovered(p: Project, d: Demands, file: File, wanted: set<Want>, i: int)
    requires file in p.facts
  {
    forall a: Item, b: Item | a.Ask? && a.file == file && a.want in wanted && p.ByNamespace(a, b, i) :: Covers(d, b)
  }

  ghost predicate NamedCovered(p: Project, d: Demands, file: File, wanted: set<Want>, i: int)
    requires file in p.facts
  {
    forall a: Item, b: Item, exported | a.Ask? && a.file == file && a.want in wanted && p.ByName(a, b, i, exported) ::
        Covers(d, b)
  }

  /** Every star target that exports the name has been asked for it. */
  ghost predicate Routed(p: Project, d: Demands, file: File, name: string) {
    forall target | p.StarHop(file, target) && p.Exports(target, name) :: Covers(d, Ask(target, Name(name)))
  }

  ghost predicate ImportsCovered(p: Project, d: Demands, file: File)
    requires file in p.facts
  {
    forall b: Item, i | p.ByImport(Touch(file), b, i) :: Covers(d, b)
  }

  /** The stars have been dealt with: everything passed on, or every single name routed. */
  ghost predicate StarsCovered(p: Project, d: Demands, file: File, wanted: set<Want>)
    requires file in p.facts
  {
    if All in wanted then forall target | p.StarHop(file, target) :: target in d && All in d[target]
    else forall name | Name(name) in wanted && name !in p.OwnNames(file) ::
        Routed(p, d, file, name) && !p.Unresolvable(file, name)
  }

  /** A recorded name nothing accounts for. */
  ghost predicate Missing(p: Project, d: Demands, file: File, name: string) {
    file in d && Name(name) in d[file] && p.Unresolvable(file, name)
  }

  ghost predicate AllClosed(p: Project, d: Demands) {
    forall file | file in d :: Closed(p, d, file, d[file])
  }

  ghost predicate Rooted(roots: set<File>, d: Demands) {
    forall root | root in roots :: root in d && All in d[root]
  }

  /** No name asked of this module is missing, unless everything is asked of it. */
  ghost predicate Settled(p: Project, file: File, wanted: set<Want>) {
    All in wanted || forall name :: Name(name) in wanted ==> !p.Unresolvable(file, name)
  }

  /** Only modules and names that some chain of demand really asks for have been recorded. */
  ghost predicate Sound(p: Project, roots: set<File>, wants: set<Want>, d: Demands) {
    && d.Keys <= p.facts.Keys
    && (forall file | file in d :: d[file] <= wants)
    && (forall file {:trigger p.Reachable(roots, file)} | file in d :: p.Reachable(roots, file))
    && (forall file, want {:trigger p.Demanded(roots, Ask(file, want))} | file in d && want in d[file] ::
          p.Demanded(roots, Ask(file, want)))
  }

  /** Every recorded module is still queued or completely dealt with. */
  ghost predicate Dealt(p: Project, d: Demands, queue: seq<File>) {
    forall file | file in d :: file in queue || (Closed(p, d, file, d[file]) && Settled(p, file, d[file]))
  }

  /** `wants` holds everything, and every name some module can ask another for. */
  ghost predicate Known(p: Project, wants: set<Want>) {
    && All in wants
    && (forall file, i | file in p.facts && 0 <= i < |p.facts[file].imports| :: p.facts[file].imports[i].names <= wants)
    && (forall file, i, exported | file in p.facts && 0 <= i < |p.facts[file].namedReexports|
          && exported in p.facts[file].namedReexports[i].names ::
             Name(p.facts[file].namedReexports[i].names[exported]) in wants)
  }

  lemma WantsAreKnown(p: Project)
    ensures Known(p, p.Wants())
  {}

  // ----- growth -----

  /** This module was reached, or asked for more, since `d0`. */
  ghost predicate Grew(d0: Demands, d: Demands, file: File) {
    file in d && (file in d0 ==> d[file] != d0[file])
  }

  /** Demands only ever grow, whatever grew is queued, and nothing is queued unless something grew. */
  ghost predicate Grows(d0: Demands, queue0: seq<File>, d: Demands, queue: seq<File>) {
    && (forall file | file in d0 :: file in d && d0[file] <= d[file])
    && (forall file | Grew(d0, d, file) :: file in queue)
    && (forall file | file in queue0 :: file in queue)
    && (queue == queue0 || exists file :: Grew(d0, d, file))
  }

  lemma GrowsTransitively(d0: Demands, queue0: seq<File>, d1: Demands, queue1: seq<File>, d2: Demands,
                          queue2: seq<File>)
    requires Grows(d0, queue0, d1, queue1) && Grows(d1, queue1, d2, queue2)
    ensures Grows(d0, queue0, d2, queue2)
  {
    forall file | Grew(d0, d2, file) ensures file in queue2 {
      assert Grew(d0, d1, file) || Grew(d1, d2, file);
    }
    if file :| Grew(d0, d1, file) {
      assert file in d0 ==> d0[file] <= d1[file] <= d2[file];
      assert Grew(d0, d2, file);
    } else if file :| Grew(d1, d2, file) {
      assert Grew(d0, d2, file);
    }
  }

  /** Some demand recorded of `file` leads directly to this one. */
  ghost predicate Led(p: Project, d: Demands, file: File, item: Item) {
    file in d && exists a: Item :: LeadsFrom(p, d, file, a, item)
  }

  ghost predicate LeadsFrom(p: Project, d: Demands, file: File, a: Item, b: Item)
    requires file in d
  {
    a.file == file && (a.Ask? ==> a.want in d[file]) && p.Leads(a, b)
  }

  /** Demands grow, and only by what the demands recorded of `file` lead to in one step. */
  ghost predicate Steps(p: Project, file: File, d0: Demands, queue0: seq<File>, d: Demands, queue: seq<File>) {
    && Grows(d0, queue0, d, queue)
    && (forall target | target in d && target !in d0 :: exists b: Item :: b.file == target && Led(p, d, file, b))
    && (forall target, want | target in d && want in d[target] && !(target in d0 && want in d0[target]) ::
          Led(p, d, file, Ask(target, want)))
  }

  lemma LedLater(p: Project, d0: Demands, queue0: seq<File>, d: Demands, queue: seq<File>, file: File)
    requires Grows(d0, queue0, d, queue)
    ensures forall b: Item :: Led(p, d0, file, b) ==> Led(p, d, file, b)
  {
    forall b: Item | Led(p, d0, file, b) ensures Led(p, d, file, b) {
      var a :| LeadsFrom(p, d0, file, a, b);
      assert d0[file] <= d[file] && LeadsFrom(p, d, file, a, b);
    }
  }

  lemma StepsTransitively(p: Project, file: File, d0: Demands, queue0: seq<File>, d1: Demands, queue1: seq<File>,
                          d2: Demands, queue2: seq<File>)
    requires Steps(p, file, d0, queue0, d1, queue1) && Steps(p, file, d1, queue1, d2, queue2)
    ensures Steps(p, file, d0, queue0, d2, queue2)
  {
    GrowsTransitively(d0, queue0, d1, queue1, d2, queue2);
    LedLater(p, d1, queue1, d2, queue2, file);
  }

  lemma AddingSteps(p: Project, file: File, d: Demands, queue: seq<File>, target: File, names: set<Want>)
    requires target in d || exists b: Item :: b.file == target && Led(p, d, file, b)
    requires forall want | want in names :: Led(p, d, file, Ask(target, want))
    ensures Steps(p, file, d, queue, Added(d, target, names), Pushed(d, queue, target, names))
  {
    AddingGrows(d, queue, target, names);
    LedLater(p, d, queue, Added(d, target, names), Pushed(d, queue, target, names), file);
  }

  lemma OneStep(p: Project, d: Demands, queue: seq<File>, a: Item, b: Item)
    requires a.file in d && a.Ask? && a.want in d[a.file] && p.Leads(a, b) && b.Ask?
    ensures Steps(p, a.file, d, queue, Added(d, b.file, {b.want}), Pushed(d, queue, b.file, {b.want}))
  {
    assert LeadsFrom(p, d, a.file, a, b) && Led(p, d, a.file, b) && b == Ask(b.file, b.want);
    AddingSteps(p, a.file, d, queue, b.file, {b.want});
  }

  /** Every (module, want) pair there is, and every module: what has not been recorded yet shrinks. */
  ghost function Universe(p: Project, wants: set<Want>): set<Item> {
    (set file | file in p.facts :: Touch(file)) + (set file, want | file in p.facts && want in wants :: Ask(file, want))
  }

  ghost function Recorded(d: Demands): set<Item> {
    (set file | file in d :: Touch(file)) + (set file, want | file in d && want in d[file] :: Ask(file, want))
  }

  lemma RecordedInUniverse(p: Project, roots: set<File>, wants: set<Want>, d: Demands)
    requires Sound(p, roots, wants, d)
    ensures Recorded(d) <= Universe(p, wants)
  {
    forall file, want | file in d && want in d[file] ensures file in p.facts && want in wants {
      assert d[file] <= wants;
    }
  }

  lemma GrowthRecords(d0: Demands, queue0: seq<File>, d: Demands, queue: seq<File>)
    requires Grows(d0, queue0, d, queue)
    ensures Recorded(d0) <= Recorded(d)
    ensures queue != queue0 ==> Recorded(d) != Recorded(d0)
  {
    forall file, want | file in d0 && want in d0[file] ensures file in d && want in d[file] {
      assert d0[file] <= d[file];
    }
    if queue != queue0 {
      var file :| Grew(d0, d, file);
      if file !in d0 {
        assert Touch(file) in Recorded(d) && Touch(file) !in Recorded(d0);
      } else {
        var want :| want in d[file] && want !in d0[file];
        assert Ask(file, want) in Recorded(d) && Ask(file, want) !in Recorded(d0);
      }
    }
  }

  ghost function Left(p: Project, wants: set<Want>, d: Demands): set<Item> {
    Universe(p, wants) - Recorded(d)
  }

  /** While a module is processed either something is recorded for the first time, or the queue stays as it was. */
  lemma GrowthShrinksLeft(p: Project, roots: set<File>, wants: set<Want>, d0: Demands, queue0: seq<File>, d: Demands,
                          queue: seq<File>)
    requires Grows(d0, queue0, d, queue) && Sound(p, roots, wants, d)
    ensures Left(p, wants, d) < Left(p, wants, d0) || (Left(p, wants, d) == Left(p, wants, d0) && queue == queue0)
  {
    RecordedInUniverse(p, roots, wants, d);
    GrowthRecords(d0, queue0, d, queue);
  }

  /** Nothing that was covered is ever lost. */
  lemma GrowthKeepsCover(p: Project, d0: Demands, queue0: seq<File>, d: Demands, queue: seq<File>, file: File,
                         wanted: set<Want>)
    requires Grows(d0, queue0, d, queue) && file in p.facts
    ensures forall item :: Covers(d0, item) ==> Covers(d, item)
    ensures ImportsCovered(p, d0, file) ==> ImportsCovered(p, d, file)
    ensures forall i :: NamespaceCovered(p, d0, file, wanted, i) ==> NamespaceCovered(p, d, file, wanted, i)
    ensures forall i :: NamedCovered(p, d0, file, wanted, i) ==> NamedCovered(p, d, file, wanted, i)
    ensures forall name :: Routed(p, d0, file, name) ==> Routed(p, d, file, name)
    ensures Closed(p, d0, file, wanted) ==> Closed(p, d, file, wanted)
  {
    forall item | Covers(d0, item) ensures Covers(d, item) {
      assert d0[item.file] <= d[item.file];
    }
  }

  lemma OneMoreNamespace(p: Project, d0: Demands, queue0: seq<File>, d: Demands, queue: seq<File>, file: File,
                         wanted: set<Want>, i: int)
    requires Grows(d0, queue0, d, queue) && file in p.facts && NamespaceCovered(p, d, file, wanted, i)
    requires forall k | k < i :: NamespaceCovered(p, d0, file, wanted, k)
    ensures forall k | k < i + 1 :: NamespaceCovered(p, d, file, wanted, k)
  {
    GrowthKeepsCover(p, d0, queue0, d, queue, file, wanted);
  }

  lemma OneMoreName(p: Project, d0: Demands, queue0: seq<File>, d: Demands, queue: seq<File>, file: File,
                    wanted: set<Want>, i: int)
    requires Grows(d0, queue0, d, queue) && file in p.facts && NamedCovered(p, d, file, wanted, i)
    requires forall k | k < i :: NamedCovered(p, d0, file, wanted, k)
    ensures forall k | k < i + 1 :: NamedCovered(p, d, file, wanted, k)
  {
    GrowthKeepsCover(p, d0, queue0, d, queue, file, wanted);
  }

  lemma GrowthKeepsRoutes(p: Project, d0: Demands, queue0: seq<File>, d: Demands, queue: seq<File>, file: File,
                          name: string)
    requires Grows(d0, queue0, d, queue) && file in p.facts
    ensures forall k :: RoutedAt(p, d0, file, k, name) ==> RoutedAt(p, d, file, k, name)
  {
    GrowthKeepsCover(p, d0, queue0, d, queue, file, {});
  }

  lemma OneMoreRoute(p: Project, d0: Demands, queue0: seq<File>, d: Demands, queue: seq<File>, file: File,
                     name: string, k: int)
    requires Grows(d0, queue0, d, queue) && file in p.facts && RoutedAt(p, d, file, k, name)
    requires forall j | j < k :: RoutedAt(p, d0, file, j, name)
    ensures forall j | j < k + 1 :: RoutedAt(p, d, file, j, name)
  {
    GrowthKeepsRoutes(p, d0, queue0, d, queue, file, name);
    forall j | j < k + 1 ensures RoutedAt(p, d, file, j, name) {
      if j < k { assert RoutedAt(p, d0, file, j, name); }
    }
  }

  // ----- what a chain of demand can end in -----

  /** These demands on `target` are really made. */
  ghost predicate Live(p: Project, roots: set<File>, wants: set<Want>, target: File, names: set<Want>) {
    && p.Reachable(roots, target)
    && names <= wants
    && forall want | want in names :: p.Demanded(roots, Ask(target, want))
  }

  lemma ChainExtends(p: Project, roots: set<File>, a: Item, b: Item)
    requires p.Demanded(roots, a) && p.Leads(a, b)
    ensures p.Demanded(roots, b) && p.Reachable(roots, b.file)
  {
    var chain :| p.Ends(roots, chain, a);
    var longer := chain + [b];
    forall i | 0 <= i < |longer| - 1 ensures p.Leads(longer[i], longer[i + 1]) {
      if i < |chain| - 1 {
        assert p.Leads(chain[i], chain[i + 1]);
      }
    }
    assert p.Ends(roots, longer, b);
  }

  /** A demand `a` on a reached module makes whatever it leads to live. */
  lemma LeadsToLive(p: Project, roots: set<File>, wants: set<Want>, a: Item, b: Item)
    requires p.Valid() && p.Demanded(roots, a) && p.Leads(a, b) && b.Ask? && b.want in wants
    ensures Live(p, roots, wants, b.file, {b.want})
  {
    ChainExtends(p, roots, a, b);
  }

  lemma ForwardedIsLive(p: Project, roots: set<File>, wants: set<Want>, d: Demands, file: File, i: nat, wantsAll: bool,
                        forwarded: set<Want>, target: File)
    requires p.Valid() && Known(p, wants) && Sound(p, roots, wants, d) && file in d
             && i < |p.facts[file].namedReexports|
    requires wantsAll ==> All in d[file]
    requires p.Edge(file, p.facts[file].namedReexports[i].specifier) == Some(target)
    requires var names := p.facts[file].namedReexports[i].names;
             forwarded == (set exported | exported in names && (wantsAll || Name(exported) in d[file]) ::
                 Name(names[exported]))
    requires forwarded != {}
    ensures Live(p, roots, wants, target, forwarded)
    ensures forall want | want in forwarded :: Led(p, d, file, Ask(target, want))
  {
    var names := p.facts[file].namedReexports[i].names;
    forall want | want in forwarded
      ensures p.Reachable(roots, target) && want in wants && p.Demanded(roots, Ask(target, want))
      ensures Led(p, d, file, Ask(target, want))
    {
      var exported :| exported in names && (wantsAll || Name(exported) in d[file]) && want == Name(names[exported]);
      var a := Ask(file, if wantsAll then All else Name(exported));
      assert p.ByName(a, Ask(target, want), i, exported);
      assert LeadsFrom(p, d, file, a, Ask(target, want));
      LeadsToLive(p, roots, wants, a, Ask(target, want));
    }
    var some :| some in forwarded;
  }

  /** The star re-export at `k` accounts for the name: it leaves our code, or its target exports the name. */
  ghost predicate StarAnswers(p: Project, file: File, k: int, name: string)
    requires file in p.facts
  {
    && 0 <= k < |p.facts[file].starReexports|
    && var target := p.Edge(file, p.facts[file].starReexports[k]);
       target.Some? ==> p.Exports(target.value, name)
  }

  ghost predicate RoutedAt(p: Project, d: Demands, file: File, k: int, name: string)
    requires file in p.facts
  {
    0 <= k < |p.facts[file].starReexports| ==>
      var target := p.Edge(file, p.facts[file].starReexports[k]);
      target.Some? && p.Exports(target.value, name) ==> Covers(d, Ask(target.value, Name(name)))
  }

  lemma RoutedEverywhere(p: Project, d: Demands, file: File, name: string)
    requires file in p.facts && forall k | 0 <= k < |p.facts[file].starReexports| :: RoutedAt(p, d, file, k, name)
    ensures Routed(p, d, file, name)
  {
    forall target | p.StarHop(file, target) && p.Exports(target, name) ensures Covers(d, Ask(target, Name(name))) {
      var k :| 0 <= k < |p.facts[file].starReexports| && p.Edge(file, p.facts[file].starReexports[k]) == Some(target);
      assert RoutedAt(p, d, file, k, name);
    }
  }

  /** The five rules together leave nothing that the recorded demands lead to uncovered. */
  lemma RulesClose(p: Project, d: Demands, file: File, wanted: set<Want>)
    requires file in p.facts && ImportsCovered(p, d, file)
    requires forall i :: NamespaceCovered(p, d, file, wanted, i)
    requires forall i :: NamedCovered(p, d, file, wanted, i)
    requires StarsCovered(p, d, file, wanted)
    ensures Closed(p, d, file, wanted) && Settled(p, file, wanted)
  {
    forall a: Item, b: Item | a.file == file && (a.Ask? ==> a.want in wanted) && p.Leads(a, b) ensures Covers(d, b) {
      if i :| p.ByImport(a, b, i) {
        assert p.ByImport(Touch(file), b, i);
      } else if i :| p.ByNamespace(a, b, i) {
        assert NamespaceCovered(p, d, file, wanted, i);
      } else if i, exported :| p.ByName(a, b, i, exported) {
        assert NamedCovered(p, d, file, wanted, i);
      } else if a.want.Name? && All !in wanted {
        assert Routed(p, d, file, a.want.name);
      }
    }
    ProvidedIsResolved(p, file);
  }

  lemma ProvidedIsResolved(p: Project, file: File)
    requires file in p.facts
    ensures forall name | name in p.OwnNames(file) :: !p.Unresolvable(file, name)
  {
    forall name | name in p.OwnNames(file) ensures !p.Unresolvable(file, name) { OwnNamesAreExported(p, file, name); }
  }

  lemma StarsDecide(p: Project, file: File, name: string)
    requires file in p.facts && name !in p.OwnNames(file)
    ensures (exists k :: StarAnswers(p, file, k, name)) ==> !p.Unresolvable(file, name)
    ensures !(exists k :: StarAnswers(p, file, k, name)) ==> (p.Unresolvable(file, name) <==> !p.LeavesOurCode(file))
  {
    ExportsUnfold(p, file, name);
    if k :| StarAnswers(p, file, k, name) {
      var target := p.Edge(file, p.facts[file].starReexports[k]);
      if target.Some? {
        assert p.StarHop(file, target.value);
      } else {
        assert p.LeavesVia(file, [file]);
      }
    } else if target :| p.StarHop(file, target) && p.Exports(target, name) {
      var k :| 0 <= k < |p.facts[file].starReexports| && p.Edge(file, p.facts[file].starReexports[k]) == Some(target);
      assert StarAnswers(p, file, k, name);
    }
  }

  ghost function Added(d: Demands, file: File, names: set<Want>): Demands {
    d[file := (if file in d then d[file] else {}) + names]
  }

  ghost function Pushed(d: Demands, queue: seq<File>, file: File, names: set<Want>): seq<File> {
    if Added(d, file, names) == d then queue else queue + [file]
  }

  lemma AddingIsSound(p: Project, roots: set<File>, wants: set<Want>, d: Demands, file: File, names: set<Want>)
    requires Sound(p, roots, wants, d) && file in p.facts && Live(p, roots, wants, file, names)
    ensures Sound(p, roots, wants, Added(d, file, names))
  {}

  lemma AddingGrows(d: Demands, queue: seq<File>, file: File, names: set<Want>)
    ensures Grows(d, queue, Added(d, file, names), Pushed(d, queue, file, names))
  {
    if Added(d, file, names) != d {
      assert Grew(d, Added(d, file, names), file);
    }
  }

  lemma ImportIsLed(p: Project, d: Demands, file: File, i: nat, target: File)
    requires file in p.facts && file in d && i < |p.facts[file].imports|
    requires p.Edge(file, p.facts[file].imports[i].specifier) == Some(target)
    ensures Led(p, d, file, Touch(target))
    ensures forall want | want in p.facts[file].imports[i].names :: Led(p, d, file, Ask(target, want))
  {
    var a := Touch(file);
    assert p.ByImport(a, Touch(target), i) && LeadsFrom(p, d, file, a, Touch(target));
    forall want | want in p.facts[file].imports[i].names ensures Led(p, d, file, Ask(target, want)) {
      assert p.ByImport(a, Ask(target, want), i) && LeadsFrom(p, d, file, a, Ask(target, want));
    }
  }

  /** Everything an import names is live as soon as the importing module is reached at all. */
  lemma ImportIsLive(p: Project, roots: set<File>, wants: set<Want>, file: File, i: nat, target: File)
    requires Known(p, wants) && file in p.facts && p.Reachable(roots, file) && i < |p.facts[file].imports|
    requires p.Edge(file, p.facts[file].imports[i].specifier) == Some(target)
    ensures Live(p, roots, wants, target, p.facts[file].imports[i].names)
  {
    var a: Item :| a.file == file && p.Demanded(roots, a);
    assert p.ByImport(a, Touch(target), i);
    ChainExtends(p, roots, a, Touch(target));
    forall want | want in p.facts[file].imports[i].names ensures want in wants && p.Demanded(roots, Ask(target, want)) {
      assert p.ByImport(a, Ask(target, want), i);
      ChainExtends(p, roots, a, Ask(target, want));
    }
  }

  /** A demand for everything leads to whatever any demand leads to, or to everything there. */
  lemma AllSubsumes(p: Project, a: Item, b: Item)
    requires p.Leads(a, b)
    ensures p.Leads(Ask(a.file, All), b) || p.Leads(Ask(a.file, All), Ask(b.file, All))
  {
    var all := Ask(a.file, All);
    if i :| p.ByImport(a, b, i) {
      assert p.ByImport(all, b, i);
    } else if i :| p.ByNamespace(a, b, i) {
      assert p.ByNamespace(all, b, i);
    } else if i, exported :| p.ByName(a, b, i, exported) {
      assert p.ByName(all, b, i, exported);
    } else {
      assert p.ByStar(all, Ask(b.file, All));
    }
  }

  /** The fixpoint is complete: demands that hold the roots and are closed under the rules cover every chain. */
  lemma {:induction false} ClosedCoversChain(p: Project, roots: set<File>, d: Demands, chain: seq<Item>, item: Item)
    requires Rooted(roots, d) && AllClosed(p, d)
    requires p.Ends(roots, chain, item)
    ensures Covers(d, item)
  {
    if |chain| > 1 {
      var shorter, a := chain[..|chain| - 1], chain[|chain| - 2];
      assert p.Leads(chain[|chain| - 2], chain[|chain| - 2 + 1]);
      forall i | 0 <= i < |shorter| - 1 ensures p.Leads(shorter[i], shorter[i + 1]) {
        assert p.Leads(chain[i], chain[i + 1]);
      }
      ClosedCoversChain(p, roots, d, shorter, a);
      assert Closed(p, d, a.file, d[a.file]);
      if a.Ask? && a.want !in d[a.file] {
        AllSubsumes(p, a, item);
      }
    }
  }

  lemma ClosedCoversDemand(p: Project, roots: set<File>, d: Demands, item: Item)
    requires Rooted(roots, d) && AllClosed(p, d) && p.Demanded(roots, item)
    ensures Covers(d, item)
  {
    var chain :| p.Ends(roots, chain, item);
    ClosedCoversChain(p, roots, d, chain, item);
  }

  /** Reached is the least closed set: any other set of demands closed under the rules contains it. */
  lemma ReachableIsLeast(p: Project, roots: set<File>, d: Demands, file: File)
    requires Rooted(roots, d) && AllClosed(p, d)
    requires p.Reachable(roots, file)
    ensures file in d
  {
    var item: Item :| item.file == file && p.Demanded(roots, item);
    ClosedCoversDemand(p, roots, d, item);
  }

  /** The reach of a union of roots is the union of their reaches. */
  lemma ReachOfUnion(p: Project, left: set<File>, right: set<File>, file: File)
    ensures p.Reachable(left + right, file) <==> p.Reachable(left, file) || p.Reachable(right, file)
  {
    forall item: Item ensures p.Demanded(left + right, item) <==> p.Demanded(left, item) || p.Demanded(right, item) {
      forall chain ensures p.Ends(left + right, chain, item) <==>
          p.Ends(left, chain, item) || p.Ends(right, chain, item) {}
    }
  }

  // ----- the walk -----

  class Walk {
    const graph: ModuleGraph
    const roots: seq<File>
    ghost const rootSet: set<File>
    ghost const wants: set<Want>
    var demanded: Demands
    var queue: seq<File>

    ghost predicate Valid()
      reads this, graph
    {
      && graph.Valid()
      && Known(graph.project, wants)
      && (forall root | root in roots :: root in rootSet)
      && Sound(graph.project, rootSet, wants, demanded)
      && (forall file | file in queue :: file in demanded)
    }

    constructor (graph: ModuleGraph, roots: seq<File>)
      requires graph.Valid()
      ensures Valid() && this.graph == graph && this.roots == roots && rootSet == SetOf(roots)
              && wants == graph.project.Wants()
      ensures demanded == map[] && queue == []
    {
      this.graph := graph;
      this.roots := roots;
      rootSet := SetOf(roots);
      wants := graph.project.Wants();
      WantsAreKnown(graph.project);
      demanded := map[];
      queue := [];
    }

    /** Records a demand; the module is queued when it is new or when the demand added a name. */
    method Demand(file: File, names: set<Want>)
      requires Valid()
      requires file in graph.project.facts && Live(graph.project, rootSet, wants, file, names)
      modifies this`demanded, this`queue
      ensures Valid()
      ensures demanded == Added(old(demanded), file, names) && queue == Pushed(old(demanded), old(queue), file, names)
      ensures Grows(old(demanded), old(queue), demanded, queue)
    {
      AddingIsSound(graph.project, rootSet, wants, demanded, file, names);
      AddingGrows(demanded, queue, file, names);
      if file !in demanded {
        demanded := demanded[file := names];
        queue := queue + [file];
        assert {} + names == names;
        assert file in Added(old(demanded), file, names);
        return;
      }
      var before := |demanded[file]|;
      demanded := demanded[file := demanded[file] + names];
      if |demanded[file]| != before {
        queue := queue + [file];
      } else {
        SameSize(old(demanded)[file], demanded[file]);
      }
    }

    method DemandImport(file: File, i: nat, target: File)
      requires Valid() && file in demanded && i < |graph.project.facts[file].imports|
      requires graph.project.Edge(file, graph.project.facts[file].imports[i].specifier) == Some(target)
      modifies this`demanded, this`queue
      ensures Valid() && Steps(graph.project, file, old(demanded), old(queue), demanded, queue)
      ensures target in demanded && graph.project.facts[file].imports[i].names <= demanded[target]
    {
      ImportIsLive(graph.project, rootSet, wants, file, i, target);
      ImportIsLed(graph.project, demanded, file, i, target);
      AddingSteps(graph.project, file, demanded, queue, target, graph.project.facts[file].imports[i].names);
      Demand(target, graph.project.facts[file].imports[i].names);
    }

    /** All a reached module imports is demanded, whatever is wanted of the module itself. */
    method DemandImports(file: File)
      requires Valid() && file in demanded
      modifies this`demanded, this`queue
      ensures Valid() && Steps(graph.project, file, old(demanded), old(queue), demanded, queue)
      ensures ImportsCovered(graph.project, demanded, file)
    {
      var imports := graph.project.facts[file].imports;
      for i := 0 to |imports|
        invariant Valid() && Steps(graph.project, file, old(demanded), old(queue), demanded, queue)
        invariant forall b, k | k < i :: graph.project.ByImport(Touch(file), b, k) ==> Covers(demanded, b)
      {
        var target := graph.project.Edge(file, imports[i].specifier);
        if target.Some? {
          ghost var d, q := demanded, queue;
          DemandImport(file, i, target.value);
          StepsTransitively(graph.project, file, old(demanded), old(queue), d, q, demanded, queue);
        }
      }
    }

    /** A namespace re-export passes demand on only when its alias, or everything, is wanted. */
    method ForwardNamespace(file: File, i: nat, ghost wanted: set<Want>, wantsAll: bool)
      requires Valid() && file in demanded && wanted <= demanded[file] && (wantsAll <==> All in wanted)
      requires i < |graph.project.facts[file].namespaceReexports|
      modifies this`demanded, this`queue
      ensures Valid() && Steps(graph.project, file, old(demanded), old(queue), demanded, queue)
      ensures NamespaceCovered(graph.project, demanded, file, wanted, i)
    {
      var reexport := graph.project.facts[file].namespaceReexports[i];
      if !wantsAll && Name(reexport.alias) !in demanded[file] { return; }
      var target := graph.project.Edge(file, reexport.specifier);
      if target.Some? {
        ghost var a := Ask(file, if wantsAll then All else Name(reexport.alias));
        assert graph.project.ByNamespace(a, Ask(target.value, All), i);
        LeadsToLive(graph.project, rootSet, wants, a, Ask(target.value, All));
        OneStep(graph.project, demanded, queue, a, Ask(target.value, All));
        Demand(target.value, {All});
      }
    }

    method DemandNamespaces(file: File, ghost wanted: set<Want>, wantsAll: bool)
      requires Valid() && file in demanded && wanted <= demanded[file] && (wantsAll <==> All in wanted)
      modifies this`demanded, this`queue
      ensures Valid() && Steps(graph.project, file, old(demanded), old(queue), demanded, queue)
      ensures forall i :: NamespaceCovered(graph.project, demanded, file, wanted, i)
    {
      for i := 0 to |graph.project.facts[file].namespaceReexports|
        invariant Valid() && file in demanded && wanted <= demanded[file]
        invariant Steps(graph.project, file, old(demanded), old(queue), demanded, queue)
        invariant forall k | k < i :: NamespaceCovered(graph.project, demanded, file, wanted, k)
      {
        ghost var d, q := demanded, queue;
        ForwardNamespace(file, i, wanted, wantsAll);
        StepsTransitively(graph.project, file, old(demanded), old(queue), d, q, demanded, queue);
        OneMoreNamespace(graph.project, d, q, demanded, queue, file, wanted, i);
      }
    }

    /** A named re-export forwards exactly the wanted names, under the names they have at the source. */
    method ForwardNames(file: File, i: nat, ghost wanted: set<Want>, wantsAll: bool)
      requires Valid() && file in demanded && wanted <= demanded[file] && (wantsAll <==> All in wanted)
      requires i < |graph.project.facts[file].namedReexports|
      modifies this`demanded, this`queue
      ensures Valid() && Steps(graph.project, file, old(demanded), old(queue), demanded, queue)
      ensures NamedCovered(graph.project, demanded, file, wanted, i)
    {
      var reexport := graph.project.facts[file].namedReexports[i];
      var forwarded: set<Want> :=
        set exported | exported in reexport.names && (wantsAll || Name(exported) in demanded[file]) ::
            Name(reexport.names[exported]);
      assert forall exported | exported in reexport.names && (All in wanted || Name(exported) in wanted) ::
          Name(reexport.names[exported]) in forwarded;
      if forwarded == {} { return; }
      var target := graph.project.Edge(file, reexport.specifier);
      if target.Some? {
        ForwardedIsLive(graph.project, rootSet, wants, demanded, file, i, wantsAll, forwarded, target.value);
        AddingSteps(graph.project, file, demanded, queue, target.value, forwarded);
        Demand(target.value, forwarded);
      }
    }

    method DemandNamed(file: File, ghost wanted: set<Want>, wantsAll: bool)
      requires Valid() && file in demanded && wanted <= demanded[file] && (wantsAll <==> All in wanted)
      modifies this`demanded, this`queue
      ensures Valid() && Steps(graph.project, file, old(demanded), old(queue), demanded, queue)
      ensures forall i :: NamedCovered(graph.project, demanded, file, wanted, i)
    {
      for i := 0 to |graph.project.facts[file].namedReexports|
        invariant Valid() && file in demanded && wanted <= demanded[file]
        invariant Steps(graph.project, file, old(demanded), old(queue), demanded, queue)
        invariant forall k | k < i :: NamedCovered(graph.project, demanded, file, wanted, k)
      {
        ghost var d, q := demanded, queue;
        ForwardNames(file, i, wanted, wantsAll);
        StepsTransitively(graph.project, file, old(demanded), old(queue), d, q, demanded, queue);
        OneMoreName(graph.project, d, q, demanded, queue, file, wanted, i);
      }
    }

    /** Everything wanted of a module is wanted of the target of its star re-export. */
    method ForwardStar(file: File, target: File)
      requires Valid() && file in demanded && All in demanded[file] && graph.project.StarHop(file, target)
      modifies this`demanded, this`queue
      ensures Valid() && Steps(graph.project, file, old(demanded), old(queue), demanded, queue)
      ensures target in demanded && All in demanded[target]
    {
      assert graph.project.ByStar(Ask(file, All), Ask(target, All));
      LeadsToLive(graph.project, rootSet, wants, Ask(file, All), Ask(target, All));
      OneStep(graph.project, demanded, queue, Ask(file, All), Ask(target, All));
      Demand(target, {All});
    }

    method DemandStars(file: File)
      requires Valid() && file in demanded && All in demanded[file]
      modifies this`demanded, this`queue
      ensures Valid() && Steps(graph.project, file, old(demanded), old(queue), demanded, queue)
      ensures forall target :: graph.project.StarHop(file, target) ==> target in demanded && All in demanded[target]
    {
      var stars := graph.project.facts[file].starReexports;
      for i := 0 to |stars|
        invariant Valid() && file in demanded && All in demanded[file]
        invariant Steps(graph.project, file, old(demanded), old(queue), demanded, queue)
        invariant forall k | 0 <= k < i && graph.project.Edge(file, stars[k]).Some? ::
                    var target := graph.project.Edge(file, stars[k]).value;
                    target in demanded && All in demanded[target]
      {
        var target := graph.project.Edge(file, stars[i]);
        if target.Some? {
          ghost var d, q := demanded, queue;
          assert graph.project.StarHop(file, target.value);
          ForwardStar(file, target.value);
          StepsTransitively(graph.project, file, old(demanded), old(queue), d, q, demanded, queue);
        }
      }
    }

    /** Offers one name to the star re-export at `k`, whose target takes it only if it exports it. */
    method RouteThrough(file: File, name: string, k: nat) returns (answers: bool)
      requires Valid() && file in demanded && Name(name) in demanded[file]
      requires name !in graph.project.OwnNames(file) && k < |graph.project.facts[file].starReexports|
      modifies this`demanded, this`queue, graph`exportNamesCache
      ensures Valid() && Steps(graph.project, file, old(demanded), old(queue), demanded, queue)
      ensures file in demanded && demanded[file] == old(demanded[file])
      ensures answers <==> StarAnswers(graph.project, file, k, name)
      ensures RoutedAt(graph.project, demanded, file, k, name)
    {
      var target := graph.project.Edge(file, graph.project.facts[file].starReexports[k]);
      if target.None? { return true; }
      assert graph.project.StarHop(file, target.value);
      var exported := graph.ExportNames(target.value, {});
      answers := name in exported;
      if answers {
        assert graph.project.ByStar(Ask(file, Name(name)), Ask(target.value, Name(name)));
        LeadsToLive(graph.project, rootSet, wants, Ask(file, Name(name)), Ask(target.value, Name(name)));
        OneStep(graph.project, demanded, queue, Ask(file, Name(name)), Ask(target.value, Name(name)));
        Demand(target.value, {Name(name)});
      }
    }

    /** Offers one name to every star re-export in turn. */
    method RouteStars(file: File, name: string) returns (routed: bool)
      requires Valid() && file in demanded && Name(name) in demanded[file]
      requires name !in graph.project.OwnNames(file)
      modifies this`demanded, this`queue, graph`exportNamesCache
      ensures Valid() && Steps(graph.project, file, old(demanded), old(queue), demanded, queue)
      ensures file in demanded && demanded[file] == old(demanded[file])
      ensures routed <==> exists k :: StarAnswers(graph.project, file, k, name)
      ensures forall k :: RoutedAt(graph.project, demanded, file, k, name)
    {
      routed := false;
      for k := 0 to |graph.project.facts[file].starReexports|
        invariant Valid() && file in demanded && demanded[file] == old(demanded[file])
        invariant Steps(graph.project, file, old(demanded), old(queue), demanded, queue)
        invariant routed ==> exists j :: StarAnswers(graph.project, file, j, name)
        invariant forall j | j < k && !routed :: !StarAnswers(graph.project, file, j, name)
        invariant forall j | j < k :: RoutedAt(graph.project, demanded, file, j, name)
      {
        ghost var d, q := demanded, queue;
        var answers := RouteThrough(file, name, k);
        StepsTransitively(graph.project, file, old(demanded), old(queue), d, q, demanded, queue);
        OneMoreRoute(graph.project, d, q, demanded, queue, file, name, k);
        routed := routed || answers;
      }
    }

    /** Routes one name that the module does not provide itself, and says whether anything accounts for it. */
    method RouteName(file: File, name: string) returns (resolved: bool)
      requires Valid() && file in demanded && Name(name) in demanded[file]
      requires name !in graph.project.OwnNames(file)
      modifies this`demanded, this`queue, graph`exportNamesCache
      ensures Valid() && Steps(graph.project, file, old(demanded), old(queue), demanded, queue)
      ensures file in demanded && demanded[file] == old(demanded[file])
      ensures resolved <==> !graph.project.Unresolvable(file, name)
      ensures Routed(graph.project, demanded, file, name)
    {
      var routed := RouteStars(file, name);
      StarsDecide(graph.project, file, name);
      RoutedEverywhere(graph.project, demanded, file, name);
      resolved := routed;
      if !routed {
        resolved := graph.HasExternalStar(file, {});
      }
    }

    /** Routes the wanted names one by one. None of it adds to what is wanted of the module itself, so the set of names
        left to route only shrinks. Stops at the first name nothing accounts for. */
    method RouteNames(file: File) returns (missing: Option<string>)
      requires Valid() && file in demanded
      modifies this`demanded, this`queue, graph`exportNamesCache
      ensures Valid() && Steps(graph.project, file, old(demanded), old(queue), demanded, queue)
      ensures file in demanded && demanded[file] == old(demanded[file])
      ensures missing.Some? ==> Missing(graph.project, demanded, file, missing.value)
      ensures missing.None? ==> forall name | Name(name) in demanded[file] && name !in graph.project.OwnNames(file) ::
                Routed(graph.project, demanded, file, name) && !graph.project.Unresolvable(file, name)
    {
      var provided := graph.project.OwnNames(file);
      var todo := demanded[file];
      while todo != {}
        invariant Valid() && Steps(graph.project, file, old(demanded), old(queue), demanded, queue)
        invariant file in demanded && todo <= demanded[file] == old(demanded[file])
        invariant forall name | Name(name) in demanded[file] - todo && name !in provided ::
                    Routed(graph.project, demanded, file, name) && !graph.project.Unresolvable(file, name)
        decreases todo
      {
        var want :| want in todo;
        todo := todo - {want};
        if want == All || want.name in provided { continue; }
        ghost var d, q := demanded, queue;
        var resolved := RouteName(file, want.name);
        StepsTransitively(graph.project, file, old(demanded), old(queue), d, q, demanded, queue);
        GrowthKeepsCover(graph.project, d, q, demanded, queue, file, {});
        if !resolved { return Some(want.name); }
      }
      return None;
    }

    /** Everything the demands recorded for one module lead to, and nothing else. It fails exactly when not
        everything was wanted of the module as its turn began and some name recorded of it by the end is accounted
        for by nothing. */
    method Process(file: File) returns (missing: Option<string>)
      requires Valid() && file in demanded
      modifies this`demanded, this`queue, graph`exportNamesCache
      ensures Valid() && Steps(graph.project, file, old(demanded), old(queue), demanded, queue)
      ensures missing.Some? <==>
                All !in old(demanded[file]) && exists name :: Missing(graph.project, demanded, file, name)
      ensures missing.Some? ==> Missing(graph.project, demanded, file, missing.value)
      ensures missing.None? ==> Closed(graph.project, demanded, file, old(demanded[file]))
                                && Settled(graph.project, file, old(demanded[file]))
    {
      ghost var wanted := demanded[file];
      var wantsAll := All in demanded[file];
      DemandImports(file);

      ghost var d1, q1 := demanded, queue;
      DemandNamespaces(file, wanted, wantsAll);
      StepsTransitively(graph.project, file, old(demanded), old(queue), d1, q1, demanded, queue);

      ghost var d2, q2 := demanded, queue;
      DemandNamed(file, wanted, wantsAll);
      StepsTransitively(graph.project, file, old(demanded), old(queue), d2, q2, demanded, queue);

      ghost var d3, q3 := demanded, queue;
      missing := None;
      if wantsAll {
        DemandStars(file);
      } else {
        missing := RouteNames(file);
      }
      StepsTransitively(graph.project, file, old(demanded), old(queue), d3, q3, demanded, queue);
      if missing.None? {
        GrowthKeepsCover(graph.project, d1, q1, d2, q2, file, wanted);
        GrowthKeepsCover(graph.project, d2, q2, d3, q3, file, wanted);
        GrowthKeepsCover(graph.project, d3, q3, demanded, queue, file, wanted);
        RulesClose(graph.project, demanded, file, wanted);
        if !wantsAll { ProvidedIsResolved(graph.project, file); }
      }
    }
  }

  ghost function SetOf(roots: seq<File>): set<File> {
    set root | root in roots
  }

  /** One turn of the walk: the picked module is taken off the queue and processed. */
  lemma TurnDeals(p: Project, d0: Demands, queue0: seq<File>, at: nat, d: Demands, queue: seq<File>)
    requires at < |queue0| && Dealt(p, d0, queue0) && queue0[at] in d0
    requires d0.Keys <= p.facts.Keys
    requires Grows(d0, queue0[..at] + queue0[at + 1..], d, queue)
    requires Closed(p, d, queue0[at], d0[queue0[at]]) && Settled(p, queue0[at], d0[queue0[at]])
    ensures Dealt(p, d, queue)
  {
    var rest := queue0[..at] + queue0[at + 1..];
    forall k | 0 <= k < |queue0| && k != at ensures queue0[k] in rest {
      assert queue0[k] == if k < at then rest[k] else rest[k - 1];
    }
    forall file | file in d && file !in queue ensures Closed(p, d, file, d[file]) && Settled(p, file, d[file]) {
      assert !Grew(d0, d, file);
      assert file !in rest;
      if file != queue0[at] {
        GrowthKeepsCover(p, d0, rest, d, queue, file, d[file]);
      }
    }
  }

  /** A name that is really asked for, that nothing accounts for, in a module not asked for everything. */
  ghost predicate Unanswered(p: Project, roots: set<File>, file: File, name: string) {
    p.Demanded(roots, Ask(file, Name(name))) && p.Unresolvable(file, name)
  }

  /** At the end of the walk the recorded modules are the reachable ones. */
  lemma DrainedIsExact(p: Project, roots: set<File>, wants: set<Want>, d: Demands)
    requires Sound(p, roots, wants, d) && AllClosed(p, d) && Rooted(roots, d)
    ensures forall file :: file in d <==> p.Reachable(roots, file)
  {
    forall file | p.Reachable(roots, file) ensures file in d { ReachableIsLeast(p, roots, d, file); }
  }

  /** At the end of the walk no unanswered name was overlooked. */
  lemma DrainedIsSettled(p: Project, roots: set<File>, wants: set<Want>, d: Demands, file: File, name: string)
    requires Sound(p, roots, wants, d) && AllClosed(p, d) && Rooted(roots, d)
    requires file in d ==> Settled(p, file, d[file])
    requires Unanswered(p, roots, file, name)
    ensures p.Demanded(roots, Ask(file, All))
  {
    ClosedCoversDemand(p, roots, d, Ask(file, Name(name)));
  }

  /** The state of a walk over these roots, with every unqueued module dealt with. */
  ghost predicate Walking(walk: Walk, graph: ModuleGraph, roots: set<File>)
    reads walk, graph
  {
    && walk.graph == graph && walk.rootSet == roots && walk.Valid()
    && Dealt(graph.project, walk.demanded, walk.queue)
    && Rooted(roots, walk.demanded)
  }

  /** Every root is asked for everything before the walk begins, and nothing else is asked of anything. */
  method Seed(graph: ModuleGraph, roots: seq<File>) returns (walk: Walk)
    requires graph.Valid() && forall root | root in roots :: root in graph.project.facts
    ensures fresh(walk) && Walking(walk, graph, SetOf(roots)) && walk.wants == graph.project.Wants()
    ensures Seeded(walk.demanded, walk.queue, roots)
  {
    walk := new Walk(graph, roots);
    for i := 0 to |roots|
      invariant walk.Valid() && walk.graph == graph && walk.rootSet == SetOf(roots) && fresh(walk)
      invariant walk.wants == graph.project.Wants() && Seeded(walk.demanded, walk.queue, roots[..i])
    {
      RootIsLive(graph.project, SetOf(roots), walk.wants, roots[i]);
      SeedOne(walk.demanded, walk.queue, roots, i);
      walk.Demand(roots[i], {All});
    }
    assert roots[..|roots|] == roots;
  }

  /** Exactly these modules have been asked for exactly everything, and exactly these are queued. */
  ghost predicate Seeded(d: Demands, queue: seq<File>, roots: seq<File>) {
    d.Keys == SetOf(roots) == SetOf(queue) && forall file | file in d :: d[file] == {All}
  }

  lemma SeedOne(d: Demands, queue: seq<File>, roots: seq<File>, i: nat)
    requires i < |roots| && Seeded(d, queue, roots[..i])
    ensures Seeded(Added(d, roots[i], {All}), Pushed(d, queue, roots[i], {All}), roots[..i + 1])
  {
    assert roots[..i + 1] == roots[..i] + [roots[i]];
    assert Added(d, roots[i], {All}).Keys == d.Keys + {roots[i]};
    if roots[i] in d {
      assert d[roots[i]] + {All} == d[roots[i]];
      assert Added(d, roots[i], {All}) == d;
    } else {
      assert Pushed(d, queue, roots[i], {All}) == queue + [roots[i]];
    }
  }

  lemma RootIsLive(p: Project, roots: set<File>, wants: set<Want>, root: File)
    requires Known(p, wants) && root in roots
    ensures Live(p, roots, wants, root, {All})
  {
    assert p.Ends(roots, [Ask(root, All)], Ask(root, All));
  }

  /** One turn: the picked module leaves the queue and is processed. Either some demand was recorded for the first
      time, or the queue got shorter. */
  method Turn(walk: Walk, at: nat, ghost roots: set<File>) returns (failure: Option<(File, string)>)
    requires Walking(walk, walk.graph, roots) && at < |walk.queue|
    modifies walk`demanded, walk`queue, walk.graph`exportNamesCache
    ensures walk.Valid()
    ensures failure.Some? ==> Unanswered(walk.graph.project, roots, failure.value.0, failure.value.1)
    ensures var file := old(walk.queue[at]);
            && Steps(walk.graph.project, file, old(walk.demanded), old(walk.queue[..at] + walk.queue[at + 1..]),
               walk.demanded, walk.queue)
            && (failure.Some? <==> All !in old(walk.demanded[walk.queue[at]])
                                   && exists name :: Missing(walk.graph.project, walk.demanded, file, name))
            && (failure.Some? ==>
                  failure.value.0 == file && Missing(walk.graph.project, walk.demanded, file, failure.value.1))
            && (failure.None? ==> Closed(walk.graph.project, walk.demanded, file, old(walk.demanded[walk.queue[at]])))
    ensures failure.None? ==> Walking(walk, walk.graph, roots)
    ensures var before, after := Left(walk.graph.project, walk.wants, old(walk.demanded)),
            Left(walk.graph.project, walk.wants, walk.demanded);
            after < before || (after == before && |walk.queue| < |old(walk.queue)|)
  {
    var file := walk.queue[at];
    walk.queue := walk.queue[..at] + walk.queue[at + 1..];
    ghost var rest := walk.queue;
    var missing := walk.Process(file);
    GrowthShrinksLeft(walk.graph.project, roots, walk.wants, old(walk.demanded), rest, walk.demanded, walk.queue);
    if missing.Some? {
      return Some((file, missing.value));
    }
    TurnDeals(walk.graph.project, old(walk.demanded), old(walk.queue), at, walk.demanded, walk.queue);
    return None;
  }

  // ----- whole walks -----

  /** One turn as it was taken: the queue and the demands it began with, the place it took the module from, and the
      demands and the queue it left. */
  datatype Move = Move(queue: seq<File>, at: nat, before: Demands, after: Demands, left: seq<File>)

  ghost predicate Takes(move: Move, file: File) {
    move.at < |move.queue| && move.queue[move.at] == file && file in move.before
  }

  /** Everything was not wanted of the module as its turn began, and by the end nothing accounts for some name of it. */
  ghost predicate FailsOver(p: Project, move: Move, file: File)
    requires Takes(move, file)
  {
    All !in move.before[file] && exists name :: Missing(p, move.after, file, name)
  }

  /** What the turn recorded the demands on its module led to in one step; unless it failed, it was all they lead to. */
  ghost predicate IsMove(p: Project, move: Move, file: File) {
    && Takes(move, file)
    && Steps(p, file, move.before, move.queue[..move.at] + move.queue[move.at + 1..], move.after, move.left)
    && (!FailsOver(p, move, file) ==> Closed(p, move.after, file, move.before[file]))
  }

  ghost predicate Fails(p: Project, move: Move) {
    exists file :: Takes(move, file) && FailsOver(p, move, file)
  }

  /** Every turn begins where the one before it ended, the first with the roots; none but the last fails. */
  ghost predicate IsWalk(p: Project, roots: seq<File>, pick: seq<File> -> nat, moves: seq<Move>) {
    && (moves != [] ==> Seeded(moves[0].before, moves[0].queue, roots))
    && (forall k | 0 <= k < |moves| :: IsPicked(p, pick, moves[k]))
    && (forall k | 1 <= k < |moves| :: Follows(p, moves[k - 1], moves[k]))
  }

  ghost predicate IsPicked(p: Project, pick: seq<File> -> nat, move: Move) {
    move.at == pick(move.queue) && exists file :: IsMove(p, move, file)
  }

  ghost predicate Follows(p: Project, earlier: Move, later: Move) {
    later.before == earlier.after && later.queue == earlier.left && !Fails(p, earlier)
  }

  /** How the walk ends: over a name its last turn found missing, or with an empty queue. */
  ghost predicate Concludes(p: Project, roots: seq<File>, moves: seq<Move>, outcome: Outcome) {
    match outcome
    case Failed(file, name) =>
      moves != [] && var last := moves[|moves| - 1];
      Takes(last, file) && FailsOver(p, last, file) && Missing(p, last.after, file, name)
    case Reached(files) =>
      if moves == [] then roots == [] && files == {}
      else var last := moves[|moves| - 1]; !Fails(p, last) && last.left == [] && files == last.after.Keys
  }

  /** The state a walk has come to. */
  ghost predicate Arrived(p: Project, roots: seq<File>, moves: seq<Move>, d: Demands, queue: seq<File>) {
    if moves == [] then Seeded(d, queue, roots)
    else var last := moves[|moves| - 1]; last.after == d && last.left == queue && !Fails(p, last)
  }

  lemma AllOfLonger<T>(s: seq<T>, last: T, longer: seq<T>, holds: T -> bool)
    requires longer == s + [last] && holds(last) && forall k | 0 <= k < |s| :: holds(s[k])
    ensures forall k | 0 <= k < |longer| :: holds(longer[k])
  {}

  lemma PairsOfLonger<T>(s: seq<T>, last: T, longer: seq<T>, linked: (T, T) -> bool)
    requires longer == s + [last] && (s != [] ==> linked(s[|s| - 1], last))
    requires forall k | 1 <= k < |s| :: linked(s[k - 1], s[k])
    ensures forall k | 1 <= k < |longer| :: linked(longer[k - 1], longer[k])
  {}

  lemma WalkGrows(p: Project, roots: seq<File>, pick: seq<File> -> nat, moves: seq<Move>, move: Move, longer: seq<Move>)
    requires IsWalk(p, roots, pick, moves) && Arrived(p, roots, moves, move.before, move.queue)
    requires IsPicked(p, pick, move) && longer == moves + [move]
    ensures IsWalk(p, roots, pick, longer)
  {
    AllOfLonger(moves, move, longer, m => IsPicked(p, pick, m));
    PairsOfLonger(moves, move, longer, (earlier, later) => Follows(p, earlier, later));
    forall k | 1 <= k < |longer| ensures Follows(p, longer[k - 1], longer[k]) {}
    assert longer[0] == if moves == [] then move else moves[0];
  }

  lemma FailureConcludes(p: Project, roots: seq<File>, moves: seq<Move>, move: Move, longer: seq<Move>, file: File,
                         name: string)
    requires Takes(move, file) && All !in move.before[file] && Missing(p, move.after, file, name)
    requires longer == moves + [move]
    ensures Concludes(p, roots, longer, Failed(file, name))
  {
    assert longer[|longer| - 1] == move;
  }

  /** Takes one turn and says what it was. */
  method TakeMove(walk: Walk, at: nat, ghost roots: set<File>)
    returns (failure: Option<(File, string)>, ghost move: Move)
    requires Walking(walk, walk.graph, roots) && at < |walk.queue|
    modifies walk`demanded, walk`queue, walk.graph`exportNamesCache
    ensures move == Move(old(walk.queue), at, old(walk.demanded), walk.demanded, walk.queue)
    ensures walk.Valid() && IsMove(walk.graph.project, move, move.queue[at])
    ensures failure.Some? <==> FailsOver(walk.graph.project, move, move.queue[at])
    ensures failure.Some? ==>
              && Unanswered(walk.graph.project, roots, failure.value.0, failure.value.1)
              && failure.value.0 == move.queue[at]
              && Missing(walk.graph.project, move.after, failure.value.0, failure.value.1)
    ensures failure.None? ==> Walking(walk, walk.graph, roots)
    ensures var before, after := Left(walk.graph.project, walk.wants, old(walk.demanded)),
            Left(walk.graph.project, walk.wants, walk.demanded);
            after < before || (after == before && |walk.queue| < |old(walk.queue)|)
  {
    ghost var queue, before := walk.queue, walk.demanded;
    failure := Turn(walk, at, roots);
    move := Move(queue, at, before, walk.demanded, walk.queue);
    assert Takes(move, queue[at]);
  }

  lemma MoveAdded(p: Project, roots: seq<File>, pick: seq<File> -> nat, moves: seq<Move>, move: Move, file: File,
                  longer: seq<Move>)
    requires IsWalk(p, roots, pick, moves) && Arrived(p, roots, moves, move.before, move.queue)
    requires move.at == pick(move.queue) && IsMove(p, move, file) && longer == moves + [move]
    ensures IsWalk(p, roots, pick, longer)
    ensures !FailsOver(p, move, file) ==> Arrived(p, roots, longer, move.after, move.left)
  {
    WalkGrows(p, roots, pick, moves, move, longer);
    assert longer[|longer| - 1] == move;
  }

  /** Takes one turn and adds it to the walk. */
  method TakeTurn(walk: Walk, at: nat, ghost roots: seq<File>, ghost pick: seq<File> -> nat, ghost moves: seq<Move>)
    returns (failure: Option<(File, string)>, ghost longer: seq<Move>)
    requires Walking(walk, walk.graph, SetOf(roots)) && at < |walk.queue| && at == pick(walk.queue)
    requires IsWalk(walk.graph.project, roots, pick, moves)
    requires Arrived(walk.graph.project, roots, moves, walk.demanded, walk.queue)
    modifies walk`demanded, walk`queue, walk.graph`exportNamesCache
    ensures walk.Valid() && IsWalk(walk.graph.project, roots, pick, longer)
    ensures failure.Some? ==>
              && Unanswered(walk.graph.project, SetOf(roots), failure.value.0, failure.value.1)
              && Concludes(walk.graph.project, roots, longer, Failed(failure.value.0, failure.value.1))
    ensures failure.None? ==>
              && Walking(walk, walk.graph, SetOf(roots))
              && Arrived(walk.graph.project, roots, longer, walk.demanded, walk.queue)
    ensures var before, after := Left(walk.graph.project, walk.wants, old(walk.demanded)),
            Left(walk.graph.project, walk.wants, walk.demanded);
            after < before || (after == before && |walk.queue| < |old(walk.queue)|)
  {
    ghost var file, move := walk.queue[at], Move([], 0, map[], map[], []);
    failure, move := TakeMove(walk, at, SetOf(roots));
    longer := moves + [move];
    MoveAdded(walk.graph.project, roots, pick, moves, move, file, longer);
    if failure.Some? { FailureConcludes(walk.graph.project, roots, moves, move, longer, file, failure.value.1); }
  }

  lemma EmptyQueueConcludes(p: Project, roots: seq<File>, moves: seq<Move>, d: Demands, queue: seq<File>)
    requires Arrived(p, roots, moves, d, queue) && queue == []
    ensures Concludes(p, roots, moves, Reached(d.Keys))
  {
    assert roots != [] ==> roots[0] in SetOf(roots);
    assert SetOf([]) == {};
  }

  /** At the end of the walk exactly the reachable modules are recorded, and no unanswered name was overlooked. */
  lemma Drained(p: Project, roots: set<File>, wants: set<Want>, d: Demands)
    requires Sound(p, roots, wants, d) && Rooted(roots, d) && Dealt(p, d, [])
    ensures forall file :: file in d <==> p.Reachable(roots, file)
    ensures forall file, name | Unanswered(p, roots, file, name) :: p.Demanded(roots, Ask(file, All))
  {
    DrainedIsExact(p, roots, wants, d);
    forall file, name | Unanswered(p, roots, file, name) ensures p.Demanded(roots, Ask(file, All)) {
      DrainedIsSettled(p, roots, wants, d, file, name);
    }
  }

  /** Walks demand from the roots, taking modules off the queue in whatever order `pick` chooses. The answer does not
      depend on that order: it is the set of modules some chain of demand reaches. Whether there is an answer can. The
      walk fails only over a name that is really asked for and that nothing accounts for, in a turn that began before
      everything had been asked of its module; and it does fail if there is such a name in a module that is never asked
      for everything. `moves` are its turns. */
  method Drain(graph: ModuleGraph, roots: seq<File>, pick: seq<File> -> nat)
    returns (outcome: Outcome, ghost moves: seq<Move>)
    requires graph.Valid() && forall root | root in roots :: root in graph.project.facts
    requires forall queue | |queue| > 0 :: pick(queue) < |queue|
    modifies graph`exportNamesCache
    ensures graph.Valid()
    ensures IsWalk(graph.project, roots, pick, moves) && Concludes(graph.project, roots, moves, outcome)
    ensures outcome.Reached? ==>
              && (forall file :: file in outcome.files <==> graph.project.Reachable(SetOf(roots), file))
              && (forall file, name | Unanswered(graph.project, SetOf(roots), file, name) ::
                    graph.project.Demanded(SetOf(roots), Ask(file, All)))
    ensures outcome.Failed? ==> Unanswered(graph.project, SetOf(roots), outcome.file, outcome.name)
  {
    var walk := Seed(graph, roots);
    moves := [];
    while |walk.queue| > 0
      invariant Walking(walk, graph, SetOf(roots)) && fresh(walk)
      invariant IsWalk(graph.project, roots, pick, moves)
      invariant Arrived(graph.project, roots, moves, walk.demanded, walk.queue)
      decreases Left(graph.project, walk.wants, walk.demanded), |walk.queue|
    {
      var failure;
      failure, moves := TakeTurn(walk, pick(walk.queue), roots, pick, moves);
      if failure.Some? {
        return Failed(failure.value.0, failure.value.1), moves;
      }
    }
    EmptyQueueConcludes(graph.project, roots, moves, walk.demanded, walk.queue);
    Drained(graph.project, SetOf(roots), walk.wants, walk.demanded);
    return Reached(walk.demanded.Keys), moves;
  }

  /** Last in, first out. */
  function Newest(queue: seq<File>): nat {
    if |queue| > 0 then |queue| - 1 else 0
  }

  /** The walk as the gate runs it. */
  method ReachableFrom(graph: ModuleGraph, roots: seq<File>) returns (outcome: Outcome, ghost moves: seq<Move>)
    requires graph.Valid() && forall root | root in roots :: root in graph.project.facts
    modifies graph`exportNamesCache
    ensures graph.Valid()
    ensures IsWalk(graph.project, roots, Newest, moves) && Concludes(graph.project, roots, moves, outcome)
    ensures outcome.Reached? ==>
              && (forall file :: file in outcome.files <==> graph.project.Reachable(SetOf(roots), file))
              && (forall file, name | Unanswered(graph.project, SetOf(roots), file, name) ::
                    graph.project.Demanded(SetOf(roots), Ask(file, All)))
    ensures outcome.Failed? ==> Unanswered(graph.project, SetOf(roots), outcome.file, outcome.name)
  {
    outcome, moves := Drain(graph, roots, Newest);
  }

  lemma SameSize<T>(small: set<T>, large: set<T>)
    requires small <= large && |small| == |large|
    ensures small == large
  {
    assert large == small + (large - small);
    assert |large| == |small| + |large - small|;
    assert large - small == {};
  }
}
