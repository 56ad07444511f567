/** A code base as the reachability gate sees it, and the chains of stars and of demand through it. */
module ModuleFacts {
  import opened Options

  type File = string
  type Specifier = string

  /** One demanded name. `All` stands for all of them at once. */
  datatype Want = All | Name(name: string)

  datatype Import = Import(specifier: Specifier, names: set<Want>)

  /** The keys are the names exported, the values what they are called where they come from. */
  datatype NamedReexport = NamedReexport(specifier: Specifier, names: map<string, string>)

  datatype NamespaceReexport = NamespaceReexport(specifier: Specifier, alias: string)

  datatype Facts = Facts(
    localExports: set<string>,
    imports: seq<Import>,
    namedReexports: seq<NamedReexport>,
    starReexports: seq<Specifier>,
    namespaceReexports: seq<NamespaceReexport>
  )

  /** The parsed tree: `edges` holds the specifiers that resolve to one of our own modules. Every other
      specifier (a package, an asset, test code) has no edge. */
  datatype Project = Project(facts: map<File, Facts>, edges: map<(File, Specifier), File>) {

    function Edge(importer: File, specifier: Specifier): Option<File> {
      if (importer, specifier) in edges then Some(edges[(importer, specifier)]) else None
    }

    /** A specifier only ever resolves to a file that exists. */
    ghost predicate Valid() {
      forall importer, specifier ::
        Edge(importer, specifier).Some? ==> Edge(importer, specifier).value in facts
    }

    /** The names a module provides by itself: its own declarations, its named re-exports and its namespaces. */
    function OwnNames(file: File): set<string>
      requires file in facts
    {
      facts[file].localExports
      + (set i, name | 0 <= i < |facts[file].namedReexports| && name in facts[file].namedReexports[i].names :: name)
      + (set i | 0 <= i < |facts[file].namespaceReexports| :: facts[file].namespaceReexports[i].alias)
    }

    /** Every name some module can ask another for. */
    ghost function Wants(): set<Want> {
      {All}
      + (set file, i, want | file in facts && 0 <= i < |facts[file].imports| && want in facts[file].imports[i].names ::
          want)
      + (set file, i, name | file in facts && 0 <= i < |facts[file].namedReexports|
          && name in facts[file].namedReexports[i].names
        :: Name(facts[file].namedReexports[i].names[name]))
    }

    // ----- star chains -----

    ghost predicate StarHop(from: File, to: File) {
      from in facts &&
      exists i :: 0 <= i < |facts[from].starReexports| && Edge(from, facts[from].starReexports[i]) == Some(to)
    }

    /** A non-empty walk along `export * from` edges that stays inside our own modules. */
    ghost predicate StarPath(path: seq<File>, file: File) {
      && |path| > 0 && path[0] == file
      && (forall i :: 0 <= i < |path| ==> path[i] in facts)
      && (forall i :: 0 <= i < |path| - 1 ==> StarHop(path[i], path[i + 1]))
    }

    ghost predicate Avoids(path: seq<File>, seen: set<File>) {
      forall i :: 0 <= i < |path| ==> path[i] !in seen
    }

    /** `name` is provided by the last module of this star path. */
    ghost predicate ExportsVia(file: File, name: string, path: seq<File>) {
      StarPath(path, file) && name in OwnNames(path[|path| - 1])
    }

    /** A module exports what any module along its star re-exports provides. */
    ghost predicate Exports(file: File, name: string) {
      exists path :: ExportsVia(file, name, path)
    }

    ghost predicate ExportsAvoiding(file: File, name: string, seen: set<File>) {
      exists path :: ExportsVia(file, name, path) && Avoids(path, seen)
    }

    /** The last module of this star path re-exports everything of something that is not ours. */
    ghost predicate LeavesVia(file: File, path: seq<File>) {
      StarPath(path, file) &&
      var last := path[|path| - 1];
      exists i :: 0 <= i < |facts[last].starReexports| && Edge(last, facts[last].starReexports[i]) == None
    }

    ghost predicate LeavesOurCode(file: File) {
      exists path :: LeavesVia(file, path)
    }

    ghost predicate LeavesAvoiding(file: File, seen: set<File>) {
      exists path :: LeavesVia(file, path) && Avoids(path, seen)
    }

    /** A name nothing along the star chain provides, and no star chain that could provide it unseen. */
    ghost predicate Unresolvable(file: File, name: string) {
      !Exports(file, name) && !LeavesOurCode(file)
    }

    // ----- demand chains -----

    /** One demand leads directly to another. These are the rules of "wanted", one premise each. */
    ghost predicate Leads(a: Item, b: Item) {
      && a.file in facts
      && (|| (exists i :: ByImport(a, b, i))
          || (exists i :: ByNamespace(a, b, i))
          || (exists i, exported :: ByName(a, b, i, exported))
          || ByStar(a, b))
    }

    /** A module that is wanted at all executes, so all its direct imports are live. */
    ghost predicate ByImport(a: Item, b: Item, i: int)
      requires a.file in facts
    {
      && 0 <= i < |facts[a.file].imports|
      && Edge(a.file, facts[a.file].imports[i].specifier) == Some(b.file)
      && (b.Ask? ==> b.want in facts[a.file].imports[i].names)
    }

    ghost predicate ByNamespace(a: Item, b: Item, i: int)
      requires a.file in facts
    {
      && a.Ask? && b == Ask(b.file, All)
      && 0 <= i < |facts[a.file].namespaceReexports|
      && (a.want == All || a.want == Name(facts[a.file].namespaceReexports[i].alias))
      && Edge(a.file, facts[a.file].namespaceReexports[i].specifier) == Some(b.file)
    }

    ghost predicate ByName(a: Item, b: Item, i: int, exported: string)
      requires a.file in facts
    {
      && a.Ask?
      && 0 <= i < |facts[a.file].namedReexports| && exported in facts[a.file].namedReexports[i].names
      && (a.want == All || a.want == Name(exported))
      && Edge(a.file, facts[a.file].namedReexports[i].specifier) == Some(b.file)
      && b == Ask(b.file, Name(facts[a.file].namedReexports[i].names[exported]))
    }

    /** Everything passes through a star; a single name passes only when the module itself does not provide it,
        and only towards a target that exports it. */
    ghost predicate ByStar(a: Item, b: Item)
      requires a.file in facts
    {
      && a.Ask? && b.Ask? && a.want == b.want
      && StarHop(a.file, b.file)
      && (a.want.Name? ==> a.want.name !in OwnNames(a.file) && Exports(b.file, a.want.name))
    }

    ghost predicate Chain(roots: set<File>, chain: seq<Item>) {
      && |chain| > 0
      && chain[0].Ask? && chain[0].want == All && chain[0].file in roots
      && (forall i :: 0 <= i < |chain| - 1 ==> Leads(chain[i], chain[i + 1]))
    }

    ghost predicate Ends(roots: set<File>, chain: seq<Item>, item: Item) {
      Chain(roots, chain) && chain[|chain| - 1] == item
    }

    /** Some chain of demand from a composition root ends in this demand. */
    ghost predicate Demanded(roots: set<File>, item: Item) {
      exists chain :: Ends(roots, chain, item)
    }

    /** A chain of demand from some root ends in this module. */
    ghost predicate Reachable(roots: set<File>, file: File) {
      exists item: Item :: item.file == file && Demanded(roots, item)
    }
  }

  /** One demand: a module merely imported, or asked for a name. */
  datatype Item = Touch(file: File) | Ask(file: File, want: Want)

  // ----- lemmas about star chains -----

  lemma StarSuffix(p: Project, path: seq<File>, file: File, from: nat)
    requires p.StarPath(path, file) && from < |path|
    ensures p.StarPath(path[from..], path[from])
  {
    forall k | 0 <= k < |path[from..]| - 1 ensures p.StarHop(path[from..][k], path[from..][k + 1]) {
      assert p.StarHop(path[from + k], path[from + k + 1]);
    }
  }

  /** Cutting a walk at its last visit to `path[0]` leaves a walk that never comes back. */
  lemma {:induction false} LastVisit(p: Project, path: seq<File>, file: File, seen: set<File>) returns (rest: seq<File>)
    requires p.StarPath(path, file) && p.Avoids(path, seen)
    ensures p.StarPath(rest, file) && p.Avoids(rest, seen) && rest[|rest| - 1] == path[|path| - 1]
    ensures |rest| > 1 ==>
              p.StarHop(file, rest[1]) && p.StarPath(rest[1..], rest[1]) && p.Avoids(rest[1..], seen + {file})
  {
    if i :| 1 <= i < |path| && path[i] == file {
      StarSuffix(p, path, file, i);
      rest := LastVisit(p, path[i..], file, seen);
    } else {
      rest := path;
      if |rest| > 1 {
        assert p.StarHop(rest[0], rest[0 + 1]);
        StarSuffix(p, rest, file, 1);
      }
    }
  }

  /** Star paths grow at the front. */
  lemma PrependHop(p: Project, file: File, target: File, path: seq<File>)
    requires p.StarHop(file, target) && p.StarPath(path, target)
    ensures p.StarPath([file] + path, file)
  {
    var longer := [file] + path;
    forall i | 0 <= i < |longer| - 1 ensures p.StarHop(longer[i], longer[i + 1]) {
      if i > 0 {
        assert longer[i] == path[i - 1] && longer[i + 1] == path[i - 1 + 1];
      }
    }
  }

  lemma ExportsThroughHop(p: Project, file: File, target: File, name: string)
    requires p.StarHop(file, target) && p.Exports(target, name)
    ensures p.Exports(file, name)
  {
    var path :| p.ExportsVia(target, name, path);
    PrependHop(p, file, target, path);
    assert p.ExportsVia(file, name, [file] + path);
  }

  lemma LeavesThroughHop(p: Project, file: File, target: File)
    requires p.StarHop(file, target) && p.LeavesOurCode(target)
    ensures p.LeavesOurCode(file)
  {
    var path :| p.LeavesVia(target, path);
    PrependHop(p, file, target, path);
    var longer := [file] + path;
    assert longer[|longer| - 1] == path[|path| - 1];
    assert p.LeavesVia(file, longer);
  }

  lemma OwnNamesAreExported(p: Project, file: File, name: string)
    requires file in p.facts && name in p.OwnNames(file)
    ensures p.Exports(file, name)
  {
    assert p.ExportsVia(file, name, [file]);
  }

  /** Whatever a module exports while avoiding `seen` it provides itself, or gets through one star hop from a
      module that exports it while also avoiding the module itself. This is what makes the path-local cut harmless. */
  lemma FirstExportHop(p: Project, file: File, name: string, seen: set<File>) returns (target: File)
    requires p.ExportsAvoiding(file, name, seen) && name !in p.OwnNames(file)
    ensures p.StarHop(file, target) && p.ExportsAvoiding(target, name, seen + {file})
  {
    var path :| p.ExportsVia(file, name, path) && p.Avoids(path, seen);
    var rest := LastVisit(p, path, file, seen);
    assert |rest| > 1;
    target := rest[1];
    assert p.ExportsVia(target, name, rest[1..]);
  }

  lemma FirstLeavingHop(p: Project, file: File, seen: set<File>) returns (target: File)
    requires p.LeavesAvoiding(file, seen)
    requires file in p.facts
    requires forall i :: 0 <= i < |p.facts[file].starReexports| ==> p.Edge(file, p.facts[file].starReexports[i]).Some?
    ensures p.StarHop(file, target) && p.LeavesAvoiding(target, seen + {file})
  {
    var path :| p.LeavesVia(file, path) && p.Avoids(path, seen);
    var rest := LastVisit(p, path, file, seen);
    assert |rest| > 1;
    target := rest[1];
    assert p.LeavesVia(target, rest[1..]);
  }

  /** A module exports exactly its own names and what its star targets export. */
  lemma ExportsUnfold(p: Project, file: File, name: string)
    requires file in p.facts
    ensures p.Exports(file, name) <==>
            name in p.OwnNames(file) || exists target :: p.StarHop(file, target) && p.Exports(target, name)
  {
    if p.Exports(file, name) && name !in p.OwnNames(file) {
      var path :| p.ExportsVia(file, name, path);
      assert p.Avoids(path, {});
      var target := FirstExportHop(p, file, name, {});
    }
    if name in p.OwnNames(file) { OwnNamesAreExported(p, file, name); }
    forall target | p.StarHop(file, target) && p.Exports(target, name) ensures p.Exports(file, name) {
      ExportsThroughHop(p, file, target, name);
    }
  }

  /** A walk that must avoid its own start goes nowhere; one that need avoid nothing is unrestricted. */
  lemma AvoidingExtremes(p: Project, file: File, seen: set<File>)
    ensures file in seen ==> !p.LeavesAvoiding(file, seen) && forall name :: !p.ExportsAvoiding(file, name, seen)
    ensures p.LeavesAvoiding(file, {}) <==> p.LeavesOurCode(file)
    ensures forall name :: p.ExportsAvoiding(file, name, {}) <==> p.Exports(file, name)
  {
    forall path | p.StarPath(path, file) && file in seen ensures !p.Avoids(path, seen) {
      assert path[0] == file;
    }
    forall path: seq<File> ensures p.Avoids(path, {}) {}
    forall name | p.Exports(file, name) ensures p.ExportsAvoiding(file, name, {}) {
      var path :| p.ExportsVia(file, name, path);
      assert p.Avoids(path, {});
    }
    if p.LeavesOurCode(file) {
      var path :| p.LeavesVia(file, path);
      assert p.Avoids(path, {});
    }
  }

  // ----- what a module provides -----

  /** A module provides a name that it declares, re-exports under that name, or gives to a namespace. */
  predicate Provides(facts: Facts, name: string) {
    || name in facts.localExports
    || (exists i :: 0 <= i < |facts.namedReexports| && name in facts.namedReexports[i].names)
    || (exists i :: 0 <= i < |facts.namespaceReexports| && facts.namespaceReexports[i].alias == name)
  }

  lemma OwnNamesAreProvided(p: Project, file: File, name: string)
    requires file in p.facts
    ensures name in p.OwnNames(file) <==> Provides(p.facts[file], name)
  {}

  /** A module exports exactly what some module at the end of a chain of its stars provides. */
  lemma ExportsAreProvided(p: Project, file: File, name: string)
    ensures p.Exports(file, name) <==>
            exists path :: p.StarPath(path, file) && Provides(p.facts[path[|path| - 1]], name)
  {
    forall path | p.StarPath(path, file)
      ensures p.ExportsVia(file, name, path) <==> Provides(p.facts[path[|path| - 1]], name)
    {
      OwnNamesAreProvided(p, path[|path| - 1], name);
    }
  }

  /** So one without stars exports exactly what it provides itself. */
  lemma StarlessExports(p: Project, file: File, name: string)
    requires file in p.facts && p.facts[file].starReexports == []
    ensures p.Exports(file, name) <==> Provides(p.facts[file], name)
  {
    OwnNamesAreProvided(p, file, name);
    ExportsUnfold(p, file, name);
  }

  /** A name that a named or namespace re-export forwards is accounted for. */
  lemma ForwardedIsResolvable(p: Project, a: Item, b: Item, i: int, exported: string)
    requires a.file in p.facts && a.Ask? && a.want.Name? && (p.ByName(a, b, i, exported) || p.ByNamespace(a, b, i))
    ensures !p.Unresolvable(a.file, a.want.name)
  {
    OwnNamesAreProvided(p, a.file, a.want.name);
    OwnNamesAreExported(p, a.file, a.want.name);
  }
}
