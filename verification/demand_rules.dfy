/** What one link passes on to a module that nothing else links to: how much of it an import or a re-export makes
    wanted. */
module DemandRules {
  import opened DemandWalk
  import opened ModuleFacts
  import opened Options

  /** Nothing but this specifier of this module resolves to the target, which is no root. */
  ghost predicate IsOnlyLink(p: Project, roots: set<File>, from: File, specifier: Specifier, to: File) {
    && from in p.facts && p.Edge(from, specifier) == Some(to) && to !in roots
    && forall importer, other | p.Edge(importer, other) == Some(to) :: importer == from && other == specifier
  }

  predicate ImportsIt(facts: Facts, specifier: Specifier, i: int) {
    0 <= i < |facts.imports| && facts.imports[i].specifier == specifier
  }

  predicate NamesIt(facts: Facts, specifier: Specifier, i: int) {
    0 <= i < |facts.namedReexports| && facts.namedReexports[i].specifier == specifier
  }

  predicate AliasesIt(facts: Facts, specifier: Specifier, i: int) {
    0 <= i < |facts.namespaceReexports| && facts.namespaceReexports[i].specifier == specifier
  }

  predicate StarsIt(facts: Facts, specifier: Specifier) {
    specifier in facts.starReexports
  }

  /** Some demand is made of the module, of everything or of this name. */
  ghost predicate IsAsked(p: Project, roots: set<File>, file: File, name: string) {
    p.Demanded(roots, Ask(file, All)) || p.Demanded(roots, Ask(file, Name(name)))
  }

  /** Whatever is demanded of a module that is no root was led to from another demand. */
  lemma LastStep(p: Project, roots: set<File>, item: Item) returns (before: Item)
    requires p.Demanded(roots, item) && item.file !in roots
    ensures p.Demanded(roots, before) && p.Leads(before, item)
  {
    var chain :| p.Ends(roots, chain, item);
    var n := |chain| - 1;
    assert n > 0;
    before := chain[n - 1];
    var shorter := chain[..n];
    assert p.Leads(chain[n - 1], chain[n - 1 + 1]);
    forall i | 0 <= i < |shorter| - 1 ensures p.Leads(shorter[i], shorter[i + 1]) {
      assert p.Leads(chain[i], chain[i + 1]);
    }
    assert p.Ends(roots, shorter, before);
  }

  /** An import makes wanted the names it takes, as soon as its module runs at all. */
  lemma ImportPassesOn(p: Project, roots: set<File>, from: File, specifier: Specifier, to: File, i: int, want: Want)
    requires IsOnlyLink(p, roots, from, specifier, to) && ImportsIt(p.facts[from], specifier, i)
    requires forall j | ImportsIt(p.facts[from], specifier, j) :: j == i
    requires forall j :: !NamesIt(p.facts[from], specifier, j) && !AliasesIt(p.facts[from], specifier, j)
    requires !StarsIt(p.facts[from], specifier)
    ensures p.Reachable(roots, to) <==> p.Reachable(roots, from)
    ensures p.Demanded(roots, Ask(to, want)) <==> p.Reachable(roots, from) && want in p.facts[from].imports[i].names
  {
    if p.Reachable(roots, from) {
      var a: Item :| a.file == from && p.Demanded(roots, a);
      ImportLeads(p, roots, a, Touch(to), i);
      if want in p.facts[from].imports[i].names { ImportLeads(p, roots, a, Ask(to, want), i); }
    }
    forall b: Item | b.file == to && p.Demanded(roots, b)
      ensures p.Reachable(roots, from) && (b.Ask? ==> b.want in p.facts[from].imports[i].names)
    {
      var a := LastStep(p, roots, b);
      ImportWasIt(p, a, b, from, specifier, i);
    }
  }

  lemma ImportLeads(p: Project, roots: set<File>, a: Item, b: Item, i: int)
    requires a.file in p.facts && p.ByImport(a, b, i) && p.Demanded(roots, a)
    ensures p.Demanded(roots, b) && p.Reachable(roots, b.file)
  {
    assert p.Leads(a, b);
    ChainExtends(p, roots, a, b);
  }

  lemma ImportWasIt(p: Project, a: Item, b: Item, from: File, specifier: Specifier, i: int)
    requires p.Leads(a, b) && from in p.facts
    requires forall importer, other | p.Edge(importer, other) == Some(b.file) :: importer == from && other == specifier
    requires forall j | ImportsIt(p.facts[from], specifier, j) :: j == i
    requires forall j :: !NamesIt(p.facts[from], specifier, j) && !AliasesIt(p.facts[from], specifier, j)
    requires !StarsIt(p.facts[from], specifier)
    ensures a.file == from && p.ByImport(a, b, i)
  {
    if j :| p.ByImport(a, b, j) {
      assert ImportsIt(p.facts[from], specifier, j);
    } else if j :| p.ByNamespace(a, b, j) {
      assert AliasesIt(p.facts[from], specifier, j);
    } else if j, exported :| p.ByName(a, b, j, exported) {
      assert NamesIt(p.facts[from], specifier, j);
    }
  }

  /** A named re-export passes on what is asked of it, under the name it has at its source. */
  lemma NamePassesOn(p: Project, roots: set<File>, from: File, specifier: Specifier, to: File, i: int, want: Want)
    requires IsOnlyLink(p, roots, from, specifier, to) && NamesIt(p.facts[from], specifier, i)
    requires forall j | NamesIt(p.facts[from], specifier, j) :: j == i
    requires forall j :: !ImportsIt(p.facts[from], specifier, j) && !AliasesIt(p.facts[from], specifier, j)
    requires !StarsIt(p.facts[from], specifier)
    ensures p.Demanded(roots, Ask(to, want)) <==>
            exists name :: name in p.facts[from].namedReexports[i].names && IsAsked(p, roots, from, name)
                           && want == Name(p.facts[from].namedReexports[i].names[name])
    ensures p.Reachable(roots, to) <==>
            exists name :: name in p.facts[from].namedReexports[i].names && IsAsked(p, roots, from, name)
  {
    var names := p.facts[from].namedReexports[i].names;
    forall name | name in names && IsAsked(p, roots, from, name)
      ensures p.Demanded(roots, Ask(to, Name(names[name]))) && p.Reachable(roots, to)
    {
      var a := Ask(from, if p.Demanded(roots, Ask(from, All)) then All else Name(name));
      assert p.ByName(a, Ask(to, Name(names[name])), i, name);
      ChainExtends(p, roots, a, Ask(to, Name(names[name])));
    }
    forall b: Item | b.file == to && p.Demanded(roots, b)
      ensures exists name :: name in names && IsAsked(p, roots, from, name) && b == Ask(to, Name(names[name]))
    {
      var a := LastStep(p, roots, b);
      var name := NameWasIt(p, a, b, from, specifier, i);
      assert IsAsked(p, roots, from, name);
    }
  }

  lemma NameWasIt(p: Project, a: Item, b: Item, from: File, specifier: Specifier, i: int) returns (name: string)
    requires p.Leads(a, b) && from in p.facts
    requires forall importer, other | p.Edge(importer, other) == Some(b.file) :: importer == from && other == specifier
    requires forall j | NamesIt(p.facts[from], specifier, j) :: j == i
    requires forall j :: !ImportsIt(p.facts[from], specifier, j) && !AliasesIt(p.facts[from], specifier, j)
    requires !StarsIt(p.facts[from], specifier)
    ensures a.file == from && p.ByName(a, b, i, name)
  {
    if j :| p.ByImport(a, b, j) {
      assert ImportsIt(p.facts[from], specifier, j);
      assert false;
    } else if j :| p.ByNamespace(a, b, j) {
      assert AliasesIt(p.facts[from], specifier, j);
      assert false;
    } else if j, exported :| p.ByName(a, b, j, exported) {
      assert NamesIt(p.facts[from], specifier, j);
      name := exported;
    } else {
      name := "";
    }
  }

  /** A namespace re-export asks for everything, once it is asked for itself. */
  lemma NamespacePassesOn(p: Project, roots: set<File>, from: File, specifier: Specifier, to: File, i: int, want: Want)
    requires IsOnlyLink(p, roots, from, specifier, to) && AliasesIt(p.facts[from], specifier, i)
    requires forall j | AliasesIt(p.facts[from], specifier, j) :: j == i
    requires forall j :: !ImportsIt(p.facts[from], specifier, j) && !NamesIt(p.facts[from], specifier, j)
    requires !StarsIt(p.facts[from], specifier)
    ensures p.Demanded(roots, Ask(to, want)) <==>
            want == All && IsAsked(p, roots, from, p.facts[from].namespaceReexports[i].alias)
    ensures p.Reachable(roots, to) <==> IsAsked(p, roots, from, p.facts[from].namespaceReexports[i].alias)
  {
    var alias := p.facts[from].namespaceReexports[i].alias;
    if IsAsked(p, roots, from, alias) {
      var a := Ask(from, if p.Demanded(roots, Ask(from, All)) then All else Name(alias));
      assert p.ByNamespace(a, Ask(to, All), i);
      ChainExtends(p, roots, a, Ask(to, All));
    }
    forall b: Item | b.file == to && p.Demanded(roots, b)
      ensures b == Ask(to, All) && IsAsked(p, roots, from, alias)
    {
      var a := LastStep(p, roots, b);
      NamespaceWasIt(p, a, b, from, specifier, i);
    }
  }

  lemma NamespaceWasIt(p: Project, a: Item, b: Item, from: File, specifier: Specifier, i: int)
    requires p.Leads(a, b) && from in p.facts
    requires forall importer, other | p.Edge(importer, other) == Some(b.file) :: importer == from && other == specifier
    requires forall j | AliasesIt(p.facts[from], specifier, j) :: j == i
    requires forall j :: !ImportsIt(p.facts[from], specifier, j) && !NamesIt(p.facts[from], specifier, j)
    requires !StarsIt(p.facts[from], specifier)
    ensures a.file == from && p.ByNamespace(a, b, i)
  {
    if j :| p.ByImport(a, b, j) {
      assert ImportsIt(p.facts[from], specifier, j);
    } else if j :| p.ByNamespace(a, b, j) {
      assert AliasesIt(p.facts[from], specifier, j);
    } else if j, exported :| p.ByName(a, b, j, exported) {
      assert NamesIt(p.facts[from], specifier, j);
    }
  }

  /** A star passes everything on, and a single name only if its own module does not provide it and the target has
      it. */
  lemma StarPassesOn(p: Project, roots: set<File>, from: File, specifier: Specifier, to: File, want: Want)
    requires IsOnlyLink(p, roots, from, specifier, to) && StarsIt(p.facts[from], specifier)
    requires forall j :: !ImportsIt(p.facts[from], specifier, j) && !NamesIt(p.facts[from], specifier, j)
    requires forall j :: !AliasesIt(p.facts[from], specifier, j)
    ensures p.Demanded(roots, Ask(to, want)) <==>
            && p.Demanded(roots, Ask(from, want))
            && (want.Name? ==> !Provides(p.facts[from], want.name) && p.Exports(to, want.name))
  {
    if want.Name? { OwnNamesAreProvided(p, from, want.name); }
    var stars := p.facts[from].starReexports;
    var k :| 0 <= k < |stars| && stars[k] == specifier;
    assert p.StarHop(from, to);
    if p.Demanded(roots, Ask(from, want)) && p.ByStar(Ask(from, want), Ask(to, want)) {
      ChainExtends(p, roots, Ask(from, want), Ask(to, want));
    }
    if p.Demanded(roots, Ask(to, want)) {
      var a := LastStep(p, roots, Ask(to, want));
      StarWasIt(p, a, Ask(to, want), from, specifier);
    }
  }

  lemma StarWasIt(p: Project, a: Item, b: Item, from: File, specifier: Specifier)
    requires p.Leads(a, b) && from in p.facts
    requires forall importer, other | p.Edge(importer, other) == Some(b.file) :: importer == from && other == specifier
    requires forall j :: !ImportsIt(p.facts[from], specifier, j) && !NamesIt(p.facts[from], specifier, j)
    requires forall j :: !AliasesIt(p.facts[from], specifier, j)
    ensures a.file == from && p.ByStar(a, b)
  {
    if j :| p.ByImport(a, b, j) {
      assert ImportsIt(p.facts[from], specifier, j);
    } else if j :| p.ByNamespace(a, b, j) {
      assert AliasesIt(p.facts[from], specifier, j);
    } else if j, exported :| p.ByName(a, b, j, exported) {
      assert NamesIt(p.facts[from], specifier, j);
    }
  }

  /** A root is wanted whole, and what nothing links to is wanted only if it is a root. */
  lemma RootsAreWanted(p: Project, roots: set<File>, file: File)
    ensures file in roots ==> p.Demanded(roots, Ask(file, All))
    ensures (forall importer, specifier :: p.Edge(importer, specifier) != Some(file)) ==>
              (p.Reachable(roots, file) <==> file in roots)
  {
    if file in roots { assert p.Ends(roots, [Ask(file, All)], Ask(file, All)); }
    if p.Reachable(roots, file) && file !in roots {
      var item: Item :| item.file == file && p.Demanded(roots, item);
      var before := LastStep(p, roots, item);
    }
  }
}
