/** The gate over all packages: what no composition root uses, held against an exact allowlist. */
module ReachabilityGate {
  import opened ModuleFacts
  import opened ModuleGraphs
  import opened DemandWalk

  datatype Package = Package(modules: seq<File>, roots: seq<File>)

  datatype Verdict =
    | Checked(violations: set<File>, stale: set<File>)
    | Broken(file: File, name: string)
  {
    predicate Passes() {
      Checked? && violations == {} && stale == {}
    }
  }

  /** Some package lists the module, and no chain of demand from that package's own roots reaches it. */
  ghost predicate Unused(p: Project, packages: seq<Package>, file: File) {
    exists k :: 0 <= k < |packages| && UnusedIn(p, packages[k], file)
  }

  ghost predicate UnusedIn(p: Project, package: Package, file: File) {
    file in package.modules && !p.Reachable(SetOf(package.roots), file)
  }

  lemma OneMorePackage(p: Project, packages: seq<Package>, k: nat, file: File)
    requires k < |packages|
    ensures Unused(p, packages[..k + 1], file) <==> Unused(p, packages[..k], file) || UnusedIn(p, packages[k], file)
  {
    var shorter, longer := packages[..k], packages[..k + 1];
    assert longer[k] == packages[k] && forall i | 0 <= i < k :: longer[i] == shorter[i];
    if i :| 0 <= i < k && UnusedIn(p, shorter[i], file) { assert UnusedIn(p, longer[i], file); }
  }

  /** Every name this package asks for and nothing accounts for is asked of a module it also asks for everything. */
  ghost predicate NoneOverlooked(p: Project, package: Package) {
    |package.modules| > 0 ==>
      forall file, name | Unanswered(p, SetOf(package.roots), file, name) ::
          p.Demanded(SetOf(package.roots), Ask(file, All))
  }

  /** The gate passes exactly when the allowlist names the unused modules and nothing else; it breaks only over an
      unanswered name, and whenever some package asks for one of a module it never asks for everything. */
  method Check(graph: ModuleGraph, packages: seq<Package>, allowlist: set<File>) returns (verdict: Verdict)
    requires graph.Valid()
    requires forall package | package in packages && |package.modules| > 0 ::
               forall root | root in package.roots :: root in graph.project.facts
    modifies graph`exportNamesCache
    ensures verdict.Checked? ==> forall file :: file in verdict.violations <==>
            Unused(graph.project, packages, file) && file !in allowlist
    ensures verdict.Checked? ==> forall file :: file in verdict.stale <==>
            file in allowlist && !Unused(graph.project, packages, file)
    ensures verdict.Checked? ==> (verdict.Passes() <==> forall file :: file in allowlist <==>
            Unused(graph.project, packages, file))
    ensures verdict.Checked? ==> forall package | package in packages :: NoneOverlooked(graph.project, package)
    ensures verdict.Broken? ==> exists package :: package in packages
                                  && Unanswered(graph.project, SetOf(package.roots), verdict.file, verdict.name)
  {
    var unreachable: set<File> := {};
    for k := 0 to |packages|
      invariant graph.Valid()
      invariant forall file :: file in unreachable <==> Unused(graph.project, packages[..k], file)
      invariant forall i | 0 <= i < k :: NoneOverlooked(graph.project, packages[i])
    {
      var package := packages[k];
      ghost var before := unreachable;
      if |package.modules| > 0 {
        var outcome, _ := ReachableFrom(graph, package.roots);
        if outcome.Failed? {
          return Broken(outcome.file, outcome.name);
        }
        unreachable := unreachable + (set file | file in package.modules && file !in outcome.files);
      }
      forall file ensures file in unreachable <==> Unused(graph.project, packages[..k + 1], file) {
        assert file in unreachable <==> file in before || UnusedIn(graph.project, package, file);
        OneMorePackage(graph.project, packages, k, file);
      }
    }
    assert packages[..|packages|] == packages;
    verdict := Checked(unreachable - allowlist, allowlist - unreachable);
  }
}
