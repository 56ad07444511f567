/** The module graph of the reachability gate: cycle-cut searches along star re-exports, one of them memoised. */
module ModuleGraphs {
  import opened ModuleFacts
  import opened Options

  class ModuleGraph {
    const project: Project
    var exportNamesCache: map<File, set<string>>

    /** The cache only ever holds complete answers. */
    ghost predicate Valid()
      reads this
    {
      && project.Valid()
      && forall file | file in exportNamesCache ::
           file in project.facts && forall name :: name in exportNamesCache[file] <==> project.Exports(file, name)
    }

    constructor (project: Project)
      requires project.Valid()
      ensures Valid() && this.project == project && exportNamesCache == map[]
    {
      this.project := project;
      exportNamesCache := map[];
    }

    /** The exported names of a module. Under the path-local cut `seen` the answer may be partial, but it is never wrong
        and never misses a name that can be had without passing through `seen`; at the top level it is exact, whatever
        the cache held before. */
    method ExportNames(file: File, seen: set<File>) returns (names: set<string>)
      requires Valid() && file in project.facts
      modifies this`exportNamesCache
      ensures Valid()
      ensures forall name | name in names :: project.Exports(file, name)
      ensures forall name | project.ExportsAvoiding(file, name, seen) :: name in names
      ensures seen == {} ==> forall name :: name in names <==> project.Exports(file, name)
      decreases project.facts.Keys - seen
    {
      AvoidingExtremes(project, file, seen);
      if file in exportNamesCache {
        return exportNamesCache[file];
      }
      if file in seen {
        return {};
      }
      var facts := project.facts[file];
      names := project.OwnNames(file);
      forall name | name in names ensures project.Exports(file, name) { OwnNamesAreExported(project, file, name); }
      for i := 0 to |facts.starReexports|
        invariant Valid()
        invariant project.OwnNames(file) <= names
        invariant forall name | name in names :: project.Exports(file, name)
        invariant forall k, target, name | 0 <= k < i && project.Edge(file, facts.starReexports[k]) == Some(target)
                    && project.ExportsAvoiding(target, name, seen + {file}) :: name in names
      {
        var target := project.Edge(file, facts.starReexports[i]);
        if target.None? { continue; }
        var inner := ExportNames(target.value, seen + {file});
        forall name | name in inner ensures project.Exports(file, name) {
          ExportsThroughHop(project, file, target.value, name);
        }
        names := names + inner;
      }
      forall name | project.ExportsAvoiding(file, name, seen) ensures name in names {
        if name !in project.OwnNames(file) {
          var target := FirstExportHop(project, file, name, seen);
        }
      }
      if seen == {} {
        exportNamesCache := exportNamesCache[file := names];
      }
    }

    /** Decides, exactly at the top level, whether some star chain of the module ends outside the code base. */
    method HasExternalStar(file: File, seen: set<File>) returns (leaves: bool)
      requires Valid() && file in project.facts
      ensures leaves ==> project.LeavesOurCode(file)
      ensures project.LeavesAvoiding(file, seen) ==> leaves
      ensures seen == {} ==> (leaves <==> project.LeavesOurCode(file))
      decreases project.facts.Keys - seen
    {
      AvoidingExtremes(project, file, seen);
      if file in seen {
        return false;
      }
      var stars := project.facts[file].starReexports;
      for i := 0 to |stars|
        invariant forall k | 0 <= k < i :: project.Edge(file, stars[k]).Some?
        invariant forall k | 0 <= k < i :: !project.LeavesAvoiding(project.Edge(file, stars[k]).value, seen + {file})
      {
        var target := project.Edge(file, stars[i]);
        if target.None? {
          assert project.LeavesVia(file, [file]);
          return true;
        }
        var inner := HasExternalStar(target.value, seen + {file});
        if inner {
          LeavesThroughHop(project, file, target.value);
          return true;
        }
      }
      if project.LeavesAvoiding(file, seen) {
        var target := FirstLeavingHop(project, file, seen);
        assert false;
      }
      return false;
    }
  }
}
