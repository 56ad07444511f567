/** The verdict on a red tier: rescued if all its failures are listed flakes that pass when run again, red otherwise. */
module Quarantine {
  import opened JunitReport
  import opened JunitText
  import opened Text

  /** A listed flaky test of the tier at hand. */
  datatype Listed = Listed(file: string, test: string)

  /** Bun's own count of failures and of errors outside any test. */
  datatype Summary = Summary(fail: nat, errors: nat)

  /** What the rerun of the listed files leaves: whether it wrote its coverage ledger, its exit status and its
      report. */
  datatype Rerun = Rerun(ledgerWritten: bool, exit: int, results: seq<Result>)

  datatype Verdict = Green | Rescued | Red

  const NUL := '\0'

  function KeyOf(file: string, name: string): string {
    file + [NUL] + name
  }

  function NameOf(result: Result): string {
    Join(result.path, " > ")
  }

  function ResultKey(result: Result): string {
    KeyOf(result.file, NameOf(result))
  }

  function Failures(results: seq<Result>): (failures: seq<Result>)
    ensures forall result :: result in failures <==> result in results && result.failed
  {
    if results == [] then []
    else (if results[0].failed then [results[0]] else []) + Failures(results[1..])
  }

  /** As many as there are places in the report where a test failed. */
  lemma {:induction false} FailuresAreCounted(results: seq<Result>, places: set<nat>)
    requires places == set i: nat | i < |results| && results[i].failed
    ensures |Failures(results)| == |places|
  {
    if results != [] {
      var later := set i: nat | i < |results[1..]| && results[1..][i].failed;
      FailuresAreCounted(results[1..], later);
      var moved := set i | i in later :: i + 1;
      MovedBack(later, moved);
      PlacesByHead(results, places, later, moved);
    }
  }

  lemma PlacesByHead(results: seq<Result>, places: set<nat>, later: set<nat>, moved: set<nat>)
    requires results != [] && places == set i: nat | i < |results| && results[i].failed
    requires later == set i: nat | i < |results[1..]| && results[1..][i].failed
    requires moved == set i | i in later :: i + 1
    ensures places == (if results[0].failed then {0} else {}) + moved && 0 !in moved
  {
    forall i: nat | i > 0 ensures i in places <==> i in moved {
      if i < |results| { assert results[i] == results[1..][i - 1]; }
      if i in places { assert i - 1 in later; }
    }
    assert 0 in places <==> results[0].failed;
  }

  lemma {:induction false} MovedBack(places: set<nat>, moved: set<nat>)
    requires moved == set i | i in places :: i + 1
    ensures |moved| == |places|
    decreases |places|
  {
    if places != {} {
      var i :| i in places;
      var rest := set j | j in places - {i} :: j + 1;
      MovedBack(places - {i}, rest);
      assert moved == rest + {i + 1} by {
        forall m | m in moved ensures m in rest + {i + 1} {
          var j :| j in places && m == j + 1;
          assert j == i || j in places - {i};
        }
      }
    }
  }

  /** The list names a test by its describe names and title, with ` > ` between each two. */
  lemma ListedByFullName(file: string, describes: seq<string>, title: string, failed: bool)
    ensures var result, path := Result(file, describes + [title], failed), Join(describes, " > ");
            IsListed([Listed(file, if describes == [] then title else path + " > " + title)], result)
  {
    var path, name := describes + [title], Join(describes + [title], " > ");
    if describes == [] {
      assert path == [title];
    } else {
      JoinOneMore(describes, title, " > ");
    }
    var entry := Listed(file, name);
    assert entry in [entry];
  }

  /** A key says which test it is of, because no path holds the separator. */
  lemma KeyIsInjective(file: string, name: string, otherFile: string, otherName: string)
    requires NUL !in file && NUL !in otherFile && KeyOf(file, name) == KeyOf(otherFile, otherName)
    ensures file == otherFile && name == otherName
  {
    NulEndsFile(file, name);
    NulEndsFile(otherFile, otherName);
  }

  function BeforeNul(s: string): string {
    if s == "" || s[0] == NUL then "" else [s[0]] + BeforeNul(s[1..])
  }

  lemma {:induction false} NulEndsFile(file: string, name: string)
    requires NUL !in file
    ensures BeforeNul(KeyOf(file, name)) == file && KeyOf(file, name)[|file| + 1..] == name
  {
    if file != "" {
      NulEndsFile(file[1..], name);
      assert KeyOf(file, name)[1..] == KeyOf(file[1..], name);
    }
  }

  /** The decision. `rerun` is what the rerun of the listed files leaves, if it comes to that. */
  method Decide(status: int, listed: seq<Listed>, results: seq<Result>, summary: Summary, rerun: Rerun)
    returns (verdict: Verdict)
    requires forall entry | entry in listed :: NUL !in entry.file
    requires forall result | result in results || result in rerun.results :: NUL !in result.file
    ensures verdict == Green <==> status == 0
    ensures verdict == Rescued <==> status != 0 && Excused(listed, results, summary, rerun)
  {
    if status == 0 { return Green; }
    var listedKeys: set<string> := set entry | entry in listed :: KeyOf(entry.file, entry.test);
    var failures := Failures(results);
    forall result | result in results ensures ResultKey(result) in listedKeys <==> IsListed(listed, result) {
      if ResultKey(result) in listedKeys {
        var entry :| entry in listed && KeyOf(entry.file, entry.test) == ResultKey(result);
        KeyIsInjective(entry.file, entry.test, result.file, NameOf(result));
      }
    }
    if |failures| == 0 {
      forall result | result in results ensures !result.failed { assert result !in failures; }
      return Red;
    }
    assert failures[0] in failures;
    if summary.errors > 0 || summary.fail != |failures| { return Red; }
    for i := 0 to |failures|
      invariant forall k | 0 <= k < i :: IsListed(listed, failures[k])
    {
      assert failures[i] in failures;
      if ResultKey(failures[i]) !in listedKeys { return Red; }
    }
    if !rerun.ledgerWritten { return Red; }
    if rerun.exit != 0 { return Red; }
    var passed: set<string> := set result | result in rerun.results && !result.failed :: ResultKey(result);
    for i := 0 to |failures|
      invariant forall k | 0 <= k < i :: PassesIn(rerun.results, failures[k])
    {
      assert failures[i] in failures;
      PassedKeys(rerun.results, failures[i]);
      if ResultKey(failures[i]) !in passed { return Red; }
    }
    return Rescued;
  }

  lemma PassedKeys(rerun: seq<Result>, test: Result)
    requires NUL !in test.file && forall result | result in rerun :: NUL !in result.file
    ensures (exists result :: result in rerun && !result.failed && ResultKey(result) == ResultKey(test)) <==>
            PassesIn(rerun, test)
  {
    forall result | result in rerun && ResultKey(result) == ResultKey(test)
      ensures result.file == test.file && NameOf(result) == NameOf(test)
    {
      KeyIsInjective(result.file, NameOf(result), test.file, NameOf(test));
    }
  }

  /** By file and full name. */
  ghost predicate IsListed(listed: seq<Listed>, test: Result) {
    exists entry :: entry in listed && entry.file == test.file && entry.test == NameOf(test)
  }

  ghost predicate PassesIn(rerun: seq<Result>, test: Result) {
    exists result :: result in rerun && !result.failed && result.file == test.file && NameOf(result) == NameOf(test)
  }

  /** Some test failed; Bun counted the failures the report names and no error outside them; every one of them is
      listed; the rerun wrote its ledger and succeeded, and every one of them passed in it. */
  ghost predicate Excused(listed: seq<Listed>, results: seq<Result>, summary: Summary, rerun: Rerun) {
    && (exists result :: result in results && result.failed)
    && summary.errors == 0 && summary.fail == |Failures(results)|
    && (forall result | result in results && result.failed :: IsListed(listed, result))
    && rerun.ledgerWritten && rerun.exit == 0
    && (forall result | result in results && result.failed :: PassesIn(rerun.results, result))
  }

  /** From report to report: in a rescued tier, every test the first report shows failing is listed by file and full
      name, and the rerun's report shows it without a failure. */
  lemma RescueExcusesEveryFailure(listed: seq<Listed>, first: seq<Node>, summary: Summary, rerun: Rerun,
                                  second: seq<Node>, test: Result)
    requires Excused(listed, Steps(EMPTY, RenderAll(first)).results, summary, rerun)
    requires rerun.results == Steps(EMPTY, RenderAll(second)).results
    requires test in AllTests(first, []) && test.failed
    ensures IsListed(listed, test)
    ensures exists again ::
              again in AllTests(second, []) && !again.failed && again.file == test.file && NameOf(again) == NameOf(test)
  {
    ReaderYieldsTests(first);
    ReaderYieldsTests(second);
    assert PassesIn(rerun.results, test);
  }

  /** The same from text to text, for reports whose attributes read right. */
  lemma RescueExcusesWrittenFailure(listed: seq<Listed>, first: seq<Element>, summary: Summary, rerun: Rerun,
                                    second: seq<Element>, test: Result)
    requires AreWritten(first) && AreWritten(second) && AllReadRight(first) && AllReadRight(second)
    requires Excused(listed, Steps(EMPTY, AllTagsOf(first)).results, summary, rerun)
    requires rerun.results == Steps(EMPTY, AllTagsOf(second)).results
    requires test in AllTests(NodesOf(first), []) && test.failed
    ensures IsListed(listed, test)
    ensures exists again ::
              again in AllTests(NodesOf(second), []) && !again.failed && again.file == test.file
              && NameOf(again) == NameOf(test)
  {
    ReportIsRead(first);
    ReportIsRead(second);
    RescueExcusesEveryFailure(listed, NodesOf(first), summary, rerun, NodesOf(second), test);
  }
}
