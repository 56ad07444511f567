/** Coverage ledgers: parsed, merged with a rerun's, and printed again. */
module Lcov {
  import opened Options

  /** Line numbers to hit counts, and the function counts of one file. */
  datatype Record = Record(lines: map<nat, nat>, fnf: nat, fnh: nat)

  datatype Entry = Entry(file: string, record: Record)

  /** The records in the order their files were first met; a file occurs once. */
  type Ledger = seq<Entry>

  const BLANK := Record(map[], 0, 0)

  ghost predicate Distinct(ledger: Ledger) {
    forall i, j | 0 <= i < j < |ledger| :: ledger[i].file != ledger[j].file
  }

  predicate Has(ledger: Ledger, file: string) {
    exists i :: 0 <= i < |ledger| && ledger[i].file == file
  }

  function Get(ledger: Ledger, file: string): Option<Record> {
    if ledger == [] then None
    else if ledger[0].file == file then Some(ledger[0].record)
    else Get(ledger[1..], file)
  }

  /** Replaces the record of a known file where it stands, or adds the file at the end. */
  function Put(ledger: Ledger, file: string, record: Record): Ledger {
    if ledger == [] then [Entry(file, record)]
    else if ledger[0].file == file then [Entry(file, record)] + ledger[1..]
    else [ledger[0]] + Put(ledger[1..], file, record)
  }

  lemma {:induction false} GetAfterPut(ledger: Ledger, file: string, record: Record, other: string)
    ensures Get(Put(ledger, file, record), other) == if other == file then Some(record) else Get(ledger, other)
  {
    if ledger != [] && ledger[0].file != file { GetAfterPut(ledger[1..], file, record, other); }
  }

  lemma {:induction false} PutKeepsDistinct(ledger: Ledger, file: string, record: Record)
    requires Distinct(ledger)
    ensures Distinct(Put(ledger, file, record))
    ensures forall other :: Has(Put(ledger, file, record), other) <==> Has(ledger, other) || other == file
  {
    var longer := Put(ledger, file, record);
    if ledger == [] {
      assert longer[0].file == file;
    } else if ledger[0].file == file {
      forall i | 0 <= i < |ledger| ensures longer[i].file == ledger[i].file {}
    } else {
      PutKeepsDistinct(ledger[1..], file, record);
      var rest := Put(ledger[1..], file, record);
      HasByHead(ledger);
      HasByHead(longer);
      DistinctHead(ledger);
      assert longer[1..] == rest && !Has(rest, ledger[0].file);
      forall i, j | 0 <= i < j < |longer| ensures longer[i].file != longer[j].file {
        assert rest[j - 1] == longer[j];
        if i > 0 { assert rest[i - 1] == longer[i]; }
      }
    }
  }

  lemma DistinctHead(ledger: Ledger)
    requires Distinct(ledger) && ledger != []
    ensures Distinct(ledger[1..]) && !Has(ledger[1..], ledger[0].file)
  {
    forall i | 0 <= i < |ledger[1..]| ensures ledger[1..][i].file != ledger[0].file {
      assert ledger[1..][i] == ledger[i + 1];
    }
  }

  lemma HasByHead(ledger: Ledger)
    requires ledger != []
    ensures forall other :: Has(ledger, other) <==> ledger[0].file == other || Has(ledger[1..], other)
  {
    forall other | Has(ledger[1..], other) ensures Has(ledger, other) {
      var i :| 0 <= i < |ledger[1..]| && ledger[1..][i].file == other;
      assert ledger[i + 1].file == other;
    }
    forall other | Has(ledger, other) && ledger[0].file != other ensures Has(ledger[1..], other) {
      var i :| 0 <= i < |ledger| && ledger[i].file == other;
      assert ledger[1..][i - 1].file == other;
    }
  }

  lemma {:induction false} GetHas(ledger: Ledger, file: string)
    ensures Get(ledger, file).Some? <==> Has(ledger, file)
  {
    if ledger != [] {
      GetHas(ledger[1..], file);
      HasByHead(ledger);
    }
  }

  // ----- merging -----

  function Max(a: nat, b: nat): nat { if a > b then a else b }

  function Min(a: nat, b: nat): nat { if a < b then a else b }

  /** The lines with a positive count. */
  function HitLines(lines: map<nat, nat>): map<nat, nat> {
    map number | number in lines && lines[number] > 0 :: lines[number]
  }

  function RaisedLines(first: map<nat, nat>, rerun: map<nat, nat>): map<nat, nat> {
    map number | number in first.Keys + HitLines(rerun).Keys ::
      Max(if number in first then first[number] else 0, if number in rerun then rerun[number] else 0)
  }

  function MergeRecord(first: Record, rerun: Record): Record {
    Record(RaisedLines(first.lines, rerun.lines), first.fnf, Min(first.fnf, Max(first.fnh, rerun.fnh)))
  }

  function MergeEntry(ledger: Ledger, entry: Entry): Ledger {
    var known := Get(ledger, entry.file);
    Put(ledger, entry.file,
        if known.Some? then MergeRecord(known.value, entry.record)
          else entry.record.(lines := HitLines(entry.record.lines)))
  }

  function Merge(first: Ledger, second: Ledger): Ledger
    decreases |second|
  {
    if second == [] then first else Merge(MergeEntry(first, second[0]), second[1..])
  }

  /** The count a ledger gives for one line of one file, if it lists the line. */
  function Hits(ledger: Ledger, file: string, number: nat): Option<nat> {
    var record := Get(ledger, file);
    if record.Some? && number in record.value.lines then Some(record.value.lines[number]) else None
  }

  /** Lines come from the first run: a line of it stays with the larger count, and a line only the rerun lists is added
      when the rerun hit it. */
  function Combined(first: Option<nat>, rerun: Option<nat>): Option<nat> {
    match (first, rerun)
    case (Some(a), Some(b)) => Some(Max(a, b))
    case (Some(a), None) => Some(a)
    case (None, Some(b)) => if b > 0 then Some(b) else None
    case (None, None) => None
  }

  lemma MergedEntryLines(ledger: Ledger, entry: Entry, file: string, number: nat)
    ensures Hits(MergeEntry(ledger, entry), file, number)
            == if file == entry.file then Combined(Hits(ledger, file, number), Hits([entry], file, number))
                else Hits(ledger, file, number)
  {
    var known := Get(ledger, entry.file);
    GetAfterPut(ledger, entry.file,
                if known.Some? then MergeRecord(known.value, entry.record)
                  else entry.record.(lines := HitLines(entry.record.lines)), file);
  }

  lemma {:induction false} GetMissing(ledger: Ledger, file: string)
    requires !Has(ledger, file)
    ensures Get(ledger, file) == None
  {
    GetHas(ledger, file);
  }

  /** The merged ledger holds precisely the first run's lines plus the lines the rerun hit, with the larger count. */
  lemma {:induction false} MergedLines(first: Ledger, second: Ledger, file: string, number: nat)
    requires Distinct(second)
    ensures Hits(Merge(first, second), file, number) == Combined(Hits(first, file, number), Hits(second, file, number))
    decreases |second|
  {
    if second != [] {
      MergedEntryLines(first, second[0], file, number);
      MergedLines(MergeEntry(first, second[0]), second[1..], file, number);
      DistinctHead(second);
      if second[0].file == file { GetMissing(second[1..], file); }
    }
  }

  /** A missed line is still missed after the merge exactly when the rerun has no hit for it. */
  lemma MissedStaysMissed(first: Ledger, second: Ledger, file: string, number: nat)
    requires Distinct(second) && Hits(first, file, number) == Some(0)
    ensures Hits(Merge(first, second), file, number) == Some(0) <==> Hits(second, file, number) in {None, Some(0)}
  {
    MergedLines(first, second, file, number);
  }

  /** Merging the same rerun again changes no line. */
  lemma SameRerunTwice(first: Ledger, second: Ledger, file: string, number: nat)
    requires Distinct(second)
    ensures Hits(Merge(Merge(first, second), second), file, number) == Hits(Merge(first, second), file, number)
  {
    MergedLines(first, second, file, number);
    MergedLines(Merge(first, second), second, file, number);
  }

  /** Two reruns may be merged in either order: the lines are the same. */
  lemma RerunsInEitherOrder(first: Ledger, second: Ledger, third: Ledger, file: string, number: nat)
    requires Distinct(second) && Distinct(third)
    ensures Hits(Merge(Merge(first, second), third), file, number) ==
            Hits(Merge(Merge(first, third), second), file, number)
  {
    MergedLines(first, second, file, number);
    MergedLines(first, third, file, number);
    MergedLines(Merge(first, second), third, file, number);
    MergedLines(Merge(first, third), second, file, number);
  }

  /** What merging makes of the records of one file. */
  function MergedRecord(first: Option<Record>, rerun: Option<Record>): Option<Record> {
    match (first, rerun)
    case (Some(a), Some(b)) => Some(MergeRecord(a, b))
    case (None, Some(b)) => Some(b.(lines := HitLines(b.lines)))
    case (_, None) => first
  }

  lemma {:induction false} RecordAfterMerge(first: Ledger, second: Ledger, file: string)
    requires Distinct(second)
    ensures Get(Merge(first, second), file) == MergedRecord(Get(first, file), Get(second, file))
    decreases |second|
  {
    if second != [] {
      var known := Get(first, second[0].file);
      GetAfterPut(first, second[0].file,
                  if known.Some? then MergeRecord(known.value, second[0].record)
                    else second[0].record.(lines := HitLines(second[0].record.lines)), file);
      RecordAfterMerge(MergeEntry(first, second[0]), second[1..], file);
      DistinctHead(second);
      if second[0].file == file { GetMissing(second[1..], file); }
    }
  }

  lemma MergeRecordTwice(first: Record, rerun: Record)
    ensures MergeRecord(MergeRecord(first, rerun), rerun) == MergeRecord(first, rerun)
    ensures MergeRecord(rerun.(lines := HitLines(rerun.lines)), rerun) == rerun.(lines := HitLines(rerun.lines))
            <==> rerun.fnh <= rerun.fnf
  {
    var once := RaisedLines(first.lines, rerun.lines);
    assert RaisedLines(once, rerun.lines) == once;
    assert RaisedLines(HitLines(rerun.lines), rerun.lines) == HitLines(rerun.lines);
  }

  /** Merging the same rerun twice equals merging it once, record by record, except for a file only the rerun knows
      that claims more functions hit than found. */
  lemma SameRerunTwiceWhole(first: Ledger, second: Ledger, file: string)
    requires Distinct(second)
    ensures Get(Merge(Merge(first, second), second), file) == Get(Merge(first, second), file) <==>
            (Get(first, file).None? && Get(second, file).Some? ==>
                Get(second, file).value.fnh <= Get(second, file).value.fnf)
  {
    RecordAfterMerge(first, second, file);
    RecordAfterMerge(Merge(first, second), second, file);
    if Get(second, file).Some? {
      MergeRecordTwice(if Get(first, file).Some? then Get(first, file).value else BLANK, Get(second, file).value);
    }
  }

  /** It is the case: a rerun that names a file for the first time, with two functions hit of one found. The second
      merge caps the claim. */
  lemma OverclaimIsCappedLater(file: string)
    ensures var rerun := [Entry(file, Record(map[], 1, 2))];
            && Get(Merge([], rerun), file) == Some(Record(map[], 1, 2))
            && Get(Merge(Merge([], rerun), rerun), file) == Some(Record(map[], 1, 1))
  {
    var rerun := [Entry(file, Record(map[], 1, 2))];
    RecordAfterMerge([], rerun, file);
    RecordAfterMerge(Merge([], rerun), rerun, file);
    assert HitLines(map[]) == map[] && RaisedLines(map[], map[]) == map[];
  }

  lemma {:induction false} MergeKeepsDistinct(first: Ledger, second: Ledger)
    requires Distinct(first)
    ensures Distinct(Merge(first, second))
    ensures forall file :: Has(Merge(first, second), file) <==> Has(first, file) || Has(second, file)
    decreases |second|
  {
    if second != [] {
      var known := Get(first, second[0].file);
      PutKeepsDistinct(first, second[0].file,
                       if known.Some? then MergeRecord(known.value, second[0].record)
                         else second[0].record.(lines := HitLines(second[0].record.lines)));
      MergeKeepsDistinct(MergeEntry(first, second[0]), second[1..]);
      HasByHead(second);
    }
  }

  /** A file of both runs keeps the first's number of functions, and has as many of them hit as the run that hit more
      says, but never more than there are. */
  lemma MergedFunctions(first: Ledger, second: Ledger, file: string)
    requires Distinct(second) && Get(first, file).Some? && Get(second, file).Some?
    ensures var a, b, m := Get(first, file).value, Get(second, file).value, Get(Merge(first, second), file);
            && m.Some? && m.value.fnf == a.fnf && m.value.fnh <= a.fnf
            && (m.value.fnh < a.fnf ==> m.value.fnh in {a.fnh, b.fnh} && a.fnh <= m.value.fnh && b.fnh <= m.value.fnh)
            && (m.value.fnh == a.fnf ==> a.fnf <= a.fnh || a.fnf <= b.fnh)
  {
    RecordAfterMerge(first, second, file);
  }

  /** A file of one run has that run's functions. */
  lemma OneRunsFunctions(first: Ledger, second: Ledger, file: string)
    requires Distinct(second) && (Get(first, file).None? || Get(second, file).None?)
    ensures var a, b, m := Get(first, file), Get(second, file), Get(Merge(first, second), file);
            && (m.Some? <==> a.Some? || b.Some?)
            && (a.Some? ==> m.value.fnf == a.value.fnf && m.value.fnh == a.value.fnh)
            && (b.Some? ==> m.value.fnf == b.value.fnf && m.value.fnh == b.value.fnh)
  {
    RecordAfterMerge(first, second, file);
  }

  function Files(ledger: Ledger): seq<string> {
    if ledger == [] then [] else [ledger[0].file] + Files(ledger[1..])
  }

  /** The files of a rerun that the first run does not know. */
  function NewFiles(first: Ledger, second: Ledger): seq<string> {
    if second == [] then []
    else (if Has(first, second[0].file) then [] else [second[0].file]) + NewFiles(first, second[1..])
  }

  lemma {:induction false} FilesAfterPut(ledger: Ledger, file: string, record: Record)
    ensures Files(Put(ledger, file, record)) == Files(ledger) + if Has(ledger, file) then [] else [file]
  {
    if ledger != [] {
      HasByHead(ledger);
      var longer := Put(ledger, file, record);
      if ledger[0].file == file {
        assert longer[1..] == ledger[1..];
      } else {
        FilesAfterPut(ledger[1..], file, record);
        assert longer[1..] == Put(ledger[1..], file, record);
      }
    }
  }

  lemma {:induction false} NewFilesStayNew(first: Ledger, second: Ledger, file: string, record: Record)
    requires !Has(second, file)
    ensures NewFiles(Put(first, file, record), second) == NewFiles(first, second)
  {
    if second != [] {
      HasByHead(second);
      GetHas(first, second[0].file);
      GetHas(Put(first, file, record), second[0].file);
      GetAfterPut(first, file, record, second[0].file);
      NewFilesStayNew(first, second[1..], file, record);
    }
  }

  /** The merged ledger lists the first run's files in their order, and after them the rerun's new ones in theirs. */
  lemma {:induction false} MergeKeepsOrder(first: Ledger, second: Ledger)
    requires Distinct(second)
    ensures Files(Merge(first, second)) == Files(first) + NewFiles(first, second)
    decreases |second|
  {
    if second == [] {
      assert Files(first) + [] == Files(first);
    } else {
      var file, next := second[0].file, MergeEntry(first, second[0]);
      var known := Get(first, file);
      var record :=
        if known.Some? then MergeRecord(known.value, second[0].record)
        else second[0].record.(lines := HitLines(second[0].record.lines));
      DistinctHead(second);
      FilesAfterPut(first, file, record);
      NewFilesStayNew(first, second[1..], file, record);
      MergeKeepsOrder(next, second[1..]);
      OrderOnwards(Files(first), if Has(first, file) then [] else [file], NewFiles(first, second[1..]));
    }
  }

  lemma OrderOnwards(a: seq<string>, b: seq<string>, c: seq<string>)
    ensures (a + b) + c == a + (b + c)
  {}
}
