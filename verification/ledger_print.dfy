/** What a printed ledger says, read off its text: the counts, the lines and the totals of every record, in their
    places. */
module LedgerPrint {
  import opened Lcov
  import opened LcovText
  import opened Options
  import opened Text

  // ----- counting in a text -----

  /** How many lines give the count of a source line. */
  function Listed(text: seq<string>): nat {
    if text == [] then 0 else (if ReadLine(text[0]).DA? then 1 else 0) + Listed(text[1..])
  }

  /** How many of them give a positive count. */
  function Hit(text: seq<string>): nat {
    if text == [] then 0
    else (if ReadLine(text[0]).DA? && ReadLine(text[0]).hits > 0 then 1 else 0) + Hit(text[1..])
  }

  lemma {:induction false} CountsAdd(a: seq<string>, b: seq<string>)
    ensures Listed(a + b) == Listed(a) + Listed(b) && Hit(a + b) == Hit(a) + Hit(b)
    decreases |a|
  {
    if a == [] {
      assert a + b == b;
    } else {
      assert (a + b)[1..] == a[1..] + b;
      CountsAdd(a[1..], b);
    }
  }

  lemma {:induction false} NothingCounted(text: seq<string>)
    requires forall k | 0 <= k < |text| :: !ReadLine(text[k]).DA?
    ensures Listed(text) == 0 && Hit(text) == 0
  {
    if text != [] { NothingCounted(text[1..]); }
  }

  lemma {:induction false} LinesCounted(lines: map<nat, nat>, numbers: seq<nat>, printed: seq<string>)
    requires forall n | n in numbers :: n in lines
    requires printed == PrintLines(lines, numbers)
    ensures |printed| == |numbers| == Listed(printed) && Hit(printed) == HitCount(lines, numbers)
    ensures forall k | 0 <= k < |numbers| :: ReadLine(printed[k]) == DA(numbers[k], lines[numbers[k]])
  {
    if numbers != [] {
      ReadsHits(numbers[0], lines[numbers[0]]);
      LinesCounted(lines, numbers[1..], printed[1..]);
    }
  }

  // ----- one record -----

  /** The total a line gives after a prefix of three characters. */
  function TotalOn(line: string, prefix: string): Option<nat> {
    if |prefix| == 3 && StartsWith(line, prefix) then Number(line[3..]) else None
  }

  /** A record's text, line by line: the file, its function counts, its lines in ascending order with their counts, how
      many lines the text lists, and how many of those it gives a positive count. */
  ghost predicate SaysRecord(text: seq<string>, file: string, record: Record) {
    && |text| == |record.lines| + 7
    && text[0] == "TN:" && text[1] == "SF:" + file
    && ReadLine(text[2]) == FNF(record.fnf) && ReadLine(text[3]) == FNH(record.fnh)
    && SaysLines(text[4..|text| - 3], record.lines)
    && TotalOn(text[|text| - 3], "LF:") == Some(Listed(text))
    && TotalOn(text[|text| - 2], "LH:") == Some(Hit(text))
    && text[|text| - 1] == "end_of_record"
  }

  /** Exactly these lines and counts, by ascending number. */
  ghost predicate SaysLines(text: seq<string>, lines: map<nat, nat>) {
    && (forall k | 0 <= k < |text| :: SaysLine(text[k], lines))
    && (forall i, j | 0 <= i < j < |text| && ReadLine(text[i]).DA? && ReadLine(text[j]).DA? ::
          ReadLine(text[i]).number < ReadLine(text[j]).number)
    && |text| == |lines|
  }

  predicate SaysLine(text: string, lines: map<nat, nat>) {
    var line := ReadLine(text);
    line.DA? && line.number in lines && lines[line.number] == line.hits
  }

  lemma LinesAreSaid(lines: map<nat, nat>, numbers: seq<nat>, printed: seq<string>, says: bool)
    requires Increases(numbers) && |numbers| == |printed| == |lines| && forall n | n in numbers :: n in lines
    requires forall k | 0 <= k < |numbers| :: ReadLine(printed[k]) == DA(numbers[k], lines[numbers[k]])
    requires says == SaysLines(printed, lines)
    ensures says
  {}

  lemma ReadsTotal(prefix: string, n: nat)
    requires |prefix| == 3 && prefix[0] == 'L'
    ensures TotalOn(prefix + Decimal(n), prefix) == Some(n) && !ReadLine(prefix + Decimal(n)).DA?
  {
    NumberOfDecimal(n);
    var line := prefix + Decimal(n);
    assert line[..3] == prefix && line[3..] == Decimal(n) && line[0] == 'L';
    ReadsNothing(line);
  }

  ghost function Head(file: string, record: Record): seq<string> {
    ["TN:", "SF:" + file, "FNF:" + Decimal(record.fnf), "FNH:" + Decimal(record.fnh)]
  }

  ghost function Tail(listed: nat, hit: nat): seq<string> {
    ["LF:" + Decimal(listed), "LH:" + Decimal(hit), "end_of_record"]
  }

  lemma RecordHasParts(file: string, record: Record, numbers: seq<nat>)
    requires numbers == Ascending(record.lines.Keys)
    ensures PrintRecord(file, record) ==
            Head(file, record) + PrintLines(record.lines, numbers) + Tail(|numbers|, HitCount(record.lines, numbers))
  {}

  ghost predicate HeadSaid(head: seq<string>, file: string, record: Record) {
    && |head| == 4 && head[0] == "TN:" && head[1] == "SF:" + file
    && ReadLine(head[2]) == FNF(record.fnf) && ReadLine(head[3]) == FNH(record.fnh)
    && Listed(head) == 0 && Hit(head) == 0
  }

  lemma HeadSays(file: string, record: Record, head: seq<string>, said: bool)
    requires head == Head(file, record) && said == HeadSaid(head, file, record)
    ensures said
  {
    ReadsNothing("TN:");
    ReadsFile(file);
    ReadsCount("FNF:", record.fnf);
    ReadsCount("FNH:", record.fnh);
    NothingCounted(head);
  }

  ghost predicate TailSaid(tail: seq<string>, listed: nat, hit: nat) {
    && |tail| == 3 && TotalOn(tail[0], "LF:") == Some(listed) && TotalOn(tail[1], "LH:") == Some(hit)
    && tail[2] == "end_of_record" && Listed(tail) == 0 && Hit(tail) == 0
  }

  lemma TailSays(listed: nat, hit: nat, tail: seq<string>, said: bool)
    requires tail == Tail(listed, hit) && said == TailSaid(tail, listed, hit)
    ensures said
  {
    ReadsTotal("LF:", listed);
    ReadsTotal("LH:", hit);
    ReadsEnd();
    NothingCounted(tail);
  }

  lemma PartsInPlace(head: seq<string>, lines: seq<string>, tail: seq<string>, text: seq<string>)
    requires text == head + lines + tail && |head| == 4 && |tail| == 3
    ensures text[0] == head[0] && text[1] == head[1] && text[2] == head[2] && text[3] == head[3]
    ensures text[4..|text| - 3] == lines
    ensures text[|text| - 3] == tail[0] && text[|text| - 2] == tail[1] && text[|text| - 1] == tail[2]
  {}

  lemma PartsCounted(head: seq<string>, lines: seq<string>, tail: seq<string>, text: seq<string>)
    requires text == head + lines + tail
    ensures Listed(text) == Listed(head) + Listed(lines) + Listed(tail)
            && Hit(text) == Hit(head) + Hit(lines) + Hit(tail)
  {
    CountsAdd(head + lines, tail);
    CountsAdd(head, lines);
  }

  /** Every printed record says what it is the record of. */
  lemma RecordIsSaid(file: string, record: Record)
    ensures SaysRecord(PrintRecord(file, record), file, record)
  {
    var numbers := Ascending(record.lines.Keys);
    RecordHasParts(file, record, numbers);
    RecordSays(file, record, numbers, HitCount(record.lines, numbers), PrintRecord(file, record),
               SaysRecord(PrintRecord(file, record), file, record));
  }

  lemma RecordSays(file: string, record: Record, numbers: seq<nat>, hit: nat, text: seq<string>, says: bool)
    requires numbers == Ascending(record.lines.Keys) && hit == HitCount(record.lines, numbers)
    requires text == Head(file, record) + PrintLines(record.lines, numbers) + Tail(|numbers|, hit)
    requires says == SaysRecord(text, file, record)
    ensures says
  {
    var head, lines, tail := Head(file, record), PrintLines(record.lines, numbers), Tail(|numbers|, hit);
    var headSaid, tailSaid := HeadSaid(head, file, record), TailSaid(tail, |numbers|, hit);
    var linesSaid := SaysLines(lines, record.lines);
    HeadSays(file, record, head, headSaid);
    TailSays(|numbers|, hit, tail, tailSaid);
    LinesCounted(record.lines, numbers, lines);
    LinesAreSaid(record.lines, numbers, lines, linesSaid);
    PartsSay(head, lines, tail, text, file, record, |numbers|, hit, headSaid && tailSaid && linesSaid, says);
  }

  lemma PartsSay(head: seq<string>, lines: seq<string>, tail: seq<string>, text: seq<string>, file: string,
                 record: Record, listed: nat, hit: nat, said: bool, says: bool)
    requires said && said == (HeadSaid(head, file, record) && TailSaid(tail, listed, hit)
             && SaysLines(lines, record.lines))
    requires listed == Listed(lines) && hit == Hit(lines) && text == head + lines + tail
    requires says == SaysRecord(text, file, record)
    ensures says
  {
    PartsInPlace(head, lines, tail, text);
    PartsCounted(head, lines, tail, text);
  }

  // ----- the whole text -----

  /** The lines of a ledger's text are those of its records, one record after the other. */
  ghost predicate SaysLedger(text: seq<string>, ledger: Ledger)
    decreases |ledger|
  {
    if ledger == [] then text == []
    else exists n :: 0 <= n <= |text| && SaysRecord(text[..n], ledger[0].file, ledger[0].record)
                     && SaysLedger(text[n..], ledger[1..])
  }

  lemma {:induction false} LedgerIsSaid(ledger: Ledger)
    ensures SaysLedger(PrintLedger(ledger), ledger)
    decreases |ledger|
  {
    if ledger != [] {
      var first, rest := PrintRecord(ledger[0].file, ledger[0].record), PrintLedger(ledger[1..]);
      var text := PrintLedger(ledger);
      RecordIsSaid(ledger[0].file, ledger[0].record);
      LedgerIsSaid(ledger[1..]);
      assert text[..|first|] == first && text[|first|..] == rest;
    }
  }

  /** And the text is those lines, each closed by a newline. */
  lemma TextIsSaid(ledger: Ledger)
    requires ledger != [] && OneLine(ledger)
    ensures exists lines :: SaysLedger(lines, ledger) && Split(Print(ledger), '\n') == lines + [""]
  {
    LedgerIsSaid(ledger);
    PrintedLedgerIsLines(ledger);
    SplitOfJoin(PrintLedger(ledger));
  }
}
