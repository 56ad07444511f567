/** What a parsed ledger says of a file, read off the lines of the text without a parser's state. */
module LedgerRead {
  import opened Lcov
  import opened LcovText
  import opened Options
  import opened Text

  /** What a record says: a line's hits, and how many functions were found and hit. */
  datatype Field = LineHits(number: nat) | Found | Hit

  function ReadLines(raw: seq<string>): (lines: seq<Line>)
    ensures |lines| == |raw| && forall k | 0 <= k < |raw| :: lines[k] == ReadLine(raw[k])
  {
    seq(|raw|, k requires 0 <= k < |raw| => ReadLine(raw[k]))
  }

  predicate Mentions(line: Line, field: Field) {
    match field
    case LineHits(number) => line.DA? && line.number == number
    case Found => line.FNF?
    case Hit => line.FNH?
  }

  predicate States(line: Line, field: Field, value: nat) {
    match field
    case LineHits(number) => line == DA(number, value)
    case Found => line == FNF(value)
    case Hit => line == FNH(value)
  }

  /** A place is under a file when its line is the last that opened a record and no end of one came between. */
  predicate OpenedAt(lines: seq<Line>, at: nat, file: string, k: nat) {
    k < at <= |lines| && lines[k] == SF(file) && forall j | k < j < at :: !lines[j].SF? && !lines[j].End?
  }

  ghost predicate Under(lines: seq<Line>, at: nat, file: string) {
    exists k: nat :: OpenedAt(lines, at, file, k)
  }

  /** This place under the file states the value, and after it the file is neither opened again nor says otherwise. */
  ghost predicate SaidAt(lines: seq<Line>, file: string, field: Field, value: nat, at: nat) {
    && at < |lines| && States(lines[at], field, value) && Under(lines, at, file)
    && forall j | at < j < |lines| :: lines[j] != SF(file) && !(Mentions(lines[j], field) && Under(lines, j, file))
  }

  ghost predicate Said(lines: seq<Line>, file: string, field: Field, value: nat) {
    exists at: nat :: SaidAt(lines, file, field, value, at)
  }

  function CountOf(ledger: Ledger, file: string, field: Field): nat {
    var record := Get(ledger, file);
    if record.None? || field.LineHits? then 0 else if field.Found? then record.value.fnf else record.value.fnh
  }

  /** The parser's state says of one file what the lines so far do. */
  ghost predicate Agrees(p: Parser, lines: seq<Line>, file: string) {
    && (p.current == Some(file) <==> Under(lines, |lines|, file))
    && (Get(p.ledger, file).Some? <==> SF(file) in lines)
    && (p.current == Some(file) ==> Get(p.ledger, file).Some?)
  }

  ghost predicate HitsAgree(p: Parser, lines: seq<Line>, file: string, number: nat) {
    forall hits: nat :: Hits(p.ledger, file, number) == Some(hits) <==> Said(lines, file, LineHits(number), hits)
  }

  ghost predicate CountAgrees(p: Parser, lines: seq<Line>, file: string, field: Field) {
    && (forall count | Said(lines, file, field, count) :: CountOf(p.ledger, file, field) == count)
    && (CountOf(p.ledger, file, field) == 0 || Said(lines, file, field, CountOf(p.ledger, file, field)))
  }

  // ----- one more line -----

  lemma UnderEarlier(lines: seq<Line>, line: Line, at: nat, file: string)
    requires at <= |lines|
    ensures Under(lines + [line], at, file) <==> Under(lines, at, file)
  {
    var longer := lines + [line];
    assert forall j | 0 <= j < |lines| :: longer[j] == lines[j];
    if k: nat :| OpenedAt(longer, at, file, k) { assert OpenedAt(lines, at, file, k); }
    if k: nat :| OpenedAt(lines, at, file, k) { assert OpenedAt(longer, at, file, k); }
  }

  lemma UnderNext(lines: seq<Line>, line: Line, file: string)
    ensures Under(lines + [line], |lines| + 1, file) <==>
            line == SF(file) || (!line.SF? && !line.End? && Under(lines, |lines|, file))
  {
    var n, longer := |lines|, lines + [line];
    var m := |longer|;
    assert longer[n] == line && forall j | 0 <= j < n :: longer[j] == lines[j];
    if line == SF(file) { assert OpenedAt(longer, m, file, n); }
    if k: nat :| OpenedAt(lines, n, file, k) && !line.SF? && !line.End? { assert OpenedAt(longer, m, file, k); }
    if Under(longer, m, file) {
      var k: nat :| OpenedAt(longer, m, file, k);
      if k < n { assert OpenedAt(lines, n, file, k); }
    }
  }

  lemma SaidNext(lines: seq<Line>, line: Line, file: string, field: Field, value: nat)
    ensures Said(lines + [line], file, field, value) <==>
            if line == SF(file) then false
            else if Mentions(line, field) && Under(lines, |lines|, file) then States(line, field, value)
            else Said(lines, file, field, value)
  {
    var n, longer := |lines|, lines + [line];
    assert longer[n] == line && forall j | 0 <= j < n :: longer[j] == lines[j];
    forall j | 0 <= j <= n ensures Under(longer, j, file) <==> Under(lines, j, file) {
      UnderEarlier(lines, line, j, file);
    }
    if line != SF(file) && States(line, field, value) && Under(lines, n, file) {
      assert SaidAt(longer, file, field, value, n);
    }
    if at: nat :| SaidAt(lines, file, field, value, at) {
      SaidStill(lines, line, file, field, value, at);
    }
    if at: nat :| SaidAt(longer, file, field, value, at) {
      if at < n { assert SaidAt(lines, file, field, value, at); }
    }
  }

  lemma SaidStill(lines: seq<Line>, line: Line, file: string, field: Field, value: nat, at: nat)
    requires SaidAt(lines, file, field, value, at)
    requires forall j | 0 <= j <= |lines| :: Under(lines + [line], j, file) <==> Under(lines, j, file)
    ensures line != SF(file) && !(Mentions(line, field) && Under(lines, |lines|, file)) ==>
              SaidAt(lines + [line], file, field, value, at)
  {
    var longer := lines + [line];
    assert longer[|lines|] == line && forall j | 0 <= j < |lines| :: longer[j] == lines[j];
  }

  /** What one line makes of one file's record. */
  lemma RecordNext(p: Parser, line: Line, file: string, next: Parser, record: Record)
    requires ParseLine(p, line) == Some(next)
    requires record == (if Get(p.ledger, file).Some? then Get(p.ledger, file).value else BLANK)
    ensures next.current ==
            if line.SF? then Some(line.file) else if line.End? then None else p.current
    ensures Get(next.ledger, file) ==
            if line == SF(file) then Some(BLANK)
            else if p.current != Some(file) then Get(p.ledger, file)
            else
              match line
              case DA(number, hits) => Some(record.(lines := record.lines[number := hits]))
              case FNF(count) => Some(record.(fnf := count))
              case FNH(count) => Some(record.(fnh := count))
              case _ => Get(p.ledger, file)
  {
    match line
    case SF(other) => GetAfterPut(p.ledger, other, BLANK, file);
    case DA(number, hits) =>
      if p.current.Some? {
        GetAfterPut(p.ledger, p.current.value, Current(p).(lines := Current(p).lines[number := hits]), file);
      }
    case FNF(count) =>
      if p.current.Some? { GetAfterPut(p.ledger, p.current.value, Current(p).(fnf := count), file); }
    case FNH(count) =>
      if p.current.Some? { GetAfterPut(p.ledger, p.current.value, Current(p).(fnh := count), file); }
    case _ =>
  }

  function RecordOf(ledger: Ledger, file: string): Record {
    var record := Get(ledger, file); if record.Some? then record.value else BLANK
  }

  lemma LineAgrees(p: Parser, lines: seq<Line>, line: Line, file: string, next: Parser)
    requires Agrees(p, lines, file) && ParseLine(p, line) == Some(next)
    ensures Agrees(next, lines + [line], file)
  {
    UnderNext(lines, line, file);
    RecordNext(p, line, file, next, RecordOf(p.ledger, file));
    assert SF(file) in lines + [line] <==> SF(file) in lines || line == SF(file);
  }

  lemma HitsAgreeNext(p: Parser, lines: seq<Line>, line: Line, file: string, number: nat, next: Parser)
    requires Agrees(p, lines, file) && HitsAgree(p, lines, file, number) && ParseLine(p, line) == Some(next)
    ensures HitsAgree(next, lines + [line], file, number)
  {
    RecordNext(p, line, file, next, RecordOf(p.ledger, file));
    forall hits: nat
      ensures Hits(next.ledger, file, number) == Some(hits) <==> Said(lines + [line], file, LineHits(number), hits)
    {
      SaidNext(lines, line, file, LineHits(number), hits);
    }
  }

  lemma CountAgreesNext(p: Parser, lines: seq<Line>, line: Line, file: string, field: Field, next: Parser)
    requires Agrees(p, lines, file) && CountAgrees(p, lines, file, field) && ParseLine(p, line) == Some(next)
    requires !field.LineHits?
    ensures CountAgrees(next, lines + [line], file, field)
  {
    RecordNext(p, line, file, next, RecordOf(p.ledger, file));
    forall count: nat | Said(lines + [line], file, field, count) ensures CountOf(next.ledger, file, field) == count {
      SaidNext(lines, line, file, field, count);
    }
    SaidNext(lines, line, file, field, CountOf(next.ledger, file, field));
  }

  // ----- the whole text -----

  lemma {:induction false} ParseOneMore(p: Parser, raw: seq<string>, last: string)
    ensures ParseLines(p, raw + [last]) ==
            var before := ParseLines(p, raw);
            if before.Some? then ParseLine(before.value, ReadLine(last)) else None
    decreases |raw|
  {
    var longer := raw + [last];
    if raw == [] {
      assert longer[1..] == [];
    } else {
      assert longer[1..] == raw[1..] + [last];
      var next := ParseLine(p, ReadLine(raw[0]));
      if next.Some? { ParseOneMore(next.value, raw[1..], last); }
    }
  }

  const NOTHING := Parser([], None)

  lemma {:induction false} ParsedAgrees(raw: seq<string>, lines: seq<Line>, file: string, number: nat, p: Parser)
    requires lines == ReadLines(raw) && ParseLines(NOTHING, raw) == Some(p)
    ensures Agrees(p, lines, file) && HitsAgree(p, lines, file, number)
    ensures CountAgrees(p, lines, file, Found) && CountAgrees(p, lines, file, Hit)
    decreases |raw|
  {
    if raw != [] {
      var shorter, last := raw[..|raw| - 1], raw[|raw| - 1];
      assert raw == shorter + [last] && lines == ReadLines(shorter) + [ReadLine(last)];
      ParseOneMore(NOTHING, shorter, last);
      var before := ParseLines(NOTHING, shorter).value;
      ParsedAgrees(shorter, ReadLines(shorter), file, number, before);
      LineAgrees(before, ReadLines(shorter), ReadLine(last), file, p);
      HitsAgreeNext(before, ReadLines(shorter), ReadLine(last), file, number, p);
      CountAgreesNext(before, ReadLines(shorter), ReadLine(last), file, Found, p);
      CountAgreesNext(before, ReadLines(shorter), ReadLine(last), file, Hit, p);
    }
  }

  /** A count that is no number stands inside a record. */
  ghost predicate IsGarbledAt(lines: seq<Line>, at: nat) {
    at < |lines| && lines[at] == Garbled && exists file :: Under(lines, at, file)
  }

  lemma GarbledNext(lines: seq<Line>, line: Line)
    ensures (exists at :: IsGarbledAt(lines + [line], at)) <==>
            (exists at :: IsGarbledAt(lines, at)) || (line == Garbled && exists file :: Under(lines, |lines|, file))
  {
    var longer := lines + [line];
    assert longer[|lines|] == line && forall j | 0 <= j < |lines| :: longer[j] == lines[j];
    forall at: nat, file | at <= |lines| ensures Under(longer, at, file) <==> Under(lines, at, file) {
      UnderEarlier(lines, line, at, file);
    }
    if at: nat :| IsGarbledAt(lines, at) { assert IsGarbledAt(longer, at); }
    if at: nat :| IsGarbledAt(longer, at) { if at < |lines| { assert IsGarbledAt(lines, at); } }
    if line == Garbled && exists file :: Under(lines, |lines|, file) { assert IsGarbledAt(longer, |lines|); }
  }

  /** A text is refused exactly when a garbled count stands inside a record. */
  lemma {:induction false} RefusedExactly(raw: seq<string>)
    ensures ParseLines(NOTHING, raw) == None <==> exists at :: IsGarbledAt(ReadLines(raw), at)
    decreases |raw|
  {
    if raw != [] {
      var shorter, last := raw[..|raw| - 1], raw[|raw| - 1];
      var lines := ReadLines(shorter);
      assert raw == shorter + [last] && ReadLines(raw) == lines + [ReadLine(last)];
      ParseOneMore(NOTHING, shorter, last);
      RefusedExactly(shorter);
      GarbledNext(lines, ReadLine(last));
      if ParseLines(NOTHING, shorter).Some? { InsideRecord(shorter, lines, ParseLines(NOTHING, shorter).value); }
    }
  }

  lemma InsideRecord(raw: seq<string>, lines: seq<Line>, p: Parser)
    requires lines == ReadLines(raw) && ParseLines(NOTHING, raw) == Some(p)
    ensures p.current.Some? <==> exists file :: Under(lines, |lines|, file)
  {
    forall file ensures p.current == Some(file) <==> Under(lines, |lines|, file) {
      ParsedAgrees(raw, lines, file, 0, p);
    }
  }

  /** A ledger holds the files whose records were opened; of each line of a file it holds the last count said since the
      file was last opened, and of its functions likewise, or zero. */
  lemma TextIsRead(text: string, file: string, number: nat, hits: nat)
    requires Parse(text).Some?
    ensures var ledger, lines := Parse(text).value, ReadLines(Split(text, '\n'));
            && (Get(ledger, file).Some? <==> SF(file) in lines)
            && (Hits(ledger, file, number) == Some(hits) <==> Said(lines, file, LineHits(number), hits))
            && (forall field | field in {Found, Hit} ::
                  CountOf(ledger, file, field) == 0 || Said(lines, file, field, CountOf(ledger, file, field)))
            && (forall field, count | field in {Found, Hit} && Said(lines, file, field, count) ::
                  CountOf(ledger, file, field) == count)
  {
    var raw := Split(text, '\n');
    ParsedAgrees(raw, ReadLines(raw), file, number, ParseLines(NOTHING, raw).value);
  }

  // ----- the lines themselves -----

  lemma FileLine(line: string, file: string)
    ensures ReadLine(line) == SF(file) <==> line == "SF:" + file
  {
    if line == "SF:" + file { ReadsFile(file); }
    if StartsWith(line, "SF:") { assert line == "SF:" + line[3..]; }
  }

  lemma FirstLetters(line: string)
    ensures StartsWith(line, "SF:") ==> line[0] == 'S'
    ensures StartsWith(line, "DA:") ==> line[0] == 'D'
    ensures StartsWith(line, "FNF:") ==> line[0] == 'F' && line[2] == 'F'
    ensures StartsWith(line, "FNH:") ==> line[0] == 'F' && line[2] == 'H'
    ensures line == "end_of_record" ==> line[0] == 'e'
  {
    if StartsWith(line, "SF:") { assert line[0] == "SF:"[0]; }
    if StartsWith(line, "DA:") { assert line[0] == "DA:"[0]; }
    if StartsWith(line, "FNF:") { assert line[0] == "FNF:"[0] && line[2] == "FNF:"[2]; }
    if StartsWith(line, "FNH:") { assert line[0] == "FNH:"[0] && line[2] == "FNH:"[2]; }
  }

  /** The numbers of functions found and hit stand after their prefixes. */
  lemma CountLine(line: string, digits: string, count: nat)
    ensures line == "FNF:" + digits ==> (ReadLine(line) == FNF(count) <==> Number(digits) == Some(count))
    ensures line == "FNH:" + digits ==> (ReadLine(line) == FNH(count) <==> Number(digits) == Some(count))
    ensures ReadLine(line).FNF? ==> StartsWith(line, "FNF:")
    ensures ReadLine(line).FNH? ==> StartsWith(line, "FNH:")
  {
    FirstLetters(line);
    if line == "FNF:" + digits { assert line[..4] == "FNF:" && line[4..] == digits; }
    if line == "FNH:" + digits { assert line[..4] == "FNH:" && line[4..] == digits; }
  }

  /** A line's number and hits are the first two fields, whatever fields follow. */
  lemma HitsLine(line: string, left: string, right: string, more: string, number: nat, hits: nat)
    requires ',' !in left && ',' !in right && (more == "" || more[0] == ',')
    ensures line == "DA:" + (left + "," + (right + more)) ==>
              (ReadLine(line) == DA(number, hits) <==> Number(left) == Some(number) && Number(right) == Some(hits))
    ensures ReadLine(line).DA? ==> StartsWith(line, "DA:") && ',' in line
  {
    FirstLetters(line);
    var fields := left + "," + (right + more);
    if line == "DA:" + fields {
      assert line[..3] == "DA:" && line[3..] == fields;
      SplitFirst(left, ',', right + more);
      SplitSecond(right, more);
    }
    if StartsWith(line, "DA:") && ',' !in line { SplitNone(line[3..], ','); }
  }

  lemma SplitSecond(right: string, more: string)
    requires ',' !in right && (more == "" || more[0] == ',')
    ensures Split(right + more, ',')[0] == right
  {
    if more == "" {
      assert right + more == right;
      SplitNone(right, ',');
    } else {
      assert right + more == right + [','] + more[1..];
      SplitFirst(right, ',', more[1..]);
    }
  }

  lemma EndLine(line: string)
    ensures ReadLine(line) == End <==> line == "end_of_record"
  {
    FirstLetters(line);
  }
}
