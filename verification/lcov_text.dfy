/** The text of a coverage ledger: how it is read line by line, how it is printed, and that printing can be read
    back. Numbers are plain decimals. A count that is anything else makes a ledger unreadable here, unless it stands
    outside every record. */
module LcovText {
  import opened Lcov
  import opened Options
  import opened Text

  /** One line of a ledger. `Garbled` is a count that is not a plain decimal. */
  datatype Line =
    | SF(file: string)
    | DA(number: nat, hits: nat)
    | FNF(count: nat)
    | FNH(count: nat)
    | End
    | Other
    | Garbled

  // ----- decimals -----

  function Digit(d: nat): char
    requires d < 10
  {
    "0123456789"[d]
  }

  function Decimal(n: nat): string {
    if n < 10 then [Digit(n)] else Decimal(n / 10) + [Digit(n % 10)]
  }

  function Value(c: char): nat
    requires IsDigit(c)
  {
    (c - '0') as nat
  }

  /** The number a string of digits names. */
  function Number(s: string): Option<nat> {
    if s == "" || !IsDigit(s[|s| - 1]) then None
    else if |s| == 1 then Some(Value(s[0]))
    else
      var rest := Number(s[..|s| - 1]);
      if rest.Some? then Some(10 * rest.value + Value(s[|s| - 1])) else None
  }

  lemma {:induction false} NumberOfDecimal(n: nat)
    ensures Number(Decimal(n)) == Some(n)
    ensures forall k | 0 <= k < |Decimal(n)| :: IsDigit(Decimal(n)[k])
  {
    if n >= 10 {
      NumberOfDecimal(n / 10);
      var s := Decimal(n);
      assert s[..|s| - 1] == Decimal(n / 10);
    }
  }

  // ----- lines -----

  function Rest(line: string, prefix: string): string
    requires StartsWith(line, prefix)
  {
    line[|prefix|..]
  }

  function Counted(s: string, line: nat -> Line): Line {
    var n := Number(s);
    if n.Some? then line(n.value) else Garbled
  }

  function ReadLine(line: string): Line {
    if StartsWith(line, "SF:") then SF(Rest(line, "SF:"))
    else if StartsWith(line, "DA:") then
      var fields := Split(Rest(line, "DA:"), ',');
      if |fields| < 2 then Other
      else
        var number, hits := Number(fields[0]), Number(fields[1]);
        if number.Some? && hits.Some? then DA(number.value, hits.value) else Garbled
    else if StartsWith(line, "FNF:") then Counted(Rest(line, "FNF:"), (n: nat) => FNF(n))
    else if StartsWith(line, "FNH:") then Counted(Rest(line, "FNH:"), (n: nat) => FNH(n))
    else if line == "end_of_record" then End
    else Other
  }

  // ----- parsing -----

  /** The records so far and the file of the open one. */
  datatype Parser = Parser(ledger: Ledger, current: Option<string>)

  function Current(p: Parser): Record
    requires p.current.Some?
  {
    var record := Get(p.ledger, p.current.value);
    if record.Some? then record.value else BLANK
  }

  function Update(p: Parser, record: Record): Parser
    requires p.current.Some?
  {
    p.(ledger := Put(p.ledger, p.current.value, record))
  }

  /** `None` when a count inside a record is garbled. */
  function ParseLine(p: Parser, line: Line): Option<Parser> {
    match line
    case SF(file) => Some(Parser(Put(p.ledger, file, BLANK), Some(file)))
    case DA(number, hits) =>
      Some(if p.current.Some? then Update(p, Current(p).(lines := Current(p).lines[number := hits])) else p)
    case FNF(count) => Some(if p.current.Some? then Update(p, Current(p).(fnf := count)) else p)
    case FNH(count) => Some(if p.current.Some? then Update(p, Current(p).(fnh := count)) else p)
    case End => Some(p.(current := None))
    case Other => Some(p)
    case Garbled => if p.current.Some? then None else Some(p)
  }

  function ParseLines(p: Parser, lines: seq<string>): Option<Parser>
    decreases |lines|
  {
    if lines == [] then Some(p)
    else var next := ParseLine(p, ReadLine(lines[0])); if next.Some? then ParseLines(next.value, lines[1..]) else None
  }

  function Parse(text: string): Option<Ledger> {
    var p := ParseLines(Parser([], None), Split(text, '\n'));
    if p.Some? then Some(p.value.ledger) else None
  }

  /** The parser as it runs. */
  method ParseText(text: string) returns (parsed: Option<Ledger>)
    ensures parsed == Parse(text)
  {
    var lines := Split(text, '\n');
    var parser := Parser([], None);
    assert lines[0..] == lines;
    for i := 0 to |lines|
      invariant ParseLines(parser, lines[i..]) == ParseLines(Parser([], None), lines)
    {
      assert lines[i..][0] == lines[i] && lines[i..][1..] == lines[i + 1..];
      var line := ReadLine(lines[i]);
      if line.SF? {
        parser := Parser(Put(parser.ledger, line.file, BLANK), Some(line.file));
      } else if parser.current.Some? && line.Garbled? {
        return None;
      } else if parser.current.Some? && line.DA? {
        parser := Update(parser, Current(parser).(lines := Current(parser).lines[line.number := line.hits]));
      } else if parser.current.Some? && line.FNF? {
        parser := Update(parser, Current(parser).(fnf := line.count));
      } else if parser.current.Some? && line.FNH? {
        parser := Update(parser, Current(parser).(fnh := line.count));
      } else if line.End? {
        parser := parser.(current := None);
      }
    }
    return Some(parser.ledger);
  }

  // ----- printing -----

  /** Line numbers in ascending order. */
  ghost function Ascending(numbers: set<nat>): (sorted: seq<nat>)
    ensures |sorted| == |numbers| && (forall n :: n in sorted <==> n in numbers)
    ensures Increases(sorted)
    decreases |numbers|
  {
    if numbers == {} then []
    else
      var least := Least(numbers);
      var rest := Ascending(numbers - {least});
      assert forall n | n in rest :: n in numbers - {least};
      Leads(least, rest);
      assert forall n :: n in [least] + rest <==> n == least || n in rest;
      [least] + rest
  }

  predicate Increases(numbers: seq<nat>) {
    forall i, j | 0 <= i < j < |numbers| :: numbers[i] < numbers[j]
  }

  lemma Leads(least: nat, rest: seq<nat>)
    requires Increases(rest) && forall n | n in rest :: least < n
    ensures Increases([least] + rest)
  {
    var all := [least] + rest;
    forall i, j | 0 <= i < j < |all| ensures all[i] < all[j] {
      assert rest[j - 1] in rest;
    }
  }

  ghost function Least(numbers: set<nat>): (least: nat)
    requires numbers != {}
    ensures least in numbers && forall n | n in numbers :: least <= n
    decreases |numbers|
  {
    var some: nat :| some in numbers;
    assert forall n | n in numbers :: n == some || n in numbers - {some};
    if numbers - {some} == {} then some
    else
      var other := Least(numbers - {some});
      if some <= other then some else other
  }

  ghost function PrintLines(lines: map<nat, nat>, numbers: seq<nat>): seq<string>
    requires forall n | n in numbers :: n in lines
  {
    if numbers == [] then []
    else ["DA:" + Decimal(numbers[0]) + "," + Decimal(lines[numbers[0]])] + PrintLines(lines, numbers[1..])
  }

  ghost function HitCount(lines: map<nat, nat>, numbers: seq<nat>): nat
    requires forall n | n in numbers :: n in lines
  {
    if numbers == [] then 0 else (if lines[numbers[0]] > 0 then 1 else 0) + HitCount(lines, numbers[1..])
  }

  ghost function PrintRecord(file: string, record: Record): seq<string> {
    ["TN:", "SF:" + file, "FNF:" + Decimal(record.fnf), "FNH:" + Decimal(record.fnh)]
    + PrintLines(record.lines, Ascending(record.lines.Keys))
    + ["LF:" + Decimal(|Ascending(record.lines.Keys)|),
        "LH:" + Decimal(HitCount(record.lines, Ascending(record.lines.Keys))), "end_of_record"]
  }

  ghost function PrintLedger(ledger: Ledger): seq<string> {
    if ledger == [] then [] else PrintRecord(ledger[0].file, ledger[0].record) + PrintLedger(ledger[1..])
  }

  ghost function Print(ledger: Ledger): string {
    Join(PrintLedger(ledger), "\n") + "\n"
  }

  /** The printed totals are right: all lines listed, and those of them that were hit. */
  lemma TotalsAreRight(lines: map<nat, nat>)
    ensures |Ascending(lines.Keys)| == |lines|
    ensures HitCount(lines, Ascending(lines.Keys)) == |HitLines(lines)|
  {
    HitCountIsCardinality(lines, Ascending(lines.Keys));
    assert HitSet(lines, Ascending(lines.Keys)) == HitLines(lines).Keys;
  }

  ghost function HitSet(lines: map<nat, nat>, numbers: seq<nat>): set<nat>
    requires forall n | n in numbers :: n in lines
  {
    set n | n in numbers && lines[n] > 0
  }

  lemma {:induction false} HitCountIsCardinality(lines: map<nat, nat>, numbers: seq<nat>)
    requires forall n | n in numbers :: n in lines
    requires forall i, j | 0 <= i < j < |numbers| :: numbers[i] < numbers[j]
    ensures HitCount(lines, numbers) == |HitSet(lines, numbers)|
  {
    if numbers != [] {
      HitCountIsCardinality(lines, numbers[1..]);
      FirstIsAlone(numbers);
      HitSetByHead(lines, numbers);
    }
  }

  lemma FirstIsAlone(numbers: seq<nat>)
    requires numbers != [] && forall i, j | 0 <= i < j < |numbers| :: numbers[i] < numbers[j]
    ensures numbers[0] !in numbers[1..]
  {
    forall i | 0 <= i < |numbers| - 1 ensures numbers[1..][i] != numbers[0] {
      assert numbers[1..][i] == numbers[i + 1];
    }
  }

  lemma HitSetByHead(lines: map<nat, nat>, numbers: seq<nat>)
    requires numbers != [] && (forall n | n in numbers :: n in lines) && numbers[0] !in numbers[1..]
    ensures |HitSet(lines, numbers)| == |HitSet(lines, numbers[1..])| + (if lines[numbers[0]] > 0 then 1 else 0)
  {
    var rest, all := HitSet(lines, numbers[1..]), HitSet(lines, numbers);
    assert numbers == [numbers[0]] + numbers[1..];
    if lines[numbers[0]] > 0 {
      assert all == rest + {numbers[0]} && numbers[0] !in rest;
    } else {
      assert all == rest;
    }
  }

  // ----- reading printed lines -----

  lemma ReadsFile(file: string)
    ensures ReadLine("SF:" + file) == SF(file)
  {
    assert ("SF:" + file)[..3] == "SF:" && ("SF:" + file)[3..] == file;
  }

  lemma ReadsCount(prefix: string, count: nat)
    requires prefix in {"FNF:", "FNH:"}
    ensures ReadLine(prefix + Decimal(count)) == if prefix == "FNF:" then FNF(count) else FNH(count)
  {
    var line := prefix + Decimal(count);
    NumberOfDecimal(count);
    assert line[..4] == prefix && line[4..] == Decimal(count);
    assert line[0] == 'F' && line[1] == 'N' && line[2] == prefix[2];
    assert "SF:"[0] == 'S' && "DA:"[0] == 'D' && "FNF:"[2] == 'F' && "FNH:"[2] == 'H';
  }

  lemma ReadsHits(number: nat, hits: nat)
    ensures ReadLine("DA:" + Decimal(number) + "," + Decimal(hits)) == DA(number, hits)
  {
    NumberOfDecimal(number);
    NumberOfDecimal(hits);
    ReadsFields(number, hits, Decimal(number), Decimal(hits));
  }

  lemma ReadsFields(number: nat, hits: nat, left: string, right: string)
    requires Number(left) == Some(number) && Number(right) == Some(hits) && ',' !in left && ',' !in right
    ensures ReadLine("DA:" + left + "," + right) == DA(number, hits)
  {
    var line := "DA:" + left + "," + right;
    var fields := left + [','] + right;
    assert line[..3] == "DA:" && line[3..] == fields;
    assert line[0] == 'D' && "SF:"[0] == 'S';
    SplitFirst(left, ',', right);
    SplitNone(right, ',');
  }

  lemma ReadsNothing(line: string)
    requires line == "" || line[0] == 'T' || line[0] == 'L'
    ensures ReadLine(line) == Other
  {
    assert "SF:"[0] == 'S' && "DA:"[0] == 'D' && "FNF:"[0] == 'F' && "FNH:"[0] == 'F' && "end_of_record"[0] == 'e';
  }

  lemma ReadsEnd()
    ensures ReadLine("end_of_record") == End
  {
    assert "SF:"[0] == 'S' && "DA:"[0] == 'D' && "FNF:"[0] == 'F' && "FNH:"[0] == 'F' && "end_of_record"[0] == 'e';
  }

  // ----- parsing what was printed -----

  lemma {:induction false} ParseConcat(p: Parser, a: seq<string>, b: seq<string>)
    requires ParseLines(p, a).Some?
    ensures ParseLines(p, a + b) == ParseLines(ParseLines(p, a).value, b)
    decreases |a|
  {
    if a == [] {
      assert a + b == b;
    } else {
      assert (a + b)[1..] == a[1..] + b;
      ParseConcat(ParseLine(p, ReadLine(a[0])).value, a[1..], b);
    }
  }

  lemma {:induction false} PutAtEnd(ledger: Ledger, file: string, was: Record, record: Record)
    requires !Has(ledger, file)
    ensures Put(ledger, file, record) == ledger + [Entry(file, record)]
    ensures Put(ledger + [Entry(file, was)], file, record) == ledger + [Entry(file, record)]
    ensures Get(ledger + [Entry(file, was)], file) == Some(was)
  {
    var longer := ledger + [Entry(file, was)];
    if ledger == [] {
      assert longer == [Entry(file, was)] && longer[1..] == [];
    } else {
      HasByHead(ledger);
      PutAtEnd(ledger[1..], file, was, record);
      assert longer[0] == ledger[0] && longer[1..] == ledger[1..] + [Entry(file, was)];
    }
  }

  ghost function Rebuilt(base: map<nat, nat>, lines: map<nat, nat>, numbers: seq<nat>): map<nat, nat>
    requires forall n | n in numbers :: n in lines
    decreases |numbers|
  {
    if numbers == [] then base else Rebuilt(base[numbers[0] := lines[numbers[0]]], lines, numbers[1..])
  }

  lemma {:induction false} RebuiltHolds(base: map<nat, nat>, lines: map<nat, nat>, numbers: seq<nat>)
    requires forall n | n in numbers :: n in lines
    ensures Rebuilt(base, lines, numbers).Keys == base.Keys + (set n | n in numbers)
    ensures forall n | n in Rebuilt(base, lines, numbers) ::
              Rebuilt(base, lines, numbers)[n] == if n in numbers then lines[n] else base[n]
    decreases |numbers|
  {
    if numbers != [] {
      RebuiltHolds(base[numbers[0] := lines[numbers[0]]], lines, numbers[1..]);
      assert forall n :: n in numbers <==> n == numbers[0] || n in numbers[1..];
    }
  }

  lemma {:induction false} ParsesLines(ledger: Ledger, file: string, record: Record, lines: map<nat, nat>,
                                       numbers: seq<nat>)
    requires !Has(ledger, file) && forall n | n in numbers :: n in lines
    ensures ParseLines(Parser(ledger + [Entry(file, record)], Some(file)), PrintLines(lines, numbers))
            == Some(Parser(ledger + [Entry(file, record.(lines := Rebuilt(record.lines, lines, numbers)))], Some(file)))
    decreases |numbers|
  {
    if numbers != [] {
      var next := record.(lines := record.lines[numbers[0] := lines[numbers[0]]]);
      ReadsHits(numbers[0], lines[numbers[0]]);
      PutAtEnd(ledger, file, record, next);
      ParsesLines(ledger, file, next, lines, numbers[1..]);
    }
  }

  lemma ParsesHead(ledger: Ledger, file: string, record: Record)
    requires !Has(ledger, file)
    ensures ParseLines(Parser(ledger, None), ["TN:", "SF:" + file, "FNF:" + Decimal(record.fnf),
            "FNH:" + Decimal(record.fnh)])
            == Some(Parser(ledger + [Entry(file, record.(lines := map[]))], Some(file)))
  {
    var fnf, fnh := "FNF:" + Decimal(record.fnf), "FNH:" + Decimal(record.fnh);
    var lines := ["TN:", "SF:" + file, fnf, fnh];
    ReadsNothing("TN:");
    ReadsFile(file);
    ReadsCount("FNF:", record.fnf);
    ReadsCount("FNH:", record.fnh);
    assert "FNF:" != "FNH:" by { assert "FNF:"[2] != "FNH:"[2]; }
    PutAtEnd(ledger, file, BLANK, BLANK);
    PutAtEnd(ledger, file, BLANK, BLANK.(fnf := record.fnf));
    PutAtEnd(ledger, file, BLANK.(fnf := record.fnf), record.(lines := map[]));
    assert lines[1..] == ["SF:" + file, fnf, fnh];
    assert ["SF:" + file, fnf, fnh][1..] == [fnf, fnh];
    assert [fnf, fnh][1..] == [fnh] && [fnh][1..] == [];
    var p1 := Parser(ledger + [Entry(file, BLANK)], Some(file));
    var p2 := Parser(ledger + [Entry(file, BLANK.(fnf := record.fnf))], Some(file));
    assert ParseLines(p2, [fnh]) == Some(Parser(ledger + [Entry(file, record.(lines := map[]))], Some(file)));
    assert ParseLines(p1, [fnf, fnh]) == ParseLines(p2, [fnh]);
    assert ParseLines(Parser(ledger, None), ["SF:" + file, fnf, fnh]) == ParseLines(p1, [fnf, fnh]);
  }

  lemma ParsesTail(p: Parser, lf: string, lh: string)
    requires lf != "" && lf[0] == 'L' && lh != "" && lh[0] == 'L'
    ensures ParseLines(p, [lf, lh, "end_of_record"]) == Some(p.(current := None))
  {
    ReadsNothing(lf);
    ReadsNothing(lh);
    ReadsEnd();
    assert [lf, lh, "end_of_record"][1..] == [lh, "end_of_record"];
    assert [lh, "end_of_record"][1..] == ["end_of_record"];
    assert ["end_of_record"][1..] == [];
    assert ParseLines(p, ["end_of_record"]) == Some(p.(current := None));
  }

  lemma RebuiltWhole(lines: map<nat, nat>, numbers: seq<nat>)
    requires forall n :: n in numbers <==> n in lines
    ensures Rebuilt(map[], lines, numbers) == lines
  {
    var rebuilt := Rebuilt(map[], lines, numbers);
    RebuiltHolds(map[], lines, numbers);
    assert rebuilt.Keys == lines.Keys;
  }

  lemma ParsesAllLines(ledger: Ledger, file: string, record: Record)
    requires !Has(ledger, file)
    ensures ParseLines(Parser(ledger + [Entry(file, record.(lines := map[]))], Some(file)),
            PrintLines(record.lines, Ascending(record.lines.Keys)))
            == Some(Parser(ledger + [Entry(file, record)], Some(file)))
  {
    ParsesLines(ledger, file, record.(lines := map[]), record.lines, Ascending(record.lines.Keys));
    RebuiltWhole(record.lines, Ascending(record.lines.Keys));
  }

  lemma ParsesThree(p: Parser, a: seq<string>, b: seq<string>, c: seq<string>)
    requires ParseLines(p, a).Some? && ParseLines(ParseLines(p, a).value, b).Some?
    ensures ParseLines(p, a + b + c) == ParseLines(ParseLines(ParseLines(p, a).value, b).value, c)
  {
    ParseConcat(p, a, b);
    ParseConcat(p, a + b, c);
  }

  lemma ParsesRecord(ledger: Ledger, file: string, record: Record)
    requires !Has(ledger, file)
    ensures ParseLines(Parser(ledger, None), PrintRecord(file, record)) ==
            Some(Parser(ledger + [Entry(file, record)], None))
  {
    var numbers := Ascending(record.lines.Keys);
    var lf, lh := "LF:" + Decimal(|numbers|), "LH:" + Decimal(HitCount(record.lines, numbers));
    ParsesHead(ledger, file, record);
    ParsesAllLines(ledger, file, record);
    ParsesThree(Parser(ledger, None), ["TN:", "SF:" + file, "FNF:" + Decimal(record.fnf), "FNH:" + Decimal(record.fnh)],
                PrintLines(record.lines, numbers), [lf, lh, "end_of_record"]);
    assert lf[0] == 'L' && lh[0] == 'L';
    ParsesTail(Parser(ledger + [Entry(file, record)], Some(file)), lf, lh);
  }

  lemma {:induction false} ParsesLedger(ledger: Ledger, rest: Ledger)
    requires Distinct(ledger + rest)
    ensures ParseLines(Parser(ledger, None), PrintLedger(rest)) == Some(Parser(ledger + rest, None))
    decreases |rest|
  {
    if rest == [] {
      assert ledger + rest == ledger;
    } else {
      var longer := ledger + [rest[0]];
      NextIsNew(ledger, rest);
      assert longer + rest[1..] == ledger + rest;
      ParsesLedger(longer, rest[1..]);
      ParsesOneRecord(ledger, rest, longer);
    }
  }

  lemma NextIsNew(ledger: Ledger, rest: Ledger)
    requires Distinct(ledger + rest) && rest != []
    ensures !Has(ledger, rest[0].file)
  {
    forall i | 0 <= i < |ledger| ensures ledger[i].file != rest[0].file {
      assert (ledger + rest)[i] == ledger[i] && (ledger + rest)[|ledger|] == rest[0];
    }
  }

  lemma ParsesOneRecord(ledger: Ledger, rest: Ledger, longer: Ledger)
    requires rest != [] && !Has(ledger, rest[0].file) && longer == ledger + [rest[0]]
    ensures ParseLines(Parser(ledger, None), PrintLedger(rest)) ==
            ParseLines(Parser(longer, None), PrintLedger(rest[1..]))
  {
    var first := rest[0];
    ParsesRecord(ledger, first.file, first.record);
    assert first == Entry(first.file, first.record);
    ParseConcat(Parser(ledger, None), PrintRecord(first.file, first.record), PrintLedger(rest[1..]));
  }

  // ----- the text -----

  /** Lines joined and closed by newlines are split into the same lines, with nothing after the last newline. */
  lemma {:induction false} SplitOfJoin(lines: seq<string>)
    requires lines != [] && forall line | line in lines :: '\n' !in line
    ensures Split(Join(lines, "\n") + "\n", '\n') == lines + [""]
  {
    if |lines| == 1 {
      SplitFirst(lines[0], '\n', "");
      assert Join(lines, "\n") + "\n" == lines[0] + ['\n'] + "";
    } else {
      SplitOfJoin(lines[1..]);
      SplitFirst(lines[0], '\n', Join(lines[1..], "\n") + "\n");
      assert Join(lines, "\n") + "\n" == lines[0] + ['\n'] + (Join(lines[1..], "\n") + "\n");
      assert [lines[0]] + (lines[1..] + [""]) == lines + [""];
    }
  }

  ghost predicate OneLine(ledger: Ledger) {
    forall i | 0 <= i < |ledger| :: '\n' !in ledger[i].file
  }

  lemma NoNewlineInDecimal(n: nat)
    ensures '\n' !in Decimal(n)
  {
    NumberOfDecimal(n);
  }

  lemma {:induction false} PrintedLinesAreLines(lines: map<nat, nat>, numbers: seq<nat>)
    requires forall n | n in numbers :: n in lines
    ensures forall line | line in PrintLines(lines, numbers) :: '\n' !in line
  {
    if numbers != [] {
      NoNewlineInDecimal(numbers[0]);
      NoNewlineInDecimal(lines[numbers[0]]);
      PrintedLinesAreLines(lines, numbers[1..]);
    }
  }

  lemma PrintedRecordIsLines(file: string, record: Record, printed: seq<string>)
    requires '\n' !in file && printed == PrintRecord(file, record)
    ensures printed != [] && forall line | line in printed :: '\n' !in line
  {
    var numbers := Ascending(record.lines.Keys);
    NoNewlineInDecimal(record.fnf);
    NoNewlineInDecimal(record.fnh);
    NoNewlineInDecimal(|numbers|);
    NoNewlineInDecimal(HitCount(record.lines, numbers));
    PrintedLinesAreLines(record.lines, numbers);
    AreLines(file, Decimal(record.fnf), Decimal(record.fnh), PrintLines(record.lines, numbers),
             Decimal(|numbers|), Decimal(HitCount(record.lines, numbers)));
  }

  lemma AreLines(file: string, fnf: string, fnh: string, lines: seq<string>, lf: string, lh: string)
    requires '\n' !in file && '\n' !in fnf && '\n' !in fnh && '\n' !in lf && '\n' !in lh
    requires forall line | line in lines :: '\n' !in line
    ensures forall line | line in ["TN:", "SF:" + file, "FNF:" + fnf, "FNH:" + fnh] + lines
                                  + ["LF:" + lf, "LH:" + lh, "end_of_record"] :: '\n' !in line
  {
    NoNewlineAfter("SF:", file);
    NoNewlineAfter("FNF:", fnf);
    NoNewlineAfter("FNH:", fnh);
    NoNewlineAfter("LF:", lf);
    NoNewlineAfter("LH:", lh);
  }

  lemma NoNewlineAfter(prefix: string, rest: string)
    requires '\n' !in prefix && '\n' !in rest
    ensures '\n' !in prefix + rest
  {}

  lemma {:induction false} PrintedLedgerIsLines(ledger: Ledger)
    requires OneLine(ledger)
    ensures forall line | line in PrintLedger(ledger) :: '\n' !in line
    ensures ledger != [] ==> PrintLedger(ledger) != []
  {
    if ledger != [] {
      var first, later := PrintRecord(ledger[0].file, ledger[0].record), PrintLedger(ledger[1..]);
      PrintedRecordIsLines(ledger[0].file, ledger[0].record, first);
      PrintedLedgerIsLines(ledger[1..]);
      assert PrintLedger(ledger) == first + later;
    }
  }

  lemma NothingParsesBack()
    ensures Parse(Print([])) == Some([])
  {
    ReadsNothing("");
    assert Print([]) == "" + ['\n'] + "";
    SplitFirst("", '\n', "");
    assert ["", ""][1..] == [""] && [""][1..] == [];
    assert Split(Print([]), '\n') == ["", ""];
    assert ParseLines(Parser([], None), [""]) == Some(Parser([], None));
  }

  lemma LinesParseBack(ledger: Ledger, lines: seq<string>)
    requires Distinct(ledger) && lines == PrintLedger(ledger)
    ensures ParseLines(Parser([], None), lines + [""]) == Some(Parser(ledger, None))
  {
    assert [] + ledger == ledger;
    ParsesLedger([], ledger);
    ParseConcat(Parser([], None), lines, [""]);
    EmptyLineParses(Parser(ledger, None));
  }

  lemma EmptyLineParses(parser: Parser)
    requires parser.current == None
    ensures ParseLines(parser, [""]) == Some(parser)
  {
    ReadsNothing("");
    assert [""][1..] == [];
  }

  /** Printing a ledger and parsing the text returns the ledger: every file, every count, in the same order. */
  lemma PrintedParsesBack(ledger: Ledger)
    requires Distinct(ledger) && OneLine(ledger)
    ensures Parse(Print(ledger)) == Some(ledger)
  {
    if ledger == [] {
      NothingParsesBack();
    } else {
      PrintedLedgerIsLines(ledger);
      SplitOfJoin(PrintLedger(ledger));
      LinesParseBack(ledger, PrintLedger(ledger));
    }
  }

  // ----- the whole merge -----

  /** Files occur once, on one line each, and the open record is among them. */
  ghost predicate WellFormed(p: Parser) {
    Distinct(p.ledger) && OneLine(p.ledger) && (p.current.Some? ==>
        Has(p.ledger, p.current.value) && '\n' !in p.current.value)
  }

  lemma {:induction false} PutStaysOneLine(ledger: Ledger, file: string, record: Record)
    requires OneLine(ledger) && '\n' !in file
    ensures OneLine(Put(ledger, file, record))
  {
    if ledger != [] && ledger[0].file != file {
      PutStaysOneLine(ledger[1..], file, record);
    }
  }

  lemma PutIsWellFormed(p: Parser, file: string, record: Record)
    requires WellFormed(p) && '\n' !in file
    ensures WellFormed(Parser(Put(p.ledger, file, record), Some(file)))
  {
    PutKeepsDistinct(p.ledger, file, record);
    PutStaysOneLine(p.ledger, file, record);
  }

  lemma LineIsWellFormed(p: Parser, raw: string)
    requires WellFormed(p) && '\n' !in raw && ParseLine(p, ReadLine(raw)).Some?
    ensures WellFormed(ParseLine(p, ReadLine(raw)).value)
  {
    match ReadLine(raw)
    case SF(file) =>
      assert file == raw[3..];
      PutIsWellFormed(p, file, BLANK);
    case DA(number, hits) =>
      if p.current.Some? {
        PutIsWellFormed(p, p.current.value, Current(p).(lines := Current(p).lines[number := hits]));
      }
    case FNF(count) =>
      if p.current.Some? { PutIsWellFormed(p, p.current.value, Current(p).(fnf := count)); }
    case FNH(count) =>
      if p.current.Some? { PutIsWellFormed(p, p.current.value, Current(p).(fnh := count)); }
    case _ =>
  }

  lemma {:induction false} ParsedIsWellFormed(p: Parser, lines: seq<string>)
    requires WellFormed(p) && forall line | line in lines :: '\n' !in line
    ensures ParseLines(p, lines).Some? ==> WellFormed(ParseLines(p, lines).value)
    decreases |lines|
  {
    if lines != [] && ParseLine(p, ReadLine(lines[0])).Some? {
      LineIsWellFormed(p, lines[0]);
      ParsedIsWellFormed(ParseLine(p, ReadLine(lines[0])).value, lines[1..]);
    }
  }

  lemma {:induction false} SplitPiecesAreLines(s: string)
    ensures forall piece | piece in Split(s, '\n') :: '\n' !in piece
  {
    if s != "" { SplitPiecesAreLines(s[1..]); }
  }

  /** Re-parsing the printed merge of two ledgers returns the merged records. */
  lemma MergedLedgerParsesBack(first: string, second: string)
    requires Parse(first).Some? && Parse(second).Some?
    ensures Parse(Print(Merge(Parse(first).value, Parse(second).value))) ==
            Some(Merge(Parse(first).value, Parse(second).value))
  {
    SplitPiecesAreLines(first);
    SplitPiecesAreLines(second);
    ParsedIsWellFormed(Parser([], None), Split(first, '\n'));
    ParsedIsWellFormed(Parser([], None), Split(second, '\n'));
    MergeKeepsDistinct(Parse(first).value, Parse(second).value);
    MergeStaysOneLine(Parse(first).value, Parse(second).value);
    PrintedParsesBack(Merge(Parse(first).value, Parse(second).value));
  }

  lemma {:induction false} MergeStaysOneLine(first: Ledger, second: Ledger)
    requires OneLine(first) && OneLine(second)
    ensures OneLine(Merge(first, second))
    decreases |second|
  {
    if second != [] {
      var known := Get(first, second[0].file);
      PutStaysOneLine(first, second[0].file,
                      if known.Some? then MergeRecord(known.value, second[0].record)
                        else second[0].record.(lines := HitLines(second[0].record.lines)));
      MergeStaysOneLine(MergeEntry(first, second[0]), second[1..]);
    }
  }

  // ----- the merge as it runs -----

  /** Raises a record's lines to what the rerun hit, one line at a time. */
  method RaiseLines(first: map<nat, nat>, rerun: map<nat, nat>) returns (lines: map<nat, nat>)
    ensures lines == RaisedLines(first, rerun)
  {
    lines := first;
    var todo := rerun.Keys;
    while todo != {}
      invariant todo <= rerun.Keys
      invariant lines.Keys == first.Keys + (HitLines(rerun).Keys - todo)
      invariant forall n | n in lines :: lines[n] ==
                  Max(if n in first then first[n] else 0, if n in rerun && n !in todo then rerun[n] else 0)
      decreases todo
    {
      var number :| number in todo;
      todo := todo - {number};
      if rerun[number] > 0 {
        lines := lines[number := Max(if number in lines then lines[number] else 0, rerun[number])];
      }
    }
  }

  method MergeLedgers(first: Ledger, second: Ledger) returns (merged: Ledger)
    ensures merged == Merge(first, second)
  {
    merged := first;
    assert second[0..] == second;
    for i := 0 to |second|
      invariant Merge(merged, second[i..]) == Merge(first, second)
    {
      assert second[i..][0] == second[i] && second[i..][1..] == second[i + 1..];
      var file, rerun := second[i].file, second[i].record;
      var known := Get(merged, file);
      if known.None? {
        merged := Put(merged, file, rerun.(lines := HitLines(rerun.lines)));
      } else {
        var lines := RaiseLines(known.value.lines, rerun.lines);
        var fnh := Min(known.value.fnf, Max(known.value.fnh, rerun.fnh));
        merged := Put(merged, file, Record(lines, known.value.fnf, fnh));
      }
    }
  }

  /** Increasing sequences of the same numbers are the same. */
  lemma {:induction false} IncreasingIsUnique(a: seq<nat>, b: seq<nat>)
    requires Increases(a) && Increases(b) && forall n :: n in a <==> n in b
    ensures a == b
  {
    assert |b| > 0 ==> b[0] in a;
    if a != [] {
      assert a[0] in b && b[0] in a;
      assert a[0] == b[0];
      forall n ensures n in a[1..] <==> n in b[1..] {
        assert n in a <==> n == a[0] || n in a[1..];
        assert n in b <==> n == b[0] || n in b[1..];
        assert a[0] !in a[1..] && b[0] !in b[1..];
      }
      IncreasingIsUnique(a[1..], b[1..]);
    }
  }

  method InsertNumber(sorted: seq<nat>, number: nat) returns (longer: seq<nat>)
    requires Increases(sorted) && number !in sorted
    ensures Increases(longer) && forall n :: n in longer <==> n in sorted || n == number
  {
    var at := 0;
    while at < |sorted| && sorted[at] < number
      invariant at <= |sorted| && forall k | 0 <= k < at :: sorted[k] < number
    {
      at := at + 1;
    }
    assert at < |sorted| ==> sorted[at] != number;
    longer := sorted[..at] + [number] + sorted[at..];
    InsertedIncreases(sorted, at, number, longer);
  }

  lemma InsertedIncreases(sorted: seq<nat>, at: nat, number: nat, longer: seq<nat>)
    requires Increases(sorted) && at <= |sorted| && longer == sorted[..at] + [number] + sorted[at..]
    requires (forall k | 0 <= k < at :: sorted[k] < number) && (at < |sorted| ==> number < sorted[at])
    ensures Increases(longer) && forall n :: n in longer <==> n in sorted || n == number
  {
    assert sorted == sorted[..at] + sorted[at..];
    forall i, j | 0 <= i < j < |longer| ensures longer[i] < longer[j] {
      InsertedAt(sorted, at, number, longer, i);
      InsertedAt(sorted, at, number, longer, j);
      assert at <= j - 1 < |sorted| ==> sorted[at] <= sorted[j - 1];
    }
  }

  lemma InsertedAt(sorted: seq<nat>, at: nat, number: nat, longer: seq<nat>, i: nat)
    requires at <= |sorted| && longer == sorted[..at] + [number] + sorted[at..] && i < |longer|
    ensures longer[i] == if i < at then sorted[i] else if i == at then number else sorted[i - 1]
  {}

  method SortNumbers(numbers: set<nat>) returns (sorted: seq<nat>)
    ensures sorted == Ascending(numbers)
  {
    sorted := [];
    var todo := numbers;
    while todo != {}
      invariant todo <= numbers && Increases(sorted) && forall n :: n in sorted <==> n in numbers - todo
      decreases todo
    {
      var number :| number in todo;
      todo := todo - {number};
      sorted := InsertNumber(sorted, number);
    }
    IncreasingIsUnique(sorted, Ascending(numbers));
  }

  /** Prints one line for each number and counts those that were hit. */
  method PrintNumbers(lines: map<nat, nat>, numbers: seq<nat>) returns (out: seq<string>, hit: nat)
    requires forall n | n in numbers :: n in lines
    ensures out == PrintLines(lines, numbers) && hit == HitCount(lines, numbers)
  {
    out, hit := [], 0;
    assert numbers[0..] == numbers && [] + PrintLines(lines, numbers) == PrintLines(lines, numbers);
    for i := 0 to |numbers|
      invariant out + PrintLines(lines, numbers[i..]) == PrintLines(lines, numbers)
      invariant hit + HitCount(lines, numbers[i..]) == HitCount(lines, numbers)
    {
      var line := "DA:" + Decimal(numbers[i]) + "," + Decimal(lines[numbers[i]]);
      PrintStep(lines, numbers, i, out, line);
      out := out + [line];
      if lines[numbers[i]] > 0 { hit := hit + 1; }
    }
    assert numbers[|numbers|..] == [] && out + [] == out;
  }

  lemma PrintStep(lines: map<nat, nat>, numbers: seq<nat>, i: nat, out: seq<string>, line: string)
    requires i < |numbers| && (forall n | n in numbers :: n in lines)
    requires line == "DA:" + Decimal(numbers[i]) + "," + Decimal(lines[numbers[i]])
    ensures out + PrintLines(lines, numbers[i..]) == (out + [line]) + PrintLines(lines, numbers[i + 1..])
    ensures HitCount(lines, numbers[i..]) == (if lines[numbers[i]] > 0 then 1 else 0)
            + HitCount(lines, numbers[i + 1..])
  {
    assert numbers[i..][0] == numbers[i] && numbers[i..][1..] == numbers[i + 1..];
  }

  method PrintEntry(file: string, record: Record) returns (out: seq<string>)
    ensures out == PrintRecord(file, record)
  {
    var numbers := SortNumbers(record.lines.Keys);
    var lines, hit := PrintNumbers(record.lines, numbers);
    out := ["TN:", "SF:" + file, "FNF:" + Decimal(record.fnf), "FNH:" + Decimal(record.fnh)]
      + lines
      + ["LF:" + Decimal(|numbers|), "LH:" + Decimal(hit), "end_of_record"];
  }

  method PrintAll(ledger: Ledger) returns (out: seq<string>)
    ensures out == PrintLedger(ledger)
  {
    out := [];
    assert ledger[0..] == ledger && [] + PrintLedger(ledger) == PrintLedger(ledger);
    for i := 0 to |ledger|
      invariant out + PrintLedger(ledger[i..]) == PrintLedger(ledger)
    {
      var entry := PrintEntry(ledger[i].file, ledger[i].record);
      LedgerStep(ledger, i, out, entry);
      out := out + entry;
    }
    assert ledger[|ledger|..] == [] && out + [] == out;
  }

  lemma LedgerStep(ledger: Ledger, i: nat, out: seq<string>, entry: seq<string>)
    requires i < |ledger| && entry == PrintRecord(ledger[i].file, ledger[i].record)
    ensures out + PrintLedger(ledger[i..]) == (out + entry) + PrintLedger(ledger[i + 1..])
  {
    assert ledger[i..][0] == ledger[i] && ledger[i..][1..] == ledger[i + 1..];
  }

  /** The merged ledger's text, when both ledgers can be read. */
  method MergeLcov(first: string, second: string) returns (merged: Option<string>)
    ensures merged == if Parse(first).Some? && Parse(second).Some?
            then Some(Print(Merge(Parse(first).value, Parse(second).value))) else None
  {
    var a := ParseText(first);
    var b := ParseText(second);
    if a.None? || b.None? { return None; }
    var ledger := MergeLedgers(a.value, b.value);
    var out := PrintAll(ledger);
    return Some(Join(out, "\n") + "\n");
  }
}
