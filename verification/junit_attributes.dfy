/** Reading one attribute out of a tag's text: the first white space that is followed by the name, an equals sign and
    a quote, and then everything up to the next quote. */
module JunitAttributes {
  import opened Entities
  import opened Options
  import opened Text

  datatype Attribute = Attribute(name: string, value: string)

  function UpToQuote(s: string): string {
    if s == "" || s[0] == '"' then "" else [s[0]] + UpToQuote(s[1..])
  }

  predicate OpensHere(tag: string, name: string) {
    tag != "" && IsSpace(tag[0]) && StartsWith(tag[1..], name + "=\"")
  }

  function Read(tag: string, name: string): Option<string> {
    if tag == "" then None
    else if OpensHere(tag, name) && '"' in tag[1..][|name| + 2..] then
      Some(DecodeChained(UpToQuote(tag[1..][|name| + 2..])))
    else Read(tag[1..], name)
  }

  function Render(attributes: seq<Attribute>): string {
    if attributes == [] then ""
    else " " + attributes[0].name + "=\"" + Escape(attributes[0].value) + "\"" + Render(attributes[1..])
  }

  predicate IsName(s: string) {
    s != "" && forall k | 0 <= k < |s| :: IsWord(s[k])
  }

  /** A value that, as written, ends in white space, the name and an equals sign, so that its own closing quote looks
      like the quote that opens the attribute. */
  ghost predicate Mimics(value: string, name: string) {
    exists i :: 0 <= i < |Escape(value)| && IsSpace(Escape(value)[i]) && Escape(value)[i + 1..] == name + "="
  }

  lemma {:induction false} EscapedHasNoQuote(s: string)
    ensures '"' !in Escape(s)
  {
    if s != "" {
      EscapedHasNoQuote(s[1..]);
      assert '"' !in LT.body && '"' !in GT.body && '"' !in QUOT.body && '"' !in APOS.body && '"' !in AMP.body;
      assert '"' !in EscapeOne(s[0]);
    }
  }

  lemma {:induction false} QuoteEndsValue(value: string, rest: string)
    requires '"' !in value
    ensures UpToQuote(value + "\"" + rest) == value
  {
    var s := value + "\"" + rest;
    if value != "" {
      QuoteEndsValue(value[1..], rest);
      assert s[1..] == value[1..] + "\"" + rest;
    }
  }

  /** Nothing opens in a stretch without white space. */
  lemma {:induction false} SkipsSolid(solid: string, rest: string, name: string)
    requires forall k | 0 <= k < |solid| :: !IsSpace(solid[k])
    ensures Read(solid + rest, name) == Read(rest, name)
  {
    if solid == "" {
      assert solid + rest == rest;
    } else {
      SkipsSolid(solid[1..], rest, name);
      assert (solid + rest)[1..] == solid[1..] + rest;
    }
  }

  lemma OpensOnlyAtEnd(value: string, rest: string, name: string)
    requires '"' !in value && value != "" && IsName(name) && OpensHere(value + "\"" + rest, name)
    ensures value[1..] == name + "="
  {
    var s := (value + "\"" + rest)[1..];
    var opening := name + "=\"";
    assert s == value[1..] + "\"" + rest;
    assert s[|name| + 1] == opening[|name| + 1] == '"';
    assert s[|value| - 1] == '"';
    forall k | 0 <= k < |name| + 1 ensures s[k] != '"' {
      assert s[k] == opening[k];
    }
    assert |value| - 1 == |name| + 1;
    assert value[1..] == s[..|name| + 1] == opening[..|name| + 1];
  }

  /** Nothing opens in a value that does not mimic the name. */
  lemma {:induction false} SkipsValue(value: string, rest: string, name: string)
    requires '"' !in value && IsName(name)
    requires forall i | 0 <= i < |value| && IsSpace(value[i]) :: value[i + 1..] != name + "="
    ensures Read(value + "\"" + rest, name) == Read(rest, name)
  {
    var s := value + "\"" + rest;
    if value == "" {
      assert s == "\"" + rest;
      SkipsSolid("\"", rest, name);
    } else {
      assert s[1..] == value[1..] + "\"" + rest;
      forall i | 0 <= i < |value[1..]| && IsSpace(value[1..][i]) ensures value[1..][i + 1..] != name + "=" {
        assert value[1..][i + 1..] == value[i + 2..] && IsSpace(value[i + 1]);
      }
      SkipsValue(value[1..], rest, name);
      if OpensHere(s, name) { OpensOnlyAtEnd(value, rest, name); }
    }
  }

  /** Only the name looked for opens it. */
  lemma OpensOwnName(other: string, rest: string, name: string)
    requires IsName(other) && IsName(name) && OpensHere(" " + other + "=\"" + rest, name)
    ensures other == name
  {
    var s := (" " + other + "=\"" + rest)[1..];
    var opening := name + "=\"";
    assert s == other + "=\"" + rest;
    assert s[|name|] == opening[|name|] == '=';
    assert s[|other|] == '=';
    forall k | 0 <= k < |name| ensures s[k] == name[k] && s[k] != '=' { assert s[k] == opening[k]; }
    forall k | 0 <= k < |other| ensures s[k] == other[k] && s[k] != '=' {}
    assert |other| == |name|;
    assert other == s[..|name|];
  }

  lemma ReadsHere(name: string, value: string, rest: string)
    requires IsName(name)
    ensures Read(" " + name + "=\"" + Escape(value) + "\"" + rest, name) == Some(value)
  {
    var tag := " " + name + "=\"" + Escape(value) + "\"" + rest;
    var after := Escape(value) + "\"" + rest;
    assert tag[1..] == (name + "=\"") + after;
    assert tag[1..][|name| + 2..] == after;
    assert after[|Escape(value)|] == '"';
    EscapedHasNoQuote(value);
    QuoteEndsValue(Escape(value), rest);
    DecodeUndoesEscape(value);
  }

  /** Nothing in an opening `other="` opens another name. */
  lemma SkipsOpening(other: string, rest: string, name: string)
    requires IsName(other) && IsName(name) && other != name
    ensures Read(" " + other + "=\"" + rest, name) == Read(rest, name)
  {
    var tag := " " + other + "=\"" + rest;
    if OpensHere(tag, name) { OpensOwnName(other, rest, name); }
    assert tag[1..] == (other + "=\"") + rest;
    SkipsSolid(other + "=\"", rest, name);
  }

  /** An attribute of another name is passed over, unless its value mimics the name. */
  lemma SkipsAttribute(first: Attribute, rest: string, name: string)
    requires IsName(first.name) && IsName(name) && first.name != name && !Mimics(first.value, name)
    ensures Read(" " + first.name + "=\"" + Escape(first.value) + "\"" + rest, name) == Read(rest, name)
  {
    var value := Escape(first.value);
    EscapedHasNoQuote(first.value);
    assert " " + first.name + "=\"" + value + "\"" + rest == " " + first.name + "=\"" + (value + "\"" + rest);
    SkipsOpening(first.name, value + "\"" + rest, name);
    SkipsValue(value, rest, name);
  }

  /** The first attribute up to the one looked for whose value mimics the name; that one itself if none does. */
  ghost function FirstMimic(attributes: seq<Attribute>, at: nat, name: string): (k: nat)
    requires at < |attributes|
    ensures k <= at && (k < at ==> Mimics(attributes[k].value, name))
    ensures forall i | 0 <= i < k :: !Mimics(attributes[i].value, name)
  {
    if at == 0 || Mimics(attributes[0].value, name) then 0 else 1 + FirstMimic(attributes[1..], at - 1, name)
  }

  /** Tags as XML has them: word-shaped names, and no name before its namesake. */
  ghost predicate Distinguishes(attributes: seq<Attribute>, at: nat)
    requires at < |attributes|
  {
    && (forall k | 0 <= k <= at :: IsName(attributes[k].name))
    && (forall k | 0 <= k < at :: attributes[k].name != attributes[at].name)
  }

  /** In a value that mimics the name, the place where it does is where reading starts. */
  lemma {:induction false} ReadsFromMimic(value: string, rest: string, name: string, i: nat)
    requires '"' !in value && IsName(name) && '"' in rest
    requires i < |value| && IsSpace(value[i]) && value[i + 1..] == name + "="
    ensures Read(value + "\"" + rest, name) == Some(DecodeChained(UpToQuote(rest)))
  {
    var s := value + "\"" + rest;
    assert s[1..] == value[1..] + "\"" + rest;
    if i == 0 {
      assert s[1..] == (name + "=\"") + rest by { assert value[1..] + "\"" == name + "=\""; }
      assert s[1..][|name| + 2..] == rest;
    } else {
      assert |value[1..]| > |name + "="|;
      if OpensHere(s, name) { OpensOnlyAtEnd(value, rest, name); }
      assert value[1..][i - 1] == value[i] && value[1..][i - 1 + 1..] == value[i + 1..];
      ReadsFromMimic(value[1..], rest, name, i - 1);
    }
  }

  /** Word characters, a blank and an equals sign are written as they are. */
  lemma {:induction false} PlainIsEscaped(s: string)
    requires forall k | 0 <= k < |s| :: IsWord(s[k]) || s[k] == ' ' || s[k] == '='
    ensures Escape(s) == s
  {
    if s != "" {
      PlainIsEscaped(s[1..]);
      assert [s[0]] + s[1..] == s;
    }
  }

  /** What stands between a closing quote and the next quote is the next attribute's opening. */
  lemma OpeningIsRead(next: Attribute, rest: string)
    requires IsName(next.name)
    ensures var tag := " " + next.name + "=\"" + Escape(next.value) + "\"" + rest;
            '"' in tag && DecodeChained(UpToQuote(tag)) == " " + next.name + "="
  {
    var opening, after := " " + next.name + "=", Escape(next.value) + "\"" + rest;
    var tag := " " + next.name + "=\"" + Escape(next.value) + "\"" + rest;
    assert tag == opening + "\"" + after;
    assert tag[|opening|] == '"';
    QuoteEndsValue(opening, after);
    PlainIsEscaped(opening);
    DecodeUndoesEscape(opening);
  }

  /** What the lookup reads in place of the attribute at `at`, when `k` is the first to mimic its name. */
  function ReadInstead(attributes: seq<Attribute>, at: nat, k: nat): string
    requires k <= at < |attributes|
  {
    if k == at then attributes[at].value else " " + attributes[k + 1].name + "="
  }

  /** A tag's first attribute either is the one read, or passes the reading on, or takes it. */
  lemma MimicTakes(first: Attribute, next: Attribute, rest: string, name: string)
    requires IsName(first.name) && IsName(name) && IsName(next.name) && first.name != name && Mimics(first.value, name)
    ensures var tail := " " + next.name + "=\"" + Escape(next.value) + "\"" + rest;
            Read(" " + first.name + "=\"" + Escape(first.value) + "\"" + tail, name) == Some(" " + next.name + "=")
  {
    var value, tail := Escape(first.value), " " + next.name + "=\"" + Escape(next.value) + "\"" + rest;
    var tag := " " + first.name + "=\"" + value + "\"" + tail;
    EscapedHasNoQuote(first.value);
    assert tag == " " + first.name + "=\"" + (value + "\"" + tail);
    SkipsOpening(first.name, value + "\"" + tail, name);
    OpeningIsRead(next, rest);
    var i :| 0 <= i < |value| && IsSpace(value[i]) && value[i + 1..] == name + "=";
    ReadsFromMimic(value, tail, name, i);
  }

  /** What the lookup reads, whatever the values are: the attribute, or, after the first value that mimics its name,
      the opening of whatever attribute follows that value. */
  lemma ReadsExactly(attributes: seq<Attribute>, at: nat)
    requires at < |attributes| && Distinguishes(attributes, at)
    ensures var name := attributes[at].name;
            Read(Render(attributes), name) == Some(ReadInstead(attributes, at, FirstMimic(attributes, at, name)))
  {
    var name := attributes[at].name;
    var tag := Render(attributes);
    var found := ReadInstead(attributes, at, FirstMimic(attributes, at, name));
    ReadsFrom(attributes, at, name, tag, Read(tag, name), found);
  }

  lemma {:induction false} ReadsFrom(attributes: seq<Attribute>, at: nat, name: string, tag: string,
                                     read: Option<string>, found: string)
    requires at < |attributes| && Distinguishes(attributes, at) && name == attributes[at].name
    requires tag == Render(attributes) && read == Read(tag, name)
    requires found == ReadInstead(attributes, at, FirstMimic(attributes, at, name))
    ensures read == Some(found)
  {
    if at == 0 || Mimics(attributes[0].value, name) {
      ReadsFirst(attributes, at, name, tag, read);
    } else {
      var later := Render(attributes[1..]);
      PassesFirst(attributes, at, name, tag, later);
      DistinguishesLater(attributes, at);
      InsteadLater(attributes, at, name, found);
      ReadsFrom(attributes[1..], at - 1, name, later, read, found);
    }
  }

  lemma DistinguishesLater(attributes: seq<Attribute>, at: nat)
    requires 0 < at < |attributes| && Distinguishes(attributes, at)
    ensures Distinguishes(attributes[1..], at - 1)
  {}

  lemma InsteadLater(attributes: seq<Attribute>, at: nat, name: string, found: string)
    requires 0 < at < |attributes| && !Mimics(attributes[0].value, name)
    requires found == ReadInstead(attributes, at, FirstMimic(attributes, at, name))
    ensures found == ReadInstead(attributes[1..], at - 1, FirstMimic(attributes[1..], at - 1, name))
  {}

  lemma ReadsFirst(attributes: seq<Attribute>, at: nat, name: string, tag: string, read: Option<string>)
    requires at < |attributes| && Distinguishes(attributes, at) && name == attributes[at].name
    requires tag == Render(attributes) && read == Read(tag, name) && (at == 0 || Mimics(attributes[0].value, name))
    ensures read == Some(ReadInstead(attributes, at, 0))
  {
    var first, rest := attributes[0], attributes[1..];
    RenderedByHead(attributes);
    if at == 0 {
      ReadsHere(first.name, first.value, Render(rest));
    } else {
      RenderedByHead(rest);
      MimicTakes(first, rest[0], Render(rest[1..]), name);
    }
  }

  lemma PassesFirst(attributes: seq<Attribute>, at: nat, name: string, tag: string, later: string)
    requires 0 < at < |attributes| && Distinguishes(attributes, at) && name == attributes[at].name
    requires tag == Render(attributes) && later == Render(attributes[1..]) && !Mimics(attributes[0].value, name)
    ensures Read(tag, name) == Read(later, name)
  {
    RenderedByHead(attributes);
    SkipsAttribute(attributes[0], later, name);
  }

  lemma RenderedByHead(attributes: seq<Attribute>)
    requires attributes != []
    ensures Render(attributes) ==
            " " + attributes[0].name + "=\"" + Escape(attributes[0].value) + "\"" + Render(attributes[1..])
  {}

  /** An attribute is read back exactly when no value before it mimics its name, or when it happens to be worth the
      very text that is read instead. */
  lemma ReadsBack(attributes: seq<Attribute>, at: nat)
    requires at < |attributes| && Distinguishes(attributes, at)
    ensures var name, value := attributes[at].name, attributes[at].value;
            var k := FirstMimic(attributes, at, name);
            && (k == at <==> forall i | 0 <= i < at :: !Mimics(attributes[i].value, name))
            && (Read(Render(attributes), name) == Some(value) <==>
               k == at || value == " " + attributes[k + 1].name + "=")
  {
    ReadsExactly(attributes, at);
  }

  lemma EndsLikeOpening(start: string, name: string)
    requires IsName(name) && forall k | 0 <= k < |start| :: IsWord(start[k]) || start[k] == ' '
    ensures Mimics(start + " " + name + "=", name)
  {
    var value := start + " " + name + "=";
    PlainIsEscaped(value);
    assert IsSpace(value[|start|]) && value[|start| + 1..] == name + "=";
  }

  /** A test whose name ends like the opening of its file's attribute is filed under an opening. */
  lemma MimicIsMisread()
    ensures Read(Render([Attribute("name", "sets the file="), Attribute("file", "a.ts")]), "file") == Some(" file=")
  {
    var title := "sets the file=";
    assert "sets the" + " " + "file" + "=" == title && " " + "file" + "=" == " file=";
    EndsLikeOpening("sets the", "file");
    MimickedTag([Attribute("name", title), Attribute("file", "a.ts")]);
  }

  lemma MimickedTag(tag: seq<Attribute>)
    requires |tag| == 2 && tag[0].name == "name" && tag[1].name == "file" && Mimics(tag[0].value, "file")
    ensures Read(Render(tag), "file") == Some(" " + "file" + "=")
  {
    assert "name"[0] != "file"[0] && IsName("name") && IsName("file");
    ReadsExactly(tag, 1);
  }
}
