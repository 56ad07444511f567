/** The two decoders of the predefined XML entities: a chain of whole-text replacements, and a single pass. */
module Entities {
  import opened Text

  /** An entity is an ampersand, a body that ends in a semicolon, and the character it stands for. */
  datatype Entity = Entity(body: string, character: char)

  const LT := Entity("lt;", '<')
  const GT := Entity("gt;", '>')
  const QUOT := Entity("quot;", '"')
  const APOS := Entity("apos;", '\'')
  const AMP := Entity("amp;", '&')

  const TABLE := [LT, GT, QUOT, APOS, AMP]

  predicate Begins(s: string, entity: Entity) {
    s != "" && s[0] == '&' && StartsWith(s[1..], entity.body)
  }

  function Skip(s: string, entity: Entity): string
    requires Begins(s, entity)
  {
    s[1..][|entity.body|..]
  }

  /** Every occurrence of one entity, left to right. */
  function ReplaceAll(s: string, entity: Entity): string
    decreases |s|
  {
    if s == "" then ""
    else if Begins(s, entity) then [entity.character] + ReplaceAll(Skip(s, entity), entity)
    else [s[0]] + ReplaceAll(s[1..], entity)
  }

  /** The decoder of the quarantine and of the end-to-end split: five replacements, the ampersand last. */
  function DecodeChained(s: string): string {
    ReplaceAll(ReplaceAll(ReplaceAll(ReplaceAll(ReplaceAll(s, LT), GT), QUOT), APOS), AMP)
  }

  /** The decoder of the unit timings: each entity is replaced where it stands, and nothing is looked at twice. */
  function DecodeOnce(s: string): string
    decreases |s|
  {
    if s == "" then ""
    else if Begins(s, QUOT) then "\"" + DecodeOnce(Skip(s, QUOT))
    else if Begins(s, APOS) then "'" + DecodeOnce(Skip(s, APOS))
    else if Begins(s, LT) then "<" + DecodeOnce(Skip(s, LT))
    else if Begins(s, GT) then ">" + DecodeOnce(Skip(s, GT))
    else if Begins(s, AMP) then "&" + DecodeOnce(Skip(s, AMP))
    else [s[0]] + DecodeOnce(s[1..])
  }

  // ----- one pass over any table of entities -----

  function FirstOf(s: string, table: seq<Entity>): (at: nat)
    ensures at <= |table| && (at < |table| ==> Begins(s, table[at])) && forall k | 0 <= k < at :: !Begins(s, table[k])
  {
    if table == [] || Begins(s, table[0]) then 0 else 1 + FirstOf(s, table[1..])
  }

  function Pass(s: string, table: seq<Entity>): string
    decreases |s|
  {
    if s == "" then ""
    else
      var at := FirstOf(s, table);
      if at < |table| then [table[at].character] + Pass(Skip(s, table[at]), table) else [s[0]] + Pass(s[1..], table)
  }

  /** Replacing the entities of the table cannot make or break an occurrence of this one. */
  ghost predicate Independent(table: seq<Entity>, entity: Entity) {
    && '&' !in entity.body
    && forall k | 0 <= k < |table| ::
         && table[k].character != '&' && table[k].character !in entity.body
         && !StartsWith(table[k].body, entity.body) && !StartsWith(entity.body, table[k].body)
  }

  /** A pass neither makes nor breaks a prefix that holds no ampersand and no replacement. */
  lemma {:induction false} PassKeepsPrefix(s: string, table: seq<Entity>, prefix: string)
    requires '&' !in prefix && forall k | 0 <= k < |table| :: table[k].character !in prefix
    ensures StartsWith(Pass(s, table), prefix) <==> StartsWith(s, prefix)
    decreases |prefix|
  {
    if prefix != "" && s != "" {
      var at := FirstOf(s, table);
      var out := Pass(s, table);
      if at < |table| {
        assert out[0] == table[at].character && out[0] != prefix[0];
      } else {
        PassKeepsPrefix(s[1..], table, prefix[1..]);
        PrefixByHead(out, prefix);
        PrefixByHead(s, prefix);
        assert out[1..] == Pass(s[1..], table);
      }
    }
  }

  lemma PrefixByHead(s: string, prefix: string)
    requires s != "" && prefix != ""
    ensures StartsWith(s, prefix) <==> s[0] == prefix[0] && StartsWith(s[1..], prefix[1..])
  {
    if s[0] == prefix[0] && StartsWith(s[1..], prefix[1..]) {
      assert prefix == [prefix[0]] + prefix[1..];
      assert s[..|prefix|] == [s[0]] + s[1..][..|prefix| - 1];
    }
    if StartsWith(s, prefix) {
      assert s[1..][..|prefix| - 1] == s[..|prefix|][1..];
    }
  }

  lemma {:induction false} PassLeavesBody(body: string, rest: string, table: seq<Entity>)
    requires '&' !in body
    ensures Pass(body + rest, table) == body + Pass(rest, table)
    decreases |body|
  {
    if body == "" {
      assert body + rest == rest;
    } else {
      var s := body + rest;
      assert s[0] == body[0] && s[1..] == body[1..] + rest;
      assert FirstOf(s, table) == |table|;
      PassLeavesBody(body[1..], rest, table);
    }
  }

  lemma {:induction false} FirstOfLonger(s: string, table: seq<Entity>, entity: Entity)
    ensures FirstOf(s, table + [entity]) ==
            if FirstOf(s, table) < |table| then FirstOf(s, table) else if Begins(s, entity) then |table|
              else |table| + 1
  {
    if table != [] {
      FirstOfLonger(s, table[1..], entity);
      assert (table + [entity])[1..] == table[1..] + [entity];
    } else {
      assert (table + [entity])[1..] == [];
    }
  }

  /** An independent replacement after a pass is one pass over the longer table. */
  lemma {:induction false} OneMoreEntity(s: string, table: seq<Entity>, entity: Entity)
    requires Independent(table, entity)
    ensures ReplaceAll(Pass(s, table), entity) == Pass(s, table + [entity])
    decreases |s|
  {
    if s != "" {
      var at, out := FirstOf(s, table), Pass(s, table);
      var longer := table + [entity];
      FirstOfLonger(s, table, entity);
      if at < |table| {
        OneMoreEntity(Skip(s, table[at]), table, entity);
        assert out[1..] == Pass(Skip(s, table[at]), table);
        assert longer[at] == table[at];
      } else if Begins(s, entity) {
        var rest := Skip(s, entity);
        assert s[1..] == entity.body + rest;
        PassLeavesBody(entity.body, rest, table);
        assert out[1..] == entity.body + Pass(rest, table);
        assert Begins(out, entity) && Skip(out, entity) == Pass(rest, table);
        OneMoreEntity(rest, table, entity);
        assert longer[|table|] == entity;
      } else {
        assert out[1..] == Pass(s[1..], table);
        if s[0] == '&' {
          PassKeepsPrefix(s[1..], table, entity.body);
        }
        OneMoreEntity(s[1..], table, entity);
      }
    }
  }

  lemma {:induction false} EmptyPass(s: string)
    ensures Pass(s, []) == s
    decreases |s|
  {
    if s != "" { EmptyPass(s[1..]); }
  }

  // ----- the decoders -----

  lemma IndependentEntities()
    ensures Independent([], LT) && Independent([LT], GT) && Independent([LT, GT], QUOT)
    ensures Independent([LT, GT, QUOT], APOS) && Independent([LT, GT, QUOT, APOS], AMP)
  {
    assert LT.body[0] == 'l' && GT.body[0] == 'g' && QUOT.body[0] == 'q' && APOS.body[0] == 'a' && AMP.body[0] == 'a';
    assert APOS.body[1] == 'p' && AMP.body[1] == 'm';
  }

  lemma ChainIsPass(s: string)
    ensures DecodeChained(s) == Pass(s, TABLE)
  {
    IndependentEntities();
    EmptyPass(s);
    OneMoreEntity(s, [], LT);
    assert [] + [LT] == [LT];
    OneMoreEntity(s, [LT], GT);
    assert [LT] + [GT] == [LT, GT];
    OneMoreEntity(s, [LT, GT], QUOT);
    assert [LT, GT] + [QUOT] == [LT, GT, QUOT];
    OneMoreEntity(s, [LT, GT, QUOT], APOS);
    assert [LT, GT, QUOT] + [APOS] == [LT, GT, QUOT, APOS];
    OneMoreEntity(s, [LT, GT, QUOT, APOS], AMP);
    assert [LT, GT, QUOT, APOS] + [AMP] == TABLE;
  }

  /** No text begins with two of the five. */
  lemma BeginsOne(s: string, a: Entity, b: Entity)
    requires a in {LT, GT, QUOT, APOS, AMP} && b in {LT, GT, QUOT, APOS, AMP} && Begins(s, a) && Begins(s, b)
    ensures a == b
  {
    assert LT.body[0] == 'l' && GT.body[0] == 'g' && QUOT.body[0] == 'q' && APOS.body[0] == 'a' && AMP.body[0] == 'a';
    assert APOS.body[1] == 'p' && AMP.body[1] == 'm';
    assert s[1..][0] == a.body[0] == b.body[0] && s[1..][1] == a.body[1] == b.body[1];
  }

  lemma {:induction false} OnceIsPass(s: string)
    ensures DecodeOnce(s) == Pass(s, TABLE)
    decreases |s|
  {
    if s != "" {
      var table := TABLE;
      var at := FirstOf(s, table);
      if at < |table| {
        OnceIsPass(Skip(s, table[at]));
        forall other | other in {LT, GT, QUOT, APOS, AMP} && Begins(s, other) ensures other == table[at] {
          BeginsOne(s, other, table[at]);
        }
      } else {
        assert !Begins(s, table[0]) && !Begins(s, table[1]) && !Begins(s, table[2]) && !Begins(s, table[3])
          && !Begins(s, table[4]);
        OnceIsPass(s[1..]);
      }
    }
  }

  /** The chained replacements equal the single pass on every text. */
  lemma DecodersAgree(s: string)
    ensures DecodeChained(s) == DecodeOnce(s)
  {
    ChainIsPass(s);
    OnceIsPass(s);
  }

  function EscapeOne(c: char): string {
    if c == '<' then "&" + LT.body
    else if c == '>' then "&" + GT.body
    else if c == '"' then "&" + QUOT.body
    else if c == '\'' then "&" + APOS.body
    else if c == '&' then "&" + AMP.body
    else [c]
  }

  function Escape(s: string): string {
    if s == "" then "" else EscapeOne(s[0]) + Escape(s[1..])
  }

  /** The entity a special character is escaped to. */
  function EntityOf(c: char): (entity: Entity)
    requires c in "<>\"'&"
    ensures entity in {LT, GT, QUOT, APOS, AMP} && entity.character == c && EscapeOne(c) == "&" + entity.body
  {
    if c == '<' then LT else if c == '>' then GT else if c == '"' then QUOT else if c == '\'' then APOS else AMP
  }

  lemma TableHolds(entity: Entity) returns (at: nat)
    requires entity in {LT, GT, QUOT, APOS, AMP}
    ensures at < |TABLE| && TABLE[at] == entity
  {
    at := if entity == LT then 0
          else if entity == GT then 1
          else if entity == QUOT then 2
          else if entity == APOS then 3
          else 4;
  }

  lemma PassReadsEntity(entity: Entity, rest: string)
    requires entity in {LT, GT, QUOT, APOS, AMP}
    ensures Pass("&" + entity.body + rest, TABLE) == [entity.character] + Pass(rest, TABLE)
  {
    var s := "&" + entity.body + rest;
    assert s[1..] == entity.body + rest;
    assert Begins(s, entity) && Skip(s, entity) == rest;
    var at := TableHolds(entity);
    var first := FirstOf(s, TABLE);
    assert first <= at;
    assert TABLE[first] in {LT, GT, QUOT, APOS, AMP};
    BeginsOne(s, TABLE[first], entity);
  }

  lemma {:induction false} PassUndoesEscape(s: string)
    ensures Pass(Escape(s), TABLE) == s
  {
    if s != "" {
      PassUndoesEscape(s[1..]);
      var rest := Escape(s[1..]);
      if s[0] in "<>\"'&" {
        var entity := EntityOf(s[0]);
        assert Escape(s) == "&" + entity.body + rest;
        PassReadsEntity(entity, rest);
      } else {
        assert Escape(s) == [s[0]] + rest;
        AmpersandIsSpecial();
        PlainCharacterPasses(s[0], rest);
      }
    }
  }

  lemma AmpersandIsSpecial()
    ensures '&' in "<>\"'&"
  {
    assert "<>\"'&"[4] == '&';
  }

  lemma PlainCharacterPasses(c: char, rest: string)
    requires c != '&'
    ensures Pass([c] + rest, TABLE) == [c] + Pass(rest, TABLE)
  {
    var s := [c] + rest;
    assert s[1..] == rest;
    assert FirstOf(s, TABLE) == |TABLE|;
  }

  /** Every decoder inverts the escaping of the five predefined entities. */
  lemma DecodeUndoesEscape(s: string)
    ensures DecodeChained(Escape(s)) == s && DecodeOnce(Escape(s)) == s
  {
    ChainIsPass(Escape(s));
    OnceIsPass(Escape(s));
    PassUndoesEscape(s);
  }

  /** The five predefined entities (section 4.6 of XML 1.0), spelled out. */
  lemma PredefinedEntities(written: map<char, string>)
    requires written == map['<' := "&lt;", '>' := "&gt;", '&' := "&amp;", '"' := "&quot;", '\'' := "&apos;"]
    ensures forall c | c in written :: ReadsAs(written[c], c)
  {
    forall c | c in written ensures ReadsAs(written[c], c) {
      OneEscape(c, written[c], ReadsAs(written[c], c));
    }
  }

  /** The text is how the character is written in a report, and both decoders read it as that character. */
  predicate ReadsAs(escaped: string, c: char) {
    Escape([c]) == escaped && DecodeChained(escaped) == [c] && DecodeOnce(escaped) == [c]
  }

  lemma OneEscape(c: char, escaped: string, ok: bool)
    requires escaped == EscapeOne(c) && ok == ReadsAs(escaped, c)
    ensures ok
  {
    assert [c][1..] == "" && EscapeOne(c) + "" == EscapeOne(c);
    DecodeUndoesEscape([c]);
  }
}
