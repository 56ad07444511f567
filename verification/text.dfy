/** Plain string operations shared by the models. Strings are sequences of code units. */
module Text {

  /** What the regular expression class `\s` matches, and what `trim` removes. */
  predicate IsSpace(c: char) {
    || '\t' <= c <= '\r' || c == ' ' || c == '\U{a0}' || c == '\U{1680}' || '\U{2000}' <= c <= '\U{200a}'
    || c == '\U{2028}' || c == '\U{2029}' || c == '\U{202f}' || c == '\U{205f}' || c == '\U{3000}' || c == '\U{feff}'
  }

  /** White space and line terminators, by code point (sections 12.2 and 12.3 of ECMA-262). */
  lemma SpacesAreSpelled(c: char, code: int)
    requires code == c as int
    ensures IsSpace(c) <==>
            || 9 <= code <= 13 || code == 32 || code == 0xa0 || code == 0x1680 || 0x2000 <= code <= 0x200a
            || code == 0x2028 || code == 0x2029 || code == 0x202f || code == 0x205f || code == 0x3000 || code == 0xfeff
  {}

  predicate IsLetter(c: char) {
    'a' <= c <= 'z' || 'A' <= c <= 'Z'
  }

  predicate IsDigit(c: char) {
    '0' <= c <= '9'
  }

  /** What the regular expression class `\w` matches. */
  predicate IsWord(c: char) {
    IsLetter(c) || IsDigit(c) || c == '_'
  }

  function TrimStart(s: string): string {
    if s != "" && IsSpace(s[0]) then TrimStart(s[1..]) else s
  }

  function TrimEnd(s: string): string {
    if s != "" && IsSpace(s[|s| - 1]) then TrimEnd(s[..|s| - 1]) else s
  }

  predicate StartsWith(s: string, prefix: string) {
    prefix <= s
  }

  predicate EndsWith(s: string, suffix: string) {
    |suffix| <= |s| && s[|s| - |suffix|..] == suffix
  }

  function Join(parts: seq<string>, separator: string): string {
    if |parts| == 0 then ""
    else if |parts| == 1 then parts[0]
    else parts[0] + separator + Join(parts[1..], separator)
  }

  /** One more part goes to the end, after a separator. */
  lemma {:induction false} JoinOneMore(parts: seq<string>, last: string, separator: string)
    requires parts != []
    ensures Join(parts + [last], separator) == Join(parts, separator) + separator + last
    decreases |parts|
  {
    var longer := parts + [last];
    if |parts| == 1 {
      assert longer[1..] == [last];
    } else {
      assert longer[1..] == parts[1..] + [last];
      JoinOneMore(parts[1..], last, separator);
      assert parts[0] + separator + (Join(parts[1..], separator) + separator + last) ==
             Join(parts, separator) + separator + last;
    }
  }

  /** The pieces between occurrences of `separator`; never empty. */
  function Split(s: string, separator: char): (pieces: seq<string>)
    ensures |pieces| > 0
  {
    if s == "" then [""]
    else if s[0] == separator then [""] + Split(s[1..], separator)
    else var rest := Split(s[1..], separator); [[s[0]] + rest[0]] + rest[1..]
  }

  /** The pieces of a text, joined again, are the text; none of them holds the separator. */
  lemma {:induction false} JoinOfSplit(s: string, separator: char, pieces: seq<string>)
    requires pieces == Split(s, separator)
    ensures Join(pieces, [separator]) == s && forall piece | piece in pieces :: separator !in piece
  {
    if s != "" {
      var rest := Split(s[1..], separator);
      JoinOfSplit(s[1..], separator, rest);
      if s[0] == separator {
        assert pieces[1..] == rest;
      } else {
        assert pieces[1..] == rest[1..];
      }
    }
  }

  /** What the first pieces join to, with a separator after it, begins what all of them join to. */
  lemma {:induction false} JoinBegins(parts: seq<string>, separator: string, k: nat)
    requires 0 < k < |parts|
    ensures Join(parts[..k], separator) + separator <= Join(parts, separator)
  {
    if k > 1 {
      assert parts[..k][1..] == parts[1..][..k - 1];
      JoinBegins(parts[1..], separator, k - 1);
    }
  }

  /** Splitting at the separator undoes joining with it. */
  lemma {:induction false} SplitFirst(head: string, separator: char, rest: string)
    requires separator !in head
    ensures Split(head + [separator] + rest, separator) == [head] + Split(rest, separator)
  {
    var s := head + [separator] + rest;
    if head == "" {
      assert s[1..] == rest;
    } else {
      assert s[1..] == head[1..] + [separator] + rest;
      SplitFirst(head[1..], separator, rest);
      assert [head[0]] + head[1..] == head;
    }
  }

  lemma {:induction false} SplitNone(s: string, separator: char)
    requires separator !in s
    ensures Split(s, separator) == [s]
  {
    if s != "" {
      SplitNone(s[1..], separator);
      assert [s[0]] + s[1..] == s;
    }
  }
}
