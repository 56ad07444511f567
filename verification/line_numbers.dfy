/** Offsets to line numbers, in two ways that agree: counting newlines, and halving a table of line starts. */
module LineNumbers {
  import opened Text

  /** Newlines before an offset; offsets outside the text count nothing more. */
  function Newlines(text: string, offset: int): nat
    decreases |text|
  {
    if text == "" || offset <= 0 then 0
    else (if text[0] == '\n' then 1 else 0) + Newlines(text[1..], offset - 1)
  }

  function LineOf(text: string, offset: int): nat {
    1 + Newlines(text, offset)
  }

  lemma {:induction false} NewlinesFurther(text: string, offset: nat)
    requires offset < |text|
    ensures Newlines(text, offset + 1) == Newlines(text, offset) + (if text[offset] == '\n' then 1 else 0)
  {
    if offset > 0 { NewlinesFurther(text[1..], offset - 1); }
  }

  lemma {:induction false} NothingPastTheEnd(text: string, offset: int)
    requires offset >= |text|
    ensures Newlines(text, offset) == Newlines(text, |text|)
  {
    if text != "" { NothingPastTheEnd(text[1..], offset - 1); }
  }

  /** The line an offset falls on is the last of the lines of what is before it. */
  lemma {:induction false} LineIsLastPiece(text: string, offset: nat)
    requires offset <= |text|
    ensures LineOf(text, offset) == |Split(text[..offset], '\n')|
  {
    if offset > 0 {
      LineIsLastPiece(text[1..], offset - 1);
      assert text[..offset][1..] == text[1..][..offset - 1];
    }
  }

  /** The linear count. */
  method LineAt(text: string, offset: int) returns (line: nat)
    ensures line == LineOf(text, offset)
  {
    line := 1;
    var index := 0;
    while index < offset && index < |text|
      invariant 0 <= index <= |text| && (index <= offset || index == 0) && line == 1 + Newlines(text, index)
    {
      NewlinesFurther(text, index);
      if text[index] == '\n' { line := line + 1; }
      index := index + 1;
    }
    if offset > |text| { NothingPastTheEnd(text, offset); }
  }

  // ----- line starts -----

  /** Where the lines of the first `n` characters start: at zero, and after every newline. */
  function Starts(text: string, n: nat): (starts: seq<nat>)
    requires n <= |text|
    ensures starts != [] && forall k | 0 <= k < |starts| :: starts[k] <= n
  {
    if n == 0 then [0] else Starts(text, n - 1) + (if text[n - 1] == '\n' then [n] else [])
  }

  lemma {:induction false} StartsAreCounted(text: string, n: nat)
    requires n <= |text|
    ensures |Starts(text, n)| == LineOf(text, n)
  {
    if n > 0 {
      StartsAreCounted(text, n - 1);
      NewlinesFurther(text, n - 1);
    }
  }

  lemma {:induction false} NewlinesGrow(text: string, from: int, to: int)
    requires from <= to
    ensures Newlines(text, from) <= Newlines(text, to)
    decreases |text|
  {
    if text != "" && from > 0 { NewlinesGrow(text[1..], from - 1, to - 1); }
  }

  /** A line starts at or before an offset exactly when the line count there reaches it. */
  lemma {:induction false} StartsUpTo(text: string, n: nat, offset: nat, i: nat)
    requires n <= |text| && i < |Starts(text, n)|
    ensures Starts(text, n)[i] <= offset <==> i < LineOf(text, if offset < n then offset else n)
  {
    StartsAreCounted(text, n);
    if offset < n {
      StartsAreCounted(text, n - 1);
      if i < |Starts(text, n - 1)| {
        StartsUpTo(text, n - 1, offset, i);
      } else {
        NewlinesGrow(text, offset, n - 1);
      }
    }
  }

  lemma {:induction false} StartsSkip(text: string, from: nat, to: nat)
    requires from <= to <= |text| && forall k | from <= k < to :: text[k] != '\n'
    ensures Starts(text, from) == Starts(text, to)
  {
    if from < to {
      StartsSkip(text, from, to - 1);
      assert text[to - 1] != '\n';
    }
  }

  /** The first newline from an offset on, or the length of the text. */
  method IndexOfNewline(text: string, start: nat) returns (at: nat)
    requires start <= |text|
    ensures start <= at <= |text| && (at < |text| ==> text[at] == '\n')
    ensures forall k | start <= k < at :: text[k] != '\n'
  {
    at := start;
    while at < |text| && text[at] != '\n'
      invariant start <= at <= |text| && forall k | start <= k < at :: text[k] != '\n'
    {
      at := at + 1;
    }
  }

  method LineStarts(text: string) returns (starts: seq<nat>)
    ensures starts == Starts(text, |text|)
  {
    starts := [0];
    var at := IndexOfNewline(text, 0);
    StartsSkip(text, 0, at);
    while at < |text|
      invariant at <= |text| && starts == Starts(text, at) && (at < |text| ==> text[at] == '\n')
      decreases |text| - at
    {
      starts := starts + [at + 1];
      var next := IndexOfNewline(text, at + 1);
      StartsSkip(text, at + 1, next);
      at := next;
    }
  }

  /** A start found by halving names the line the linear count gives, for every offset, in the text or not. */
  lemma LastStartNamesLine(text: string, offset: int, low: nat)
    requires low < |Starts(text, |text|)|
    requires low > 0 ==> Starts(text, |text|)[low] <= offset
    requires low + 1 < |Starts(text, |text|)| ==> Starts(text, |text|)[low + 1] > offset
    ensures LineOf(text, offset) == low + 1
  {
    var n := |text|;
    StartsAreCounted(text, n);
    if offset >= n { NothingPastTheEnd(text, offset); }
    if offset >= 0 {
      StartsUpTo(text, n, offset, low);
      if low + 1 < |Starts(text, n)| { StartsUpTo(text, n, offset, low + 1); }
      NewlinesGrow(text, offset, if offset < n then n else offset);
    }
  }

  /** The binary search over the starts of a text's lines gives the line that counting gives. */
  method LineByHalving(text: string, starts: seq<nat>, offset: int) returns (line: nat)
    requires starts == Starts(text, |text|)
    ensures line == LineOf(text, offset)
  {
    var low, high := 0, |starts| - 1;
    while low < high
      invariant 0 <= low <= high < |starts|
      invariant low > 0 ==> starts[low] <= offset
      invariant high + 1 < |starts| ==> starts[high + 1] > offset
    {
      var middle := (low + high + 1) / 2;
      if starts[middle] <= offset { low := middle; } else { high := middle - 1; }
    }
    LastStartNamesLine(text, offset, low);
    line := low + 1;
  }
}
