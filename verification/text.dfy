/**
 Joining messages into one multi-line diagnostic, and splitting it back.

 `Join` is JavaScript's `Array.prototype.join` with a one-character
 separator; `Lines` splits a string at every newline. Together they show
 that the fatal diagnostic carries every error message, one per line.
 */
module Text {

  /** `xs.join(sep)`: the empty list joins to `""`, one element to itself. */
  function Join(xs: seq<string>, sep: char): (s: string)
    ensures |xs| == 1 ==> s == xs[0]
    ensures |xs| == 0 ==> s == ""
    ensures forall c :: c in s && c != sep ==> exists i :: 0 <= i < |xs| && c in xs[i]
  {
    if |xs| == 0 then ""
    else if |xs| == 1 then xs[0]
    else xs[0] + [sep] + Join(xs[1..], sep)
  }

  /** A string with no line break in it. */
  predicate SingleLine(s: string)
  {
    '\n' !in s
  }

  /**
   `s` with every line break replaced by a space: the result is one line, as
   long as `s`, and keeps every character of `s` that is not a line break.
   */
  function OneLine(s: string): (t: string)
    ensures |t| == |s|
    ensures SingleLine(t)
    ensures forall i :: 0 <= i < |s| && s[i] != '\n' ==> t[i] == s[i]
  {
    seq(|s|, i requires 0 <= i < |s| => if s[i] == '\n' then ' ' else s[i])
  }

  /** Splits a string at every newline; there is always at least one line. */
  function Lines(s: string): (ls: seq<string>)
    ensures |ls| > 0
    ensures forall i :: 0 <= i < |ls| ==> SingleLine(ls[i])
  {
    if |s| == 0 then [""]
    else
      var rest := Lines(s[1..]);
      if s[0] == '\n' then [""] + rest
      else [[s[0]] + rest[0]] + rest[1..]
  }

  /** A prefix with no newline extends the first line and leaves the rest. */
  lemma {:induction false} LinesOfSingleLinePrefix(a: string, b: string)
    requires SingleLine(a)
    ensures Lines(a + b) == [a + Lines(b)[0]] + Lines(b)[1..]
  {
    if |a| == 0 {
      assert a + b == b;
      assert a + Lines(b)[0] == Lines(b)[0];
      assert [Lines(b)[0]] + Lines(b)[1..] == Lines(b);
    } else {
      assert (a + b)[1..] == a[1..] + b;
      LinesOfSingleLinePrefix(a[1..], b);
      assert [a[0]] + (a[1..] + Lines(b)[0]) == a + Lines(b)[0];
    }
  }

  /** A single line splits to itself. */
  lemma LinesOfSingleLine(a: string)
    requires SingleLine(a)
    ensures Lines(a) == [a]
  {
    LinesOfSingleLinePrefix(a, "");
    assert a + "" == a;
  }

  /** A line followed by a newline is split off as the first line. */
  lemma LinesOfLineThenBreak(a: string, b: string)
    requires SingleLine(a)
    ensures Lines(a + "\n" + b) == [a] + Lines(b)
  {
    assert a + "\n" + b == a + ("\n" + b);
    LinesOfSingleLinePrefix(a, "\n" + b);
    assert ("\n" + b)[0] == '\n' && ("\n" + b)[1..] == b;
    assert Lines("\n" + b) == [""] + Lines(b);
    assert a + "" == a;
  }

  /**
   Round trip: joining single-line messages with newlines and splitting the
   result gives back exactly the messages, in order.
   */
  lemma {:induction false} LinesOfJoin(xs: seq<string>)
    requires |xs| > 0
    requires forall i :: 0 <= i < |xs| ==> SingleLine(xs[i])
    ensures Lines(Join(xs, '\n')) == xs
  {
    if |xs| == 1 {
      LinesOfSingleLine(xs[0]);
    } else {
      LinesOfJoin(xs[1..]);
      assert xs[0] + ['\n'] + Join(xs[1..], '\n') == xs[0] + "\n" + Join(xs[1..], '\n');
      LinesOfLineThenBreak(xs[0], Join(xs[1..], '\n'));
      assert [xs[0]] + xs[1..] == xs;
    }
  }
}
