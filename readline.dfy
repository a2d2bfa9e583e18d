/** The line splitting of Node's `readline` interface with `crlfDelay: Infinity`:
    a line ends at "\n", at "\r\n" (always one break) or at a lone "\r"; the text
    after the last break is a line only when it is not empty, so a file that
    ends with a newline has no empty last line and an empty file has no lines. */
module Readline {

  predicate IsBreak(c: char) {
    c == '\n' || c == '\r'
  }

  predicate NoBreaks(line: string) {
    forall j :: 0 <= j < |line| ==> !IsBreak(line[j])
  }

  lemma NoBreaksAppend(a: string, b: string)
    requires NoBreaks(a) && NoBreaks(b)
    ensures NoBreaks(a + b)
  {
    forall j | 0 <= j < |a + b| ensures !IsBreak((a + b)[j]) {
      if j < |a| {
        assert (a + b)[j] == a[j];
      } else {
        assert (a + b)[j] == b[j - |a|];
      }
    }
  }

  /** Index of the first line break in `s`, or `|s|` when there is none. */
  function BreakAt(s: string): (k: nat)
    ensures k <= |s|
    ensures NoBreaks(s[..k])
    ensures k < |s| ==> IsBreak(s[k])
  {
    if s == [] then 0
    else if IsBreak(s[0]) then 0
    else
      var k := 1 + BreakAt(s[1..]);
      assert s[..k] == [s[0]] + s[1..][..k - 1];
      k
  }

  /** The lines `readline` emits for the text `s`, in order. */
  function Lines(s: string): (lines: seq<string>)
    ensures forall j :: 0 <= j < |lines| ==> NoBreaks(lines[j])
    decreases |s|
  {
    if s == [] then []
    else
      var k := BreakAt(s);
      if k == |s| then [s]
      else if s[k] == '\r' && k + 1 < |s| && s[k + 1] == '\n' then [s[..k]] + Lines(s[k + 2..])
      else [s[..k]] + Lines(s[k + 1..])
  }

  /** The text obtained by writing every line followed by "\n". */
  function Unlines(lines: seq<string>): string {
    if lines == [] then "" else lines[0] + "\n" + Unlines(lines[1..])
  }

  lemma BreakAtLine(line: string, rest: string)
    requires NoBreaks(line) && rest != [] && IsBreak(rest[0])
    ensures BreakAt(line + rest) == |line|
    decreases |line|
  {
    if line != [] {
      assert (line + rest)[1..] == line[1..] + rest;
      BreakAtLine(line[1..], rest);
    }
  }

  lemma BreakAtNone(line: string)
    requires NoBreaks(line)
    ensures BreakAt(line) == |line|
    decreases |line|
  {
    if line != [] {
      BreakAtNone(line[1..]);
    }
  }

  /** Reading back what was written: a line followed by "\n" is read as that line. */
  lemma {:induction false} LinesCons(line: string, rest: string)
    requires NoBreaks(line)
    ensures Lines(line + "\n" + rest) == [line] + Lines(rest)
  {
    var s := line + "\n" + rest;
    BreakAtLine(line, "\n" + rest);
    assert s == line + ("\n" + rest);
    var k := BreakAt(s);
    assert k == |line| && s[k] == '\n';
    assert s[..k] == line;
    assert s[k + 1..] == rest;
  }

  /** Writing lines with "\n" after each and reading the text back gives the same
      lines, followed by a last unterminated line when it is not empty. */
  lemma {:induction false} LinesOfUnlines(lines: seq<string>, last: string)
    requires forall j :: 0 <= j < |lines| ==> NoBreaks(lines[j])
    requires NoBreaks(last)
    ensures Lines(Unlines(lines) + last) == lines + (if last == [] then [] else [last])
  {
    if lines == [] {
      assert Unlines(lines) + last == last;
      if last != [] { BreakAtNone(last); }
    } else {
      calc {
        Lines(Unlines(lines) + last);
        { assert Unlines(lines) + last == lines[0] + "\n" + (Unlines(lines[1..]) + last); }
        Lines(lines[0] + "\n" + (Unlines(lines[1..]) + last));
        { LinesCons(lines[0], Unlines(lines[1..]) + last); }
        [lines[0]] + Lines(Unlines(lines[1..]) + last);
        { LinesOfUnlines(lines[1..], last); }
        [lines[0]] + (lines[1..] + (if last == [] then [] else [last]));
        lines + (if last == [] then [] else [last]);
      }
    }
  }

  predicate NoReturns(s: string) {
    forall j :: 0 <= j < |s| ==> s[j] != '\r'
  }

  /** For text with "\n" line endings, writing the lines read from it back with
      "\n" after each reproduces the text, with a final "\n" added when missing. */
  lemma {:induction false} UnlinesOfLines(s: string)
    requires NoReturns(s)
    ensures Unlines(Lines(s)) == if s == [] || s[|s| - 1] == '\n' then s else s + "\n"
    decreases |s|
  {
    if s != [] {
      var k := BreakAt(s);
      if k == |s| {
        assert Lines(s) == [s];
        assert s[|s| - 1] != '\n' by { assert s[..k][|s| - 1] == s[|s| - 1]; }
      } else {
        var rest := s[k + 1..];
        SplitAtNewline(s, k);
        SplitAround(s, k);
        NoReturnsSuffix(s, k + 1);
        UnlinesOfLines(rest);
        if rest == [] {
          assert s[|s| - 1] == '\n';
        } else {
          assert s[|s| - 1] == rest[|rest| - 1];
        }
      }
    }
  }

  /** A text without "\r" breaks at a "\n": the first line, then the lines of
      what follows. */
  lemma SplitAtNewline(s: string, k: nat)
    requires NoReturns(s) && k == BreakAt(s) && k < |s|
    ensures s[k] == '\n'
    ensures Lines(s) == [s[..k]] + Lines(s[k + 1..])
  {
    assert s[k] != '\r';
  }

  lemma NoReturnsSuffix(s: string, i: nat)
    requires NoReturns(s) && i <= |s|
    ensures NoReturns(s[i..])
  {
    forall j | 0 <= j < |s| - i ensures s[i..][j] != '\r' { assert s[i..][j] == s[i + j]; }
  }

  lemma SplitAround(s: string, k: nat)
    requires k < |s|
    ensures s == s[..k] + [s[k]] + s[k + 1..]
  {
  }
}
