/** Reading a text file line by line and writing it back (src/pheasant/setup_wizard.py, the two ends of
  * merge_env_file). */
module TextLines {
  import opened Text

  /** A character `splitlines` ends a line at, in text already read with newline translation. */
  predicate IsBreak(c: char) {
    var n := c as int;
    10 <= n <= 13 || 28 <= n <= 30 || n == 0x85 || n == 0x2028 || n == 0x2029
  }

  /** Line feed, vertical tab, form feed, carriage return, the three separators, next line, and the line and
    * paragraph separators. */
  lemma BreaksAre(c: char)
    ensures IsBreak(c) <==>
      c in "\n\U{B}\U{C}\r\U{1C}\U{1D}\U{1E}\U{85}\U{2028}\U{2029}"
  {
  }

  predicate Unbroken(s: string) {
    forall i :: 0 <= i < |s| ==> !IsBreak(s[i])
  }

  predicate AllUnbroken(lines: seq<string>) {
    forall i :: 0 <= i < |lines| ==> Unbroken(lines[i])
  }

  /** Whether the last line has no end yet. */
  predicate Unended(s: string) { s != "" && !IsBreak(s[|s| - 1]) }

  /** `s.splitlines()`. */
  function SplitLines(s: string): (lines: seq<string>)
    ensures Unended(s) ==> lines != []
  {
    if s == "" then []
    else
      var before, c := SplitLines(s[..|s| - 1]), s[|s| - 1];
      if Unended(s[..|s| - 1]) then
        if IsBreak(c) then before else before[..|before| - 1] + [before[|before| - 1] + [c]]
      else if IsBreak(c) then before + [""] else before + [[c]]
  }

  lemma {:induction false} SplitUnbroken(s: string)
    ensures AllUnbroken(SplitLines(s))
  {
    if s != "" { SplitUnbroken(s[..|s| - 1]); }
  }

  function RStrip(s: string): string {
    if s != "" && s[|s| - 1] == '\n' then RStrip(s[..|s| - 1]) else s
  }

  /** The text written for these lines. */
  function Written(lines: seq<string>): string {
    var text := RStrip(Join(lines, "\n"));
    if text == "" then "" else text + "\n"
  }

  /** The lines without the empty ones at their end. */
  function Trimmed(lines: seq<string>): seq<string> {
    if lines != [] && lines[|lines| - 1] == "" then Trimmed(lines[..|lines| - 1]) else lines
  }

  /** A character that goes on with the last line. */
  lemma SplitGoesOn(t: string, before: seq<string>, line: string, c: char)
    requires !IsBreak(c) && Unended(t) && SplitLines(t) == before + [line]
    ensures SplitLines(t + [c]) == before + [line + [c]] && Unended(t + [c])
  {
    assert (t + [c])[..|t|] == t;
    assert (before + [line])[..|before|] == before;
  }

  /** A character that starts a line. */
  lemma SplitStarts(t: string, c: char)
    requires !IsBreak(c) && !Unended(t)
    ensures SplitLines(t + [c]) == SplitLines(t) + [[c]] && Unended(t + [c])
  {
    assert (t + [c])[..|t|] == t;
  }

  lemma ConcatAssociates(t: string, line: string, c: char)
    ensures t + (line + [c]) == (t + line) + [c]
  {
  }

  /** Text after the end of a line is a line of its own. */
  lemma {:induction false} SplitAppend(t: string, line: string)
    requires !Unended(t) && Unbroken(line) && line != ""
    ensures SplitLines(t + line) == SplitLines(t) + [line] && Unended(t + line)
  {
    var n := |line| - 1;
    var first, c := line[..n], line[n];
    assert line == first + [c];
    if n == 0 {
      SplitStarts(t, c);
      assert line == [c];
    } else {
      SplitAppend(t, first);
      SplitGoesOn(t + first, SplitLines(t), first, c);
      ConcatAssociates(t, first, c);
    }
  }

  lemma SplitLine(t: string, line: string)
    requires !Unended(t) && Unbroken(line)
    ensures SplitLines(t + line + "\n") == SplitLines(t) + [line]
    ensures !Unended(t + line + "\n")
  {
    var s := t + line + "\n";
    assert s[..|s| - 1] == t + line;
    if line != "" { SplitAppend(t, line); } else { assert t + line == t; }
  }

  lemma {:induction false} JoinedSplits(lines: seq<string>)
    requires AllUnbroken(lines)
    requires lines != []
    ensures SplitLines(Join(lines, "\n") + "\n") == lines
    ensures !Unended(Join(lines, "\n") + "\n")
  {
    var n := |lines| - 1;
    if n == 0 {
      SplitLine("", lines[0]);
      assert "" + lines[0] == lines[0];
      assert lines == [lines[0]];
    } else {
      JoinedSplits(lines[..n]);
      SplitLine(Join(lines[..n], "\n") + "\n", lines[n]);
      assert lines == lines[..n] + [lines[n]];
    }
  }

  lemma {:induction false} TrimmedIsPrefix(lines: seq<string>)
    ensures Trimmed(lines) <= lines
    ensures Trimmed(lines) != [] ==> Trimmed(lines)[|Trimmed(lines)| - 1] != ""
    ensures forall i :: |Trimmed(lines)| <= i < |lines| ==> lines[i] == ""
  {
    if lines != [] && lines[|lines| - 1] == "" { TrimmedIsPrefix(lines[..|lines| - 1]); }
  }

  lemma RStripEnds(s: string)
    requires s == "" || s[|s| - 1] != '\n'
    ensures RStrip(s) == s && RStrip(s + "\n") == s
  {
    assert (s + "\n")[..|s|] == s;
  }

  lemma RStripNewline(s: string)
    ensures RStrip(s + "\n") == RStrip(s)
  {
    assert (s + "\n")[..|s|] == s;
  }

  lemma {:induction false} RStripJoin(lines: seq<string>)
    requires AllUnbroken(lines)
    ensures RStrip(Join(lines, "\n")) == Join(Trimmed(lines), "\n")
  {
    if lines != [] {
      var n := |lines| - 1;
      assert lines == lines[..n] + [lines[n]];
      JoinStep(lines[..n], lines[n], "\n");
      if lines[n] == "" {
        RStripJoin(lines[..n]);
        if n > 0 {
          assert Join(lines, "\n") == Join(lines[..n], "\n") + "\n";
          RStripNewline(Join(lines[..n], "\n"));
        }
      } else {
        var s := Join(lines, "\n");
        assert s[|s| - 1] == lines[n][|lines[n]| - 1];
        RStripEnds(s);
      }
    }
  }

  /** Reading back what was written gives the lines, less the empty ones at the end. */
  lemma WrittenSplits(lines: seq<string>)
    requires AllUnbroken(lines)
    ensures SplitLines(Written(lines)) == Trimmed(lines)
  {
    RStripJoin(lines);
    TrimmedIsPrefix(lines);
    var kept := Trimmed(lines);
    if kept != [] {
      JoinedSplits(kept);
      JoinIsNotEmpty(kept);
    }
  }

  lemma JoinIsNotEmpty(lines: seq<string>)
    requires lines != [] && lines[|lines| - 1] != ""
    ensures Join(lines, "\n") != ""
  {
    var n := |lines| - 1;
    assert lines == lines[..n] + [lines[n]];
    JoinStep(lines[..n], lines[n], "\n");
  }

  /** Empty lines at the end are not written. */
  lemma WrittenTrimmed(lines: seq<string>)
    requires AllUnbroken(lines)
    ensures Written(Trimmed(lines)) == Written(lines)
  {
    TrimmedIsPrefix(lines);
    RStripJoin(lines);
    RStripJoin(Trimmed(lines));
  }
}
