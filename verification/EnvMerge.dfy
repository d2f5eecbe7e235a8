/** Merging values into a .env file that someone may have edited (src/pheasant/setup_wizard.py,
  * merge_env_file). */
module EnvMerge {
  import opened EnvQuote
  import opened Lists
  import opened Options
  import opened Text
  import opened TextLines

  // ----- assignments -----

  /** `NAME=raw`, the raw value as it stands in the line. */
  datatype Assignment = Assignment(name: string, raw: string)

  /** A name, spaces, `=`, from position q on. */
  function AssignFrom(line: string, q: nat): Option<Assignment>
    requires q <= |line|
  {
    var r := Past(line, q, IsWord);
    var t := Past(line, r, IsSpace);
    if q < r && !IsDigit(line[q]) && t < |line| && line[t] == '='
    then Some(Assignment(line[q..r], line[t + 1..])) else None
  }

  /** What `_ENV_LINE` matches: an assignment, after `export` and spaces or without. */
  function Read(line: string): Option<Assignment> {
    var q := Past(line, 0, IsSpace);
    var w := q + |EXPORT|;
    if w < |line| && line[q..w] == EXPORT && IsSpace(line[w]) && AssignFrom(line, Past(line, w, IsSpace)).Some?
    then AssignFrom(line, Past(line, w, IsSpace))
    else AssignFrom(line, q)
  }

  const EXPORT := "export"

  predicate Assigns(line: string, name: string) {
    Read(line).Some? && Read(line).value.name == name
  }

  /** `[A-Za-z_][A-Za-z0-9_]*`. */
  predicate IsName(s: string) {
    s != "" && !IsDigit(s[0]) && forall i :: 0 <= i < |s| ==> IsWord(s[i])
  }

  datatype Entry = Entry(name: string, value: string)

  function Rendered(e: Entry): string { e.name + "=" + Quote(e.value) }

  /** `NAME\s*=` between position q and the `=` at t. */
  ghost predicate AssignAt(line: string, q: nat, r: nat, t: nat) {
    && q < r <= t < |line| && !IsDigit(line[q]) && line[t] == '='
    && (forall i :: q <= i < r ==> IsWord(line[i])) && Spaces(line, r, t)
  }

  /** `export\s+` from position q to w. */
  ghost predicate ExportAt(line: string, q: nat, w: nat) {
    q + 6 < w <= |line| && line[q..q + 6] == "export" && Spaces(line, q + 6, w)
  }

  lemma AssignIsRead(line: string, q: nat, r: nat, t: nat)
    requires AssignAt(line, q, r, t)
    ensures AssignFrom(line, q) == Some(Assignment(line[q..r], line[t + 1..]))
  {
    assert !IsWord(line[r]) by { assert r < t ==> IsSpace(line[r]); }
    PastExactly(line, q, r, IsWord);
    SpacesEnd(line, r, t);
  }

  /** An assignment after `export` is read from there. */
  lemma ExportedIsRead(line: string, q: nat, w: nat, r: nat, t: nat)
    requires Spaces(line, 0, q) && ExportAt(line, q, w) && AssignAt(line, w, r, t)
    ensures Read(line) == Some(Assignment(line[w..r], line[t + 1..]))
  {
    assert line[q] == line[q..q + |EXPORT|][0];
    SpacesEnd(line, 0, q);
    assert IsSpace(line[q + |EXPORT|]);
    SpacesEnd(line, q + |EXPORT|, w);
    AssignIsRead(line, w, r, t);
  }

  /** A name right after `export` and spaces is no `=`. */
  lemma PlainIsNotExported(line: string, q: nat, r: nat, t: nat)
    requires AssignAt(line, q, r, t)
    requires q + |EXPORT| < |line| && line[q..q + |EXPORT|] == EXPORT && IsSpace(line[q + |EXPORT|])
    ensures AssignFrom(line, Past(line, q + |EXPORT|, IsSpace)) == None
  {
    var w := q + |EXPORT|;
    assert forall i :: q <= i < w ==> line[i] == line[q..w][i - q];
    assert forall i :: 0 <= i < |EXPORT| ==> IsWord(EXPORT[i]);
    assert r == w by { assert r < w ==> IsWord(line[r]); assert r < t ==> IsSpace(line[r]); }
    SpacesEnd(line, w, t);
  }

  /** An assignment without it is read from its start, a variable called `export` included. */
  lemma PlainIsRead(line: string, q: nat, r: nat, t: nat)
    requires Spaces(line, 0, q) && AssignAt(line, q, r, t)
    ensures Read(line) == Some(Assignment(line[q..r], line[t + 1..]))
  {
    assert IsWord(line[q]);
    SpacesEnd(line, 0, q);
    AssignIsRead(line, q, r, t);
    var w := q + |EXPORT|;
    if w < |line| && line[q..w] == EXPORT && IsSpace(line[w]) { PlainIsNotExported(line, q, r, t); }
  }

  lemma AssignWasThere(line: string, q: nat) returns (r: nat, t: nat)
    requires q <= |line| && AssignFrom(line, q).Some?
    ensures AssignAt(line, q, r, t) && AssignFrom(line, q) == Some(Assignment(line[q..r], line[t + 1..]))
  {
    r := Past(line, q, IsWord);
    t := Past(line, r, IsSpace);
  }

  /** And no other line is read as an assignment. */
  lemma ReadWasThere(line: string) returns (q: nat, w: nat, r: nat, t: nat)
    requires Read(line).Some?
    ensures Spaces(line, 0, q) && (w == q || ExportAt(line, q, w)) && AssignAt(line, w, r, t)
    ensures Read(line) == Some(Assignment(line[w..r], line[t + 1..]))
  {
    q := Past(line, 0, IsSpace);
    w := q;
    if Read(line) != AssignFrom(line, q) { w := Past(line, q + |EXPORT|, IsSpace); }
    r, t := AssignWasThere(line, w);
  }

  /** A rendered line assigns its name its quoted value. */
  lemma RenderedReads(e: Entry)
    requires IsName(e.name)
    ensures Read(Rendered(e)) == Some(Assignment(e.name, Quote(e.value)))
  {
    var line, n := Rendered(e), |e.name|;
    assert line[n] == '=' && line[..n] == e.name && line[n + 1..] == Quote(e.value);
    assert forall i :: 0 <= i < n ==> line[i] == e.name[i];
    PlainIsRead(line, 0, n, n);
    assert line[0..n] == e.name;
  }

  // ----- merging -----

  /** The last line that assigns the name. */
  function LastOf(lines: seq<string>, name: string): (at: Option<nat>)
    ensures at.Some? ==> at.value < |lines| && Assigns(lines[at.value], name)
  {
    if lines == [] then None
    else if Assigns(lines[|lines| - 1], name) then Some(|lines| - 1)
    else LastOf(lines[..|lines| - 1], name)
  }

  /** The lines so far, and which names were appended and which rewritten. */
  datatype Merge = Merge(lines: seq<string>, added: seq<string>, updated: seq<string>)

  function MergeOne(existing: seq<string>, m: Merge, e: Entry): (after: Merge)
    requires |existing| <= |m.lines|
    ensures |m.lines| <= |after.lines|
  {
    match LastOf(existing, e.name)
    case Some(i) =>
      if m.lines[i] != Rendered(e) then m.(lines := m.lines[i := Rendered(e)], updated := m.updated + [e.name]) else m
    case None => m.(lines := m.lines + [Rendered(e)], added := m.added + [e.name])
  }

  function MergeAll(existing: seq<string>, entries: seq<Entry>): (m: Merge)
    ensures |existing| <= |m.lines|
  {
    if entries == [] then Merge(existing, [], [])
    else MergeOne(existing, MergeAll(existing, entries[..|entries| - 1]), entries[|entries| - 1])
  }

  /** `merge_env_file`, on the text of the file ("" when there is none). */
  method MergeEnvFile(text: string, entries: seq<Entry>)
    returns (merged: string, added: seq<string>, updated: seq<string>)
    ensures var m := MergeAll(SplitLines(text), entries);
      merged == Written(m.lines) && added == m.added && updated == m.updated
  {
    var existing := SplitLines(text);
    var seen := LastAssignments(existing);
    var lines;
    lines, added, updated := MergeEntries(existing, seen, entries);
    merged := Written(lines);
  }

  ghost predicate IsSeen(seen: map<string, nat>, lines: seq<string>) {
    forall name :: if name in seen then LastOf(lines, name) == Some(seen[name]) else LastOf(lines, name) == None
  }

  lemma SeenAt(seen: map<string, nat>, lines: seq<string>, name: string)
    requires IsSeen(seen, lines)
    ensures LastOf(lines, name) == if name in seen then Some(seen[name]) else None
  {
  }

  lemma MergeStep(existing: seq<string>, entries: seq<Entry>, i: nat)
    requires i < |entries|
    ensures MergeAll(existing, entries[..i + 1]) == MergeOne(existing, MergeAll(existing, entries[..i]), entries[i])
  {
    assert entries[..i + 1][..i] == entries[..i];
  }

  method MergeEntries(existing: seq<string>, seen: map<string, nat>, entries: seq<Entry>)
    returns (lines: seq<string>, added: seq<string>, updated: seq<string>)
    requires IsSeen(seen, existing)
    ensures MergeAll(existing, entries) == Merge(lines, added, updated)
  {
    lines, added, updated := existing, [], [];
    var i := 0;
    assert entries[..0] == [];
    while i < |entries|
      invariant i <= |entries|
      invariant MergeAll(existing, entries[..i]) == Merge(lines, added, updated)
    {
      MergeStep(existing, entries, i);
      SeenAt(seen, existing, entries[i].name);
      lines, added, updated := MergeEntry(existing, seen, entries[i], lines, added, updated);
      i := i + 1;
    }
    assert entries[..i] == entries;
  }

  method MergeEntry(ghost existing: seq<string>, seen: map<string, nat>, e: Entry,
      lines0: seq<string>, added0: seq<string>, updated0: seq<string>)
    returns (lines: seq<string>, added: seq<string>, updated: seq<string>)
    requires |existing| <= |lines0|
    requires LastOf(existing, e.name) == if e.name in seen then Some(seen[e.name]) else None
    ensures Merge(lines, added, updated) == MergeOne(existing, Merge(lines0, added0, updated0), e)
  {
    lines, added, updated := lines0, added0, updated0;
    var rendered := Rendered(e);
    if e.name in seen {
      if lines[seen[e.name]] != rendered {
        lines := lines[seen[e.name] := rendered];
        updated := updated + [e.name];
      }
    } else {
      added := added + [e.name];
      lines := lines + [rendered];
    }
  }

  /** Each assigned name with the last line that assigns it. */
  method LastAssignments(lines: seq<string>) returns (seen: map<string, nat>)
    ensures IsSeen(seen, lines)
  {
    seen := map[];
    var i := 0;
    assert lines[..0] == [];
    while i < |lines|
      invariant i <= |lines|
      invariant IsSeen(seen, lines[..i])
    {
      assert lines[..i + 1][..i] == lines[..i];
      var read := Read(lines[i]);
      if read.Some? { seen := seen[read.value.name := i]; }
      i := i + 1;
    }
    assert lines[..i] == lines;
  }

  // ----- a map override -----

  /** The line a reader takes the name's value from. */
  function LineOf(lines: seq<string>, name: string): Option<string> {
    match LastOf(lines, name)
    case None => None
    case Some(i) => Some(lines[i])
  }

  /** The raw value a reader finds for the name: the last assignment wins. */
  function Lookup(lines: seq<string>, name: string): Option<string> {
    match LineOf(lines, name)
    case None => None
    case Some(line) => Some(Read(line).value.raw)
  }

  predicate Sets(entries: seq<Entry>, name: string) {
    exists e :: e in entries && e.name == name
  }

  /** Dictionary items: valid names, each once. */
  ghost predicate Valid(entries: seq<Entry>) {
    && (forall i :: 0 <= i < |entries| ==> IsName(entries[i].name))
    && (forall i, j :: 0 <= i < j < |entries| ==> entries[i].name != entries[j].name)
  }

  lemma {:induction false} LastOfSameAssignments(a: seq<string>, b: seq<string>, name: string)
    requires |a| == |b| && forall i :: 0 <= i < |a| ==> (Assigns(a[i], name) <==> Assigns(b[i], name))
    ensures LastOf(a, name) == LastOf(b, name)
  {
    if a != [] {
      var n := |a| - 1;
      assert forall i :: 0 <= i < n ==> a[..n][i] == a[i] && b[..n][i] == b[i];
      LastOfSameAssignments(a[..n], b[..n], name);
    }
  }

  lemma LastOfAppend(lines: seq<string>, line: string, name: string)
    ensures LastOf(lines + [line], name) == if Assigns(line, name) then Some(|lines|) else LastOf(lines, name)
  {
    assert (lines + [line])[..|lines|] == lines;
  }

  /** Rewriting a name's line changes what is read for that name alone. */
  lemma RewriteReads(lines: seq<string>, i: nat, e: Entry, name: string)
    requires IsName(e.name) && LastOf(lines, e.name) == Some(i)
    ensures var after := lines[i := Rendered(e)];
      && LastOf(after, name) == LastOf(lines, name)
      && LineOf(after, name) == if name == e.name then Some(Rendered(e)) else LineOf(lines, name)
  {
    RenderedReads(e);
    LastOfSameAssignments(lines, lines[i := Rendered(e)], name);
  }

  lemma AppendReads(lines: seq<string>, e: Entry, name: string)
    requires IsName(e.name)
    ensures LineOf(lines + [Rendered(e)], name) == if name == e.name then Some(Rendered(e)) else LineOf(lines, name)
    ensures name != e.name ==> LastOf(lines + [Rendered(e)], name) == LastOf(lines, name)
  {
    RenderedReads(e);
    LastOfAppend(lines, Rendered(e), name);
  }

  /** After a merge a name is read from its entry's line, or where it was read before. */
  ghost predicate Overridden(existing: seq<string>, lines: seq<string>, entries: seq<Entry>, name: string) {
    && (!Sets(entries, name) ==>
          LastOf(lines, name) == LastOf(existing, name) && LineOf(lines, name) == LineOf(existing, name))
    && (forall e :: e in entries && e.name == name ==> LineOf(lines, name) == Some(Rendered(e)))
  }

  lemma MergeOneReads(existing: seq<string>, m: Merge, e: Entry, name: string)
    requires |existing| <= |m.lines| && IsName(e.name)
    requires LastOf(m.lines, e.name) == LastOf(existing, e.name)
    ensures var after := MergeOne(existing, m, e);
      && LineOf(after.lines, name) == (if name == e.name then Some(Rendered(e)) else LineOf(m.lines, name))
      && (name != e.name ==> LastOf(after.lines, name) == LastOf(m.lines, name))
  {
    if LastOf(existing, e.name).Some? {
      RewriteReads(m.lines, LastOf(existing, e.name).value, e, name);
    } else {
      AppendReads(m.lines, e, name);
    }
  }

  lemma ValidStep(entries: seq<Entry>, before: seq<Entry>, last: Entry)
    requires entries != [] && before == entries[..|entries| - 1] && last == entries[|entries| - 1]
    requires Valid(entries)
    ensures Valid(before) && IsName(last.name) && !Sets(before, last.name)
  {
  }

  lemma OverriddenStep(existing: seq<string>, m: Merge, entries: seq<Entry>, before: seq<Entry>, last: Entry,
      name: string)
    requires entries != [] && before == entries[..|entries| - 1] && last == entries[|entries| - 1]
    requires |existing| <= |m.lines| && IsName(last.name) && !Sets(before, last.name)
    requires Overridden(existing, m.lines, before, name) && Overridden(existing, m.lines, before, last.name)
    ensures Overridden(existing, MergeOne(existing, m, last).lines, entries, name)
  {
    MergeOneReads(existing, m, last, name);
    SetsStep(entries, before, last, name);
    forall e ensures e in entries <==> e in before || e == last { InInitLast(entries, e); }
  }

  lemma {:induction false} MergeOverrides(existing: seq<string>, entries: seq<Entry>, name: string)
    requires Valid(entries)
    ensures Overridden(existing, MergeAll(existing, entries).lines, entries, name)
  {
    if entries != [] {
      var before, last := entries[..|entries| - 1], entries[|entries| - 1];
      ValidStep(entries, before, last);
      MergeOverrides(existing, before, name);
      MergeOverrides(existing, before, last.name);
      OverriddenStep(existing, MergeAll(existing, before), entries, before, last, name);
    }
  }

  lemma SetsStep(entries: seq<Entry>, before: seq<Entry>, last: Entry, name: string)
    requires entries != [] && before == entries[..|entries| - 1] && last == entries[|entries| - 1]
    ensures Sets(entries, name) <==> Sets(before, name) || name == last.name
  {
    forall e ensures e in entries <==> e in before || e == last { InInitLast(entries, e); }
  }

  // ----- what stays where it is -----

  /** The line is the last assignment of an entry's name, rewritten. */
  ghost predicate Rewritten(line: string, existing: seq<string>, entries: seq<Entry>, i: nat) {
    exists e :: e in entries && LastOf(existing, e.name) == Some(i) && line == Rendered(e)
  }

  lemma RewrittenStep(line: string, existing: seq<string>, entries: seq<Entry>, i: nat)
    requires entries != []
    ensures var last := entries[|entries| - 1];
      (|| Rewritten(line, existing, entries[..|entries| - 1], i)
       || (LastOf(existing, last.name) == Some(i) && line == Rendered(last)))
      ==> Rewritten(line, existing, entries, i)
  {
    forall e ensures e in entries <==> e in entries[..|entries| - 1] || e == entries[|entries| - 1] {
      InInitLast(entries, e);
    }
  }

  lemma MergeOneAt(existing: seq<string>, m: Merge, e: Entry, i: nat)
    requires |existing| <= |m.lines| && i < |existing|
    ensures var line := MergeOne(existing, m, e).lines[i];
      line == m.lines[i] || (LastOf(existing, e.name) == Some(i) && line == Rendered(e))
  {
    var lines, at := MergeOne(existing, m, e).lines, LastOf(existing, e.name);
    if at.Some? {
      assert lines == m.lines || lines == m.lines[at.value := Rendered(e)];
    } else {
      assert lines == m.lines + [Rendered(e)];
    }
  }

  /** A line that was there is kept in its place, unless it is the last assignment of a name being set;
    * then the rendered entry is in its place. */
  lemma {:induction false} OtherLinesKeepTheirPlace(existing: seq<string>, entries: seq<Entry>, i: nat)
    requires i < |existing|
    ensures var line := MergeAll(existing, entries).lines[i];
      line == existing[i] || Rewritten(line, existing, entries, i)
  {
    if entries != [] {
      var before, last := entries[..|entries| - 1], entries[|entries| - 1];
      OtherLinesKeepTheirPlace(existing, before, i);
      MergeOneAt(existing, MergeAll(existing, before), last, i);
      RewrittenStep(MergeAll(existing, entries).lines[i], existing, entries, i);
    }
  }

  lemma MergeOneAdds(existing: seq<string>, m: Merge, e: Entry)
    requires |m.lines| == |existing| + |m.added|
    ensures var after := MergeOne(existing, m, e);
      && |after.lines| == |existing| + |after.added|
      && after.added == if LastOf(existing, e.name) == None then m.added + [e.name] else m.added
  {
  }

  /** New lines come after all that were there: one for each name set that nothing assigned. */
  lemma {:induction false} AddedLinesComeLast(existing: seq<string>, entries: seq<Entry>, name: string)
    ensures var m := MergeAll(existing, entries);
      && |m.lines| == |existing| + |m.added|
      && (name in m.added <==> Sets(entries, name) && LastOf(existing, name) == None)
  {
    if entries != [] {
      var before, e := entries[..|entries| - 1], entries[|entries| - 1];
      AddedLinesComeLast(existing, before, name);
      MergeOneAdds(existing, MergeAll(existing, before), e);
      InAppend(MergeAll(existing, before).added, e.name, name);
      SetsStep(entries, before, e, name);
    }
  }

  // ----- a second merge -----

  predicate Quiet(m: Merge) { m.added == [] && m.updated == [] }

  ghost predicate IsInPlace(lines: seq<string>, e: Entry) {
    LineOf(lines, e.name) == Some(Rendered(e))
  }

  /** Each name is already read from the line a merge would write. */
  ghost predicate InPlace(lines: seq<string>, entries: seq<Entry>) {
    forall e :: e in entries ==> IsInPlace(lines, e)
  }

  lemma QuietStep(existing: seq<string>, m: Merge, e: Entry)
    requires |existing| <= |m.lines| && (Quiet(m) ==> m.lines == existing)
    ensures var after := MergeOne(existing, m, e);
      && (Quiet(after) <==> Quiet(m) && IsInPlace(existing, e))
      && (Quiet(after) ==> after.lines == existing)
  {
  }

  /** A merge reports nothing, and leaves every line alone, exactly when each name is already in place. */
  lemma {:induction false} QuietExactly(existing: seq<string>, entries: seq<Entry>)
    ensures var m := MergeAll(existing, entries);
      && (Quiet(m) <==> InPlace(existing, entries))
      && (Quiet(m) ==> m.lines == existing)
  {
    if entries != [] {
      var before, e := entries[..|entries| - 1], entries[|entries| - 1];
      QuietExactly(existing, before);
      QuietStep(existing, MergeAll(existing, before), e);
      InPlaceStep(existing, entries, before, e);
    }
  }

  lemma InPlaceStep(lines: seq<string>, entries: seq<Entry>, before: seq<Entry>, last: Entry)
    requires entries != [] && before == entries[..|entries| - 1] && last == entries[|entries| - 1]
    ensures InPlace(lines, entries) <==> InPlace(lines, before) && IsInPlace(lines, last)
  {
    forall e ensures e in entries <==> e in before || e == last { InInitLast(entries, e); }
  }

  lemma {:induction false} TrimmedReads(lines: seq<string>, name: string)
    ensures LastOf(Trimmed(lines), name) == LastOf(lines, name) && LineOf(Trimmed(lines), name) == LineOf(lines, name)
  {
    if lines != [] && lines[|lines| - 1] == "" {
      EmptyAssignsNothing(lines[|lines| - 1], name);
      TrimmedReads(lines[..|lines| - 1], name);
    }
  }

  lemma EmptyAssignsNothing(line: string, name: string)
    requires line == ""
    ensures !Assigns(line, name)
  {
    var q := Past(line, 0, IsSpace);
    assert q == 0 && AssignFrom(line, q) == None;
    assert Read(line) == None;
  }

  /** No value has a line break in it. */
  ghost predicate OneLineValues(entries: seq<Entry>) {
    forall e :: e in entries ==> Unbroken(e.value)
  }

  lemma MergeOneUnbroken(existing: seq<string>, m: Merge, e: Entry)
    requires |existing| <= |m.lines| && AllUnbroken(m.lines) && Unbroken(Rendered(e))
    ensures AllUnbroken(MergeOne(existing, m, e).lines)
  {
  }

  lemma {:induction false} MergedUnbroken(existing: seq<string>, entries: seq<Entry>)
    requires AllUnbroken(existing) && Valid(entries) && OneLineValues(entries)
    ensures AllUnbroken(MergeAll(existing, entries).lines)
  {
    if entries != [] {
      var before, e := entries[..|entries| - 1], entries[|entries| - 1];
      MergedUnbroken(existing, before);
      RenderedUnbroken(e);
      MergeOneUnbroken(existing, MergeAll(existing, before), e);
    }
  }

  lemma RenderedUnbroken(e: Entry)
    requires IsName(e.name)
    ensures Unbroken(Rendered(e)) <==> Unbroken(e.value)
  {
    UnbrokenConcat(e.name + "=", Quote(e.value));
    UnbrokenConcat(e.name, "=");
    assert Unbroken(e.name) && Unbroken("=");
    QuoteUnbroken(e.value);
  }

  lemma QuoteUnbroken(value: string)
    ensures Unbroken(Quote(value)) <==> Unbroken(value)
  {
    if !IsPlain(value) {
      EscapedUnbroken(value);
      var s := ['"'] + Escaped(value) + ['"'];
      assert forall i :: 0 <= i < |Escaped(value)| ==> s[1 + i] == Escaped(value)[i];
    }
  }

  lemma {:induction false} EscapedUnbroken(value: string)
    ensures Unbroken(Escaped(value)) <==> Unbroken(value)
  {
    if value != "" {
      EscapedStep(value);
      EscapedUnbroken(value[1..]);
      UnbrokenConcat(EscapedChar(value[0]), Escaped(value[1..]));
      UnbrokenConcat([value[0]], value[1..]);
      assert value == [value[0]] + value[1..];
      assert Unbroken(EscapedChar(value[0])) <==> !IsBreak(value[0]);
    }
  }

  lemma UnbrokenConcat(a: string, b: string)
    ensures Unbroken(a + b) <==> Unbroken(a) && Unbroken(b)
  {
    assert forall i :: 0 <= i < |a| ==> (a + b)[i] == a[i];
    assert forall i :: 0 <= i < |b| ==> (a + b)[|a| + i] == b[i];
  }

  // ----- the file, before and after -----

  /** The text a merge writes. */
  function MergedText(text: string, entries: seq<Entry>): string {
    Written(MergeAll(SplitLines(text), entries).lines)
  }

  lemma MergedLines(text: string, entries: seq<Entry>)
    requires Valid(entries) && OneLineValues(entries)
    ensures var lines := MergeAll(SplitLines(text), entries).lines;
      AllUnbroken(lines) && SplitLines(MergedText(text, entries)) == Trimmed(lines)
  {
    var existing := SplitLines(text);
    SplitUnbroken(text);
    MergedUnbroken(existing, entries);
    WrittenSplits(MergeAll(existing, entries).lines);
  }

  /** What a name reads as in a file merged into: unquoted, the value it is set to, and as before when it
    * is not set. */
  ghost predicate ReadsOverridden(text: string, entries: seq<Entry>, name: string) {
    var before, after := SplitLines(text), SplitLines(MergedText(text, entries));
    && (!Sets(entries, name) ==> Lookup(after, name) == Lookup(before, name))
    && (forall e :: e in entries && e.name == name ==>
          Lookup(after, name).Some? && Unquote(Lookup(after, name).value) == e.value)
  }

  /** Merging overrides the file as a map: a name being set reads back, unquoted, as its value; any
    * other name reads as before. */
  lemma MergeIsOverride(text: string, entries: seq<Entry>, name: string)
    requires Valid(entries) && OneLineValues(entries)
    ensures ReadsOverridden(text, entries, name)
  {
    MergedLines(text, entries);
    var merged := MergeAll(SplitLines(text), entries).lines;
    TrimmedReads(merged, name);
    MergeOverrides(SplitLines(text), entries, name);
    forall e | e in entries && e.name == name
      ensures Lookup(merged, name).Some? && Unquote(Lookup(merged, name).value) == e.value
    {
      RenderedReads(e);
      UnquoteQuote(e.value);
    }
  }

  /** Nothing read from a file has a line break in it. */
  lemma ReadIsUnbroken(text: string, name: string)
    requires Lookup(SplitLines(text), name).Some?
    ensures Unbroken(Unquote(Lookup(SplitLines(text), name).value))
  {
    var lines := SplitLines(text);
    var raw := Lookup(lines, name).value;
    SplitUnbroken(text);
    var line := LineOf(lines, name).value;
    assert Unbroken(line) by { assert lines[LastOf(lines, name).value] == line; }
    var q, w, r, t := ReadWasThere(line);
    forall i | 0 <= i < |Unquote(raw)| ensures !IsBreak(Unquote(raw)[i]) {
      UnquoteTakes(raw, Unquote(raw)[i]);
    }
  }

  /** It does so for every name exactly when every value is on one line: a value with a line break in it
    * is not what any file reads as. */
  lemma MergeIsOverrideExactly(text: string, entries: seq<Entry>)
    requires Valid(entries)
    ensures (forall name :: ReadsOverridden(text, entries, name)) <==> OneLineValues(entries)
  {
    if OneLineValues(entries) {
      forall name ensures ReadsOverridden(text, entries, name) { MergeIsOverride(text, entries, name); }
    } else {
      var e :| e in entries && !Unbroken(e.value);
      if ReadsOverridden(text, entries, e.name) { ReadIsUnbroken(MergedText(text, entries), e.name); }
    }
  }

  lemma MergedInPlace(existing: seq<string>, entries: seq<Entry>)
    requires Valid(entries)
    ensures InPlace(Trimmed(MergeAll(existing, entries).lines), entries)
  {
    var merged := MergeAll(existing, entries).lines;
    forall e | e in entries ensures IsInPlace(Trimmed(merged), e) {
      MergeOverrides(existing, entries, e.name);
      TrimmedReads(merged, e.name);
    }
  }

  /** Merging the same values again changes nothing. */
  lemma SecondMergeIsQuiet(text: string, entries: seq<Entry>)
    requires Valid(entries) && OneLineValues(entries)
    ensures var once := MergedText(text, entries);
      Quiet(MergeAll(SplitLines(once), entries)) && MergedText(once, entries) == once
  {
    var existing := SplitLines(text);
    var merged := MergeAll(existing, entries).lines;
    MergedLines(text, entries);
    MergedInPlace(existing, entries);
    QuietExactly(Trimmed(merged), entries);
    WrittenTrimmed(merged);
  }

  /** Its exact condition, for any file: a value with a line break in it is never found in place, so
    * every merge after the first reports it again. */
  lemma SecondMergeQuietExactly(text: string, entries: seq<Entry>)
    requires Valid(entries)
    ensures Quiet(MergeAll(SplitLines(MergedText(text, entries)), entries)) <==> OneLineValues(entries)
  {
    var lines := SplitLines(MergedText(text, entries));
    if OneLineValues(entries) {
      SecondMergeIsQuiet(text, entries);
    }
    QuietExactly(lines, entries);
    SplitUnbroken(MergedText(text, entries));
    forall e | e in entries && IsInPlace(lines, e) ensures Unbroken(e.value) {
      RenderedUnbroken(e);
    }
  }

  /** For one: K set to two lines is written again by every merge, into any file. */
  lemma TwoLinesAreRewritten(text: string) returns (entries: seq<Entry>)
    ensures entries == [Entry("K", "a\nb")] && Valid(entries)
    ensures !Quiet(MergeAll(SplitLines(MergedText(text, entries)), entries))
  {
    var e := Entry("K", "a\nb");
    entries := [e];
    assert e in entries && e.value[1] == '\n' && IsBreak(e.value[1]);
    SecondMergeQuietExactly(text, entries);
  }
}
