/** The top-level blocks of a piece of configuration code (src/pheasant/assistant/compose_review.py,
  * _blocks, components, declared_components). */
module CodeBlocks {
  import opened Lists
  import opened Options
  import opened Text

  predicate IsWordOrDash(c: char) { IsWord(c) || c == '-' }

  predicate NotQuote(c: char) { c != '"' }

  /** `kind "type" "name" {`: the keyword and the component type. */
  datatype Header = Header(keyword: string, kind: string)

  /** A quoted, non-empty label starting at `at`: where it ends, after its closing quote. */
  function LabelEnd(s: string, at: nat): (end: Option<nat>)
    requires at <= |s|
    ensures end.Some? ==> at + 2 < end.value <= |s|
  {
    if at < |s| && s[at] == '"' then
      var close := Past(s, at + 1, NotQuote);
      if close < |s| && close > at + 1 then Some(close + 1) else None
    else None
  }

  /** `_HEADER.match(line)`. */
  function HeaderOf(line: string): Option<Header> {
    var start := Past(line, 0, IsSpace);
    if start < |line| && (IsLetter(line[start]) || line[start] == '_') then
      var end := Past(line, start, IsWordOrDash);
      var first := Past(line, end, IsSpace);
      match LabelEnd(line, first)
      case None => None
      case Some(labelled) =>
        var second := Past(line, labelled, IsSpace);
        match LabelEnd(line, second)
        case None => None
        case Some(named) =>
          var brace := Past(line, named, IsSpace);
          if end < first && labelled < second && brace < |line| && line[brace] == '{'
          then Some(Header(line[start..end], line[first + 1..labelled - 1]))
          else None
    else None
  }

  /** A quoted, non-empty label between two positions. */
  ghost predicate LabelAt(s: string, a: nat, b: nat) {
    && a + 2 < b <= |s| && s[a] == '"' && s[b - 1] == '"'
    && forall i :: a < i < b - 1 ==> s[i] != '"'
  }

  lemma LabelEndExactly(s: string, a: nat, b: nat)
    requires a <= |s|
    ensures LabelEnd(s, a) == Some(b) <==> LabelAt(s, a, b)
  {
    if LabelAt(s, a, b) {
      PastExactly(s, a + 1, b - 1, NotQuote);
    }
  }

  /** Where the parts of a header are. */
  datatype Spots = Spots(start: nat, end: nat, first: nat, labelled: nat, second: nat, named: nat, brace: nat)

  /** The header pattern matches with its parts in these places. */
  ghost predicate HeaderAt(line: string, p: Spots) {
    && Spaces(line, 0, p.start) && p.start < p.end <= |line| && (IsLetter(line[p.start]) || line[p.start] == '_')
    && (forall i :: p.start <= i < p.end ==> IsLetter(line[i]) || IsDigit(line[i]) || line[i] in "_-")
    && p.end < p.first && Spaces(line, p.end, p.first) && LabelAt(line, p.first, p.labelled)
    && p.labelled < p.second && Spaces(line, p.labelled, p.second) && LabelAt(line, p.second, p.named)
    && Spaces(line, p.named, p.brace) && p.brace < |line| && line[p.brace] == '{'
  }

  lemma WordEnd(s: string, a: nat, b: nat)
    requires a <= b < |s| && IsSpace(s[b]) && forall i :: a <= i < b ==> IsWordOrDash(s[i])
    ensures Past(s, a, IsWordOrDash) == b
  {
    PastExactly(s, a, b, IsWordOrDash);
  }

  /** The scanner stops in these places, one after another. */
  ghost predicate StopsAt(line: string, p: Spots) {
    && p.start < p.end < p.first < p.labelled < p.second < p.named <= p.brace < |line|
    && Past(line, 0, IsSpace) == p.start && Past(line, p.start, IsWordOrDash) == p.end
    && Past(line, p.end, IsSpace) == p.first && LabelEnd(line, p.first) == Some(p.labelled)
    && Past(line, p.labelled, IsSpace) == p.second && LabelEnd(line, p.second) == Some(p.named)
    && Past(line, p.named, IsSpace) == p.brace
  }

  lemma MatchStops(line: string, p: Spots)
    requires HeaderAt(line, p)
    ensures StopsAt(line, p)
  {
    SpacesEnd(line, 0, p.start);
    WordEnd(line, p.start, p.end);
    SpacesEnd(line, p.end, p.first);
    LabelEndExactly(line, p.first, p.labelled);
    SpacesEnd(line, p.labelled, p.second);
    LabelEndExactly(line, p.second, p.named);
    SpacesEnd(line, p.named, p.brace);
  }

  lemma StopsAreRead(line: string, p: Spots)
    requires StopsAt(line, p) && (IsLetter(line[p.start]) || line[p.start] == '_') && line[p.brace] == '{'
    ensures HeaderOf(line) == Some(Header(line[p.start..p.end], line[p.first + 1..p.labelled - 1]))
  {
  }

  /** A header where the pattern matches is read as its keyword and its first label. */
  lemma HeaderIsRead(line: string, p: Spots)
    requires HeaderAt(line, p)
    ensures HeaderOf(line) == Some(Header(line[p.start..p.end], line[p.first + 1..p.labelled - 1]))
  {
    MatchStops(line, p);
    StopsAreRead(line, p);
  }

  /** And only such a line is read as a header. */
  lemma HeaderWasThere(line: string) returns (p: Spots)
    requires HeaderOf(line).Some?
    ensures HeaderAt(line, p) && HeaderOf(line) == Some(Header(line[p.start..p.end], line[p.first + 1..p.labelled - 1]))
  {
    var start := Past(line, 0, IsSpace);
    var end := Past(line, start, IsWordOrDash);
    var first := Past(line, end, IsSpace);
    var labelled := LabelEnd(line, first).value;
    LabelEndExactly(line, first, labelled);
    var second := Past(line, labelled, IsSpace);
    var named := LabelEnd(line, second).value;
    LabelEndExactly(line, second, named);
    p := Spots(start, end, first, labelled, second, named, Past(line, named, IsSpace));
  }

  function Count(s: string, c: char): nat { multiset(s)[c] }

  /** Brace depth after a line: never below zero. */
  function DepthAfter(depth: nat, line: string): nat {
    var d := depth + Count(line, '{') - Count(line, '}');
    if d < 0 then 0 else d
  }

  /** A top-level block: its header, if its first line has one, and its text. */
  datatype Block = Block(header: Option<Header>, body: string)

  /** Blocks closed so far, and the one still open. */
  datatype Scan = Scan(closed: seq<Block>, open: Option<Block>, depth: nat)

  /** One more line: it opens a block at depth zero and lengthens the open one otherwise. */
  function Advance(s: Scan, line: string): (after: Scan)
    ensures after.depth > 0 <==> after.open.Some?
  {
    var block := if s.open == None then Block(HeaderOf(line), line)
                 else s.open.value.(body := s.open.value.body + "\n" + line);
    var depth := DepthAfter(s.depth, line);
    if depth == 0 then Scan(s.closed + [block], None, 0) else Scan(s.closed, Some(block), depth)
  }

  function ScanLines(lines: seq<string>): (s: Scan)
    ensures s.depth > 0 <==> s.open.Some?
  {
    if lines == [] then Scan([], None, 0)
    else Advance(ScanLines(lines[..|lines| - 1]), lines[|lines| - 1])
  }

  function All(s: Scan): seq<Block> {
    if s.open == None then s.closed else s.closed + [s.open.value]
  }

  /** The blocks of the code, in order. */
  function BlocksOf(code: string): seq<Block> { All(ScanLines(Lines(code))) }

  function Bodies(blocks: seq<Block>): seq<string> {
    if blocks == [] then [] else Bodies(blocks[..|blocks| - 1]) + [blocks[|blocks| - 1].body]
  }

  lemma BodiesStep(blocks: seq<Block>, block: Block)
    ensures Bodies(blocks + [block]) == Bodies(blocks) + [block.body]
  {
    assert (blocks + [block])[..|blocks|] == blocks;
  }

  lemma {:induction false} BodiesAt(blocks: seq<Block>)
    ensures |Bodies(blocks)| == |blocks|
    ensures forall i :: 0 <= i < |blocks| ==> Bodies(blocks)[i] == blocks[i].body
  {
    if blocks != [] {
      BodiesAt(blocks[..|blocks| - 1]);
    }
  }

  function Whole(blocks: seq<Block>): string { Join(Bodies(blocks), "\n") }

  /** Putting a block after others appends its text. */
  lemma WholeStep(blocks: seq<Block>, block: Block)
    ensures Whole(blocks + [block]) == if blocks == [] then block.body else Whole(blocks) + "\n" + block.body
  {
    BodiesStep(blocks, block);
    BodiesAt(blocks);
    JoinStep(Bodies(blocks), block.body, "\n");
  }

  /** Lengthening the last block lengthens the whole. */
  lemma WholeGrows(blocks: seq<Block>, block: Block, more: string)
    ensures Whole(blocks + [block.(body := block.body + more)]) == Whole(blocks + [block]) + more
  {
    WholeStep(blocks, block);
    WholeStep(blocks, block.(body := block.body + more));
    assert (Whole(blocks) + "\n" + block.body) + more == Whole(blocks) + "\n" + (block.body + more);
  }

  lemma AdvanceAppends(s: Scan, line: string)
    ensures All(Advance(s, line)) != []
    ensures Whole(All(Advance(s, line))) == if All(s) == [] then line else Whole(All(s)) + "\n" + line
  {
    if s.open == None {
      WholeStep(s.closed, Block(HeaderOf(line), line));
    } else {
      var more := "\n" + line;
      WholeGrows(s.closed, s.open.value, more);
      assert s.open.value.body + more == s.open.value.body + "\n" + line;
      assert Whole(All(s)) + more == Whole(All(s)) + "\n" + line;
    }
  }

  /** The blocks of these lines hold these lines and nothing else. */
  ghost predicate Holds(s: Scan, lines: seq<string>) {
    && Whole(All(s)) == Join(lines, "\n")
    && (All(s) == [] <==> lines == [])
  }

  lemma AdvanceHolds(s: Scan, before: seq<string>, line: string, after: Scan, lines: seq<string>)
    requires Holds(s, before)
    requires after == Advance(s, line) && lines == before + [line]
    ensures Holds(after, lines)
  {
    AdvanceAppends(s, line);
    JoinStep(before, line, "\n");
  }

  lemma NothingHolds(lines: seq<string>)
    requires lines == []
    ensures Holds(ScanLines(lines), lines)
  {
  }

  lemma HoldsStep(before: seq<string>, line: string, lines: seq<string>)
    requires lines == before + [line] && Holds(ScanLines(before), before)
    ensures Holds(ScanLines(lines), lines)
  {
    assert lines[..|lines| - 1] == before;
    AdvanceHolds(ScanLines(before), before, line, ScanLines(lines), lines);
  }

  lemma {:induction false} ScanKeepsLines(lines: seq<string>)
    ensures Holds(ScanLines(lines), lines)
  {
    if lines == [] {
      NothingHolds(lines);
    } else {
      InitLast(lines);
      ScanKeepsLines(lines[..|lines| - 1]);
      HoldsStep(lines[..|lines| - 1], lines[|lines| - 1], lines);
    }
  }

  /** Splitting into blocks loses nothing: their texts joined line to line are the code. */
  lemma BlocksAreLossless(code: string)
    ensures Whole(BlocksOf(code)) == code
  {
    ScanKeepsLines(Lines(code));
    JoinLines(code);
  }

  // ----- where blocks begin and end -----

  /** Brace depth after some lines from depth zero. */
  function DepthOf(lines: seq<string>): nat {
    if lines == [] then 0 else DepthAfter(DepthOf(lines[..|lines| - 1]), lines[|lines| - 1])
  }

  /** The braces of these lines do not balance before the last of them. */
  ghost predicate Positive(lines: seq<string>) {
    forall k :: 0 < k < |lines| ==> DepthOf(lines[..k]) > 0
  }

  /** Its first line gives its header, and its braces do not balance before its last line. */
  ghost predicate Unbroken(block: Block) {
    var lines := Lines(block.body);
    block.header == HeaderOf(lines[0]) && Positive(lines)
  }

  ghost predicate Reaches(block: Block, depth: nat) {
    Unbroken(block) && DepthOf(Lines(block.body)) == depth
  }

  lemma {:induction false} LinesAppend(a: string, line: string)
    requires '\n' !in line
    ensures Lines(a + "\n" + line) == Lines(a) + [line]
  {
    var s := a + "\n" + line;
    if line == "" {
      assert s[..|s| - 1] == a;
    } else {
      var n := |line| - 1;
      LinesAppend(a, line[..n]);
      assert s[..|s| - 1] == a + "\n" + line[..n];
      assert line == line[..n] + [line[n]];
    }
  }

  lemma {:induction false} OneLine(line: string)
    requires '\n' !in line
    ensures Lines(line) == [line]
  {
    if line != "" {
      OneLine(line[..|line| - 1]);
      assert line == line[..|line| - 1] + [line[|line| - 1]];
    }
  }

  lemma DepthStep(lines: seq<string>, line: string)
    ensures DepthOf(lines + [line]) == DepthAfter(DepthOf(lines), line)
  {
    assert (lines + [line])[..|lines|] == lines;
  }

  lemma OpensWith(line: string)
    requires '\n' !in line
    ensures Reaches(Block(HeaderOf(line), line), DepthAfter(0, line))
  {
    OneLine(line);
    DepthStep([], line);
    assert [] + [line] == [line];
  }

  lemma PositiveGrows(lines: seq<string>, line: string)
    requires Positive(lines) && DepthOf(lines) > 0
    ensures Positive(lines + [line])
  {
    forall k | 0 < k < |lines + [line]| ensures DepthOf((lines + [line])[..k]) > 0 {
      assert (lines + [line])[..k] == lines[..k];
      assert lines[..|lines|] == lines;
    }
  }

  lemma GrowsWith(block: Block, depth: nat, line: string)
    requires '\n' !in line && depth > 0 && Reaches(block, depth)
    ensures Reaches(block.(body := block.body + "\n" + line), DepthAfter(depth, line))
  {
    var lines := Lines(block.body);
    LinesAppend(block.body, line);
    DepthStep(lines, line);
    PositiveGrows(lines, line);
  }

  ghost predicate Shaped(s: Scan) {
    && (forall b :: b in s.closed ==> Reaches(b, 0))
    && (s.open.Some? ==> s.depth > 0 && Reaches(s.open.value, s.depth))
  }

  lemma AdvanceShaped(s: Scan, line: string)
    requires Shaped(s) && '\n' !in line && (s.depth > 0 <==> s.open.Some?)
    ensures Shaped(Advance(s, line))
  {
    var depth := DepthAfter(s.depth, line);
    if s.open == None {
      OpensWith(line);
      TakesShape(s, Block(HeaderOf(line), line), depth, Advance(s, line));
    } else {
      GrowsWith(s.open.value, s.depth, line);
      TakesShape(s, s.open.value.(body := s.open.value.body + "\n" + line), depth, Advance(s, line));
    }
  }

  lemma TakesShape(s: Scan, block: Block, depth: nat, after: Scan)
    requires Shaped(s) && Reaches(block, depth)
    requires after == if depth == 0 then Scan(s.closed + [block], None, 0) else Scan(s.closed, Some(block), depth)
    ensures Shaped(after)
  {
  }

  lemma {:induction false} ScanShaped(lines: seq<string>)
    requires forall i :: 0 <= i < |lines| ==> '\n' !in lines[i]
    ensures Shaped(ScanLines(lines))
  {
    if lines != [] {
      ScanShaped(lines[..|lines| - 1]);
      AdvanceShaped(ScanLines(lines[..|lines| - 1]), lines[|lines| - 1]);
    }
  }

  /** How often a character stands in these lines. */
  function Total(lines: seq<string>, c: char): nat {
    if lines == [] then 0 else Total(lines[..|lines| - 1], c) + multiset(lines[|lines| - 1])[c]
  }

  /** More braces are opened in these lines than closed. */
  predicate Opens(lines: seq<string>) { Total(lines, '{') > Total(lines, '}') }

  /** Depth counts the braces for as long as more are open than closed: that it stops at zero ends a block. */
  lemma {:induction false} DepthIsBalance(lines: seq<string>)
    requires Positive(lines)
    ensures DepthOf(lines) == if Opens(lines) then Total(lines, '{') - Total(lines, '}') else 0
  {
    if lines != [] {
      var n := |lines| - 1;
      assert forall k :: 0 < k < n ==> lines[..n][..k] == lines[..k];
      DepthIsBalance(lines[..n]);
    }
  }

  lemma OpensBefore(lines: seq<string>, k: nat)
    requires Positive(lines) && 0 < k < |lines|
    ensures Opens(lines[..k])
  {
    assert forall l :: 0 < l < k ==> lines[..k][..l] == lines[..l];
    DepthIsBalance(lines[..k]);
  }

  /** Every block starts with the line its header is read from, has more braces opened than closed up to any
    * line before its last, and, but for an unfinished last one, no more in all. */
  lemma BlocksEndWhereTheyBalance(code: string, i: nat)
    requires i < |BlocksOf(code)|
    ensures var block, lines := BlocksOf(code)[i], Lines(BlocksOf(code)[i].body);
      && block.header == HeaderOf(lines[0])
      && (forall k :: 0 < k < |lines| ==> Opens(lines[..k]))
      && (i < |BlocksOf(code)| - 1 ==> !Opens(lines))
  {
    ScanShaped(Lines(code));
    var s, block := ScanLines(Lines(code)), BlocksOf(code)[i];
    if i < |s.closed| { assert block in s.closed; }
    var lines := Lines(block.body);
    DepthIsBalance(lines);
    forall k | 0 < k < |lines| ensures Opens(lines[..k]) { OpensBefore(lines, k); }
  }

  /** `_blocks`. */
  method Blocks(code: string) returns (out: seq<Block>)
    ensures out == BlocksOf(code)
  {
    out := [];
    var depth: nat, header: Option<Header>, buffer: seq<string> := 0, None, [];
    var lines, i := Lines(code), 0;
    assert lines[..0] == [];
    while i < |lines|
      invariant i <= |lines|
      invariant depth > 0 <==> buffer != []
      invariant ScanLines(lines[..i]) == Scan(out, Buffered(header, buffer), depth)
    {
      var line := lines[i];
      ScanStep(lines, i);
      BufferStep(header, buffer, line);
      if depth == 0 {
        header := HeaderOf(line);
        buffer := [line];
      } else {
        buffer := buffer + [line];
      }
      depth := DepthAfter(depth, line);
      if depth == 0 {
        out := out + [Block(header, Join(buffer, "\n"))];
        header, buffer := None, [];
      }
      i := i + 1;
    }
    assert lines[..i] == lines;
    if buffer != [] {
      out := out + [Block(header, Join(buffer, "\n"))];
    }
  }

  /** The open block a buffer of lines stands for. */
  function Buffered(header: Option<Header>, buffer: seq<string>): Option<Block> {
    if buffer == [] then None else Some(Block(header, Join(buffer, "\n")))
  }

  lemma ScanStep(lines: seq<string>, i: nat)
    requires i < |lines|
    ensures ScanLines(lines[..i + 1]) == Advance(ScanLines(lines[..i]), lines[i])
  {
    assert lines[..i + 1][..i] == lines[..i];
  }

  lemma BufferStep(header: Option<Header>, buffer: seq<string>, line: string)
    ensures Buffered(header, [line]) == Some(Block(header, line))
    ensures buffer != [] ==>
      Buffered(header, buffer + [line]) == Some(Block(header, Join(buffer, "\n") + "\n" + line))
  {
    JoinStep(buffer, line, "\n");
  }

  // ----- the kind an artifact declares with -----

  function Keywords(blocks: seq<Block>): seq<string> {
    if blocks == [] then []
    else
      var before, last := Keywords(blocks[..|blocks| - 1]), blocks[|blocks| - 1];
      if last.header == None then before else before + [last.header.value.keyword]
  }

  /** The keys of a dictionary that counts `words`, in insertion order. */
  function Seen(words: seq<string>): seq<string> {
    if words == [] then []
    else
      var before, last := Seen(words[..|words| - 1]), words[|words| - 1];
      if last in before then before else before + [last]
  }

  /** `max(order, key=count)`: the first of the largest. */
  function Most(order: seq<string>, words: seq<string>): Option<string> {
    if order == [] then None
    else
      var best, last := Most(order[..|order| - 1], words), order[|order| - 1];
      if best == None || multiset(words)[best.value] < multiset(words)[last] then Some(last) else best
  }

  function Primary(blocks: seq<Block>): Option<string> {
    Most(Seen(Keywords(blocks)), Keywords(blocks))
  }

  /** A block as the check sees it: typed only when it is of the primary kind. */
  datatype Component = Component(kind: Option<string>, body: string)

  function Typed(block: Block, primary: Option<string>): Component {
    Component(
      if block.header.Some? && Some(block.header.value.keyword) == primary then Some(block.header.value.kind) else None,
      block.body)
  }

  function Declared(code: string): (components: seq<Component>)
    ensures |components| == |BlocksOf(code)|
  {
    var blocks := BlocksOf(code);
    seq(|blocks|, i requires 0 <= i < |blocks| => Typed(blocks[i], Primary(blocks)))
  }

  lemma {:induction false} SeenExactly(words: seq<string>)
    ensures forall w :: w in Seen(words) <==> w in words
  {
    if words != [] {
      SeenExactly(words[..|words| - 1]);
      assert words == words[..|words| - 1] + [words[|words| - 1]];
    }
  }

  lemma {:induction false} MostIsMost(order: seq<string>, words: seq<string>)
    ensures Most(order, words).Some? <==> order != []
    ensures order != [] ==>
      exists i :: 0 <= i < |order| && Most(order, words) == Some(order[i]) && IsMost(order, words, i)
  {
    if order != [] {
      var n := |order| - 1;
      MostIsMost(order[..n], words);
      if n > 0 {
        var i :| 0 <= i < n && Most(order[..n], words) == Some(order[..n][i]) && IsMost(order[..n], words, i);
        assert forall j :: 0 <= j < n ==> order[..n][j] == order[j];
        var k := if multiset(words)[order[i]] < multiset(words)[order[n]] then n else i;
        assert IsMost(order, words, k);
      } else {
        assert IsMost(order, words, 0);
      }
    }
  }

  /** No other entry is used more, and none before it as much. */
  ghost predicate IsMost(order: seq<string>, words: seq<string>, i: nat)
    requires i < |order|
  {
    && (forall j :: 0 <= j < |order| ==> multiset(words)[order[j]] <= multiset(words)[order[i]])
    && (forall j :: 0 <= j < i ==> multiset(words)[order[j]] < multiset(words)[order[i]])
  }

  /** No word is used more than the one at this place, and none before it as much. */
  ghost predicate FirstMostUsed(words: seq<string>, p: nat) {
    && p < |words|
    && (forall q :: 0 <= q < |words| ==> multiset(words)[words[q]] <= multiset(words)[words[p]])
    && (forall q :: 0 <= q < p ==> multiset(words)[words[q]] < multiset(words)[words[p]])
  }

  ghost predicate Heads(words: seq<string>, word: string) {
    exists p: nat :: FirstMostUsed(words, p) && words[p] == word
  }

  /** The keys of the dictionary stand in the order they are first used in. */
  lemma {:induction false} SeenInOrder(words: seq<string>, i: nat) returns (p: nat)
    requires i < |Seen(words)|
    ensures p < |words| && words[p] == Seen(words)[i]
    ensures forall q :: 0 <= q < p ==> words[q] in Seen(words)[..i]
  {
    var n := |words| - 1;
    var before := Seen(words[..n]);
    if i < |before| {
      p := SeenInOrder(words[..n], i);
      assert Seen(words)[..i] == before[..i];
      assert forall q :: 0 <= q < p ==> words[q] == words[..n][q];
    } else {
      p := n;
      SeenExactly(words[..n]);
      assert Seen(words)[..i] == before;
      assert forall q :: 0 <= q < n ==> words[q] == words[..n][q];
    }
  }

  lemma FirstOfMost(words: seq<string>, order: seq<string>, i: nat, p: nat)
    requires i < |order| && IsMost(order, words, i) && p < |words| && words[p] == order[i]
    requires forall q :: 0 <= q < |words| ==> words[q] in order
    requires forall q :: 0 <= q < p ==> words[q] in order[..i]
    ensures FirstMostUsed(words, p)
  {
    var uses := multiset(words);
    forall q | 0 <= q < |words| ensures uses[words[q]] <= uses[words[p]] {
      var j :| 0 <= j < |order| && order[j] == words[q];
    }
    forall q | 0 <= q < p ensures uses[words[q]] < uses[words[p]] {
      assert words[q] in order[..i];
      var j :| 0 <= j < i && order[..i][j] == words[q];
    }
  }

  lemma FirstMostUsedIsOne(words: seq<string>, p: nat, q: nat)
    requires FirstMostUsed(words, p) && FirstMostUsed(words, q)
    ensures p == q
  {
    var uses := multiset(words);
    assert uses[words[p]] <= uses[words[q]] && uses[words[q]] <= uses[words[p]];
  }

  lemma SomePrimary(words: seq<string>) returns (i: nat)
    requires words != []
    ensures i < |Seen(words)| && Most(Seen(words), words) == Some(Seen(words)[i]) && IsMost(Seen(words), words, i)
  {
    SeenExactly(words);
    assert words[0] in Seen(words);
    MostIsMost(Seen(words), words);
    i :| 0 <= i < |Seen(words)| && Most(Seen(words), words) == Some(Seen(words)[i]) && IsMost(Seen(words), words, i);
  }

  /** The primary keyword heads the most labelled blocks, and of those that head as many it is the
    * one seen first. */
  lemma PrimaryIsMostUsed(blocks: seq<Block>) returns (p: nat)
    requires Keywords(blocks) != []
    ensures FirstMostUsed(Keywords(blocks), p) && Primary(blocks) == Some(Keywords(blocks)[p])
  {
    var words := Keywords(blocks);
    var i := SomePrimary(words);
    p := SeenInOrder(words, i);
    SeenExactly(words);
    FirstOfMost(words, Seen(words), i, p);
  }

  ghost predicate Keyed(block: Block, word: string) {
    block.header.Some? && block.header.value.keyword == word
  }

  lemma {:induction false} KeywordsAre(blocks: seq<Block>, word: string)
    ensures word in Keywords(blocks) <==> exists b :: b in blocks && Keyed(b, word)
  {
    if blocks != [] {
      var init, last := blocks[..|blocks| - 1], blocks[|blocks| - 1];
      KeywordsAre(init, word);
      InitLast(blocks);
      if Keyed(last, word) { assert last in blocks; }
      if last.header.Some? { InAppend(Keywords(init), last.header.value.keyword, word); }
    }
  }

  lemma IsPrimary(blocks: seq<Block>, word: string)
    requires word in Keywords(blocks)
    ensures Primary(blocks) == Some(word) <==> Heads(Keywords(blocks), word)
  {
    var p := PrimaryIsMostUsed(blocks);
    forall q: nat | FirstMostUsed(Keywords(blocks), q) ensures q == p { FirstMostUsedIsOne(Keywords(blocks), p, q); }
  }

  /** Every block is there whole, and has a type exactly when it is labelled and its keyword is the first of
    * those that head the most blocks: the type its label gives. */
  lemma DeclaredExactly(code: string, i: nat)
    requires i < |BlocksOf(code)|
    ensures var block, words, component := BlocksOf(code)[i], Keywords(BlocksOf(code)), Declared(code)[i];
      && component.body == block.body
      && (component.kind.Some? ==> block.header.Some? && component.kind.value == block.header.value.kind)
      && (component.kind.Some? <==>
            block.header.Some? && Heads(words, block.header.value.keyword))
  {
    var blocks := BlocksOf(code);
    if blocks[i].header.Some? {
      assert Keyed(blocks[i], blocks[i].header.value.keyword);
      KeywordsAre(blocks, blocks[i].header.value.keyword);
      IsPrimary(blocks, blocks[i].header.value.keyword);
    }
  }

  /** A dictionary that counts these words. */
  ghost predicate Tally(counts: map<string, nat>, words: seq<string>) {
    && (forall w :: w in counts <==> w in Seen(words))
    && (forall w :: w in counts ==> counts[w] == multiset(words)[w])
  }

  /** Counting keywords in a dictionary, in insertion order. */
  method CountKeywords(blocks: seq<Block>) returns (counts: map<string, nat>, order: seq<string>)
    ensures order == Seen(Keywords(blocks)) && Tally(counts, Keywords(blocks))
  {
    counts, order := map[], [];
    assert blocks[..0] == [];
    var i := 0;
    while i < |blocks|
      invariant i <= |blocks|
      invariant order == Seen(Keywords(blocks[..i])) && Tally(counts, Keywords(blocks[..i]))
    {
      KeywordsStep(blocks, i);
      if blocks[i].header.Some? {
        var keyword := blocks[i].header.value.keyword;
        SeenStep(Keywords(blocks[..i]), keyword);
        TallyStep(counts, Keywords(blocks[..i]), keyword);
        if keyword !in counts { order := order + [keyword]; }
        counts := counts[keyword := (if keyword in counts then counts[keyword] else 0) + 1];
      }
      i := i + 1;
    }
    assert blocks[..i] == blocks;
  }

  lemma TallyStep(counts: map<string, nat>, words: seq<string>, word: string)
    requires Tally(counts, words)
    ensures Tally(counts[word := (if word in counts then counts[word] else 0) + 1], words + [word])
  {
    SeenStep(words, word);
    assert multiset(words + [word]) == multiset(words) + multiset{word};
  }

  lemma KeywordsStep(blocks: seq<Block>, i: nat)
    requires i < |blocks|
    ensures Keywords(blocks[..i + 1]) ==
      if blocks[i].header == None then Keywords(blocks[..i])
      else Keywords(blocks[..i]) + [blocks[i].header.value.keyword]
  {
    assert blocks[..i + 1][..i] == blocks[..i];
  }

  lemma SeenStep(words: seq<string>, word: string)
    ensures Seen(words + [word]) == if word in Seen(words) then Seen(words) else Seen(words) + [word]
    ensures word !in Seen(words) ==> multiset(words)[word] == 0
  {
    assert (words + [word])[..|words|] == words;
    SeenExactly(words);
  }

  lemma MostStep(order: seq<string>, words: seq<string>, k: nat)
    requires k < |order|
    ensures var best := Most(order[..k], words);
      Most(order[..k + 1], words) ==
        if best == None || multiset(words)[best.value] < multiset(words)[order[k]] then Some(order[k]) else best
  {
    assert order[..k + 1][..k] == order[..k];
  }

  /** The first of the most frequent words. */
  method MostFrequent(counts: map<string, nat>, order: seq<string>, ghost words: seq<string>)
    returns (primary: Option<string>)
    requires forall word :: word in order ==> word in counts && counts[word] == multiset(words)[word]
    ensures primary == Most(order, words)
  {
    var k := 0;
    primary := None;
    assert order[..0] == [];
    while k < |order|
      invariant k <= |order|
      invariant primary == Most(order[..k], words)
      invariant primary.Some? ==> primary.value in order
    {
      MostStep(order, words, k);
      if primary == None || counts[primary.value] < counts[order[k]] { primary := Some(order[k]); }
      k := k + 1;
    }
    assert order[..k] == order;
  }

  /** `declared_components`. */
  method DeclaredComponents(code: string) returns (components: seq<Component>)
    ensures components == Declared(code)
  {
    var blocks := Blocks(code);
    var counts, order := CountKeywords(blocks);
    var primary := MostFrequent(counts, order, Keywords(blocks));
    components := seq(|blocks|, j requires 0 <= j < |blocks| => Typed(blocks[j], primary));
  }
}
