/** Assignment keys in code, and whether text contains a name
  * (src/pheasant/assistant/compose_review.py, _KEY, _present). */
module ArtifactKeys {
  import opened Options
  import opened Text

  function LowerChar(c: char): char {
    if 'A' <= c <= 'Z' then (c as int + 32) as char else c
  }

  /** `s.lower()`, character by character. */
  function Lower(s: string): (low: string)
    ensures |low| == |s| && forall i :: 0 <= i < |s| ==> low[i] == LowerChar(s[i])
  {
    seq(|s|, i requires 0 <= i < |s| => LowerChar(s[i]))
  }

  /** `[a-z0-9_]`. */
  predicate IsKeyChar(c: char) { 'a' <= c <= 'z' || IsDigit(c) || c == '_' }

  lemma LowerCharIs(c: char, i: nat)
    requires i < 26
    ensures LowerChar("ABCDEFGHIJKLMNOPQRSTUVWXYZ"[i]) == "abcdefghijklmnopqrstuvwxyz"[i]
    ensures 'Z' < c || c < 'A' ==> LowerChar(c) == c
  {
  }

  lemma KeyCharIs(c: char)
    ensures IsKeyChar(c) <==> c in "abcdefghijklmnopqrstuvwxyz0123456789_"
  {
  }

  /** `[a-z][a-z0-9]*(?:_[a-z0-9]+)+`: a lower-case start, and single underscores inside. */
  predicate IsSnake(key: string) {
    && key != "" && 'a' <= key[0] <= 'z'
    && (forall i :: 0 <= i < |key| ==> IsKeyChar(key[i]))
    && '_' in key && key[|key| - 1] != '_'
    && (forall i :: 0 < i < |key| && key[i] == '_' ==> key[i - 1] != '_')
  }

  /** `[a-z0-9]+`. */
  predicate IsSegment(s: string) {
    s != "" && forall i :: 0 <= i < |s| ==> 'a' <= s[i] <= 'z' || IsDigit(s[i])
  }

  /** It is two segments or more with underscores between, of which the first starts with a letter. */
  lemma SnakeExactly(key: string)
    ensures IsSnake(key) <==> exists a, b ::
      key == a + "_" + b && IsSegment(b) && (IsSnake(a) || (IsSegment(a) && 'a' <= a[0] <= 'z'))
  {
    if IsSnake(key) {
      var p := LastUnderscore(key);
      var a, b := key[..p], key[p + 1..];
      assert p > 0 && key == a + "_" + b;
      assert forall i :: 0 <= i < |a| ==> a[i] == key[i];
      assert forall i :: 0 <= i < |b| ==> b[i] == key[p + 1 + i];
      if '_' !in a { assert IsSegment(a); } else { assert IsSnake(a); }
      assert IsSegment(b);
    }
    forall a, b | key == a + "_" + b && IsSegment(b) && (IsSnake(a) || (IsSegment(a) && 'a' <= a[0] <= 'z'))
      ensures IsSnake(key)
    {
      SnakeOf(key, a, b);
    }
  }

  lemma {:induction false} LastUnderscore(s: string) returns (p: nat)
    requires '_' in s
    ensures p < |s| && s[p] == '_' && forall i :: p < i < |s| ==> s[i] != '_'
  {
    var n := |s| - 1;
    if s[n] == '_' {
      p := n;
    } else {
      p := LastUnderscore(s[..n]);
      assert forall i :: 0 <= i < n ==> s[..n][i] == s[i];
    }
  }

  lemma SnakeOf(key: string, a: string, b: string)
    requires key == a + "_" + b && IsSegment(b) && (IsSnake(a) || (IsSegment(a) && 'a' <= a[0] <= 'z'))
    ensures IsSnake(key)
  {
    assert forall i :: 0 <= i < |a| ==> key[i] == a[i];
    assert key[|a|] == '_';
    assert forall i :: |a| < i < |key| ==> key[i] == b[i - |a| - 1];
  }

  predicate StartsLine(body: string, p: nat)
    requires p <= |body|
  {
    p == 0 || body[p - 1] == '\n'
  }

  /** `=` or `:`, and no `=` after it. */
  predicate Assigns(body: string, t: nat) {
    t < |body| && (body[t] == '=' || body[t] == ':') && !(t + 1 < |body| && body[t + 1] == '=')
  }

  predicate At(key: string, body: string, q: nat) {
    q + |key| <= |body| && forall i :: 0 <= i < |key| ==> body[q + i] == key[i]
  }

  /** The key `_KEY` finds from the line start `p`. */
  function KeyFrom(body: string, p: nat): Option<string>
    requires p <= |body|
  {
    var q := Past(body, p, IsSpace);
    var r := Past(body, q, IsKeyChar);
    var t := Past(body, r, IsSpace);
    if StartsLine(body, p) && IsSnake(body[q..r]) && Assigns(body, t) then Some(body[q..r]) else None
  }

  /** What the search finds from each position. */
  function Found(body: string): (found: seq<Option<string>>)
    ensures |found| == |body| && forall p :: 0 <= p < |body| ==> found[p] == KeyFrom(body, p)
  {
    seq(|body|, p requires 0 <= p < |body| => KeyFrom(body, p))
  }

  /** `_KEY.findall(body)`. A key after blank lines is listed once for each of them, which no reader of
    * the list can tell: it only looks for what is not there yet. */
  function Keys(body: string): seq<string> { Values(Found(body)) }

  /** The pattern `^\s*key\s*[=:](?!=)` matches, with these positions. */
  ghost predicate MatchesAt(key: string, body: string, p: nat, q: nat, t: nat) {
    && p <= |body| && StartsLine(body, p) && Spaces(body, p, q) && At(key, body, q)
    && Spaces(body, q + |key|, t) && Assigns(body, t)
  }

  /** `^\s*key\s*[=:{]` matches somewhere: what counts as a use of the key. */
  predicate Sets(key: string, body: string) {
    exists p, q, t ::
      0 <= p <= |body| && 0 <= q <= |body| && 0 <= t <= |body| && SetsAt(key, body, p, q, t)
  }

  predicate SetsAt(key: string, body: string, p: nat, q: nat, t: nat) {
    && p <= |body| && StartsLine(body, p) && Spaces(body, p, q) && At(key, body, q)
    && Spaces(body, q + |key|, t) && t < |body| && (body[t] == '=' || body[t] == ':' || body[t] == '{')
  }

  lemma KeyFromMatches(body: string, p: nat)
    requires p <= |body| && KeyFrom(body, p).Some?
    ensures var q := Past(body, p, IsSpace);
      var r := Past(body, q, IsKeyChar);
      MatchesAt(KeyFrom(body, p).value, body, p, q, Past(body, r, IsSpace))
  {
  }

  /** The scanner finds the match a backtracking search would: each stretch is as long as it can be. */
  lemma MatchIsFound(key: string, body: string, p: nat, q: nat, t: nat)
    requires IsSnake(key) && MatchesAt(key, body, p, q, t)
    ensures KeyFrom(body, p) == Some(key)
  {
    var r := q + |key|;
    assert body[q] == key[0];
    PastExactly(body, p, q, IsSpace);
    assert forall i :: q <= i < r ==> body[i] == key[i - q];
    assert body[r] == body[if r < t then r else t];
    PastExactly(body, q, r, IsKeyChar);
    PastExactly(body, r, t, IsSpace);
    assert body[q..r] == key;
  }

  /** The keys found are exactly the snake-case names the pattern matches at a line start. */
  lemma KeysExactly(body: string, key: string)
    ensures key in Keys(body) <==> IsSnake(key) && exists p: nat, q: nat, t: nat :: MatchesAt(key, body, p, q, t)
  {
    ValuesExactly(Found(body), key);
    if key in Keys(body) {
      var p :| 0 <= p < |body| && Found(body)[p] == Some(key);
      KeyFromMatches(body, p);
    }
    if IsSnake(key) && exists p: nat, q: nat, t: nat :: MatchesAt(key, body, p, q, t) {
      var p: nat, q: nat, t: nat :| MatchesAt(key, body, p, q, t);
      MatchIsFound(key, body, p, q, t);
      assert Found(body)[p] == Some(key);
    }
  }

  /** A key found is a use of that key. */
  lemma KeyIsUse(body: string, key: string)
    requires key in Keys(body)
    ensures IsSnake(key) && Sets(key, body)
  {
    KeysExactly(body, key);
    var p: nat, q: nat, t: nat :| MatchesAt(key, body, p, q, t);
    assert SetsAt(key, body, p, q, t);
  }

  // ----- the text around a match -----

  ghost predicate Blank(s: string) { forall c :: c in s ==> IsSpace(c) }

  /** The key stands on a line of its own start, after this indentation, and before this gap and rest. */
  ghost predicate Written(body: string, key: string, before: string, indent: string, gap: string, rest: string) {
    && body == before + indent + key + gap + rest && rest != ""
    && (before == "" || before[|before| - 1] == '\n') && Blank(indent) && Blank(gap)
  }

  lemma WrittenFrom(body: string, key: string, p: nat, q: nat, t: nat)
    requires p <= q && q + |key| <= t < |body| && StartsLine(body, p) && At(key, body, q)
    requires Spaces(body, p, q) && Spaces(body, q + |key|, t)
    ensures Written(body, key, body[..p], body[p..q], body[q + |key|..t], body[t..])
  {
    assert body[q..q + |key|] == key;
    assert body == body[..p] + body[p..q] + body[q..q + |key|] + body[q + |key|..t] + body[t..];
  }

  lemma WrittenTo(body: string, key: string, before: string, indent: string, gap: string, rest: string)
    requires Written(body, key, before, indent, gap, rest)
    ensures var p := |before|;
      var q := p + |indent|;
      var t := q + |key| + |gap|;
      && p <= q && q + |key| <= t < |body| && StartsLine(body, p) && At(key, body, q)
      && Spaces(body, p, q) && Spaces(body, q + |key|, t) && body[t..] == rest
  {
    var p, q := |before|, |before| + |indent|;
    assert forall i :: p <= i < q ==> body[i] == indent[i - p];
    assert forall i :: q <= i < q + |key| ==> body[i] == key[i - q];
    assert forall i :: q + |key| <= i < q + |key| + |gap| ==> body[i] == gap[i - q - |key|];
    if p > 0 { assert body[p - 1] == before[p - 1]; }
  }

  /** `=` or `:`, but no `==` or `:=`. */
  ghost predicate Assigning(rest: string) {
    rest != "" && (rest[0] == '=' || rest[0] == ':') && (rest == [rest[0]] || rest[1] != '=')
  }

  ghost predicate Using(rest: string) {
    rest != "" && (rest[0] == '=' || rest[0] == ':' || rest[0] == '{')
  }

  lemma KeyIsWritten(body: string, key: string) returns (before: string, indent: string, gap: string, rest: string)
    requires key in Keys(body)
    ensures Written(body, key, before, indent, gap, rest) && Assigning(rest)
  {
    KeysExactly(body, key);
    var p: nat, q: nat, t: nat :| MatchesAt(key, body, p, q, t);
    WrittenFrom(body, key, p, q, t);
    before, indent, gap, rest := body[..p], body[p..q], body[q + |key|..t], body[t..];
  }

  lemma WrittenIsKey(body: string, key: string, before: string, indent: string, gap: string, rest: string)
    requires IsSnake(key) && Written(body, key, before, indent, gap, rest) && Assigning(rest)
    ensures key in Keys(body)
  {
    WrittenTo(body, key, before, indent, gap, rest);
    var q := |before| + |indent|;
    assert MatchesAt(key, body, |before|, q, q + |key| + |gap|);
    KeysExactly(body, key);
  }

  /** The keys found are exactly the snake-case names that stand first on a line before a `=` or `:` with no `=`
    * after it, blanks apart. */
  lemma KeysWritten(body: string, key: string)
    ensures key in Keys(body) <==> IsSnake(key) && exists before, indent, gap, rest ::
      Written(body, key, before, indent, gap, rest) && Assigning(rest)
  {
    if key in Keys(body) {
      KeysExactly(body, key);
      var before, indent, gap, rest := KeyIsWritten(body, key);
    }
    forall before, indent, gap, rest | IsSnake(key) && Written(body, key, before, indent, gap, rest) && Assigning(rest)
      ensures key in Keys(body)
    {
      WrittenIsKey(body, key, before, indent, gap, rest);
    }
  }

  lemma UseIsWritten(body: string, key: string) returns (before: string, indent: string, gap: string, rest: string)
    requires Sets(key, body)
    ensures Written(body, key, before, indent, gap, rest) && Using(rest)
  {
    var p, q, t :| 0 <= p <= |body| && 0 <= q <= |body| && 0 <= t <= |body| && SetsAt(key, body, p, q, t);
    WrittenFrom(body, key, p, q, t);
    before, indent, gap, rest := body[..p], body[p..q], body[q + |key|..t], body[t..];
  }

  lemma WrittenIsUse(body: string, key: string, before: string, indent: string, gap: string, rest: string)
    requires Written(body, key, before, indent, gap, rest) && Using(rest)
    ensures Sets(key, body)
  {
    WrittenTo(body, key, before, indent, gap, rest);
    var q := |before| + |indent|;
    assert SetsAt(key, body, |before|, q, q + |key| + |gap|);
  }

  /** And a use of a name is one before a `=`, a `:` or a `{`. */
  lemma UseWritten(body: string, key: string)
    ensures Sets(key, body) <==> exists before, indent, gap, rest ::
      Written(body, key, before, indent, gap, rest) && Using(rest)
  {
    if Sets(key, body) {
      var before, indent, gap, rest := UseIsWritten(body, key);
    }
    forall before, indent, gap, rest | Written(body, key, before, indent, gap, rest) && Using(rest)
      ensures Sets(key, body)
    {
      WrittenIsUse(body, key, before, indent, gap, rest);
    }
  }

  // ----- presence -----

  /** An occurrence that is not part of a longer name. */
  predicate OccursAt(key: string, text: string, i: nat) {
    && At(key, text, i)
    && (i > 0 ==> !IsKeyChar(text[i - 1]))
    && (i + |key| < |text| ==> !IsKeyChar(text[i + |key|]))
  }

  /** `_present(key, text)`. */
  predicate Present(key: string, text: string) {
    exists i :: 0 <= i <= |text| && OccursAt(key, text, i)
  }

  /** A name is present where neither what is before it nor what is after it would lengthen it. */
  lemma PresentWritten(key: string, text: string)
    ensures Present(key, text) <==> exists a, b :: Around(key, text, a, b)
  {
    if Present(key, text) {
      var i :| 0 <= i <= |text| && OccursAt(key, text, i);
      assert text[i..i + |key|] == key;
      assert text == text[..i] + text[i..i + |key|] + text[i + |key|..];
      assert Around(key, text, text[..i], text[i + |key|..]);
    }
    forall a, b | Around(key, text, a, b) ensures Present(key, text) {
      assert forall j :: |a| <= j < |a| + |key| ==> text[j] == key[j - |a|];
      if a != "" { assert text[|a| - 1] == a[|a| - 1]; }
      if b != "" { assert text[|a| + |key|] == b[0]; }
      assert OccursAt(key, text, |a|);
    }
  }

  ghost predicate Around(key: string, text: string, a: string, b: string) {
    && text == a + key + b && (a == "" || !IsKeyChar(a[|a| - 1])) && (b == "" || !IsKeyChar(b[0]))
  }

  lemma OccursBefore(key: string, a: string, b: string, i: nat)
    requires '\n' !in key
    ensures i + |key| <= |a| ==> (OccursAt(key, a, i) <==> OccursAt(key, a + "\n" + b, i))
  {
    var s := a + "\n" + b;
    assert forall j :: 0 <= j < |a| ==> s[j] == a[j];
    assert s[|a|] == '\n';
  }

  lemma OccursAfter(key: string, a: string, b: string, i: nat)
    requires '\n' !in key
    ensures OccursAt(key, b, i) <==> OccursAt(key, a + "\n" + b, |a| + 1 + i)
  {
    var s := a + "\n" + b;
    assert forall j :: 0 <= j < |b| ==> s[|a| + 1 + j] == b[j];
    assert s[|a|] == '\n';
  }

  lemma NoStraddle(key: string, s: string, i: nat, at: nat)
    requires At(key, s, i) && at < |s| && s[at] == '\n' && '\n' !in key
    ensures at < i || i + |key| <= at
  {
    assert forall m :: 0 <= m < |key| ==> key[m] != '\n';
    assert forall j :: i <= j < i + |key| ==> s[j] == key[j - i];
  }

  /** A name does not straddle lines: it is in the whole exactly when it is in one of the parts. */
  lemma PresentConcat(key: string, a: string, b: string)
    requires key != "" && '\n' !in key
    ensures Present(key, a + "\n" + b) <==> Present(key, a) || Present(key, b)
  {
    var s := a + "\n" + b;
    if Present(key, a) {
      var i :| 0 <= i <= |a| && OccursAt(key, a, i);
      OccursBefore(key, a, b, i);
    }
    if Present(key, b) {
      var i :| 0 <= i <= |b| && OccursAt(key, b, i);
      OccursAfter(key, a, b, i);
    }
    if Present(key, s) {
      var i :| 0 <= i <= |s| && OccursAt(key, s, i);
      if i + |key| <= |a| {
        OccursBefore(key, a, b, i);
      } else {
        NoStraddle(key, s, i, |a|);
        OccursAfter(key, a, b, i - |a| - 1);
      }
    }
  }

  lemma LowerConcat(a: string, b: string)
    ensures Lower(a + "\n" + b) == Lower(a) + "\n" + Lower(b)
  {
  }

  lemma {:induction false} PresentJoin(key: string, parts: seq<string>)
    requires key != "" && '\n' !in key
    ensures Present(key, Lower(Join(parts, "\n"))) <==>
      exists i :: 0 <= i < |parts| && Present(key, Lower(parts[i]))
  {
    if |parts| == 1 {
      assert Join(parts, "\n") == parts[0];
    } else if |parts| > 1 {
      var n := |parts| - 1;
      PresentJoin(key, parts[..n]);
      LowerConcat(Join(parts[..n], "\n"), parts[n]);
      PresentConcat(key, Lower(Join(parts[..n], "\n")), Lower(parts[n]));
      assert forall i :: 0 <= i < n ==> parts[..n][i] == parts[i];
    }
  }
}
