/** Quoting a value for a .env file (src/pheasant/setup_wizard.py, _quote_env). */
module EnvQuote {
  import opened Text

  predicate IsSpecial(c: char) {
    c == '#' || c == '\'' || c == '"' || c == '$' || c == '`' || c == '\\'
  }

  /** `s.replace(c, sub)` for a single character. */
  function Replace(s: string, c: char, sub: string): string {
    if s == "" then "" else (if s[0] == c then sub else [s[0]]) + Replace(s[1..], c, sub)
  }

  predicate IsPlain(value: string) {
    value != "" && forall i :: 0 <= i < |value| ==> !IsSpace(value[i]) && !IsSpecial(value[i])
  }

  function Escaped(value: string): string {
    Replace(Replace(Replace(value, '\\', "\\\\"), '"', "\\\""), '$', "\\$")
  }

  /** `_quote_env`. */
  function Quote(value: string): string {
    if IsPlain(value) then value else ['"'] + Escaped(value) + ['"']
  }

  /** Reading a double-quoted text: a backslash makes the next character stand for itself. */
  function Unescape(s: string): string {
    if s == "" then ""
    else if s[0] == '\\' && |s| >= 2 then [s[1]] + Unescape(s[2..])
    else [s[0]] + Unescape(s[1..])
  }

  /** Reading a value back: between double quotes when it is written so, as it stands otherwise. */
  function Unquote(s: string): string {
    if |s| >= 2 && s[0] == '"' && s[|s| - 1] == '"' then Unescape(s[1..|s| - 1]) else s
  }

  /** A value is written bare exactly when it has a character at all and none is white space, a comment sign,
    * a quote, a dollar, a backtick or a backslash; any other is written between double quotes. */
  lemma BareExactly(value: string)
    ensures Quote(value) == value <==> value != "" && forall c :: c in value ==> !IsSpace(c) && c !in "#'\"$`\\"
    ensures Quote(value) != value ==> |Quote(value)| >= 2 && Quote(value)[0] == '"' == Quote(value)[|Quote(value)| - 1]
  {
    if !IsPlain(value) {
      if value != "" {
        var i :| 0 <= i < |value| && (IsSpace(value[i]) || IsSpecial(value[i]));
        assert value[i] in value;
      }
      EscapedIsLonger(value);
    }
  }

  lemma {:induction false} EscapedIsLonger(value: string)
    ensures |Escaped(value)| >= |value|
  {
    if value != "" {
      EscapedStep(value);
      EscapedIsLonger(value[1..]);
    }
  }

  lemma {:induction false} ReplaceConcat(a: string, b: string, c: char, sub: string)
    ensures Replace(a + b, c, sub) == Replace(a, c, sub) + Replace(b, c, sub)
  {
    if a == "" {
      assert a + b == b;
    } else {
      assert (a + b)[1..] == a[1..] + b;
      ReplaceConcat(a[1..], b, c, sub);
    }
  }

  /** What the three replacements make of one character. */
  function EscapedChar(c: char): string {
    if c == '\\' || c == '"' || c == '$' then ['\\', c] else [c]
  }

  lemma ReplaceOne(x: char, c: char, sub: string)
    ensures Replace([x], c, sub) == if x == c then sub else [x]
  {
    assert [x][1..] == "";
  }

  lemma ReplaceTwo(x: char, y: char, c: char, sub: string)
    requires x != c
    ensures Replace([x, y], c, sub) == [x] + (if y == c then sub else [y])
  {
    assert [x, y][1..] == [y];
    ReplaceOne(y, c, sub);
  }

  lemma EscapedOne(c: char)
    ensures Escaped([c]) == EscapedChar(c)
  {
    var first, second := Replace([c], '\\', "\\\\"), Replace(Replace([c], '\\', "\\\\"), '"', "\\\"");
    ReplaceOne(c, '\\', "\\\\");
    if c == '\\' {
      ReplaceTwo('\\', '\\', '"', "\\\"");
      ReplaceTwo('\\', '\\', '$', "\\$");
    } else {
      ReplaceOne(c, '"', "\\\"");
      if c == '"' { ReplaceTwo('\\', '"', '$', "\\$"); } else { ReplaceOne(c, '$', "\\$"); }
    }
  }

  lemma EscapedStep(value: string)
    requires value != ""
    ensures Escaped(value) == EscapedChar(value[0]) + Escaped(value[1..])
  {
    var head, tail := [value[0]], value[1..];
    assert value == head + tail;
    ReplaceConcat(head, tail, '\\', "\\\\");
    var h1, t1 := Replace(head, '\\', "\\\\"), Replace(tail, '\\', "\\\\");
    ReplaceConcat(h1, t1, '"', "\\\"");
    var h2, t2 := Replace(h1, '"', "\\\""), Replace(t1, '"', "\\\"");
    ReplaceConcat(h2, t2, '$', "\\$");
    EscapedOne(value[0]);
  }

  lemma {:induction false} UnescapeEscaped(value: string)
    ensures Unescape(Escaped(value)) == value
  {
    if value != "" {
      EscapedStep(value);
      UnescapeEscaped(value[1..]);
      UnescapeStep(value[0], Escaped(value[1..]));
    }
  }

  lemma UnescapeStep(c: char, rest: string)
    ensures Unescape(EscapedChar(c) + rest) == [c] + Unescape(rest)
  {
    var s := EscapedChar(c) + rest;
    assert s[|EscapedChar(c)|..] == rest;
  }

  /** Every value reads back as itself. */
  lemma UnquoteQuote(value: string)
    ensures Unquote(Quote(value)) == value
  {
    if !IsPlain(value) {
      UnescapeEscaped(value);
      var s := ['"'] + Escaped(value) + ['"'];
      assert s[1..|s| - 1] == Escaped(value);
    }
  }

  /** Reading a value back takes its characters from the text. */
  lemma {:induction false} UnescapeTakes(s: string, c: char)
    requires c in Unescape(s)
    ensures c in s
  {
    if s != "" {
      if s[0] == '\\' && |s| >= 2 {
        assert s == s[..2] + s[2..];
        if c in Unescape(s[2..]) { UnescapeTakes(s[2..], c); }
      } else {
        assert s == [s[0]] + s[1..];
        if c in Unescape(s[1..]) { UnescapeTakes(s[1..], c); }
      }
    }
  }

  lemma UnquoteTakes(s: string, c: char)
    requires c in Unquote(s)
    ensures c in s
  {
    if |s| >= 2 && s[0] == '"' && s[|s| - 1] == '"' {
      var inside := s[1..|s| - 1];
      UnescapeTakes(inside, c);
      var i :| 0 <= i < |inside| && inside[i] == c;
      assert s[i + 1] == c;
    }
  }
}
