/** A list and its last element. */
module Lists {
  ghost predicate Distinct<T>(s: seq<T>) {
    forall i, j :: 0 <= i < j < |s| ==> s[i] != s[j]
  }

  lemma InitLast<T>(s: seq<T>)
    requires s != []
    ensures s == s[..|s| - 1] + [s[|s| - 1]]
  {
  }

  lemma Parts<T>(s: seq<T>, i: nat)
    requires i < |s|
    ensures s == s[..i] + [s[i]] + s[i + 1..]
  {
  }

  lemma TakeTake<T>(s: seq<T>, k: nat, n: nat)
    requires k <= n <= |s|
    ensures s[..n][..k] == s[..k]
  {
  }

  lemma TakeNext<T>(s: seq<T>, i: nat)
    requires i < |s|
    ensures s[..i] + [s[i]] == s[..i + 1]
  {
  }

  lemma InAppend<T>(s: seq<T>, last: T, x: T)
    ensures x in s + [last] <==> x in s || x == last
  {
  }

  lemma InConcat<T>(a: seq<T>, b: seq<T>, x: T)
    ensures x in a + b <==> x in a || x in b
  {
  }

  /** Membership, seen from the end of the list. */
  lemma InInitLast<T>(s: seq<T>, x: T)
    requires s != []
    ensures x in s <==> x in s[..|s| - 1] || x == s[|s| - 1]
  {
    InitLast(s);
  }
}

/** The usual optional value. */
module Options {
  import opened Lists

  datatype Option<+T> = None | Some(value: T)

  /** The values among some options, in order. */
  function Values<T>(s: seq<Option<T>>): seq<T> {
    if s == [] then []
    else
      var before, last := Values(s[..|s| - 1]), s[|s| - 1];
      if last == None then before else before + [last.value]
  }

  lemma {:induction false} ValuesExactly<T>(s: seq<Option<T>>, x: T)
    ensures x in Values(s) <==> Some(x) in s
  {
    if s != [] {
      var before, last := s[..|s| - 1], s[|s| - 1];
      ValuesExactly(before, x);
      InInitLast(s, Some(x));
      if last.Some? { InAppend(Values(before), last.value, x); }
    }
  }
}

/** Sums over lists and over lists of bins, and what rearranging them keeps. */
module Sums {
  function Sum<T>(f: T -> nat, s: seq<T>): nat {
    if s == [] then 0 else Sum(f, s[..|s| - 1]) + f(s[|s| - 1])
  }

  function Flatten<T>(bins: seq<seq<T>>): seq<T> {
    if bins == [] then [] else Flatten(bins[..|bins| - 1]) + bins[|bins| - 1]
  }

  lemma {:induction false} SumConcat<T>(f: T -> nat, a: seq<T>, b: seq<T>)
    ensures Sum(f, a + b) == Sum(f, a) + Sum(f, b)
  {
    if b == [] {
      assert a + b == a;
    } else {
      assert (a + b)[..|a + b| - 1] == a + b[..|b| - 1];
      SumConcat(f, a, b[..|b| - 1]);
    }
  }

  function Without<T>(s: seq<T>, i: nat): seq<T>
    requires i < |s|
  {
    s[..i] + s[i + 1..]
  }

  lemma SumWithout<T>(f: T -> nat, s: seq<T>, i: nat)
    requires i < |s|
    ensures Sum(f, s) == Sum(f, Without(s, i)) + f(s[i])
    ensures multiset(Without(s, i)) == multiset(s) - multiset{s[i]}
  {
    SumSplit(f, s, i);
    SumConcat(f, s[..i], s[i + 1..]);
    MultisetWithout(s, i);
  }

  lemma MultisetWithout<T>(s: seq<T>, i: nat)
    requires i < |s|
    ensures multiset(Without(s, i)) == multiset(s) - multiset{s[i]}
  {
    assert s == s[..i] + [s[i]] + s[i + 1..];
  }

  /** A sum only depends on which elements are there, not on their order. */
  lemma {:induction false} SumPermutation<T>(f: T -> nat, a: seq<T>, b: seq<T>)
    requires multiset(a) == multiset(b)
    ensures Sum(f, a) == Sum(f, b)
  {
    if a == [] {
      assert |multiset(b)| == 0;
    } else {
      var x := a[|a| - 1];
      assert x in multiset(a);
      var i :| 0 <= i < |b| && b[i] == x;
      assert a[..|a| - 1] == Without(a, |a| - 1);
      SumWithout(f, a, |a| - 1);
      SumWithout(f, b, i);
      SumPermutation(f, a[..|a| - 1], Without(b, i));
    }
  }

  lemma SumSplit<T>(f: T -> nat, s: seq<T>, i: nat)
    requires i < |s|
    ensures Sum(f, s) == Sum(f, s[..i]) + f(s[i]) + Sum(f, s[i + 1..])
  {
    assert s == (s[..i] + [s[i]]) + s[i + 1..];
    assert (s[..i] + [s[i]])[..i] == s[..i];
    SumConcat(f, s[..i] + [s[i]], s[i + 1..]);
  }

  /** Every bin holding at least `low` makes the whole hold at least that many times `low`. */
  lemma {:induction false} BinsAtLeast<T>(f: T -> nat, bins: seq<seq<T>>, low: nat)
    requires forall b :: 0 <= b < |bins| ==> low <= Sum(f, bins[b])
    ensures |bins| * low <= Sum(f, Flatten(bins))
  {
    if bins != [] {
      var n := |bins| - 1;
      forall b | 0 <= b < n ensures low <= Sum(f, bins[..n][b]) { assert bins[..n][b] == bins[b]; }
      BinsAtLeast(f, bins[..n], low);
      SumConcat(f, Flatten(bins[..n]), bins[n]);
      assert (n + 1) * low == n * low + low;
    }
  }

  lemma {:induction false} BinsAtMost<T>(f: T -> nat, bins: seq<seq<T>>, high: nat)
    requires forall b :: 0 <= b < |bins| ==> Sum(f, bins[b]) <= high
    ensures Sum(f, Flatten(bins)) <= |bins| * high
  {
    if bins != [] {
      var n := |bins| - 1;
      forall b | 0 <= b < n ensures Sum(f, bins[..n][b]) <= high { assert bins[..n][b] == bins[b]; }
      BinsAtMost(f, bins[..n], high);
      SumConcat(f, Flatten(bins[..n]), bins[n]);
      assert (n + 1) * high == n * high + high;
    }
  }

  lemma {:induction false} ElementAtMostSum<T>(f: T -> nat, s: seq<T>, i: nat)
    requires i < |s|
    ensures f(s[i]) <= Sum(f, s)
  {
    if i < |s| - 1 {
      ElementAtMostSum(f, s[..|s| - 1], i);
    }
  }

  function Map<T, U>(f: T -> U, s: seq<T>): (r: seq<U>)
    ensures |r| == |s| && forall i :: 0 <= i < |s| ==> r[i] == f(s[i])
  {
    seq(|s|, i requires 0 <= i < |s| => f(s[i]))
  }

  /** Mapping keeps rearrangement. */
  lemma {:induction false} MapPermutation<T, U>(f: T -> U, a: seq<T>, b: seq<T>)
    requires multiset(a) == multiset(b)
    ensures multiset(Map(f, a)) == multiset(Map(f, b))
  {
    if a == [] {
      assert |multiset(b)| == 0;
    } else {
      var n := |a| - 1;
      assert a[n] in multiset(a);
      var i :| 0 <= i < |b| && b[i] == a[n];
      assert a[..n] == Without(a, n);
      MultisetWithout(a, n);
      MultisetWithout(b, i);
      MapPermutation(f, a[..n], Without(b, i));
      MapWithout(f, a, n);
      MapWithout(f, b, i);
    }
  }

  lemma MapWithout<T, U>(f: T -> U, s: seq<T>, i: nat)
    requires i < |s|
    ensures multiset(Map(f, s)) == multiset(Map(f, Without(s, i))) + multiset{f(s[i])}
  {
    assert Map(f, Without(s, i)) == Without(Map(f, s), i);
    MultisetWithout(Map(f, s), i);
    assert f(s[i]) in multiset(Map(f, s)) by { assert Map(f, s)[i] == f(s[i]); }
  }

  /** Adding `x` to one bin adds exactly `x` to the whole. */
  lemma {:induction false} AppendToBin<T>(bins: seq<seq<T>>, j: nat, x: T)
    requires j < |bins|
    ensures multiset(Flatten(bins[j := bins[j] + [x]])) == multiset(Flatten(bins)) + multiset{x}
  {
    var n := |bins| - 1;
    var after := bins[j := bins[j] + [x]];
    if j == n {
      assert after[..n] == bins[..n];
    } else {
      assert after[..n] == bins[..n][j := bins[..n][j] + [x]];
      AppendToBin(bins[..n], j, x);
    }
  }
}

/** Text: order, decimal numbers, and joining with a separator line by line. */
module Text {
  import opened Lists

  /** The order Python gives strings: code point by code point, a prefix first. */
  predicate StrLe(a: string, b: string) {
    if a == "" then true
    else if b == "" then false
    else if a[0] != b[0] then a[0] < b[0]
    else StrLe(a[1..], b[1..])
  }

  lemma {:induction false} StrLeTotal(a: string, b: string)
    ensures StrLe(a, b) || StrLe(b, a)
    ensures StrLe(a, b) && StrLe(b, a) ==> a == b
  {
    if a != "" && b != "" && a[0] == b[0] {
      StrLeTotal(a[1..], b[1..]);
      assert a == [a[0]] + a[1..];
      assert b == [b[0]] + b[1..];
    }
  }

  lemma {:induction false} StrLeTransitive(a: string, b: string, c: string)
    requires StrLe(a, b) && StrLe(b, c)
    ensures StrLe(a, c)
  {
    if a != "" && b != "" && c != "" && a[0] == b[0] && b[0] == c[0] {
      StrLeTransitive(a[1..], b[1..], c[1..]);
    }
  }

  /** The first position from `at` on whose character is not in the class `p`. */
  function Past(s: string, at: nat, p: char -> bool): (end: nat)
    requires at <= |s|
    ensures at <= end <= |s|
    ensures forall i :: at <= i < end ==> p(s[i])
    ensures end < |s| ==> !p(s[end])
    decreases |s| - at
  {
    if at < |s| && p(s[at]) then Past(s, at + 1, p) else at
  }

  lemma {:induction false} PastExactly(s: string, a: nat, b: nat, p: char -> bool)
    requires a <= b <= |s| && (b < |s| ==> !p(s[b])) && forall i :: a <= i < b ==> p(s[i])
    ensures Past(s, a, p) == b
    decreases b - a
  {
    if a < b { PastExactly(s, a + 1, b, p); }
  }

  predicate IsDigit(c: char) { '0' <= c <= '9' }

  predicate IsLetter(c: char) { 'a' <= c <= 'z' || 'A' <= c <= 'Z' }

  predicate IsWord(c: char) { IsLetter(c) || IsDigit(c) || c == '_' }

  /** What `\s` matches in a regular expression over text. */
  predicate IsSpace(c: char) {
    var n := c as int;
    || 9 <= n <= 13 || 28 <= n <= 32 || n == 0x85 || n == 0xA0 || n == 0x1680
    || 0x2000 <= n <= 0x200A || n == 0x2028 || n == 0x2029 || n == 0x202F || n == 0x205F || n == 0x3000
  }

  lemma SpacesAre(c: char)
    ensures IsSpace(c) <==>
      || c in "\t\n\U{B}\U{C}\r\U{1C}\U{1D}\U{1E}\U{1F} \U{85}\U{A0}\U{1680}\U{2028}\U{2029}\U{202F}\U{205F}\U{3000}"
      || c in "\U{2000}\U{2001}\U{2002}\U{2003}\U{2004}\U{2005}\U{2006}\U{2007}\U{2008}\U{2009}\U{200A}"
  {
  }

  predicate Spaces(s: string, a: nat, b: nat) {
    a <= b <= |s| && forall i :: a <= i < b ==> IsSpace(s[i])
  }

  lemma SpacesEnd(s: string, a: nat, b: nat)
    requires Spaces(s, a, b) && b < |s| && !IsSpace(s[b])
    ensures Past(s, a, IsSpace) == b
  {
    PastExactly(s, a, b, IsSpace);
  }

  predicate Digits(s: string) {
    forall i :: 0 <= i < |s| ==> IsDigit(s[i])
  }

  /** `str(n)` for a natural number. */
  function Decimal(n: nat): (s: string) {
    if n < 10 then [('0' as int + n) as char] else Decimal(n / 10) + [('0' as int + n % 10) as char]
  }

  /** `int(s)` for a string of digits. */
  function Value(s: string): nat
    requires Digits(s)
  {
    if s == "" then 0 else 10 * Value(s[..|s| - 1]) + (s[|s| - 1] as int - '0' as int)
  }

  /** Printing a number writes digits, no leading zero, and reading them back gives the number. */
  lemma {:induction false} DecimalRoundTrip(n: nat)
    ensures Digits(Decimal(n)) && Decimal(n) != ""
    ensures Value(Decimal(n)) == n
    ensures Decimal(n)[0] == '0' ==> n == 0 && Decimal(n) == "0"
  {
    if n >= 10 {
      DecimalRoundTrip(n / 10);
      assert Decimal(n)[..|Decimal(n)| - 1] == Decimal(n / 10);
    }
  }

  lemma DecimalInjective(a: nat, b: nat)
    requires Decimal(a) == Decimal(b)
    ensures a == b
  {
    DecimalRoundTrip(a);
    DecimalRoundTrip(b);
  }

  /** `sep.join(parts)`. */
  function Join(parts: seq<string>, sep: string): string {
    if parts == [] then ""
    else if |parts| == 1 then parts[0]
    else Join(parts[..|parts| - 1], sep) + sep + parts[|parts| - 1]
  }

  lemma JoinStep(parts: seq<string>, part: string, sep: string)
    ensures Join(parts + [part], sep) == if parts == [] then part else Join(parts, sep) + sep + part
  {
    assert (parts + [part])[..|parts|] == parts;
  }

  /** `s.split("\n")`. */
  function Lines(s: string): (lines: seq<string>)
    ensures |lines| >= 1
    ensures forall i :: 0 <= i < |lines| ==> '\n' !in lines[i]
  {
    if s == "" then [""]
    else
      var before := Lines(s[..|s| - 1]);
      if s[|s| - 1] == '\n' then before + [""]
      else before[..|before| - 1] + [before[|before| - 1] + [s[|s| - 1]]]
  }

  /** Lengthening the last part lengthens the whole. */
  lemma JoinGrows(parts: seq<string>, last: string, c: char, sep: string)
    ensures Join(parts + [last + [c]], sep) == Join(parts + [last], sep) + [c]
  {
    JoinStep(parts, last, sep);
    JoinStep(parts, last + [c], sep);
  }

  /** Splitting into lines loses nothing. */
  lemma {:induction false} JoinLines(s: string)
    ensures Join(Lines(s), "\n") == s
  {
    if s != "" {
      var before := Lines(s[..|s| - 1]);
      JoinLines(s[..|s| - 1]);
      InitLast(s);
      if s[|s| - 1] == '\n' {
        JoinStep(before, "", "\n");
      } else {
        InitLast(before);
        JoinGrows(before[..|before| - 1], before[|before| - 1], s[|s| - 1], "\n");
      }
    }
  }
}
