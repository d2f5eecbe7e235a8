/** Choosing and checking release versions (scripts/release_version.py, scripts/sync_version.py). */
module Releases {
  import opened Lists
  import opened Options
  import opened Text

  datatype Version = Version(major: nat, minor: nat, patch: nat)

  /** Tuple order. */
  predicate Below(a: Version, b: Version) {
    || a.major < b.major
    || (a.major == b.major && a.minor < b.minor)
    || (a.major == b.major && a.minor == b.minor && a.patch < b.patch)
  }

  function Identifiers(v: Version): seq<nat> { [v.major, v.minor, v.patch] }

  /** Precedence as item 11 of Semantic Versioning 2.0.0 has it for versions without a pre-release:
    * decided by the first difference from left to right, numerically. */
  ghost predicate Precedes(a: Version, b: Version) {
    exists i :: 0 <= i < 3 && Identifiers(a)[i] < Identifiers(b)[i]
      && forall j :: 0 <= j < i ==> Identifiers(a)[j] == Identifiers(b)[j]
  }

  lemma TupleOrderIsPrecedence(a: Version, b: Version)
    ensures Below(a, b) <==> Precedes(a, b)
  {
    assert Identifiers(a)[0] == a.major && Identifiers(a)[1] == a.minor && Identifiers(a)[2] == a.patch;
    assert Identifiers(b)[0] == b.major && Identifiers(b)[1] == b.minor && Identifiers(b)[2] == b.patch;
    if Below(a, b) {
      var i := if a.major < b.major then 0 else if a.minor < b.minor then 1 else 2;
      assert Identifiers(a)[i] < Identifiers(b)[i];
    }
  }

  // ----- text -----

  /** `0|[1-9]\d*`. */
  predicate IsNumeral(s: string) {
    s != "" && Digits(s) && (s[0] == '0' ==> |s| == 1)
  }

  predicate Dot(s: string, at: nat) { at < |s| && s[at] == '.' }

  /** A stable MAJOR.MINOR.PATCH version: `stable_semver_tuple`, None where it exits. */
  function Parse(s: string): Option<Version> {
    var a := Past(s, 0, IsDigit);
    if !Dot(s, a) then None
    else
      var b := Past(s, a + 1, IsDigit);
      if !Dot(s, b) then None
      else
        var c := Past(s, b + 1, IsDigit);
        if c == |s| && IsNumeral(s[..a]) && IsNumeral(s[a + 1..b]) && IsNumeral(s[b + 1..])
        then Some(Version(Value(s[..a]), Value(s[a + 1..b]), Value(s[b + 1..]))) else None
  }

  /** `parse_stable_semver_tag`: the same with an optional leading v. */
  function ParseTag(tag: string): Option<Version> {
    if tag != "" && tag[0] == 'v' then Parse(tag[1..]) else Parse(tag)
  }

  function Dotted(a: string, b: string, c: string): string { a + ['.'] + b + ['.'] + c }

  /** `tuple_to_version`. */
  function Render(v: Version): string {
    Dotted(Decimal(v.major), Decimal(v.minor), Decimal(v.patch))
  }

  lemma DigitsUpTo(s: string, from: nat, to: nat)
    requires from <= to <= |s| && Digits(s[from..to]) && (to < |s| ==> s[to] == '.')
    ensures Past(s, from, IsDigit) == to
  {
    assert forall i :: from <= i < to ==> s[i] == s[from..to][i - from];
    PastExactly(s, from, to, IsDigit);
  }

  lemma DottedParts(a: string, b: string, c: string)
    ensures var s, first, second := Dotted(a, b, c), |a|, |a| + 1 + |b|;
      && second < |s| && s[..first] == a && s[first + 1..second] == b && s[second + 1..] == c
      && s[first] == '.' && s[second] == '.'
  {
  }

  lemma ParseAtDots(s: string, first: nat, second: nat)
    requires first < second < |s| && s[first] == '.' && s[second] == '.'
    requires IsNumeral(s[..first]) && IsNumeral(s[first + 1..second]) && IsNumeral(s[second + 1..])
    ensures Parse(s) == Some(Version(Value(s[..first]), Value(s[first + 1..second]), Value(s[second + 1..])))
  {
    assert s[0..first] == s[..first] && s[second + 1..|s|] == s[second + 1..];
    DigitsUpTo(s, 0, first);
    DigitsUpTo(s, first + 1, second);
    DigitsUpTo(s, second + 1, |s|);
  }

  /** Three numerals joined by dots are read back as those three. */
  lemma ParseDotted(a: string, b: string, c: string)
    requires IsNumeral(a) && IsNumeral(b) && IsNumeral(c)
    ensures Parse(Dotted(a, b, c)) == Some(Version(Value(a), Value(b), Value(c)))
  {
    DottedParts(a, b, c);
    ParseAtDots(Dotted(a, b, c), |a|, |a| + 1 + |b|);
  }

  lemma DecimalIsNumeral(n: nat)
    ensures IsNumeral(Decimal(n)) && Value(Decimal(n)) == n
  {
    DecimalRoundTrip(n);
  }

  /** A version printed and read back is itself, with or without a leading v. */
  lemma RenderParse(v: Version)
    ensures Parse(Render(v)) == Some(v) && ParseTag(Render(v)) == Some(v) && ParseTag("v" + Render(v)) == Some(v)
  {
    DecimalIsNumeral(v.major);
    DecimalIsNumeral(v.minor);
    DecimalIsNumeral(v.patch);
    ParseDotted(Decimal(v.major), Decimal(v.minor), Decimal(v.patch));
    assert IsDigit(Render(v)[0]) by { assert Render(v)[0] == Decimal(v.major)[0]; }
    assert ("v" + Render(v))[1..] == Render(v);
  }

  /** A numeral is how its value is printed. */
  lemma {:induction false} NumeralIsDecimal(s: string)
    requires IsNumeral(s)
    ensures Decimal(Value(s)) == s && (s[0] != '0' ==> Value(s) > 0)
  {
    var n := |s| - 1;
    assert s == s[..n] + [s[n]];
    if n > 0 {
      NumeralIsDecimal(s[..n]);
      LastDigit(s, Value(s[..n]));
    }
  }

  lemma LastDigit(s: string, before: nat)
    requires |s| >= 1 && Digits(s) && before == Value(s[..|s| - 1]) && before > 0
    ensures Value(s) / 10 == before && Decimal(Value(s)) == Decimal(before) + [s[|s| - 1]]
  {
    var d := s[|s| - 1] as int - '0' as int;
    assert Value(s) == 10 * before + d && 0 <= d < 10;
  }

  /** What was read is three numerals and their values. */
  lemma ParsedParts(s: string) returns (a: string, b: string, c: string)
    requires Parse(s).Some?
    ensures IsNumeral(a) && IsNumeral(b) && IsNumeral(c) && s == Dotted(a, b, c)
    ensures Parse(s) == Some(Version(Value(a), Value(b), Value(c)))
  {
    var first := Past(s, 0, IsDigit);
    var second := Past(s, first + 1, IsDigit);
    a, b, c := s[..first], s[first + 1..second], s[second + 1..];
    SplitAtDots(s, first, second);
  }

  lemma SplitAtDots(s: string, first: nat, second: nat)
    requires first < second < |s| && s[first] == '.' && s[second] == '.'
    ensures s == Dotted(s[..first], s[first + 1..second], s[second + 1..])
  {
  }

  /** Only the printed form of a version is read as it: no leading zeros, nothing around it. */
  lemma ParseRender(s: string)
    requires Parse(s).Some?
    ensures s == Render(Parse(s).value)
  {
    var a, b, c := ParsedParts(s);
    NumeralIsDecimal(a);
    NumeralIsDecimal(b);
    NumeralIsDecimal(c);
  }

  // ----- choosing -----

  /** An increment, or something that is none. */
  datatype Part = Major | Minor | Patch | Unknown

  /** What the scripts exit with instead of a result. */
  datatype Exit = NotStable | UnknownPart | TagExists | NotAboveTags

  datatype Result<T> = Ok(value: T) | Err(error: Exit)

  function BumpOrder(): seq<Part> { [Major, Minor, Patch] }

  /** The next version for an increment that is one. */
  function Next(v: Version, part: Part): Version {
    match part
    case Major => Version(v.major + 1, 0, 0)
    case Minor => Version(v.major, v.minor + 1, 0)
    case _ => Version(v.major, v.minor, v.patch + 1)
  }

  /** Whether w differs from v in the number an increment is of, or in one to the left of it. */
  predicate Moves(v: Version, w: Version, part: Part) {
    match part
    case Major => w.major != v.major
    case Minor => w.major != v.major || w.minor != v.minor
    case _ => true
  }

  /** An increment gives the least version above that differs in its own number or one to the left of it: the
    * numbers to the right start again at zero. */
  lemma NextIsLeast(v: Version, part: Part, w: Version)
    ensures Below(v, Next(v, part)) && Moves(v, Next(v, part), part)
    ensures Below(v, w) && Moves(v, w, part) ==> !Below(w, Next(v, part))
  {
  }

  /** `bump`. */
  function Bump(version: string, part: Part): Result<string> {
    match Parse(version)
    case None => Err(NotStable)
    case Some(v) => if part == Unknown then Err(UnknownPart) else Ok(Render(Next(v, part)))
  }

  predicate IsTag(v: Version, tags: seq<string>) {
    exists t :: t in tags && ParseTag(t) == Some(v)
  }

  /** Above every published version. */
  predicate AboveTags(v: Version, tags: seq<string>) {
    forall t :: t in tags && ParseTag(t).Some? ==> Below(ParseTag(t).value, v)
  }

  /** `latest_published_version`, on the tags in any listing of them. */
  function Latest(tags: seq<string>): Option<Version> {
    if tags == [] then None
    else
      var before, last := Latest(tags[..|tags| - 1]), ParseTag(tags[|tags| - 1]);
      if last == None then before
      else if before == None || Below(before.value, last.value) then last
      else before
  }

  /** The latest version is a published one that none published is above. */
  lemma {:induction false} LatestIsGreatest(tags: seq<string>)
    ensures Latest(tags).Some? ==> IsTag(Latest(tags).value, tags)
    ensures forall t :: t in tags && ParseTag(t).Some? ==>
      Latest(tags).Some? && !Below(Latest(tags).value, ParseTag(t).value)
  {
    if tags != [] {
      var before := tags[..|tags| - 1];
      LatestIsGreatest(before);
      forall t ensures t in tags <==> t in before || t == tags[|tags| - 1] { InInitLast(tags, t); }
      assert tags[|tags| - 1] in tags;
    }
  }

  /** It does not depend on the order a set of tags is listed in. */
  lemma LatestOfSet(a: seq<string>, b: seq<string>)
    requires forall t :: t in a <==> t in b
    ensures Latest(a) == Latest(b)
  {
    LatestIsGreatest(a);
    LatestIsGreatest(b);
  }

  /** The greater of the project's version and the latest published one. */
  function Base(current: Version, tags: seq<string>): Version {
    var published := Latest(tags);
    if published.Some? && Below(current, published.value) then published.value else current
  }

  /** `release_base_version`. */
  function BaseVersion(project: string, tags: seq<string>): Result<string> {
    match Parse(project)
    case None => Err(NotStable)
    case Some(current) => Ok(Render(Base(current, tags)))
  }

  predicate Offered(version: string, tags: seq<string>) {
    version !in tags && "v" + version !in tags
  }

  /** The increments of a base version whose versions are not tags yet. */
  function OptionsFor(base: Version, tags: seq<string>): map<Part, string> {
    map p | p in BumpOrder() && Offered(Render(Next(base, p)), tags) :: Render(Next(base, p))
  }

  /** `release_options`. */
  method ReleaseOptions(project: string, tags: seq<string>) returns (r: Result<map<Part, string>>)
    ensures Parse(project) == None ==> r == Err(NotStable)
    ensures Parse(project).Some? ==> r == Ok(OptionsFor(Base(Parse(project).value, tags), tags))
  {
    match BaseVersion(project, tags) {
      case Err(error) => r := Err(error);
      case Ok(base) =>
        RenderParse(Base(Parse(project).value, tags));
        var options := CollectOptions(base, Base(Parse(project).value, tags), tags);
        r := Ok(options);
    }
  }

  method CollectOptions(base: string, ghost v: Version, tags: seq<string>) returns (options: map<Part, string>)
    requires Parse(base) == Some(v)
    ensures options == OptionsFor(v, tags)
  {
    options := map[];
    var order, i := BumpOrder(), 0;
    while i < |order|
      invariant i <= |order|
      invariant forall p :: p in options <==> p in order[..i] && Offered(Render(Next(v, p)), tags)
      invariant forall p :: p in options ==> options[p] == Render(Next(v, p))
    {
      var version := Bump(base, order[i]).value;
      if Offered(version, tags) { options := options[order[i] := version]; }
      i := i + 1;
    }
    assert order[..i] == order;
  }

  lemma BelowTransitive(a: Version, b: Version, c: Version)
    requires !Below(b, a) && Below(b, c)
    ensures Below(a, c)
  {
  }

  /** Every increment of the base is above the project's version and above every published tag. */
  lemma NextIsAbove(current: Version, tags: seq<string>, part: Part)
    ensures Below(current, Next(Base(current, tags), part))
    ensures AboveTags(Next(Base(current, tags), part), tags)
  {
    var base := Base(current, tags);
    LatestIsGreatest(tags);
    forall t | t in tags && ParseTag(t).Some? ensures Below(ParseTag(t).value, Next(base, part)) {
      BelowTransitive(ParseTag(t).value, base, Next(base, part));
    }
  }

  /** A version above every tag is not itself a tag, with or without a v. */
  lemma AboveIsOffered(v: Version, tags: seq<string>)
    requires AboveTags(v, tags)
    ensures Offered(Render(v), tags)
  {
    RenderParse(v);
  }

  /** What is read as a version is its printed form, with a v before it or not. */
  lemma TagsOfVersion(v: Version, tag: string)
    ensures ParseTag(tag) == Some(v) <==> tag == Render(v) || tag == "v" + Render(v)
  {
    RenderParse(v);
    if ParseTag(tag) == Some(v) {
      var text := if tag != "" && tag[0] == 'v' then tag[1..] else tag;
      ParseRender(text);
      if tag != "" && tag[0] == 'v' { assert tag == "v" + tag[1..]; }
    }
  }

  lemma OfferedExactly(v: Version, tags: seq<string>)
    ensures Offered(Render(v), tags) <==> !IsTag(v, tags)
  {
    forall t ensures ParseTag(t) == Some(v) <==> t == Render(v) || t == "v" + Render(v) { TagsOfVersion(v, t); }
  }

  /** An increment is offered exactly when its version is not published, however its tag is written. */
  lemma OptionsAreUnpublished(base: Version, tags: seq<string>, part: Part)
    ensures part in OptionsFor(base, tags) <==> part != Unknown && !IsTag(Next(base, part), tags)
    ensures part in OptionsFor(base, tags) ==> Parse(OptionsFor(base, tags)[part]) == Some(Next(base, part))
  {
    OfferedExactly(Next(base, part), tags);
    RenderParse(Next(base, part));
  }

  /** `bump` reads a version, moves it, and prints it; it exits for what is no stable version and for what is
    * no increment. */
  lemma BumpExactly(version: string, part: Part)
    ensures Bump(version, part) == Err(NotStable) <==> Parse(version) == None
    ensures Bump(version, part) == Err(UnknownPart) <==> Parse(version).Some? && part == Unknown
    ensures Bump(version, part).Ok? ==> Parse(Bump(version, part).value) == Some(Next(Parse(version).value, part))
  {
    if Parse(version).Some? { RenderParse(Next(Parse(version).value, part)); }
  }

  // ----- the later check -----

  /** `check_image_version_increment`: None when it accepts. */
  function CheckIncrement(version: string, tags: seq<string>): Option<Exit> {
    match Parse(version)
    case None => Some(NotStable)
    case Some(current) =>
      if !Offered(version, tags) then Some(TagExists)
      else
        var latest := Latest(tags);
        if latest.Some? && !Below(latest.value, current) then Some(NotAboveTags) else None
  }

  /** The check accepts exactly the stable versions above every published one. */
  lemma AcceptedExactly(version: string, tags: seq<string>)
    ensures CheckIncrement(version, tags) == None <==> Parse(version).Some? && AboveTags(Parse(version).value, tags)
  {
    LatestIsGreatest(tags);
    if Parse(version).Some? {
      var v := Parse(version).value;
      ParseRender(version);
      if AboveTags(v, tags) {
        AboveIsOffered(v, tags);
      } else if Latest(tags).Some? && Below(Latest(tags).value, v) {
        forall t | t in tags && ParseTag(t).Some? ensures Below(ParseTag(t).value, v) {
          BelowTransitive(ParseTag(t).value, Latest(tags).value, v);
        }
      }
    }
  }

  /** And says why it refuses: no stable version, one that is published, or one that some published version
    * is not below. */
  lemma RefusedExactly(version: string, tags: seq<string>)
    ensures var why := CheckIncrement(version, tags);
      && (why == Some(NotStable) <==> Parse(version) == None)
      && (why == Some(TagExists) <==> Parse(version).Some? && IsTag(Parse(version).value, tags))
      && (why == Some(NotAboveTags) <==> Parse(version).Some? && !IsTag(Parse(version).value, tags)
                                         && !AboveTags(Parse(version).value, tags))
  {
    AcceptedExactly(version, tags);
    if Parse(version).Some? {
      ParseRender(version);
      OfferedExactly(Parse(version).value, tags);
    }
  }

  /** For every stable project version and every set of published tags, all three increments are
    * offered; each is above the project's version and every tag, and the later check accepts it. */
  lemma EveryOptionIsAccepted(current: Version, tags: seq<string>, part: Part)
    requires part in BumpOrder()
    ensures part in OptionsFor(Base(current, tags), tags)
    ensures var version := OptionsFor(Base(current, tags), tags)[part];
      && Parse(version).Some? && Below(current, Parse(version).value) && AboveTags(Parse(version).value, tags)
      && CheckIncrement(version, tags) == None
  {
    var v := Next(Base(current, tags), part);
    RenderParse(v);
    NextIsAbove(current, tags, part);
    AboveIsOffered(v, tags);
    AcceptedExactly(Render(v), tags);
  }

  // ----- several pull requests -----

  function Rank(part: Part): nat {
    match part case Major => 0 case Minor => 1 case Patch => 2 case Unknown => 3
  }

  /** `strongest_bump`: the first of the strongest among those that are increments. */
  function Strongest(selections: seq<Part>): Option<Part> {
    if selections == [] then None
    else
      var before, last := Strongest(selections[..|selections| - 1]), selections[|selections| - 1];
      if last == Unknown then before
      else if before == None || Rank(last) < Rank(before.value) then Some(last)
      else before
  }

  /** The result is one of the increments asked for, there is one when any was asked for, and its
    * version is at least what each of them alone would give. */
  lemma {:induction false} StrongestServesAll(selections: seq<Part>, base: Version)
    ensures Strongest(selections).Some? ==>
      Strongest(selections).value in selections && Strongest(selections).value in BumpOrder()
    ensures forall s :: s in selections && s != Unknown ==>
      && Strongest(selections).Some?
      && !Below(Next(base, Strongest(selections).value), Next(base, s))
  {
    if selections != [] {
      var n := |selections| - 1;
      StrongestServesAll(selections[..n], base);
      assert selections == selections[..n] + [selections[n]];
    }
  }

  // ----- releases one after another -----

  /** The tags after releasing these increments in turn, newest last. */
  function Released(current: Version, tags: seq<string>, parts: seq<Part>): seq<string> {
    if parts == [] then tags
    else
      var before := Released(current, tags, parts[..|parts| - 1]);
      before + [Render(Next(Base(current, before), parts[|parts| - 1]))]
  }

  lemma BaseIsReached(current: Version, tags: seq<string>, v: Version)
    requires AboveTags(v, tags) && Below(current, v)
    ensures Base(current, tags + [Render(v)]) == v
  {
    RenderParse(v);
    LatestIsGreatest(tags);
    assert (tags + [Render(v)])[..|tags|] == tags;
  }

  /** Once published, a release is what the next one is counted from. */
  lemma PublishedBecomesBase(current: Version, tags: seq<string>, part: Part)
    ensures var v := Next(Base(current, tags), part);
      Base(current, tags + [Render(v)]) == v
  {
    NextIsAbove(current, tags, part);
    BaseIsReached(current, tags, Next(Base(current, tags), part));
  }

  lemma {:induction false} ReleasedCount(current: Version, tags: seq<string>, parts: seq<Part>)
    ensures |Released(current, tags, parts)| == |tags| + |parts|
  {
    if parts != [] { ReleasedCount(current, tags, parts[..|parts| - 1]); }
  }

  /** Over any run of releases, each was accepted against everything published before it, so the
    * versions strictly increase whatever increments are chosen. */
  lemma {:induction false} EveryReleaseIsAccepted(current: Version, tags: seq<string>, parts: seq<Part>, k: nat)
    requires k < |parts|
    ensures var all := Released(current, tags, parts);
      && |all| == |tags| + |parts|
      && CheckIncrement(all[|tags| + k], all[..|tags| + k]) == None
  {
    var n := |parts| - 1;
    var before := Released(current, tags, parts[..n]);
    ReleasedCount(current, tags, parts);
    ReleasedCount(current, tags, parts[..n]);
    var all := Released(current, tags, parts);
    if k < n {
      EveryReleaseIsAccepted(current, tags, parts[..n], k);
      assert all[..|tags| + k] == before[..|tags| + k];
    } else {
      var v := Next(Base(current, before), parts[n]);
      assert all[..|tags| + k] == before;
      NextIsAbove(current, before, parts[n]);
      RenderParse(v);
      AcceptedExactly(Render(v), before);
    }
  }
}
