/** Naming the sources a command line resolves to (src/pheasant/targets.py). */
module Targets {
  import opened Lists
  import opened Options
  import opened Text

  /** A path as its components. */
  type Path = seq<string>

  datatype Kind = WebCollection | Api | Repository | OtherKind(name: string)

  /** What to clone, and into which directory. */
  datatype Clone = Clone(url: string, path: Path)

  datatype Target = Target(
    name: string, kind: Kind, path: Path, urls: seq<string>, clone: Option<Clone>, local: bool)

  function Parent(path: Path): Path {
    if path == [] then [] else path[..|path| - 1]
  }

  /** As every target is resolved: a clone lives under the clone root in a directory named after the
    * source, the source's path is that directory or below it; a collection has no clone; and anything else that is
    * not local keeps its cache in a directory named after it. */
  ghost predicate Housed(t: Target, root: Path) {
    && (t.clone.Some? ==> t.clone.value.path == root + [t.name] && t.clone.value.path <= t.path)
    && (t.kind == WebCollection || t.kind == Api ==> t.clone == None)
    && (t.clone == None && !t.local ==> t.path != [] && t.path[|t.path| - 1] == t.name)
  }

  /** `ResolvedTarget.renamed`: the source's path must lie in its clone. */
  function Renamed(t: Target, name: string): Target
    requires t.clone.Some? ==> t.clone.value.path <= t.path
  {
    match t.clone
    case Some(clone) =>
      var moved := Parent(clone.path) + [name];
      t.(name := name, clone := Some(clone.(path := moved)), path := moved + t.path[|clone.path|..])
    case None =>
      if !t.local then t.(name := name, path := Parent(t.path) + [name]) else t.(name := name)
  }

  /** Renaming moves the checkout along and keeps the place inside it, and everything else. */
  lemma RenamedMovesClone(t: Target, name: string, root: Path)
    requires Housed(t, root)
    ensures var r := Renamed(t, name);
      && Housed(r, root) && r.name == name && r.kind == t.kind && r.urls == t.urls && r.local == t.local
      && (r.clone.Some? <==> t.clone.Some?)
      && (t.clone.Some? ==>
            (r.clone.value.url == t.clone.value.url
            && r.path[|r.clone.value.path|..] == t.path[|t.clone.value.path|..]))
  {
    if t.clone.Some? {
      assert Parent(root + [t.name]) == root;
      var moved := root + [name];
      assert (moved + t.path[|t.clone.value.path|..])[|moved|..] == t.path[|t.clone.value.path|..];
    }
  }

  // ----- free names -----

  /** The names tried in turn: the base, then the base with -2, -3, ... */
  function Candidate(base: string, n: nat): string {
    if n <= 1 then base else base + "-" + Decimal(n)
  }

  lemma CandidatesDiffer(base: string, a: nat, b: nat)
    requires 1 <= a < b
    ensures Candidate(base, a) != Candidate(base, b)
  {
    DecimalRoundTrip(b);
    if a > 1 {
      assert Candidate(base, a)[|base| + 1..] == Decimal(a);
      assert Candidate(base, b)[|base| + 1..] == Decimal(b);
      if Decimal(a) == Decimal(b) { DecimalInjective(a, b); }
    } else {
      assert |Candidate(base, b)| > |base|;
    }
  }

  /** Taken names not tried before candidate n. */
  ghost function Untried(base: string, taken: set<string>, n: nat): set<string> {
    set s | s in taken && forall j :: 1 <= j < n ==> s != Candidate(base, j)
  }

  /** Trying a taken candidate leaves fewer. */
  lemma UntriedShrinks(base: string, taken: set<string>, n: nat)
    requires n >= 1 && Candidate(base, n) in taken
    ensures |Untried(base, taken, n + 1)| < |Untried(base, taken, n)|
  {
    var c := Candidate(base, n);
    forall j | 1 <= j < n ensures c != Candidate(base, j) { CandidatesDiffer(base, j, n); }
    assert c in Untried(base, taken, n);
    assert Untried(base, taken, n + 1) == Untried(base, taken, n) - {c};
  }

  /** The first free candidate from the n-th on. */
  function FreeFrom(base: string, taken: set<string>, n: nat): string
    requires n >= 1
    decreases |Untried(base, taken, n)|
  {
    if Candidate(base, n) !in taken then Candidate(base, n)
    else
      UntriedShrinks(base, taken, n);
      FreeFrom(base, taken, n + 1)
  }

  /** `free_name`: it stops, on the first candidate nothing holds. */
  method FreeName(base: string, taken: set<string>) returns (name: string)
    ensures name == FreeFrom(base, taken, 1)
  {
    var suffix;
    name, suffix := base, 2;
    while name in taken
      invariant suffix >= 2 && name == Candidate(base, suffix - 1)
      invariant FreeFrom(base, taken, suffix - 1) == FreeFrom(base, taken, 1)
      decreases |Untried(base, taken, suffix - 1)|
    {
      UntriedShrinks(base, taken, suffix - 1);
      name, suffix := base + "-" + Decimal(suffix), suffix + 1;
    }
  }

  lemma {:induction false} FreeFromExactly(base: string, taken: set<string>, from: nat) returns (n: nat)
    requires from >= 1
    ensures n >= from && FreeFrom(base, taken, from) == Candidate(base, n) && Candidate(base, n) !in taken
    ensures forall j :: from <= j < n ==> Candidate(base, j) in taken
    decreases |Untried(base, taken, from)|
  {
    n := from;
    if Candidate(base, from) in taken {
      UntriedShrinks(base, taken, from);
      n := FreeFromExactly(base, taken, from + 1);
    }
  }

  // ----- joining collections -----

  function MergedUrls(existing: seq<string>, added: seq<string>): seq<string> {
    if added == [] then existing
    else
      var before, last := MergedUrls(existing, added[..|added| - 1]), added[|added| - 1];
      if last in before then before else before + [last]
  }

  /** `merged_urls`. */
  method MergeUrls(existing: seq<string>, added: seq<string>) returns (urls: seq<string>)
    ensures urls == MergedUrls(existing, added)
  {
    urls := existing;
    var i := 0;
    assert added[..0] == [];
    while i < |added|
      invariant i <= |added|
      invariant urls == MergedUrls(existing, added[..i])
    {
      assert added[..i + 1][..i] == added[..i];
      if added[i] !in urls { urls := urls + [added[i]]; }
      i := i + 1;
    }
    assert added[..i] == added;
  }

  /** The existing URLs first, in place; then every added one that is new, once. */
  lemma {:induction false} MergedExactly(existing: seq<string>, added: seq<string>)
    ensures var urls := MergedUrls(existing, added);
      && existing <= urls
      && (forall u :: u in urls <==> u in existing || u in added)
      && Distinct(urls[|existing|..])
      && (forall i :: |existing| <= i < |urls| ==> urls[i] !in existing)
  {
    if added != [] {
      var n := |added| - 1;
      MergedExactly(existing, added[..n]);
      assert added == added[..n] + [added[n]];
      var before := MergedUrls(existing, added[..n]);
      if added[n] !in before {
        assert (before + [added[n]])[|existing|..] == before[|existing|..] + [added[n]];
      }
    }
  }

  /** `joins_collection`. */
  predicate JoinsCollection(target: Kind, existing: Kind) {
    (target == WebCollection || target == Api) && existing == target
  }

  // ----- resolving a list -----

  function Names(targets: seq<Target>): set<string> {
    set i | 0 <= i < |targets| :: targets[i].name
  }

  /** The first target of that name, or one past the last. */
  function FirstNamed(targets: seq<Target>, name: string): (i: nat)
    ensures i <= |targets|
    ensures i < |targets| ==> targets[i].name == name
    ensures forall j :: 0 <= j < i ==> targets[j].name != name
  {
    if targets == [] || targets[0].name == name then 0 else FirstNamed(targets[1..], name) + 1
  }

  ghost predicate AllHoused(targets: seq<Target>, root: Path) {
    forall i :: 0 <= i < |targets| ==> Housed(targets[i], root)
  }

  /** What one more resolved target does to the list. */
  ghost function Place(targets: seq<Target>, t: Target): seq<Target>
    requires t.clone.Some? ==> t.clone.value.path <= t.path
  {
    var same := FirstNamed(targets, t.name);
    if same < |targets| && JoinsCollection(t.kind, targets[same].kind) then
      targets[same := targets[same].(urls := MergedUrls(targets[same].urls, t.urls))]
    else if t.name in Names(targets) then targets + [Renamed(t, FreeFrom(t.name, Names(targets), 1))]
    else targets + [t]
  }

  ghost function Placed(inputs: seq<Target>, root: Path): seq<Target>
    requires AllHoused(inputs, root)
  {
    if inputs == [] then []
    else Place(Placed(inputs[..|inputs| - 1], root), inputs[|inputs| - 1])
  }

  /** `resolve_targets`, on what each spec resolves to. */
  method ResolveTargets(inputs: seq<Target>, ghost root: Path) returns (targets: seq<Target>)
    requires AllHoused(inputs, root)
    ensures targets == Placed(inputs, root)
  {
    targets := [];
    var used: set<string>, i := {}, 0;
    assert inputs[..0] == [];
    while i < |inputs|
      invariant i <= |inputs|
      invariant used == Names(targets)
      invariant targets == Placed(inputs[..i], root)
    {
      var target := inputs[i];
      PlacedStep(inputs, i, root);
      i := i + 1;
      var same := FirstNamed(targets, target.name);
      if same < |targets| && JoinsCollection(target.kind, targets[same].kind) {
        var urls := MergeUrls(targets[same].urls, target.urls);
        JoinKeepsNames(targets, same, urls);
        targets := targets[same := targets[same].(urls := urls)];
        continue;
      }
      if target.name in used {
        var name := FreeName(target.name, used);
        target := Renamed(target, name);
      }
      AppendNames(targets, target);
      used := used + {target.name};
      targets := targets + [target];
    }
    assert inputs[..i] == inputs;
  }

  lemma PlacedStep(inputs: seq<Target>, i: nat, root: Path)
    requires i < |inputs| && AllHoused(inputs, root)
    ensures Placed(inputs[..i + 1], root) == Place(Placed(inputs[..i], root), inputs[i])
  {
    assert inputs[..i + 1][..i] == inputs[..i];
  }

  lemma JoinKeepsNames(targets: seq<Target>, same: nat, urls: seq<string>)
    requires same < |targets|
    ensures Names(targets[same := targets[same].(urls := urls)]) == Names(targets)
  {
    var after := targets[same := targets[same].(urls := urls)];
    assert forall i :: 0 <= i < |targets| ==> after[i].name == targets[i].name;
  }

  lemma AppendNames(targets: seq<Target>, t: Target)
    ensures Names(targets + [t]) == Names(targets) + {t.name}
  {
    var after := targets + [t];
    assert after[|targets|] == t;
    assert forall i :: 0 <= i < |targets| ==> after[i] == targets[i];
  }

  // ----- what the list keeps -----

  ghost predicate NamesDistinct(targets: seq<Target>) {
    forall i, j :: 0 <= i < j < |targets| ==> targets[i].name != targets[j].name
  }

  lemma AppendKeepsNames(targets: seq<Target>, t: Target, root: Path)
    requires NamesDistinct(targets) && AllHoused(targets, root) && Housed(t, root) && t.name !in Names(targets)
    ensures NamesDistinct(targets + [t]) && AllHoused(targets + [t], root)
  {
    assert forall i :: 0 <= i < |targets| ==> targets[i].name in Names(targets);
  }

  lemma PlaceKeepsNames(targets: seq<Target>, t: Target, root: Path)
    requires NamesDistinct(targets) && AllHoused(targets, root) && Housed(t, root)
    ensures NamesDistinct(Place(targets, t)) && AllHoused(Place(targets, t), root)
  {
    var same := FirstNamed(targets, t.name);
    if same < |targets| && JoinsCollection(t.kind, targets[same].kind) {
    } else if t.name in Names(targets) {
      var free := FreeFromExactly(t.name, Names(targets), 1);
      RenamedMovesClone(t, Candidate(t.name, free), root);
      AppendKeepsNames(targets, Renamed(t, Candidate(t.name, free)), root);
    } else {
      AppendKeepsNames(targets, t, root);
    }
  }

  /** The names are pairwise distinct, and every clone is in the directory its name gives it. */
  lemma {:induction false} NamesAreDistinct(inputs: seq<Target>, root: Path)
    requires AllHoused(inputs, root)
    ensures NamesDistinct(Placed(inputs, root)) && AllHoused(Placed(inputs, root), root)
  {
    if inputs != [] {
      var n := |inputs| - 1;
      NamesAreDistinct(inputs[..n], root);
      PlaceKeepsNames(Placed(inputs[..n], root), inputs[n], root);
    }
  }

  /** A second page of one site, or a second address of one API: a target of that name and kind is there. */
  ghost predicate SameCollection(targets: seq<Target>, t: Target, i: nat) {
    && i < |targets| && targets[i].name == t.name && targets[i].kind == t.kind
    && (t.kind == WebCollection || t.kind == Api)
  }

  /** Such a target joins the one that is there, which takes its addresses and keeps everything else; no
    * other changes. */
  lemma PageJoinsItsSite(inputs: seq<Target>, t: Target, root: Path, i: nat)
    requires AllHoused(inputs + [t], root) && AllHoused(inputs, root) && SameCollection(Placed(inputs, root), t, i)
    ensures var before, after := Placed(inputs, root), Placed(inputs + [t], root);
      && |after| == |before|
      && after[i] == before[i].(urls := MergedUrls(before[i].urls, t.urls))
      && forall j :: 0 <= j < |before| && j != i ==> after[j] == before[j]
  {
    assert (inputs + [t])[..|inputs|] == inputs;
    NamesAreDistinct(inputs, root);
    var same := FirstNamed(Placed(inputs, root), t.name);
    assert same == i;
  }

  /** Any other is a source of its own: it is added last, as it is when its name is free, and otherwise under
    * the first of name-2, name-3, ... that is. */
  lemma OtherIsAdded(inputs: seq<Target>, t: Target, root: Path) returns (n: nat)
    requires AllHoused(inputs + [t], root) && AllHoused(inputs, root)
    requires forall i: nat :: !SameCollection(Placed(inputs, root), t, i)
    ensures var before, after := Placed(inputs, root), Placed(inputs + [t], root);
      && n >= 1 && Candidate(t.name, n) !in Names(before)
      && (forall j :: 1 <= j < n ==> Candidate(t.name, j) in Names(before))
      && after == before + [if n == 1 then t else Renamed(t, Candidate(t.name, n))]
  {
    assert (inputs + [t])[..|inputs|] == inputs;
    assert Housed((inputs + [t])[|inputs|], root);
    var before := Placed(inputs, root);
    n := FreeFromExactly(t.name, Names(before), 1);
    var same := FirstNamed(before, t.name);
    assert !SameCollection(before, t, same);
    assert t.name in Names(before) <==> n != 1;
  }

  /** No two repositories share a clone directory. */
  lemma ClonesAreDistinct(inputs: seq<Target>, root: Path, i: nat, j: nat)
    requires AllHoused(inputs, root)
    requires i < j < |Placed(inputs, root)|
    requires Placed(inputs, root)[i].clone.Some? && Placed(inputs, root)[j].clone.Some?
    ensures Placed(inputs, root)[i].clone.value.path != Placed(inputs, root)[j].clone.value.path
  {
    NamesAreDistinct(inputs, root);
    var a, b := Placed(inputs, root)[i], Placed(inputs, root)[j];
    assert (root + [a.name])[|root|] == a.name;
    assert (root + [b.name])[|root|] == b.name;
  }

  /** Nor do two remote sources share a cache directory. */
  lemma CachesAreDistinct(inputs: seq<Target>, root: Path, i: nat, j: nat)
    requires AllHoused(inputs, root)
    requires i < j < |Placed(inputs, root)|
    requires var a, b := Placed(inputs, root)[i], Placed(inputs, root)[j];
      a.clone == None && b.clone == None && !a.local && !b.local
    ensures Placed(inputs, root)[i].path != Placed(inputs, root)[j].path
  {
    NamesAreDistinct(inputs, root);
    assert Housed(Placed(inputs, root)[i], root) && Housed(Placed(inputs, root)[j], root);
  }

  /** Later targets leave every earlier one where it is, and only add URLs at its end. */
  ghost predicate Grown(before: seq<Target>, after: seq<Target>) {
    && |before| <= |after|
    && forall i :: 0 <= i < |before| ==>
         before[i].urls <= after[i].urls && after[i] == before[i].(urls := after[i].urls)
  }

  lemma PlaceGrows(targets: seq<Target>, t: Target)
    requires t.clone.Some? ==> t.clone.value.path <= t.path
    ensures Grown(targets, Place(targets, t))
  {
    var same := FirstNamed(targets, t.name);
    if same < |targets| { MergedExactly(targets[same].urls, t.urls); }
  }

  /** URLs already placed keep their order and their place, whatever else is named after them. */
  lemma {:induction false} EarlierTargetsKeepTheirPlace(inputs: seq<Target>, k: nat, root: Path)
    requires AllHoused(inputs, root) && k <= |inputs|
    ensures Grown(Placed(inputs[..k], root), Placed(inputs, root))
  {
    if k == |inputs| {
      assert inputs[..k] == inputs;
    } else {
      var n := |inputs| - 1;
      EarlierTargetsKeepTheirPlace(inputs[..n], k, root);
      assert inputs[..n][..k] == inputs[..k];
      PlaceGrows(Placed(inputs[..n], root), inputs[n]);
    }
  }

  /** Where an input target ended up: itself, renamed, or joined to a collection of its kind and name. */
  ghost predicate Stands(t: Target, r: Target) {
    && r.kind == t.kind && (forall u :: u in t.urls ==> u in r.urls)
    && (r.clone.Some? <==> t.clone.Some?)
    && (t.clone.Some? ==> r.clone.value.url == t.clone.value.url)
  }

  lemma PlaceStands(targets: seq<Target>, t: Target, root: Path) returns (at: nat)
    requires Housed(t, root) && AllHoused(targets, root)
    ensures at < |Place(targets, t)| && Stands(t, Place(targets, t)[at])
  {
    var same := FirstNamed(targets, t.name);
    if same < |targets| && JoinsCollection(t.kind, targets[same].kind) {
      at := same;
      MergedExactly(targets[same].urls, t.urls);
      assert Housed(targets[same], root);
    } else {
      at := |targets|;
      RenamedMovesClone(t, FreeFrom(t.name, Names(targets), 1), root);
    }
  }

  /** Nothing named is lost: every input stands somewhere in the result, with all its URLs and the
    * repository it clones. */
  lemma EveryInputStands(inputs: seq<Target>, k: nat, root: Path) returns (at: nat)
    requires AllHoused(inputs, root) && k < |inputs|
    ensures at < |Placed(inputs, root)| && Stands(inputs[k], Placed(inputs, root)[at])
  {
    NamesAreDistinct(inputs[..k], root);
    at := PlaceStands(Placed(inputs[..k], root), inputs[k], root);
    PlacedStep(inputs, k, root);
    EarlierTargetsKeepTheirPlace(inputs, k + 1, root);
  }

  /** Whether some input of this kind names this URL. */
  ghost predicate Named(u: string, kind: Kind, inputs: seq<Target>) {
    exists i :: 0 <= i < |inputs| && inputs[i].kind == kind && u in inputs[i].urls
  }

  lemma PlacedUrl(targets: seq<Target>, t: Target, at: nat, u: string)
    requires t.clone.Some? ==> t.clone.value.path <= t.path
    requires at < |Place(targets, t)| && u in Place(targets, t)[at].urls
    ensures (t.kind == Place(targets, t)[at].kind && u in t.urls)
      || (at < |targets| && targets[at].kind == Place(targets, t)[at].kind && u in targets[at].urls)
  {
    var same := FirstNamed(targets, t.name);
    if same < |targets| { MergedExactly(targets[same].urls, t.urls); }
  }

  /** And no URL comes from nowhere. */
  lemma {:induction false} EveryUrlWasNamed(inputs: seq<Target>, root: Path, at: nat, u: string)
    requires AllHoused(inputs, root)
    requires at < |Placed(inputs, root)| && u in Placed(inputs, root)[at].urls
    ensures Named(u, Placed(inputs, root)[at].kind, inputs)
  {
    var n := |inputs| - 1;
    var before := Placed(inputs[..n], root);
    PlacedUrl(before, inputs[n], at, u);
    if at < |before| && before[at].kind == Placed(inputs, root)[at].kind && u in before[at].urls {
      EveryUrlWasNamed(inputs[..n], root, at, u);
      var i :| 0 <= i < n && inputs[..n][i].kind == before[at].kind && u in inputs[..n][i].urls;
      assert inputs[i] == inputs[..n][i];
    }
  }
}
