/** Checking a composed artifact against the passages it was written from
  * (src/pheasant/assistant/compose_review.py). */
module ComposeReview {
  import opened ArtifactKeys
  import opened CodeBlocks
  import opened Lists
  import opened Options
  import opened Text

  /** A passage: what it is called, its text, and whether it was read only in part. */
  datatype Document = Document(name: string, text: string, truncated: bool)

  // ----- which page is a component's own -----

  function Stem(title: string): string {
    var slash := LastSlash(title, |title|);
    var end := Past(title, slash, c => c != '.');
    Lower(title[slash..end])
  }

  /** Just after the last `/` or `\` before `n`. */
  function LastSlash(title: string, n: nat): (at: nat)
    requires n <= |title|
    ensures at <= n
  {
    if n == 0 || title[n - 1] == '/' || title[n - 1] == '\\' then n else LastSlash(title, n - 1)
  }

  predicate EndsWith(s: string, tail: string) {
    |tail| <= |s| && s[|s| - |tail|..] == tail
  }

  /** `names_page`. */
  predicate NamesPage(component: string, title: string) {
    var wanted, stem := Lower(component), Stem(title);
    && |stem| >= 4
    && (wanted == stem || EndsWith(wanted, "_" + stem) || EndsWith(wanted, "." + stem) || EndsWith(wanted, "/" + stem))
  }

  predicate IsSlash(c: char) { c == '/' || c == '\\' }

  /** A title in its parts: directories, a stem, and what follows its first dot. */
  ghost predicate TitleParts(dir: string, stem: string, rest: string) {
    && (dir == "" || IsSlash(dir[|dir| - 1]))
    && (forall i :: 0 <= i < |stem| ==> stem[i] != '.' && !IsSlash(stem[i]))
    && (rest == "" || rest[0] == '.') && (forall i :: 0 <= i < |rest| ==> !IsSlash(rest[i]))
  }

  lemma {:induction false} LastSlashAt(title: string, at: nat, n: nat)
    requires at <= n <= |title| && (at == 0 || IsSlash(title[at - 1])) && forall i :: at <= i < n ==> !IsSlash(title[i])
    ensures LastSlash(title, n) == at
  {
    if at < n { LastSlashAt(title, at, n - 1); }
  }

  lemma StemOf(dir: string, stem: string, rest: string)
    requires TitleParts(dir, stem, rest)
    ensures Stem(dir + stem + rest) == Lower(stem)
  {
    var title, from, to := dir + stem + rest, |dir|, |dir| + |stem|;
    assert forall i :: from <= i < to ==> title[i] == stem[i - from];
    assert forall i :: to <= i < |title| ==> title[i] == rest[i - to];
    LastSlashAt(title, from, |title|);
    PastExactly(title, from, to, c => c != '.');
    assert title[from..to] == stem;
  }

  /** A wanted name is the stem, or ends in it after an underscore, a dot or a slash. */
  ghost predicate NamedBy(wanted: string, stem: string) {
    wanted == stem || exists front, c :: (c == '_' || c == '.' || c == '/') && wanted == front + [c] + stem
  }

  lemma EndsWithExactly(wanted: string, c: char, stem: string)
    ensures EndsWith(wanted, [c] + stem) <==> exists front :: wanted == front + [c] + stem
  {
    if EndsWith(wanted, [c] + stem) {
      var front := wanted[..|wanted| - |stem| - 1];
      assert wanted == front + ([c] + stem);
      assert wanted == front + [c] + stem;
    }
    if front :| wanted == front + [c] + stem {
      assert wanted == front + ([c] + stem);
    }
  }

  lemma EndsNamed(wanted: string, stem: string)
    ensures EndsWith(wanted, "_" + stem) || EndsWith(wanted, "." + stem) || EndsWith(wanted, "/" + stem) <==>
      exists front, c :: (c == '_' || c == '.' || c == '/') && wanted == front + [c] + stem
  {
    EndsWithExactly(wanted, '_', stem);
    EndsWithExactly(wanted, '.', stem);
    EndsWithExactly(wanted, '/', stem);
    assert ['_'] + stem == "_" + stem && ['.'] + stem == "." + stem && ['/'] + stem == "/" + stem;
  }

  /** A page is a component's own exactly when it is named after it: the stem of its title, four characters
    * or more, is the component or what it ends in, in any case and in any directory. */
  lemma NamesPageExactly(component: string, dir: string, stem: string, rest: string)
    requires TitleParts(dir, stem, rest)
    ensures NamesPage(component, dir + stem + rest) <==> |stem| >= 4 && NamedBy(Lower(component), Lower(stem))
  {
    StemOf(dir, stem, rest);
    EndsNamed(Lower(component), Lower(stem));
  }

  /** Every title has such parts. */
  lemma TitleHasParts(title: string) returns (dir: string, stem: string, rest: string)
    ensures TitleParts(dir, stem, rest) && title == dir + stem + rest
  {
    var slash := |title|;
    while slash > 0 && !IsSlash(title[slash - 1])
      invariant 0 <= slash <= |title| && forall i :: slash <= i < |title| ==> !IsSlash(title[i])
    {
      slash := slash - 1;
    }
    var dot := Past(title, slash, c => c != '.');
    dir, stem, rest := title[..slash], title[slash..dot], title[dot..];
  }

  // ----- evidence -----

  function Texts(docs: seq<Document>): seq<string> {
    if docs == [] then [] else Texts(docs[..|docs| - 1]) + [docs[|docs| - 1].text]
  }

  function OwnPages(component: string, docs: seq<Document>): seq<Document> {
    if docs == [] then []
    else
      var before, last := OwnPages(component, docs[..|docs| - 1]), docs[|docs| - 1];
      if NamesPage(component, last.name) then before + [last] else before
  }

  function ExamplesIn(wanted: string, blocks: seq<Block>): seq<string> {
    if blocks == [] then []
    else
      var before, last := ExamplesIn(wanted, blocks[..|blocks| - 1]), blocks[|blocks| - 1];
      if last.header.Some? && Lower(last.header.value.kind) == wanted then before + [last.body] else before
  }

  function Examples(wanted: string, docs: seq<Document>): seq<string> {
    if docs == [] then []
    else Examples(wanted, docs[..|docs| - 1]) + ExamplesIn(wanted, BlocksOf(docs[|docs| - 1].text))
  }

  function Everything(docs: seq<Document>): string { Lower(Join(Texts(docs), "\n")) }

  /** `component_evidence`. */
  function Evidence(component: string, docs: seq<Document>): Option<string> {
    var pages := OwnPages(component, docs);
    if pages != [] then Some(Lower(Join(Texts(pages), "\n")))
    else
      var examples := Examples(Lower(component), docs);
      if examples != [] then Some(Lower(Join(examples, "\n"))) else None
  }

  /** Its own pages were all read only in part. */
  predicate Partial(component: string, docs: seq<Document>) {
    var own := OwnPages(component, docs);
    own != [] && forall i :: 0 <= i < |own| ==> own[i].truncated
  }

  /** The text a key on this component is looked for in. */
  function Scope(component: Option<string>, docs: seq<Document>): string {
    if component == None || Partial(component.value, docs) then Everything(docs)
    else
      var evidence := Evidence(component.value, docs);
      if evidence == None || evidence.value == "" then Everything(docs) else evidence.value
  }

  // ----- suspects -----

  datatype Suspect = Suspect(key: string, component: Option<string>)

  predicate IsListed(key: string, found: seq<Suspect>) {
    exists s :: s in found && s.key == key
  }

  /** Where a key is undocumented: in this component, where it is set, and not the artifact's own name. */
  predicate Undocumented(key: string, c: Component, declared: set<string>, docs: seq<Document>) {
    key in Keys(c.body) && key !in declared && !Present(key, Scope(c.kind, docs))
  }

  function SuspectsOn(keys: seq<string>, c: Component, declared: set<string>, docs: seq<Document>,
      found: seq<Suspect>): seq<Suspect>
  {
    if keys == [] then found
    else
      var before, key := SuspectsOn(keys[..|keys| - 1], c, declared, docs, found), keys[|keys| - 1];
      if key !in declared && !IsListed(key, before) && !Present(key, Scope(c.kind, docs))
      then before + [Suspect(key, c.kind)] else before
  }

  /** `suspects`: each key once, with the first component it is undocumented on. */
  function SuspectsIn(components: seq<Component>, declared: set<string>, docs: seq<Document>): seq<Suspect> {
    if components == [] then []
    else
      var last := components[|components| - 1];
      SuspectsOn(Keys(last.body), last, declared, docs, SuspectsIn(components[..|components| - 1], declared, docs))
  }

  /** Checking one component adds exactly its undocumented keys. */
  lemma {:induction false} SuspectsOnExactly(keys: seq<string>, c: Component, declared: set<string>,
      docs: seq<Document>, found: seq<Suspect>, key: string)
    ensures IsListed(key, SuspectsOn(keys, c, declared, docs, found)) <==>
      IsListed(key, found) || (key in keys && key !in declared && !Present(key, Scope(c.kind, docs)))
  {
    if keys != [] {
      var before, last := keys[..|keys| - 1], keys[|keys| - 1];
      SuspectsOnExactly(before, c, declared, docs, found, key);
      InInitLast(keys, key);
      ListedStep(SuspectsOn(before, c, declared, docs, found), Suspect(last, c.kind), key);
    }
  }

  /** It keeps what was found, and reports what it adds on that component. */
  lemma {:induction false} SuspectsOnOrigin(keys: seq<string>, c: Component, declared: set<string>,
      docs: seq<Document>, found: seq<Suspect>, s: Suspect)
    ensures var all := SuspectsOn(keys, c, declared, docs, found);
      && (s in found ==> s in all)
      && (s in all && s !in found ==> s.component == c.kind && !IsListed(s.key, found))
  {
    if keys != [] {
      var before, last := keys[..|keys| - 1], keys[|keys| - 1];
      var added := Suspect(last, c.kind);
      SuspectsOnOrigin(before, c, declared, docs, found, s);
      SuspectsOnExactly(before, c, declared, docs, found, last);
      InAppend(SuspectsOn(before, c, declared, docs, found), added, s);
    }
  }

  lemma ListedStep(found: seq<Suspect>, last: Suspect, key: string)
    ensures IsListed(key, found + [last]) <==> IsListed(key, found) || key == last.key
  {
    forall s ensures s in found + [last] <==> s in found || s == last { InAppend(found, last, s); }
  }

  function Names(found: seq<Suspect>): seq<string> {
    if found == [] then [] else Names(found[..|found| - 1]) + [found[|found| - 1].key]
  }

  lemma {:induction false} NamesExactly(found: seq<Suspect>, key: string)
    ensures key in Names(found) <==> IsListed(key, found)
  {
    if found != [] {
      var before, last := found[..|found| - 1], found[|found| - 1];
      NamesExactly(before, key);
      InitLast(found);
      ListedStep(before, last, key);
      InAppend(Names(before), last.key, key);
    }
  }

  lemma {:induction false} SuspectsOnKeepsDistinct(keys: seq<string>, c: Component, declared: set<string>,
      docs: seq<Document>, found: seq<Suspect>)
    requires Distinct(Names(found))
    ensures Distinct(Names(SuspectsOn(keys, c, declared, docs, found)))
  {
    if keys != [] {
      var before, key := SuspectsOn(keys[..|keys| - 1], c, declared, docs, found), keys[|keys| - 1];
      SuspectsOnKeepsDistinct(keys[..|keys| - 1], c, declared, docs, found);
      NamesExactly(before, key);
      assert (before + [Suspect(key, c.kind)])[..|before|] == before;
    }
  }

  lemma {:induction false} SuspectsAreDistinct(components: seq<Component>, declared: set<string>, docs: seq<Document>)
    ensures Distinct(Names(SuspectsIn(components, declared, docs)))
  {
    if components != [] {
      var n := |components| - 1;
      SuspectsAreDistinct(components[..n], declared, docs);
      SuspectsOnKeepsDistinct(Keys(components[n].body), components[n], declared, docs,
        SuspectsIn(components[..n], declared, docs));
    }
  }

  /** The suspects are exactly the keys undocumented on some component of the artifact. */
  lemma {:induction false} SuspectsExactly(components: seq<Component>, declared: set<string>, docs: seq<Document>,
      key: string)
    ensures IsListed(key, SuspectsIn(components, declared, docs)) <==>
      UndocumentedAnywhere(key, components, declared, docs)
  {
    if components != [] {
      var before, last := components[..|components| - 1], components[|components| - 1];
      SuspectsExactly(before, declared, docs, key);
      SuspectsOnExactly(Keys(last.body), last, declared, docs, SuspectsIn(before, declared, docs), key);
      AnywhereStep(key, components, declared, docs);
    }
  }

  ghost predicate UndocumentedAnywhere(key: string, components: seq<Component>, declared: set<string>,
      docs: seq<Document>)
  {
    exists c :: c in components && Undocumented(key, c, declared, docs)
  }

  lemma AnywhereStep(key: string, components: seq<Component>, declared: set<string>, docs: seq<Document>)
    requires components != []
    ensures UndocumentedAnywhere(key, components, declared, docs) <==>
      || UndocumentedAnywhere(key, components[..|components| - 1], declared, docs)
      || Undocumented(key, components[|components| - 1], declared, docs)
  {
    forall c ensures c in components <==> c in components[..|components| - 1] || c == components[|components| - 1] {
      InInitLast(components, c);
    }
  }

  /** A suspect is reported on the first component it is undocumented on. */
  ghost predicate FirstUndocumented(s: Suspect, components: seq<Component>, declared: set<string>,
      docs: seq<Document>)
  {
    exists i :: 0 <= i < |components| && components[i].kind == s.component
      && Undocumented(s.key, components[i], declared, docs)
      && forall j :: 0 <= j < i ==> !Undocumented(s.key, components[j], declared, docs)
  }

  lemma {:induction false} SuspectsNameTheirFirstComponent(components: seq<Component>, declared: set<string>,
      docs: seq<Document>, s: Suspect)
    requires s in SuspectsIn(components, declared, docs)
    ensures FirstUndocumented(s, components, declared, docs)
  {
    var n := |components| - 1;
    var earlier, c := components[..n], components[n];
    var before := SuspectsIn(earlier, declared, docs);
    SuspectsOnExactly(Keys(c.body), c, declared, docs, before, s.key);
    SuspectsOnOrigin(Keys(c.body), c, declared, docs, before, s);
    if s in before {
      SuspectsNameTheirFirstComponent(earlier, declared, docs, s);
      var i :| 0 <= i < n && earlier[i].kind == s.component && Undocumented(s.key, earlier[i], declared, docs)
        && forall j :: 0 <= j < i ==> !Undocumented(s.key, earlier[j], declared, docs);
      assert forall j :: 0 <= j <= i ==> earlier[j] == components[j];
    } else {
      SuspectsExactly(earlier, declared, docs, s.key);
      assert forall j :: 0 <= j < n ==> earlier[j] == components[j] && earlier[j] in earlier;
    }
  }

  function SuspectsOf(code: string, declared: set<string>, docs: seq<Document>): seq<Suspect> {
    if code == "" then [] else SuspectsIn(Declared(code), declared, docs)
  }

  /** Looked-up evidence by component type, and which types have only partly read pages. */
  datatype Cache = Cache(scopes: map<string, Option<string>>, partial: map<string, bool>)

  ghost predicate Cached(cache: Cache, docs: seq<Document>) {
    && cache.scopes.Keys == cache.partial.Keys
    && forall kind :: kind in cache.scopes ==>
         cache.scopes[kind] == Evidence(kind, docs) && cache.partial[kind] == Partial(kind, docs)
  }

  method LookUp(kind: string, docs: seq<Document>, before: Cache) returns (cache: Cache)
    requires Cached(before, docs)
    ensures Cached(cache, docs) && kind in cache.scopes
  {
    cache := before;
    if kind !in cache.scopes {
      cache := Cache(
        cache.scopes[kind := Evidence(kind, docs)],
        cache.partial[kind := Partial(kind, docs)]);
    }
  }

  method ScopeOf(component: Option<string>, docs: seq<Document>, everything: string, before: Cache)
    returns (scope: string, cache: Cache)
    requires Cached(before, docs) && everything == Everything(docs)
    ensures Cached(cache, docs) && scope == Scope(component, docs)
  {
    scope, cache := everything, before;
    if component.Some? {
      cache := LookUp(component.value, docs, before);
      var evidence := cache.scopes[component.value];
      if !cache.partial[component.value] && evidence.Some? && evidence.value != "" { scope := evidence.value; }
    }
  }

  /** `suspects`: evidence is looked up once for each component type. */
  method Suspects(code: string, declared: set<string>, docs: seq<Document>) returns (found: seq<Suspect>)
    ensures found == SuspectsOf(code, declared, docs)
  {
    found := [];
    if code == "" { return; }
    var everything, cache := Everything(docs), Cache(map[], map[]);
    var components := DeclaredComponents(code);
    var i := 0;
    assert components[..0] == [];
    while i < |components|
      invariant i <= |components|
      invariant found == SuspectsIn(components[..i], declared, docs)
      invariant Cached(cache, docs)
    {
      var scope;
      scope, cache := ScopeOf(components[i].kind, docs, everything, cache);
      found := SuspectsOnComponent(components[i], declared, docs, scope, found);
      SuspectsStep(components, i, declared, docs);
      i := i + 1;
    }
    assert components[..i] == components;
  }

  lemma SuspectsStep(components: seq<Component>, i: nat, declared: set<string>, docs: seq<Document>)
    requires i < |components|
    ensures SuspectsIn(components[..i + 1], declared, docs) ==
      SuspectsOn(Keys(components[i].body), components[i], declared, docs, SuspectsIn(components[..i], declared, docs))
  {
    assert components[..i + 1][..i] == components[..i];
  }

  method SuspectsOnComponent(c: Component, declared: set<string>, docs: seq<Document>, scope: string,
      before: seq<Suspect>) returns (found: seq<Suspect>)
    requires scope == Scope(c.kind, docs)
    ensures found == SuspectsOn(Keys(c.body), c, declared, docs, before)
  {
    found := before;
    var keys, i := Keys(c.body), 0;
    assert keys[..0] == [];
    while i < |keys|
      invariant i <= |keys|
      invariant found == SuspectsOn(keys[..i], c, declared, docs, before)
    {
      assert keys[..i + 1][..i] == keys[..i];
      if keys[i] !in declared && !IsListed(keys[i], found) && !Present(keys[i], scope) {
        found := found + [Suspect(keys[i], c.kind)];
      }
      i := i + 1;
    }
    assert keys[..i] == keys;
  }

  // ----- what the passages document is never a suspect -----

  predicate Uses(identifier: string, c: Component) {
    c.kind.Some? && Sets(identifier, c.body)
  }

  predicate DocumentedOn(identifier: string, kind: string, docs: seq<Document>) {
    Evidence(kind, docs).Some? && Present(Lower(identifier), Evidence(kind, docs).value)
  }

  /** `documented_where_used`. */
  predicate DocumentedWhereUsed(identifier: string, components: seq<Component>, docs: seq<Document>) {
    && (exists c :: c in components && Uses(identifier, c))
    && (forall c :: c in components && Uses(identifier, c) ==> DocumentedOn(identifier, c.kind.value, docs))
  }

  lemma {:induction false} TextsAt(docs: seq<Document>)
    ensures |Texts(docs)| == |docs| && forall i :: 0 <= i < |docs| ==> Texts(docs)[i] == docs[i].text
  {
    if docs != [] { TextsAt(docs[..|docs| - 1]); }
  }

  lemma PresentInTexts(key: string, docs: seq<Document>)
    requires key != "" && '\n' !in key
    ensures Present(key, Everything(docs)) <==> exists d :: d in docs && Present(key, Lower(d.text))
  {
    TextsAt(docs);
    PresentJoin(key, Texts(docs));
    assert forall i :: 0 <= i < |docs| ==> docs[i] in docs;
  }

  lemma {:induction false} OwnPagesArePassages(component: string, docs: seq<Document>)
    ensures forall d :: d in OwnPages(component, docs) <==> d in docs && NamesPage(component, d.name)
  {
    if docs != [] {
      OwnPagesArePassages(component, docs[..|docs| - 1]);
      assert docs == docs[..|docs| - 1] + [docs[|docs| - 1]];
    }
  }

  lemma {:induction false} ExamplesInAreBodies(wanted: string, blocks: seq<Block>)
    ensures forall e :: e in ExamplesIn(wanted, blocks) ==> e in Bodies(blocks)
  {
    if blocks != [] { ExamplesInAreBodies(wanted, blocks[..|blocks| - 1]); }
  }

  /** An example block's text lies within a passage, so what it contains the passage contains. */
  lemma {:induction false} ExampleInPassage(key: string, wanted: string, docs: seq<Document>, e: string)
    returns (d: Document)
    requires key != "" && '\n' !in key
    requires e in Examples(wanted, docs) && Present(key, Lower(e))
    ensures d in docs && Present(key, Lower(d.text))
  {
    var n := |docs| - 1;
    if e in Examples(wanted, docs[..n]) {
      d := ExampleInPassage(key, wanted, docs[..n], e);
    } else {
      d := docs[n];
      var blocks := BlocksOf(d.text);
      ExamplesInAreBodies(wanted, blocks);
      BlocksAreLossless(d.text);
      PresentJoin(key, Bodies(blocks));
    }
  }

  // ----- what a component's evidence is -----

  /** An example block of that type in some passage. */
  ghost predicate IsExample(e: string, wanted: string, docs: seq<Document>) {
    exists d :: d in docs && HasExample(e, wanted, d)
  }

  ghost predicate HasExample(e: string, wanted: string, d: Document) {
    exists b :: b in BlocksOf(d.text) && IsOfType(b, wanted) && b.body == e
  }

  predicate IsOfType(b: Block, wanted: string) {
    b.header.Some? && Lower(b.header.value.kind) == wanted
  }

  lemma {:induction false} ExamplesInExactly(wanted: string, blocks: seq<Block>, e: string)
    ensures e in ExamplesIn(wanted, blocks) <==> exists b :: b in blocks && IsOfType(b, wanted) && b.body == e
  {
    if blocks != [] {
      var before, last := blocks[..|blocks| - 1], blocks[|blocks| - 1];
      ExamplesInExactly(wanted, before, e);
      forall b ensures b in blocks <==> b in before || b == last { InInitLast(blocks, b); }
      InAppend(ExamplesIn(wanted, before), last.body, e);
    }
  }

  lemma PassageExamples(wanted: string, d: Document, e: string)
    ensures e in ExamplesIn(wanted, BlocksOf(d.text)) <==> HasExample(e, wanted, d)
  {
    ExamplesInExactly(wanted, BlocksOf(d.text), e);
  }

  lemma IsExampleStep(e: string, wanted: string, docs: seq<Document>)
    requires docs != []
    ensures IsExample(e, wanted, docs) <==>
      IsExample(e, wanted, docs[..|docs| - 1]) || HasExample(e, wanted, docs[|docs| - 1])
  {
    forall d ensures d in docs <==> d in docs[..|docs| - 1] || d == docs[|docs| - 1] { InInitLast(docs, d); }
  }

  lemma {:induction false} ExamplesExactly(wanted: string, docs: seq<Document>, e: string)
    ensures e in Examples(wanted, docs) <==> IsExample(e, wanted, docs)
  {
    if docs != [] {
      var before, last := docs[..|docs| - 1], docs[|docs| - 1];
      ExamplesExactly(wanted, before, e);
      InConcat(Examples(wanted, before), ExamplesIn(wanted, BlocksOf(last.text)), e);
      PassageExamples(wanted, last, e);
      IsExampleStep(e, wanted, docs);
    }
  }

  lemma {:induction false} NoOwnPages(component: string, docs: seq<Document>)
    requires forall d :: d in docs ==> !NamesPage(component, d.name)
    ensures OwnPages(component, docs) == []
  {
    if docs != [] { NoOwnPages(component, docs[..|docs| - 1]); }
  }

  /** A component with a page of its own is documented by its own pages alone, whatever examples of it
    * other pages still carry. */
  lemma OwnPagesOutrankExamples(key: string, component: string, docs: seq<Document>)
    requires key != "" && '\n' !in key
    requires exists d :: d in docs && NamesPage(component, d.name)
    ensures Evidence(component, docs).Some?
    ensures Present(key, Evidence(component, docs).value) <==>
      exists d :: d in docs && NamesPage(component, d.name) && Present(key, Lower(d.text))
  {
    var d :| d in docs && NamesPage(component, d.name);
    OwnPagesArePassages(component, docs);
    assert d in OwnPages(component, docs);
    PresentInTexts(key, OwnPages(component, docs));
  }

  /** A component without one is documented by the example blocks of its type, if there are any. */
  lemma ElseExamplesDocument(key: string, component: string, docs: seq<Document>)
    requires key != "" && '\n' !in key
    requires forall d :: d in docs ==> !NamesPage(component, d.name)
    ensures Evidence(component, docs).Some? <==> exists e :: IsExample(e, Lower(component), docs)
    ensures Evidence(component, docs).Some? ==>
      (Present(key, Evidence(component, docs).value) <==>
        exists e :: IsExample(e, Lower(component), docs) && Present(key, Lower(e)))
  {
    NoOwnPages(component, docs);
    var examples := Examples(Lower(component), docs);
    forall e ensures e in examples <==> IsExample(e, Lower(component), docs) {
      ExamplesExactly(Lower(component), docs, e);
    }
    if examples != [] { assert examples[0] in examples; }
    PresentJoin(key, examples);
    assert forall i :: 0 <= i < |examples| ==> examples[i] in examples;
  }

  ghost predicate HasOwnPage(component: string, docs: seq<Document>) {
    exists d :: d in docs && NamesPage(component, d.name)
  }

  /** Its own pages were all read only in part. */
  ghost predicate OnlyExcerpts(component: string, docs: seq<Document>) {
    HasOwnPage(component, docs) && forall d :: d in docs && NamesPage(component, d.name) ==> d.truncated
  }

  lemma PartialExactly(component: string, docs: seq<Document>)
    ensures Partial(component, docs) <==> OnlyExcerpts(component, docs)
  {
    var own := OwnPages(component, docs);
    OwnPagesArePassages(component, docs);
    assert forall i :: 0 <= i < |own| ==> own[i] in own;
    if own != [] { assert own[0] in docs; }
  }

  /** It has one own page, and that says nothing. */
  ghost predicate OneBlankPage(component: string, docs: seq<Document>) {
    exists i :: 0 <= i < |docs| && NamesPage(component, docs[i].name) && docs[i].text == ""
      && forall j :: 0 <= j < |docs| && j != i ==> !NamesPage(component, docs[j].name)
  }

  lemma BlankPageLast(component: string, before: seq<Document>, last: Document)
    requires NamesPage(component, last.name)
    ensures OneBlankPage(component, before + [last]) <==> last.text == "" && !HasOwnPage(component, before)
  {
    var docs, n := before + [last], |before|;
    assert docs[n] == last;
    assert forall j :: 0 <= j < n ==> docs[j] == before[j] && before[j] in before;
  }

  lemma BlankPageEarlier(component: string, before: seq<Document>, last: Document)
    requires !NamesPage(component, last.name)
    ensures OneBlankPage(component, before + [last]) <==> OneBlankPage(component, before)
  {
    var docs, n := before + [last], |before|;
    assert docs[n] == last;
    assert forall j :: 0 <= j < n ==> docs[j] == before[j];
  }

  lemma {:induction false} BlankPageExactly(component: string, docs: seq<Document>)
    ensures OneBlankPage(component, docs) <==>
      |OwnPages(component, docs)| == 1 && OwnPages(component, docs)[0].text == ""
    ensures OwnPages(component, docs) == [] <==> !HasOwnPage(component, docs)
  {
    OwnPagesArePassages(component, docs);
    if OwnPages(component, docs) != [] { assert OwnPages(component, docs)[0] in docs; }
    if docs != [] {
      BlankPageExactly(component, docs[..|docs| - 1]);
      InitLast(docs);
      var before, last := docs[..|docs| - 1], docs[|docs| - 1];
      if NamesPage(component, last.name) {
        BlankPageLast(component, before, last);
      } else {
        BlankPageEarlier(component, before, last);
      }
    }
  }

  lemma JoinedBlank(parts: seq<string>)
    ensures Lower(Join(parts, "\n")) == "" <==> parts == [] || parts == [""]
  {
    if |parts| > 0 {
      var n := |parts| - 1;
      InitLast(parts);
      JoinStep(parts[..n], parts[n], "\n");
    }
  }

  lemma NoExampleIsBlank(e: string, wanted: string, d: Document)
    requires HasExample(e, wanted, d)
    ensures e != ""
  {
    var blocks := BlocksOf(d.text);
    var b :| b in blocks && IsOfType(b, wanted) && b.body == e;
    var i :| 0 <= i < |blocks| && blocks[i] == b;
    BlocksEndWhereTheyBalance(d.text, i);
  }

  ghost predicate InPassages(key: string, docs: seq<Document>) {
    exists d :: d in docs && Present(key, Lower(d.text))
  }

  ghost predicate InOwnPages(key: string, component: string, docs: seq<Document>) {
    exists d :: d in docs && NamesPage(component, d.name) && Present(key, Lower(d.text))
  }

  ghost predicate InExamples(key: string, component: string, docs: seq<Document>) {
    exists e :: IsExample(e, Lower(component), docs) && Present(key, Lower(e))
  }

  lemma OwnPagesDecide(key: string, component: string, docs: seq<Document>)
    requires key != "" && '\n' !in key && HasOwnPage(component, docs)
    ensures Present(key, Scope(Some(component), docs)) <==>
      if OnlyExcerpts(component, docs) || OneBlankPage(component, docs) then InPassages(key, docs)
      else InOwnPages(key, component, docs)
  {
    PartialExactly(component, docs);
    BlankPageExactly(component, docs);
    var own := OwnPages(component, docs);
    TextsAt(own);
    JoinedBlank(Texts(own));
    PresentInTexts(key, docs);
    OwnPagesOutrankExamples(key, component, docs);
  }

  lemma ExamplesDecide(key: string, component: string, docs: seq<Document>)
    requires key != "" && '\n' !in key && !HasOwnPage(component, docs)
    ensures Present(key, Scope(Some(component), docs)) <==>
      if exists e :: IsExample(e, Lower(component), docs) then InExamples(key, component, docs)
      else InPassages(key, docs)
  {
    PartialExactly(component, docs);
    BlankPageExactly(component, docs);
    PresentInTexts(key, docs);
    ElseExamplesDocument(key, component, docs);
    var examples := Examples(Lower(component), docs);
    JoinedBlank(examples);
    if examples == [""] {
      ExamplesExactly(Lower(component), docs, "");
      var d :| d in docs && HasExample("", Lower(component), d);
      NoExampleIsBlank("", Lower(component), d);
    }
  }

  /** Where the artifact sets a key, it is undocumented exactly when nothing that counts there has it: on an
    * untyped block any passage counts; on a component its own pages, unless they were all read only in part or
    * there is one that is blank; without any, the examples of its type; and any passage where there is neither. */
  lemma UndocumentedExactly(key: string, c: Component, declared: set<string>, docs: seq<Document>)
    requires key in Keys(c.body) && key !in declared
    ensures Undocumented(key, c, declared, docs) <==>
      match c.kind
      case None => !InPassages(key, docs)
      case Some(kind) =>
        if HasOwnPage(kind, docs) && !OnlyExcerpts(kind, docs) && !OneBlankPage(kind, docs)
        then !InOwnPages(key, kind, docs)
        else if !HasOwnPage(kind, docs) && exists e :: IsExample(e, Lower(kind), docs)
        then !InExamples(key, kind, docs)
        else !InPassages(key, docs)
  {
    KeyIsUse(c.body, key);
    SnakeIsLower(key);
    match c.kind
    case None => PresentInTexts(key, docs);
    case Some(kind) =>
      if HasOwnPage(kind, docs) {
        OwnPagesDecide(key, kind, docs);
      } else {
        ExamplesDecide(key, kind, docs);
      }
  }

  /** An excerpt cannot show a key absent: where a component's own pages were all read only in part, a
    * key is undocumented only when no passage at all has it. */
  lemma ExcerptShowsNothingAbsent(key: string, c: Component, declared: set<string>, docs: seq<Document>)
    requires c.kind.Some? && OnlyExcerpts(c.kind.value, docs)
    ensures Undocumented(key, c, declared, docs) <==>
      key in Keys(c.body) && key !in declared && forall d :: d in docs ==> !Present(key, Lower(d.text))
  {
    if key in Keys(c.body) && key !in declared { UndocumentedExactly(key, c, declared, docs); }
  }

  /** What a component's evidence contains, the whole evidence contains. */
  lemma EvidenceIsInEverything(key: string, component: string, docs: seq<Document>)
    requires key != "" && '\n' !in key
    requires Evidence(component, docs).Some? && Present(key, Evidence(component, docs).value)
    ensures Present(key, Everything(docs))
  {
    PresentInTexts(key, docs);
    var pages := OwnPages(component, docs);
    if pages != [] {
      OwnPagesArePassages(component, docs);
      PresentInTexts(key, pages);
    } else {
      var examples := Examples(Lower(component), docs);
      PresentJoin(key, examples);
      var i :| 0 <= i < |examples| && Present(key, Lower(examples[i]));
      var d := ExampleInPassage(key, Lower(component), docs, examples[i]);
    }
  }

  lemma SnakeIsLower(key: string)
    requires IsSnake(key)
    ensures Lower(key) == key && key != "" && '\n' !in key
  {
  }

  /** A key the passages document wherever a typed block sets it is undocumented nowhere: not on an
    * excerpted page, and not in an untyped block that sets it too. */
  lemma DocumentedIsNowhereUndocumented(key: string, components: seq<Component>, declared: set<string>,
      docs: seq<Document>, c: Component)
    requires DocumentedWhereUsed(key, components, docs) && c in components
    ensures !Undocumented(key, c, declared, docs)
  {
    if key in Keys(c.body) {
      KeyIsUse(c.body, key);
      SnakeIsLower(key);
      var u :| u in components && Uses(key, u);
      EvidenceIsInEverything(key, u.kind.value, docs);
      if c.kind.Some? {
        assert Uses(key, c);
        assert Evidence(c.kind.value, docs).value != "";
      }
    }
  }

  /** No suspect is documented wherever the artifact sets it. */
  lemma DocumentedIsNoSuspect(key: string, components: seq<Component>, declared: set<string>, docs: seq<Document>)
    requires DocumentedWhereUsed(key, components, docs)
    ensures !IsListed(key, SuspectsIn(components, declared, docs))
  {
    SuspectsExactly(components, declared, docs, key);
    forall c | c in components ensures !Undocumented(key, c, declared, docs) {
      DocumentedIsNowhereUndocumented(key, components, declared, docs, c);
    }
  }

  // ----- the review -----

  /** One reported issue, its texts trimmed. */
  datatype Finding = Finding(component: string, identifier: string, problem: string, fix: string)

  /** What the reviewer answered: nobody to ask, an exception, something that is not the expected JSON,
    * or its entries (None for one that is not a record) with the identifiers it cleared. */
  datatype Reply = NoReviewer | Failed | Malformed | Parsed(entries: seq<Option<Finding>>, cleared: set<string>)

  datatype Review = Review(issues: seq<Finding>, unknown: seq<string>, noArtifact: bool, reviewed: bool, error: bool)

  predicate Contains(code: string, identifier: string) {
    exists i :: 0 <= i <= |code| && At(identifier, code, i)
  }

  predicate Reported(identifier: string, issues: seq<Finding>) {
    exists f :: f in issues && f.identifier == identifier
  }

  /** An entry worth acting on: about a name the code contains and its own evidence does not document. */
  predicate Holds(identifier: string, code: string, docs: seq<Document>) {
    identifier != "" && Contains(code, identifier) && !DocumentedWhereUsed(identifier, Declared(code), docs)
  }

  lemma ContainsExactly(code: string, identifier: string)
    ensures Contains(code, identifier) <==> exists a, b :: code == a + identifier + b
  {
    if i :| 0 <= i <= |code| && At(identifier, code, i) {
      assert code[i..i + |identifier|] == identifier;
      assert code == code[..i] + identifier + code[i + |identifier|..];
    }
    forall a, b | code == a + identifier + b ensures Contains(code, identifier) {
      assert forall j :: 0 <= j < |identifier| ==> code[|a| + j] == identifier[j];
      assert At(identifier, code, |a|);
    }
  }

  /** The code contains a name where it is some text, the name, and the rest. */
  lemma HoldsExactly(identifier: string, code: string, docs: seq<Document>)
    ensures Holds(identifier, code, docs) <==>
      && identifier != "" && (exists a, b :: code == a + identifier + b)
      && !DocumentedWhereUsed(identifier, Declared(code), docs)
  {
    ContainsExactly(code, identifier);
  }

  function Issues(entries: seq<Option<Finding>>, code: string, docs: seq<Document>): seq<Finding> {
    if entries == [] then []
    else
      var before, last := Issues(entries[..|entries| - 1], code, docs), entries[|entries| - 1];
      if last.Some? && Holds(last.value.identifier, code, docs) && !Reported(last.value.identifier, before)
      then before + [last.value] else before
  }

  /** Suspects on a component that the reviewer neither reported nor cleared. */
  function Unsettled(found: seq<Suspect>, cleared: set<string>, issues: seq<Finding>): seq<string> {
    if found == [] then []
    else
      var before, last := Unsettled(found[..|found| - 1], cleared, issues), found[|found| - 1];
      if last.component.Some? && last.key !in cleared && !Reported(last.key, issues)
      then before + [last.key] else before
  }

  /** What a reply makes of the suspects. */
  function Judged(code: string, found: seq<Suspect>, docs: seq<Document>, reply: Reply): Review {
    match reply
    case NoReviewer => Review([], Names(found), false, false, false)
    case Failed => Review([], Names(found), false, false, true)
    case Malformed => Review([], Names(found), false, false, true)
    case Parsed(entries, cleared) =>
      var issues := Issues(entries, code, docs);
      Review(issues, Unsettled(found, cleared, issues), false, true, false)
  }

  /** `review`, as far as identifiers go, on the artifact's code blocks. */
  function ReviewOf(blocks: seq<string>, declared: set<string>, docs: seq<Document>, reply: Reply): Review {
    var code := Join(blocks, "\n");
    var found := SuspectsOf(code, declared, docs);
    if blocks == [] then Review([], Names(found), true, false, false) else Judged(code, found, docs, reply)
  }

  method RunReview(blocks: seq<string>, declared: set<string>, docs: seq<Document>, reply: Reply)
    returns (result: Review)
    ensures result == ReviewOf(blocks, declared, docs, reply)
  {
    var code := Join(blocks, "\n");
    var suspected := Suspects(code, declared, docs);
    result := Review([], Names(suspected), blocks == [], false, false);
    if blocks == [] { return; }
    match reply {
      case NoReviewer => return;
      case Failed => return result.(error := true);
      case Malformed => return result.(error := true);
      case Parsed(entries, cleared) =>
        var issues := CollectIssues(entries, code, docs);
        result := Review(issues, Unsettled(suspected, cleared, issues), false, true, false);
    }
  }

  /** The reviewer's entries, filtered. */
  method CollectIssues(entries: seq<Option<Finding>>, code: string, docs: seq<Document>)
    returns (issues: seq<Finding>)
    ensures issues == Issues(entries, code, docs)
  {
    issues := [];
    var components := DeclaredComponents(code);
    var i := 0;
    assert entries[..0] == [];
    while i < |entries|
      invariant i <= |entries|
      invariant issues == Issues(entries[..i], code, docs)
    {
      IssuesStep(entries, i, code, docs);
      var entry := entries[i];
      i := i + 1;
      if entry == None { continue; }
      var identifier := entry.value.identifier;
      if identifier == "" || !Contains(code, identifier) { continue; }
      if Reported(identifier, issues) { continue; }
      if DocumentedWhereUsed(identifier, components, docs) { continue; }
      issues := issues + [entry.value];
    }
    assert entries[..i] == entries;
  }

  lemma IssuesStep(entries: seq<Option<Finding>>, i: nat, code: string, docs: seq<Document>)
    requires i < |entries|
    ensures var before, last := Issues(entries[..i], code, docs), entries[i];
      Issues(entries[..i + 1], code, docs) ==
        if last.Some? && Holds(last.value.identifier, code, docs) && !Reported(last.value.identifier, before)
        then before + [last.value] else before
  {
    assert entries[..i + 1][..i] == entries[..i];
  }

  lemma ReportedStep(issues: seq<Finding>, last: Finding, identifier: string)
    ensures Reported(identifier, issues + [last]) <==> Reported(identifier, issues) || identifier == last.identifier
  {
    forall f ensures f in issues + [last] <==> f in issues || f == last { InAppend(issues, last, f); }
  }

  /** Some record among the entries names the identifier. */
  ghost predicate Entered(identifier: string, entries: seq<Option<Finding>>) {
    exists e :: e in entries && e.Some? && e.value.identifier == identifier
  }

  lemma EnteredStep(entries: seq<Option<Finding>>, identifier: string)
    requires entries != []
    ensures var before, last := entries[..|entries| - 1], entries[|entries| - 1];
      Entered(identifier, entries) <==>
        Entered(identifier, before) || (last.Some? && last.value.identifier == identifier)
  {
    forall e ensures e in entries <==> e in entries[..|entries| - 1] || e == entries[|entries| - 1] {
      InInitLast(entries, e);
    }
  }

  /** The issues are exactly the reviewer's entries about names the code contains that their own
    * evidence does not document. */
  lemma {:induction false} IssuesExactly(entries: seq<Option<Finding>>, code: string, docs: seq<Document>,
      identifier: string)
    ensures Reported(identifier, Issues(entries, code, docs)) <==>
      Holds(identifier, code, docs) && Entered(identifier, entries)
  {
    if entries != [] {
      var before, last := entries[..|entries| - 1], entries[|entries| - 1];
      IssuesExactly(before, code, docs, identifier);
      EnteredStep(entries, identifier);
      if last.Some? { ReportedStep(Issues(before, code, docs), last.value, identifier); }
    }
  }

  /** The entry at i is the first about its identifier. */
  ghost predicate FirstAbout(entries: seq<Option<Finding>>, i: nat)
    requires i < |entries| && entries[i].Some?
  {
    forall j :: 0 <= j < i && entries[j].Some? ==> entries[j].value.identifier != entries[i].value.identifier
  }

  ghost predicate FirstEntry(entries: seq<Option<Finding>>, f: Finding) {
    exists i: nat :: i < |entries| && entries[i] == Some(f) && FirstAbout(entries, i)
  }

  lemma FirstEntryStep(before: seq<Option<Finding>>, last: Option<Finding>, f: Finding)
    ensures FirstEntry(before + [last], f) <==>
      FirstEntry(before, f) || (last == Some(f) && !Entered(f.identifier, before))
  {
    var entries := before + [last];
    forall i: nat | i < |before| && before[i] == Some(f) ensures FirstAbout(before, i) == FirstAbout(entries, i) {
      assert forall j :: 0 <= j <= i ==> entries[j] == before[j];
    }
    if FirstEntry(before, f) {
      var i: nat :| i < |before| && before[i] == Some(f) && FirstAbout(before, i);
      assert entries[i] == before[i];
    }
    if last == Some(f) { LastIsFirst(before, last, f); }
    if FirstEntry(entries, f) {
      var i: nat :| i < |entries| && entries[i] == Some(f) && FirstAbout(entries, i);
      if i < |before| { assert entries[i] == before[i]; }
    }
  }

  lemma LastIsFirst(before: seq<Option<Finding>>, last: Option<Finding>, f: Finding)
    requires last == Some(f)
    ensures FirstAbout(before + [last], |before|) <==> !Entered(f.identifier, before)
  {
    var entries := before + [last];
    assert entries[|before|] == Some(f) && forall j :: 0 <= j < |before| ==> entries[j] == before[j];
    if e :| e in before && e.Some? && e.value.identifier == f.identifier {
      var j :| 0 <= j < |before| && before[j] == e;
      assert entries[j] == e;
    }
  }

  /** The issues are the reply's own entries, problem and fix as it gave them: of those whose name holds, the
    * first about each, and each once. */
  lemma {:induction false} IssuesAreFirstEntries(entries: seq<Option<Finding>>, code: string, docs: seq<Document>,
      f: Finding)
    ensures f in Issues(entries, code, docs) <==> Holds(f.identifier, code, docs) && FirstEntry(entries, f)
  {
    if entries != [] {
      var before, last := entries[..|entries| - 1], entries[|entries| - 1];
      var issues := Issues(before, code, docs);
      IssuesAreFirstEntries(before, code, docs, f);
      InitLast(entries);
      FirstEntryStep(before, last, f);
      if last.Some? {
        IssuesExactly(before, code, docs, last.value.identifier);
        InAppend(issues, last.value, f);
      }
    }
  }

  function Identifiers(issues: seq<Finding>): seq<string> {
    if issues == [] then [] else Identifiers(issues[..|issues| - 1]) + [issues[|issues| - 1].identifier]
  }

  lemma {:induction false} IdentifiersExactly(issues: seq<Finding>, identifier: string)
    ensures identifier in Identifiers(issues) <==> Reported(identifier, issues)
  {
    if issues != [] {
      var before, last := issues[..|issues| - 1], issues[|issues| - 1];
      IdentifiersExactly(before, identifier);
      InitLast(issues);
      ReportedStep(before, last, identifier);
      InAppend(Identifiers(before), last.identifier, identifier);
    }
  }

  lemma {:induction false} IssuesAreDistinct(entries: seq<Option<Finding>>, code: string, docs: seq<Document>)
    ensures Distinct(Identifiers(Issues(entries, code, docs)))
  {
    if entries != [] {
      var before, last := entries[..|entries| - 1], entries[|entries| - 1];
      var issues := Issues(before, code, docs);
      IssuesAreDistinct(before, code, docs);
      if last.Some? {
        IdentifiersExactly(issues, last.value.identifier);
        assert (issues + [last.value])[..|issues|] == issues;
      }
    }
  }

  lemma {:induction false} UnsettledExactly(found: seq<Suspect>, cleared: set<string>, issues: seq<Finding>,
      key: string)
    ensures key in Unsettled(found, cleared, issues) <==>
      key !in cleared && !Reported(key, issues) && exists s :: s in found && s.key == key && s.component.Some?
  {
    if found != [] {
      var before, last := found[..|found| - 1], found[|found| - 1];
      UnsettledExactly(before, cleared, issues, key);
      forall s ensures s in found <==> s in before || s == last { InInitLast(found, s); }
      InAppend(Unsettled(before, cleared, issues), last.key, key);
    }
  }

  lemma JudgedExactly(code: string, found: seq<Suspect>, docs: seq<Document>, reply: Reply, key: string)
    ensures var result := Judged(code, found, docs, reply);
      && (key in result.unknown <==>
            if reply.Parsed? then
              key !in reply.cleared && !Reported(key, result.issues) &&
                exists s :: s in found && s.key == key && s.component.Some?
            else IsListed(key, found))
      && (Reported(key, result.issues) <==> reply.Parsed? && Holds(key, code, docs) && Entered(key, reply.entries))
  {
    NamesExactly(found, key);
    if reply.Parsed? {
      IssuesExactly(reply.entries, code, docs, key);
      UnsettledExactly(found, reply.cleared, Issues(reply.entries, code, docs), key);
    }
  }

  lemma DocumentedIsNotListed(identifier: string, code: string, declared: set<string>, docs: seq<Document>)
    requires DocumentedWhereUsed(identifier, Declared(code), docs)
    ensures !IsListed(identifier, SuspectsOf(code, declared, docs))
  {
    DocumentedIsNoSuspect(identifier, Declared(code), declared, docs);
  }

  /** Whatever the reviewer answers, or none at all: an identifier the passages document on every
    * component where the artifact sets it is neither an issue nor unknown. */
  lemma PassagesOutrankTheReviewer(blocks: seq<string>, declared: set<string>, docs: seq<Document>, reply: Reply,
      identifier: string)
    requires DocumentedWhereUsed(identifier, Declared(Join(blocks, "\n")), docs)
    ensures var result := ReviewOf(blocks, declared, docs, reply);
      identifier !in result.unknown && !Reported(identifier, result.issues)
  {
    var code := Join(blocks, "\n");
    DocumentedIsNotListed(identifier, code, declared, docs);
    Spared(identifier, code, SuspectsOf(code, declared, docs), docs, reply);
    NamesExactly(SuspectsOf(code, declared, docs), identifier);
  }

  lemma Spared(identifier: string, code: string, found: seq<Suspect>, docs: seq<Document>, reply: Reply)
    requires !IsListed(identifier, found) && DocumentedWhereUsed(identifier, Declared(code), docs)
    ensures var result := Judged(code, found, docs, reply);
      identifier !in result.unknown && !Reported(identifier, result.issues)
  {
    JudgedExactly(code, found, docs, reply, identifier);
  }

  lemma WholeIsBlank(blocks: seq<Block>, i: nat)
    requires i < |blocks| && Whole(blocks) == ""
    ensures blocks[i].body == ""
  {
    BodiesAt(blocks);
    JoinedBlank(Bodies(blocks));
    assert Bodies(blocks)[i] == blocks[i].body;
  }

  lemma NothingSet(key: string)
    ensures key !in Keys("")
  {
    if key in Keys("") { KeyIsUse("", key); }
  }

  /** Empty code sets nothing, so the suspects of any code are the keys undocumented on some component. */
  lemma SuspectsOfExactly(code: string, declared: set<string>, docs: seq<Document>, key: string)
    ensures IsListed(key, SuspectsOf(code, declared, docs)) <==>
      UndocumentedAnywhere(key, Declared(code), declared, docs)
  {
    SuspectsExactly(Declared(code), declared, docs, key);
    if code == "" {
      forall c | c in Declared("") ensures !Undocumented(key, c, declared, docs) {
        var i :| 0 <= i < |Declared("")| && Declared("")[i] == c;
        BlocksAreLossless("");
        WholeIsBlank(BlocksOf(""), i);
        NothingSet(key);
      }
    }
  }

  /** With no usable reply every suspect is unknown and nothing is an issue; with one, unknown are exactly
    * the suspects on a component that it neither cleared nor had reported, and issues are exactly its
    * entries that hold. */
  lemma ReviewExactly(blocks: seq<string>, declared: set<string>, docs: seq<Document>, reply: Reply, key: string)
    requires blocks != []
    ensures var code := Join(blocks, "\n");
      var found := SuspectsOf(code, declared, docs);
      var result := ReviewOf(blocks, declared, docs, reply);
      && (key in result.unknown <==>
            if reply.Parsed? then
              key !in reply.cleared && !Reported(key, result.issues) &&
                exists s :: s in found && s.key == key && s.component.Some?
            else UndocumentedAnywhere(key, Declared(code), declared, docs))
      && (Reported(key, result.issues) <==> reply.Parsed? && Holds(key, code, docs) && Entered(key, reply.entries))
  {
    var code := Join(blocks, "\n");
    SuspectsOfExactly(code, declared, docs, key);
    JudgedExactly(code, SuspectsOf(code, declared, docs), docs, reply, key);
  }

  /** What the review says of itself: whether there was an artifact, whether it was read by a reviewer, and
    * whether asking one failed. Without an artifact nobody is asked and every suspect is unknown. */
  lemma ReviewSaysSo(blocks: seq<string>, declared: set<string>, docs: seq<Document>, reply: Reply)
    ensures var result := ReviewOf(blocks, declared, docs, reply);
      && (result.noArtifact <==> blocks == [])
      && (result.reviewed <==> blocks != [] && reply.Parsed?)
      && (result.error <==> blocks != [] && (reply.Failed? || reply.Malformed?))
      && (!result.reviewed ==> result.issues == [])
      && (!result.reviewed ==>
            forall key :: key in result.unknown <==> IsListed(key, SuspectsOf(Join(blocks, "\n"), declared, docs)))
  {
    var found := SuspectsOf(Join(blocks, "\n"), declared, docs);
    forall key ensures key in Names(found) <==> IsListed(key, found) { NamesExactly(found, key); }
  }
}
