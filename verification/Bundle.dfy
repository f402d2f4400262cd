/** Bundles of a graph and its files (zega/src/bundle.rs): what verifying
    checks, what resolving finds, and what packing ships.

    The directory is an abstract map of files; the hash, the file URL parser
    and the local disk are parameters. */
module Bundles {
  import opened Machine
  import opened Wrappers

  type Bytes = seq<byte>

  // ----- the world around a bundle -----

  // The hash of bytes as 64 hex characters, what a file URL is and which local
  // path it names, and the files that can be read on this computer.
  datatype World = World(
    hash: Bytes -> string,
    isFileUrl: string -> bool,
    pathOf: string -> Option<string>,
    files: map<string, Bytes>)

  predicate IsHexDigit(c: char) {
    '0' <= c <= '9' || 'a' <= c <= 'f'
  }

  predicate IsHash(s: string) {
    |s| == 64 && forall i | 0 <= i < |s| :: IsHexDigit(s[i])
  }

  ghost predicate Lawful(w: World) {
    && (forall b :: IsHash(w.hash(b)))
    && (forall url :: w.pathOf(url).Some? ==> w.isFileUrl(url))
    && (forall url :: w.isFileUrl(url) ==> !IsHash(url))
  }

  // Such worlds exist, with any files.
  lemma {:induction false} SomeWorldIsLawful(files: map<string, Bytes>)
    ensures exists w :: Lawful(w) && w.files == files
  {
    var w := World(b => seq(64, i => 'a'), url => url != "" && url[0] == 'f' && |url| < 64, url => None, files);
    assert Lawful(w);
  }

  // The same world on a computer that has none of the files.
  function Elsewhere(w: World): World {
    w.(files := map[])
  }

  // The hash of the file a URL names, when it can be read.
  function HashAt(w: World, url: string): Option<string> {
    match w.pathOf(url)
    case None => None
    case Some(path) => if path in w.files then Some(w.hash(w.files[path])) else None
  }

  // ----- the graph's file facts -----

  // What bundles read of a property value: a string; a list by its items, or a
  // map by its keys and values; or something without text.
  datatype Content = Text(text: string) | Many(items: seq<Content>) | NoText

  predicate Mentions(c: Content, text: string) {
    match c
    case Text(t) => t == text
    case Many(items) => exists i :: 0 <= i < |items| && Mentions(items[i], text)
    case NoText => false
  }

  datatype Prop = Prop(name: string, value: Content)

  // A node with its labels, or a relationship with its kind as the only one.
  datatype Element = Element(id: u64, node: bool, labels: seq<string>, props: seq<Prop>)

  // A value, with what decides how it is read.
  datatype Held = Held(node: bool, labels: seq<string>, prop: Prop)

  // The types a field is declared with, as the schema writes them; a kind of
  // relationship may be declared in several places.
  type Fields = map<string, set<string>>

  datatype Schema = Schema(nodes: map<string, Fields>, edges: map<string, Fields>)

  // Beside its elements a graph holds the values of its valid-time histories
  // and those in the log of changes it shares with linked graphs.
  datatype Graph = Graph(schema: Option<Schema>, elements: seq<Element>, past: seq<Held>, log: seq<Held>)

  datatype Fact = Fact(field: string, value: string)

  datatype Facts = Facts(hashes: seq<Fact>, paths: seq<Fact>)

  const NO_FACTS := Facts([], [])

  const REFERENCE_TYPE := "String<blake3>"
  const PATH_TYPE := "String<file>"

  // Whether a property is scanned as a reference, as a path, or as neither.
  datatype Role = Reference | FilePath | Neither

  function Of(e: Element, p: Prop): Held {
    Held(e.node, e.labels, p)
  }

  function DeclaredIn(s: Schema, node: bool): map<string, Fields> {
    if node then s.nodes else s.edges
  }

  // A string is scanned by its declared type, which has to be one of the two to
  // the letter, under its first label; without a schema, by its shape.
  function RoleOf(w: World, schema: Option<Schema>, x: Held): (r: Role)
    ensures !r.Neither? ==> x.prop.value.Text?
  {
    if !x.prop.value.Text? then Neither
    else
      match schema
      case None =>
        if IsHash(x.prop.value.text) then Reference
        else if w.isFileUrl(x.prop.value.text) then FilePath
        else Neither
      case Some(s) =>
        var declared := DeclaredIn(s, x.node);
        if x.labels == [] || x.labels[0] !in declared || x.prop.name !in declared[x.labels[0]] then Neither
        else
          var types := declared[x.labels[0]][x.prop.name];
          if REFERENCE_TYPE in types then Reference else if PATH_TYPE in types then FilePath else Neither
  }

  function Collect(w: World, schema: Option<Schema>, e: Element, props: seq<Prop>): Facts {
    if props == [] then NO_FACTS
    else
      var rest := Collect(w, schema, e, props[1..]);
      var p := props[0];
      match RoleOf(w, schema, Of(e, p))
      case Reference => rest.(hashes := [Fact(p.name, p.value.text)] + rest.hashes)
      case FilePath => rest.(paths := [Fact(p.name, p.value.text)] + rest.paths)
      case Neither => rest
  }

  function FactsOf(w: World, schema: Option<Schema>, e: Element): Facts {
    Collect(w, schema, e, e.props)
  }

  datatype Subject = Subject(element: Element, facts: Facts)

  function ScanFrom(w: World, schema: Option<Schema>, elements: seq<Element>): seq<Subject> {
    if elements == [] then []
    else
      var facts := FactsOf(w, schema, elements[0]);
      (if facts == NO_FACTS then [] else [Subject(elements[0], facts)]) + ScanFrom(w, schema, elements[1..])
  }

  function Scan(w: World, g: Graph): seq<Subject> {
    ScanFrom(w, g.schema, g.elements)
  }

  // ----- verifying -----

  datatype Error =
    | BadLayout
    | BadManifest
    | BadHash(text: string)
    | BadFileUrl(text: string)
    | HashMismatch(name: string)
    | Dangling(hash: string)
    | LocalOnly(hash: string)

  // What is off the local disk: the bundle's assets and its remotes.
  datatype Store = Store(assets: map<string, Bytes>, remote: map<string, string>)

  predicate OffLocal(st: Store, hash: string) {
    (IsHash(hash) && hash in st.assets) || hash in st.remote
  }

  function Position(hashes: seq<Fact>, hash: string): (at: int)
    ensures -1 <= at < |hashes|
    ensures at >= 0 ==> hashes[at].value == hash && forall i | 0 <= i < at :: hashes[i].value != hash
    ensures at < 0 ==> forall i | 0 <= i < |hashes| :: hashes[i].value != hash
  {
    if hashes == [] then -1
    else if hashes[0].value == hash then 0
    else
      var at := Position(hashes[1..], hash);
      if at < 0 then -1 else at + 1
  }

  // A path counts for the first of its subject's references it hashes to.
  predicate LocalAt(w: World, facts: Facts, at: int) {
    exists i :: 0 <= i < |facts.paths| && CountsFor(w, facts, i, at)
  }

  predicate CountsFor(w: World, facts: Facts, i: nat, at: int)
    requires i < |facts.paths|
  {
    var h := HashAt(w, facts.paths[i].value);
    h.Some? && Position(facts.hashes, h.value) == at
  }

  // Of references with the same hash in one subject, only the first is ever
  // satisfied by a path; the others need an asset or a remote.
  lemma {:induction false} OnlyTheFirstReferenceIsLocal(w: World, facts: Facts, first: nat, at: nat)
    requires first < at < |facts.hashes| && facts.hashes[first].value == facts.hashes[at].value
    ensures !LocalAt(w, facts, at)
  {
    hide HashAt;
    forall i | 0 <= i < |facts.paths|
      ensures !CountsFor(w, facts, i, at)
    {
    }
  }

  predicate WellFormedFacts(w: World, facts: Facts) {
    && (forall i | 0 <= i < |facts.hashes| :: IsHash(facts.hashes[i].value))
    && (forall i | 0 <= i < |facts.paths| :: w.isFileUrl(facts.paths[i].value))
    && (facts.hashes != [] ==> forall i | 0 <= i < |facts.paths| :: w.pathOf(facts.paths[i].value).Some?)
  }

  predicate AllPresent(w: World, st: Store, facts: Facts) {
    forall at | 0 <= at < |facts.hashes| :: LocalAt(w, facts, at) || OffLocal(st, facts.hashes[at].value)
  }

  predicate ReferencesHold(w: World, st: Store, subjects: seq<Subject>) {
    forall i | 0 <= i < |subjects| ::
      WellFormedFacts(w, subjects[i].facts) && AllPresent(w, st, subjects[i].facts)
  }

  predicate AssetsHold(w: World, assets: map<string, Bytes>) {
    forall name | name in assets :: IsHash(name) && w.hash(assets[name]) == name
  }

  // ----- resolving -----

  datatype Resolution =
    | Local(path: string)
    | Asset(name: string)
    | Remote(url: string)
    | Stale(path: string)
    | Missing

  function OffLocalOf(st: Store, hash: string): Option<Resolution> {
    if IsHash(hash) && hash in st.assets then Some(Asset(hash))
    else if hash in st.remote then Some(Remote(st.remote[hash]))
    else None
  }

  function Resolve(w: World, st: Store, hash: string, url: Option<string>): Result<Resolution, Error> {
    if !IsHash(hash) then Err(BadHash(hash))
    else
      var off := OffLocalOf(st, hash);
      match url
      case None => Ok(if off.Some? then off.value else Missing)
      case Some(u) =>
        match w.pathOf(u)
        case None => Err(BadFileUrl(u))
        case Some(path) =>
          if path in w.files && w.hash(w.files[path]) == hash then Ok(Local(path))
          else Ok(if off.Some? then off.value else if path in w.files then Stale(path) else Missing)
  }

  // What is resolved has the hash that was asked for; a changed file never does.
  lemma {:induction false} ResolvedBytesMatch(w: World, st: Store, hash: string, url: Option<string>)
    requires AssetsHold(w, st.assets)
    ensures match Resolve(w, st, hash, url)
      case Ok(Local(path)) => path in w.files && w.hash(w.files[path]) == hash
      case Ok(Asset(name)) => name in st.assets && w.hash(st.assets[name]) == hash
      case Ok(Remote(at)) => hash in st.remote && st.remote[hash] == at
      case Ok(Stale(path)) => path in w.files && w.hash(w.files[path]) != hash && !OffLocal(st, hash)
      case Ok(Missing) => !OffLocal(st, hash)
      case Err(_) => true
  {
  }

  // A local file with the hash comes first, then an asset, then a remote; a file
  // that changed is named when nothing else is found.
  lemma {:induction false} ResolvesInOrder(w: World, st: Store, hash: string, url: Option<string>)
    ensures Resolve(w, st, hash, url).Err? <==> !IsHash(hash) || (url.Some? && w.pathOf(url.value).None?)
    ensures Resolve(w, st, hash, url).Ok? ==>
      var path := if url.Some? then w.pathOf(url.value) else None;
      var here := path.Some? && path.value in w.files;
      var local := here && w.hash(w.files[path.value]) == hash;
      match Resolve(w, st, hash, url).value
      case Local(p) => local && path == Some(p)
      case Asset(name) => !local && name == hash && hash in st.assets
      case Remote(at) => !local && hash !in st.assets && hash in st.remote && at == st.remote[hash]
      case Stale(p) => here && !local && path == Some(p) && hash !in st.assets && hash !in st.remote
      case Missing => !here && hash !in st.assets && hash !in st.remote
  {
  }

  // Every reference of a bundle that verifies resolves, by one of its subject's
  // paths or by none.
  lemma {:induction false} VerifiedReferencesResolve(w: World, st: Store, facts: Facts, at: nat)
    requires WellFormedFacts(w, facts) && AllPresent(w, st, facts) && at < |facts.hashes|
    ensures var hash := facts.hashes[at].value;
      || (exists i :: 0 <= i < |facts.paths| && ResolvesToLocal(w, st, hash, facts.paths[i].value))
      || (Resolve(w, st, hash, None).Ok? && !Resolve(w, st, hash, None).value.Missing?)
  {
    if LocalAt(w, facts, at) {
      var i :| 0 <= i < |facts.paths| && CountsFor(w, facts, i, at);
      assert ResolvesToLocal(w, st, facts.hashes[at].value, facts.paths[i].value);
    }
  }

  predicate ResolvesToLocal(w: World, st: Store, hash: string, url: string) {
    Resolve(w, st, hash, Some(url)).Ok? && Resolve(w, st, hash, Some(url)).value.Local?
  }

  // ----- stripping -----

  predicate Distinct(props: seq<Prop>) {
    forall i, j | 0 <= i < j < |props| :: props[i].name != props[j].name
  }

  function Without(w: World, schema: Option<Schema>, e: Element, props: seq<Prop>): seq<Prop> {
    if props == [] then []
    else (if RoleOf(w, schema, Of(e, props[0])).FilePath? then [] else [props[0]]) + Without(w, schema, e, props[1..])
  }

  function StripElement(w: World, schema: Option<Schema>, e: Element): Element {
    e.(props := Without(w, schema, e, e.props))
  }

  function StripAll(w: World, schema: Option<Schema>, elements: seq<Element>): seq<Element> {
    if elements == [] then [] else [StripElement(w, schema, elements[0])] + StripAll(w, schema, elements[1..])
  }

  function NamesOf(facts: seq<Fact>): set<string> {
    set i | 0 <= i < |facts| :: facts[i].field
  }

  // The names under which some element holds a path.
  function PathNamesIn(w: World, schema: Option<Schema>, elements: seq<Element>): set<string> {
    if elements == [] then {}
    else NamesOf(FactsOf(w, schema, elements[0]).paths) + PathNamesIn(w, schema, elements[1..])
  }

  function WithoutNames(log: seq<Held>, names: set<string>): seq<Held> {
    if log == [] then []
    else (if log[0].prop.name in names then [] else [log[0]]) + WithoutNames(log[1..], names)
  }

  // The graph without the values that are scanned as paths: its histories go as
  // a whole, and from the shared log the names that were removed.
  function Stripped(w: World, g: Graph): Graph {
    Graph(g.schema, StripAll(w, g.schema, g.elements), [],
          WithoutNames(g.log, PathNamesIn(w, g.schema, g.elements)))
  }

  predicate SameRoles(a: Element, b: Element) {
    a.node == b.node && a.labels == b.labels
  }

  lemma {:induction false} StrippedFacts(w: World, schema: Option<Schema>, e: Element, f: Element, props: seq<Prop>)
    requires SameRoles(e, f)
    ensures Collect(w, schema, f, Without(w, schema, e, props)) == Facts(Collect(w, schema, e, props).hashes, [])
    decreases |props|
  {
    hide RoleOf;
    if props != [] {
      assert Of(e, props[0]) == Of(f, props[0]);
      StrippedFacts(w, schema, e, f, props[1..]);
      var rest := Without(w, schema, e, props[1..]);
      assert [] + rest == rest;
      assert ([props[0]] + rest)[1..] == rest;
    }
  }

  // The subjects are the elements that have any facts.
  lemma {:induction false} ScanMembers(w: World, schema: Option<Schema>, elements: seq<Element>, s: Subject)
    ensures s in ScanFrom(w, schema, elements) <==>
      s.element in elements && s.facts == FactsOf(w, schema, s.element) && s.facts != NO_FACTS
    decreases |elements|
  {
    hide FactsOf;
    if elements != [] {
      ScanMembers(w, schema, elements[1..], s);
      assert elements == [elements[0]] + elements[1..];
    }
  }

  lemma {:induction false} StripMembers(w: World, schema: Option<Schema>, elements: seq<Element>, f: Element)
    requires f in StripAll(w, schema, elements)
    ensures exists e :: e in elements && f == StripElement(w, schema, e)
    decreases |elements|
  {
    hide StripElement;
    var rest := StripAll(w, schema, elements[1..]);
    if f == StripElement(w, schema, elements[0]) {
      assert elements[0] in elements;
    } else {
      assert f in rest;
      StripMembers(w, schema, elements[1..], f);
      var e :| e in elements[1..] && f == StripElement(w, schema, e);
      assert e in elements;
    }
  }

  lemma {:induction false} FactsOfStripped(w: World, schema: Option<Schema>, e: Element)
    ensures FactsOf(w, schema, StripElement(w, schema, e)) == Facts(FactsOf(w, schema, e).hashes, [])
  {
    hide RoleOf, Collect, Without;
    StrippedFacts(w, schema, e, StripElement(w, schema, e), e.props);
  }

  // Stripping leaves the references as they were and no path at all.
  lemma {:induction false} StrippedSubject(w: World, schema: Option<Schema>, elements: seq<Element>, s: Subject)
    requires s in ScanFrom(w, schema, StripAll(w, schema, elements))
    ensures s.facts.paths == [] && s.facts.hashes != []
    ensures exists t :: t in ScanFrom(w, schema, elements) && t.facts.hashes == s.facts.hashes
  {
    hide FactsOf, ScanFrom, StripAll, StripElement;
    ScanMembers(w, schema, StripAll(w, schema, elements), s);
    StripMembers(w, schema, elements, s.element);
    var e :| e in elements && s.element == StripElement(w, schema, e);
    FactsOfStripped(w, schema, e);
    var t := Subject(e, FactsOf(w, schema, e));
    ScanMembers(w, schema, elements, t);
  }

  // The facts of a graph are the same on every computer.
  lemma {:induction false} FactsElsewhere(w: World, schema: Option<Schema>, e: Element, props: seq<Prop>)
    ensures Collect(Elsewhere(w), schema, e, props) == Collect(w, schema, e, props)
    decreases |props|
  {
    if props != [] {
      FactsElsewhere(w, schema, e, props[1..]);
    }
  }

  lemma {:induction false} ScanElsewhere(w: World, schema: Option<Schema>, elements: seq<Element>)
    ensures ScanFrom(Elsewhere(w), schema, elements) == ScanFrom(w, schema, elements)
    decreases |elements|
  {
    hide Collect;
    if elements != [] {
      FactsElsewhere(w, schema, elements[0], elements[0].props);
      ScanElsewhere(w, schema, elements[1..]);
    }
  }
}
