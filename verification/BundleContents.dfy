/** What a bundle's checks do not see (`scan`, `declared`, `shape_guessed` and
    `stripped_graph` in zega/src/bundle.rs).

    The scan goes by the exact text of a declared type, by a node's first label
    and by plain strings. A file URL or a hash in a temporal field, in a list or
    under a second label is written all the same. Here is what packing ships and
    what verifying vouches for, of all of them. */
module BundleContents {
  import opened BundleStore
  import opened Bundles
  import opened Wrappers

  // ----- declared types, unwrapped -----

  predicate IsTemporal(ty: string) {
    ty != "" && ty[0] == '<'
  }

  predicate EndsIn(ty: string, end: string) {
    |end| <= |ty| && ty[|ty| - |end|..] == end
  }

  function PlainType(ty: string): string {
    if |ty| >= 2 && ty[0] == '<' && ty[|ty| - 1] == '>' then ty[1..|ty| - 1]
    else if |ty| >= 4 && ty[0] == '<' && EndsIn(ty, ">[]") then ty[1..|ty| - 3] + "[]"
    else ty
  }

  // The type that the strings of a field are checked against when written: the
  // declared one, without time and without lists.
  function UnitOf(ty: string): string
    decreases |ty|
  {
    if IsTemporal(ty) && PlainType(ty) != ty then UnitOf(PlainType(ty))
    else if EndsIn(ty, "[]") then UnitOf(ty[..|ty| - 2])
    else ty
  }

  lemma {:induction false} UnitOfList(ty: string)
    requires ty != "" && ty[0] != '<'
    ensures UnitOf(ty + "[]") == UnitOf(ty)
  {
    var list := ty + "[]";
    assert list[..|list| - 2] == ty && list[0] == ty[0];
    assert EndsIn(list, "[]");
  }

  lemma {:induction false} UnitOfTimed(ty: string)
    requires ty != ""
    ensures UnitOf("<" + ty + ">") == UnitOf(ty)
    ensures UnitOf("<" + ty + ">[]") == UnitOf(ty + "[]")
  {
    var timed, listOfTimed := "<" + ty + ">", "<" + ty + ">[]";
    assert timed[0] == '<' && PlainType(timed) == ty;
    assert listOfTimed[0] == '<' && listOfTimed[|listOfTimed| - 3..] == ">[]";
    assert listOfTimed[1..|listOfTimed| - 3] == ty;
    assert PlainType(listOfTimed) == ty + "[]";
  }

  lemma {:induction false} UnitOfItself(unit: string)
    requires unit != "" && unit[0] != '<' && !EndsIn(unit, "[]")
    ensures UnitOf(unit) == unit
  {
  }

  // All the ways to declare a field of strings of one unit.
  lemma {:induction false} UnitOfSpellings(unit: string)
    requires unit != "" && unit[0] != '<' && !EndsIn(unit, "[]")
    ensures UnitOf(unit) == unit && UnitOf("<" + unit + ">") == unit
    ensures UnitOf(unit + "[]") == unit && UnitOf("<" + unit + "[]>") == unit && UnitOf("<" + unit + ">[]") == unit
    ensures UnitOf(unit + "[]" + "[]") == unit && UnitOf("<" + (unit + "[]") + ">[]") == unit
  {
    hide UnitOf, EndsIn, PlainType;
    UnitOfItself(unit);
    UnitOfList(unit);
    UnitOfList(unit + "[]");
    UnitOfTimed(unit);
    UnitOfTimed(unit + "[]");
    assert "<" + unit + "[]>" == "<" + (unit + "[]") + ">";
  }

  // Some type of the element declares the field with strings of this unit.
  predicate HoldsUnit(s: Schema, x: Held, unit: string) {
    var declared := DeclaredIn(s, x.node);
    exists l <- x.labels ::
      l in declared && x.prop.name in declared[l] && exists ty <- declared[l][x.prop.name] :: UnitOf(ty) == unit
  }

  // ----- paths and references, wherever they are -----

  ghost predicate HoldsFileUrl(w: World, x: Held) {
    exists text :: Mentions(x.prop.value, text) && w.isFileUrl(text)
  }

  // By its declared type, however wrapped; without a schema, by its shape.
  ghost predicate HoldsPath(w: World, schema: Option<Schema>, x: Held) {
    match schema
    case None => HoldsFileUrl(w, x)
    case Some(s) => HoldsUnit(s, x, PATH_TYPE) && exists text :: Mentions(x.prop.value, text)
  }

  predicate HoldsReference(schema: Option<Schema>, x: Held, hash: string) {
    && Mentions(x.prop.value, hash)
    && match schema
       case None => IsHash(hash)
       case Some(s) => HoldsUnit(s, x, REFERENCE_TYPE)
  }

  lemma {:induction false} UnitsAreTheirOwn()
    ensures UnitOf(PATH_TYPE) == PATH_TYPE && UnitOf(REFERENCE_TYPE) == REFERENCE_TYPE
  {
    UnitOfSpellings(PATH_TYPE);
    UnitOfSpellings(REFERENCE_TYPE);
  }

  // What is scanned as a path or a reference is one.
  lemma {:induction false} ScannedIsHeld(w: World, schema: Option<Schema>, x: Held)
    ensures RoleOf(w, schema, x).FilePath? ==> HoldsPath(w, schema, x)
    ensures RoleOf(w, schema, x).Reference? ==> HoldsReference(schema, x, x.prop.value.text)
  {
    UnitsAreTheirOwn();
    hide UnitOf, IsHash;
    if x.prop.value.Text? {
      assert Mentions(x.prop.value, x.prop.value.text);
    }
  }

  // The paths the scan sees: without a schema the strings, with one the strings
  // of fields that their first label declares to be plain paths and no references.
  lemma {:induction false} UnscannedPaths(w: World, schema: Option<Schema>, x: Held)
    requires Lawful(w) && HoldsPath(w, schema, x)
    ensures RoleOf(w, schema, x).FilePath? <==>
      && x.prop.value.Text?
      && (schema.Some? ==>
            var declared := DeclaredIn(schema.value, x.node);
            x.labels != [] && x.labels[0] in declared && x.prop.name in declared[x.labels[0]]
            && PATH_TYPE in declared[x.labels[0]][x.prop.name] && REFERENCE_TYPE !in declared[x.labels[0]][x.prop.name])
  {
    hide UnitOf, IsHash;
    if schema.None? && x.prop.value.Text? {
      var text :| Mentions(x.prop.value, text) && w.isFileUrl(text);
    }
  }

  // The references the scan sees, likewise: hashes, and strings of fields that
  // their first label declares to be plain references.
  lemma {:induction false} UnscannedReferences(w: World, schema: Option<Schema>, x: Held, hash: string)
    requires HoldsReference(schema, x, hash)
    ensures RoleOf(w, schema, x).Reference? <==>
      && x.prop.value.Text?
      && (schema.Some? ==>
            var declared := DeclaredIn(schema.value, x.node);
            x.labels != [] && x.labels[0] in declared && x.prop.name in declared[x.labels[0]]
            && REFERENCE_TYPE in declared[x.labels[0]][x.prop.name])
  {
    hide UnitOf, IsHash;
  }

  // ----- what a packed graph holds -----

  ghost predicate IsCurrent(g: Graph, x: Held) {
    exists e, p :: e in g.elements && p in e.props && Of(e, p) == x
  }

  lemma {:induction false} WithoutHolds(w: World, schema: Option<Schema>, e: Element, props: seq<Prop>)
    ensures forall p :: p in Without(w, schema, e, props) <==> p in props && !RoleOf(w, schema, Of(e, p)).FilePath?
    decreases |props|
  {
    hide RoleOf;
    if props != [] {
      WithoutHolds(w, schema, e, props[1..]);
      assert props == [props[0]] + props[1..];
    }
  }

  lemma {:induction false} StripHolds(w: World, schema: Option<Schema>, elements: seq<Element>, e: Element)
    requires e in elements
    ensures StripElement(w, schema, e) in StripAll(w, schema, elements)
    decreases |elements|
  {
    hide StripElement;
    if e != elements[0] {
      assert e in elements[1..];
      StripHolds(w, schema, elements[1..], e);
    }
  }

  lemma {:induction false} StrippedHolds(w: World, g: Graph, x: Held)
    ensures IsCurrent(Stripped(w, g), x) <==> IsCurrent(g, x) && !RoleOf(w, g.schema, x).FilePath?
  {
    hide RoleOf, Without, StripAll, WithoutNames, PathNamesIn;
    if IsCurrent(Stripped(w, g), x) {
      var f, p :| f in StripAll(w, g.schema, g.elements) && p in f.props && Of(f, p) == x;
      StripMembers(w, g.schema, g.elements, f);
      var e :| e in g.elements && f == StripElement(w, g.schema, e);
      WithoutHolds(w, g.schema, e, e.props);
      assert Of(e, p) == x;
    }
    if IsCurrent(g, x) && !RoleOf(w, g.schema, x).FilePath? {
      var e, p :| e in g.elements && p in e.props && Of(e, p) == x;
      StripHolds(w, g.schema, g.elements, e);
      WithoutHolds(w, g.schema, e, e.props);
      var f := StripElement(w, g.schema, e);
      assert p in f.props && Of(f, p) == x;
    }
  }

  lemma {:induction false} CollectsPaths(w: World, schema: Option<Schema>, e: Element, props: seq<Prop>)
    ensures Collect(w, schema, e, props).paths == [] <==> forall p <- props :: !RoleOf(w, schema, Of(e, p)).FilePath?
    decreases |props|
  {
    hide RoleOf;
    if props != [] {
      CollectsPaths(w, schema, e, props[1..]);
      assert props == [props[0]] + props[1..];
    }
  }

  lemma {:induction false} NothingToStripExactly(w: World, g: Graph)
    ensures NoPaths(Scan(w, g)) <==> forall x :: IsCurrent(g, x) ==> !RoleOf(w, g.schema, x).FilePath?
  {
    hide RoleOf, Collect, ScanFrom;
    if NoPaths(Scan(w, g)) {
      forall x | IsCurrent(g, x)
        ensures !RoleOf(w, g.schema, x).FilePath?
      {
        var e, p :| e in g.elements && p in e.props && Of(e, p) == x;
        var s := Subject(e, FactsOf(w, g.schema, e));
        CollectsPaths(w, g.schema, e, e.props);
        ScanMembers(w, g.schema, g.elements, s);
        if s.facts != NO_FACTS {
          var i :| 0 <= i < |Scan(w, g)| && Scan(w, g)[i] == s;
        }
      }
    } else {
      var i :| 0 <= i < |Scan(w, g)| && Scan(w, g)[i].facts.paths != [];
      var s := Scan(w, g)[i];
      ScanMembers(w, g.schema, g.elements, s);
      CollectsPaths(w, g.schema, s.element, s.element.props);
      var p :| p in s.element.props && RoleOf(w, g.schema, Of(s.element, p)).FilePath?;
      assert IsCurrent(g, Of(s.element, p));
    }
  }

  lemma {:induction false} PackedHolds(w: World, g: Graph)
    ensures PackedOf(w, g).schema == g.schema
    ensures forall x :: IsCurrent(PackedOf(w, g), x) <==> IsCurrent(g, x) && !RoleOf(w, g.schema, x).FilePath?
    ensures forall x :: x in PackedOf(w, g).past <==> x in g.past && NoPaths(Scan(w, g))
    ensures forall x ::
      x in PackedOf(w, g).log <==> x in g.log && x.prop.name !in PathNamesIn(w, g.schema, g.elements)
  {
    hide RoleOf, IsCurrent, StripAll, WithoutNames, ScanFrom, PathNamesIn;
    NothingToStripExactly(w, g);
    if NoPaths(Scan(w, g)) {
      NoNamesWithoutPaths(w, g.schema, g.elements);
    } else {
      forall x
        ensures IsCurrent(Stripped(w, g), x) <==> IsCurrent(g, x) && !RoleOf(w, g.schema, x).FilePath?
      {
        StrippedHolds(w, g, x);
      }
      WithoutNamesHolds(g.log, PathNamesIn(w, g.schema, g.elements));
    }
  }

  lemma {:induction false} WithoutNamesHolds(log: seq<Held>, names: set<string>)
    ensures forall x :: x in WithoutNames(log, names) <==> x in log && x.prop.name !in names
    decreases |log|
  {
    if log != [] {
      WithoutNamesHolds(log[1..], names);
      assert log == [log[0]] + log[1..];
    }
  }

  lemma {:induction false} NoNamesWithoutPaths(w: World, schema: Option<Schema>, elements: seq<Element>)
    requires NoPaths(ScanFrom(w, schema, elements))
    ensures PathNamesIn(w, schema, elements) == {}
    decreases |elements|
  {
    hide Collect;
    if elements != [] {
      var facts, rest := FactsOf(w, schema, elements[0]), ScanFrom(w, schema, elements[1..]);
      var all := ScanFrom(w, schema, elements);
      var n := |all| - |rest|;
      assert all[n..] == rest;
      forall i | 0 <= i < |rest|
        ensures rest[i].facts.paths == []
      {
        assert rest[i] == all[n + i];
      }
      NoNamesWithoutPaths(w, schema, elements[1..]);
      if facts != NO_FACTS {
        assert all[0].facts == facts;
      }
    }
  }

  // Packing leaves every element in its place, with its id, labels and the
  // values that are not scanned as paths, in their order.
  lemma {:induction false} PackedElements(w: World, g: Graph, i: nat)
    requires i < |g.elements|
    ensures var packed, e := PackedOf(w, g), g.elements[i];
      && |packed.elements| == |g.elements|
      && var f := packed.elements[i];
         f.id == e.id && f.node == e.node && f.labels == e.labels
         && (forall p :: p in f.props <==> p in e.props && !RoleOf(w, g.schema, Of(e, p)).FilePath?)
  {
    hide RoleOf, Without, ScanFrom, WithoutNames, PathNamesIn, Collect;
    var e := g.elements[i];
    if NoPaths(Scan(w, g)) {
      NothingToStripExactly(w, g);
      forall p | p in e.props
        ensures !RoleOf(w, g.schema, Of(e, p)).FilePath?
      {
        assert IsCurrent(g, Of(e, p));
      }
    } else {
      StripsEach(w, g.schema, g.elements, i);
      WithoutHolds(w, g.schema, e, e.props);
    }
  }

  lemma {:induction false} StripsEach(w: World, schema: Option<Schema>, elements: seq<Element>, i: nat)
    requires i < |elements|
    ensures |StripAll(w, schema, elements)| == |elements|
    ensures StripAll(w, schema, elements)[i] == StripElement(w, schema, elements[i])
    decreases |elements|
  {
    hide StripElement;
    if |elements| > 1 {
      StripsEach(w, schema, elements[1..], if i > 0 then i - 1 else 0);
    }
  }

  // ----- no path ships -----

  ghost predicate ShipsNoPath(w: World, g: Graph) {
    && (forall x | IsCurrent(g, x) :: !HoldsPath(w, g.schema, x))
    && (forall x <- g.past :: !HoldsPath(w, g.schema, x))
    && (forall x <- g.log :: !HoldsPath(w, g.schema, x))
  }

  // No path ships if and only if every current one is one the scan sees, the
  // histories hold none or are dropped because the scan saw one, and the shared
  // log holds none but under a name that is dropped.
  lemma {:induction false} NoPathShipsExactly(w: World, g: Graph)
    ensures ShipsNoPath(w, PackedOf(w, g)) <==>
      && (forall x | IsCurrent(g, x) :: HoldsPath(w, g.schema, x) ==> RoleOf(w, g.schema, x).FilePath?)
      && (NoPaths(Scan(w, g)) ==> forall x <- g.past :: !HoldsPath(w, g.schema, x))
      && (forall x <- g.log :: HoldsPath(w, g.schema, x) ==> x.prop.name in PathNamesIn(w, g.schema, g.elements))
  {
    hide RoleOf, IsCurrent, HoldsPath, ScanFrom, PathNamesIn, PackedOf;
    PackedHolds(w, g);
  }

  ghost predicate ShipsNoFileUrl(w: World, g: Graph) {
    && (forall x | IsCurrent(g, x) :: !HoldsFileUrl(w, x))
    && (forall x <- g.past :: !HoldsFileUrl(w, x))
    && (forall x <- g.log :: !HoldsFileUrl(w, x))
  }

  // The same of any file URL, of whatever type the field is that holds it.
  lemma {:induction false} NoFileUrlShipsExactly(w: World, g: Graph)
    ensures ShipsNoFileUrl(w, PackedOf(w, g)) <==>
      && (forall x | IsCurrent(g, x) :: HoldsFileUrl(w, x) ==> RoleOf(w, g.schema, x).FilePath?)
      && (NoPaths(Scan(w, g)) ==> forall x <- g.past :: !HoldsFileUrl(w, x))
      && (forall x <- g.log :: HoldsFileUrl(w, x) ==> x.prop.name in PathNamesIn(w, g.schema, g.elements))
  {
    hide RoleOf, IsCurrent, HoldsFileUrl, ScanFrom, PathNamesIn, PackedOf;
    PackedHolds(w, g);
  }

  // ----- paths that ship -----

  // A graph of one node with one property.
  function Single(schema: Option<Schema>, labels: seq<string>, value: Content, past: seq<Held>): Graph {
    Graph(schema, [Element(1, true, labels, [Prop("source", value)])], past, [])
  }

  lemma {:induction false} SingleHolds(w: World, schema: Option<Schema>, labels: seq<string>, value: Content, past: seq<Held>)
    ensures var g, x := Single(schema, labels, value, past), Held(true, labels, Prop("source", value));
      && (forall y :: IsCurrent(g, y) <==> y == x)
      && (NoPaths(Scan(w, g)) <==> !RoleOf(w, schema, x).FilePath?)
  {
    hide RoleOf, ScanFrom;
    var g := Single(schema, labels, value, past);
    var e := g.elements[0];
    assert e in g.elements && e.props[0] in e.props;
    NothingToStripExactly(w, g);
  }

  // A schema that declares documents with a source of the given type.
  function Documents(ty: string): Schema {
    Schema(map["Document" := map["source" := {ty}], "Note" := map[]], map[])
  }

  lemma {:induction false} SourceHolds(ty: string, labels: seq<string>, value: Content)
    requires "Document" in labels
    ensures HoldsUnit(Documents(ty), Held(true, labels, Prop("source", value)), UnitOf(ty))
  {
    hide UnitOf;
  }

  lemma {:induction false} TextHasRole(w: World, ty: string, value: Content)
    ensures var role := RoleOf(w, Some(Documents(ty)), Held(true, ["Document"], Prop("source", value)));
      && (role.FilePath? <==> value.Text? && ty == PATH_TYPE)
      && (role.Reference? <==> value.Text? && ty == REFERENCE_TYPE)
  {
    assert ["Document"][0] == "Document";
  }

  lemma {:induction false} UnscannedShips(w: World, schema: Option<Schema>, labels: seq<string>, value: Content, past: seq<Held>)
    requires var x := Held(true, labels, Prop("source", value));
      HoldsPath(w, schema, x) && !RoleOf(w, schema, x).FilePath?
    ensures var g := Single(schema, labels, value, past); PackedOf(w, g) == g && !ShipsNoPath(w, g)
  {
    hide RoleOf, ScanFrom, HoldsPath;
    SingleHolds(w, schema, labels, value, past);
  }

  // The current path of a temporal field ships, and its history with it.
  lemma {:induction false} APathInATemporalFieldShips(w: World, url: string)
    requires w.isFileUrl(url)
    ensures var x := Held(true, ["Document"], Prop("source", Text(url)));
      var g := Single(Some(Documents("<String<file>>")), ["Document"], Text(url), [x]);
      && PackedOf(w, g) == g && !ShipsNoPath(w, g) && !ShipsNoFileUrl(w, g)
  {
    hide UnitOf, RoleOf, ScanFrom;
    var ty, value := "<String<file>>", Text(url);
    var x := Held(true, ["Document"], Prop("source", value));
    TemporalUnits();
    SourceHolds(ty, ["Document"], value);
    TextHasRole(w, ty, value);
    assert Mentions(value, url);
    UnscannedShips(w, Some(Documents(ty)), ["Document"], value, [x]);
    SingleHolds(w, Some(Documents(ty)), ["Document"], value, [x]);
  }

  lemma {:induction false} TemporalUnits()
    ensures UnitOf("<String<file>>") == PATH_TYPE && UnitOf("<String<blake3>>") == REFERENCE_TYPE
  {
    hide UnitOf;
    UnitOfSpellings(PATH_TYPE);
    UnitOfSpellings(REFERENCE_TYPE);
    assert "<" + PATH_TYPE + ">" == "<String<file>>" && "<" + REFERENCE_TYPE + ">" == "<String<blake3>>";
  }

  lemma {:induction false} ListUnits()
    ensures UnitOf("String<file>[]") == PATH_TYPE && UnitOf("String<blake3>[]") == REFERENCE_TYPE
  {
    hide UnitOf;
    UnitOfSpellings(PATH_TYPE);
    UnitOfSpellings(REFERENCE_TYPE);
    assert PATH_TYPE + "[]" == "String<file>[]" && REFERENCE_TYPE + "[]" == "String<blake3>[]";
  }

  // A list of paths ships, declared as one or found by its shape.
  lemma {:induction false} AListOfPathsShips(w: World, url: string)
    requires w.isFileUrl(url)
    ensures var g := Single(Some(Documents("String<file>[]")), ["Document"], Many([Text(url)]), []);
      PackedOf(w, g) == g && !ShipsNoPath(w, g)
    ensures var g := Single(None, ["Document"], Many([Text(url)]), []);
      PackedOf(w, g) == g && !ShipsNoPath(w, g)
  {
    hide UnitOf, PackedOf;
    var ty, value := "String<file>[]", Many([Text(url)]);
    ListUnits();
    SourceHolds(ty, ["Document"], value);
    assert Mentions(value.items[0], url);
    assert Mentions(value, url);
    UnscannedShips(w, Some(Documents(ty)), ["Document"], value, []);
    UnscannedShips(w, None, ["Document"], value, []);
  }

  // A path that only the type of a second label declares ships.
  lemma {:induction false} APathOfASecondTypeShips(w: World, url: string)
    requires w.isFileUrl(url)
    ensures var g := Single(Some(Documents(PATH_TYPE)), ["Note", "Document"], Text(url), []);
      PackedOf(w, g) == g && !ShipsNoPath(w, g)
  {
    hide UnitOf, PackedOf;
    var labels := ["Note", "Document"];
    UnitsAreTheirOwn();
    assert labels[0] == "Note" && labels[1] == "Document";
    SourceHolds(PATH_TYPE, labels, Text(url));
    assert Mentions(Text(url), url);
    UnscannedShips(w, Some(Documents(PATH_TYPE)), labels, Text(url), []);
  }

  // A path that was recorded over time and is not recorded now ships with the
  // histories.
  lemma {:induction false} AnOldPathShips(w: World, url: string)
    requires w.isFileUrl(url)
    ensures var x := Held(true, ["Document"], Prop("source", Text(url)));
      var g := Single(None, ["Document"], NoText, [x]);
      && PackedOf(w, g) == g && !ShipsNoPath(w, g)
      && forall y | IsCurrent(g, y) :: !HoldsPath(w, None, y)
  {
    var x := Held(true, ["Document"], Prop("source", Text(url)));
    SingleHolds(w, None, ["Document"], NoText, [x]);
    assert Mentions(Text(url), url);
    assert HoldsPath(w, None, x);
  }

  // ----- references -----

  // A subject's path has the bytes, or they are an asset or a remote.
  predicate IsPresent(w: World, st: Store, facts: Facts, hash: string) {
    OffLocal(st, hash) || PathHas(w, facts, hash)
  }

  ghost predicate Refers(g: Graph, e: Element, p: Prop, hash: string) {
    e in g.elements && p in e.props && HoldsReference(g.schema, Of(e, p), hash)
  }

  ghost predicate AllReferencesPresent(w: World, st: Store, g: Graph) {
    forall e, p, hash | Refers(g, e, p, hash) :: IsPresent(w, st, FactsOf(w, g.schema, e), hash)
  }

  lemma {:induction false} CollectsReferences(w: World, schema: Option<Schema>, e: Element, props: seq<Prop>, p: Prop)
    requires p in props && RoleOf(w, schema, Of(e, p)).Reference?
    ensures Fact(p.name, p.value.text) in Collect(w, schema, e, props).hashes
    decreases |props|
  {
    hide RoleOf;
    if p != props[0] {
      assert p in props[1..];
      CollectsReferences(w, schema, e, props[1..], p);
    }
  }

  lemma {:induction false} ScannedReferenceIsPresent(w: World, st: Store, g: Graph, e: Element, p: Prop)
    requires ReferencesHold(w, st, Scan(w, g)) && e in g.elements && p in e.props
    requires RoleOf(w, g.schema, Of(e, p)).Reference?
    ensures IsPresent(w, st, FactsOf(w, g.schema, e), p.value.text)
  {
    hide RoleOf, Collect, ScanFrom, WellFormedFacts, OffLocal, HashAt;
    var s := Subject(e, FactsOf(w, g.schema, e));
    CollectsReferences(w, g.schema, e, e.props, p);
    assert s.facts != NO_FACTS;
    ScanMembers(w, g.schema, g.elements, s);
    var i :| 0 <= i < |Scan(w, g)| && Scan(w, g)[i] == s;
    assert AllPresent(w, st, Scan(w, g)[i].facts);
    var at :| 0 <= at < |s.facts.hashes| && s.facts.hashes[at] == Fact(p.name, p.value.text);
    if LocalAt(w, s.facts, at) {
      var k :| 0 <= k < |s.facts.paths| && CountsFor(w, s.facts, k, at);
    }
  }

  // In a graph that verifies, every reference is present if and only if those
  // are that the scan does not see.
  lemma {:induction false} VerifiedReferencesArePresentExactly(w: World, st: Store, g: Graph)
    requires ReferencesHold(w, st, Scan(w, g))
    ensures AllReferencesPresent(w, st, g) <==>
      forall e, p, hash | Refers(g, e, p, hash) && !RoleOf(w, g.schema, Of(e, p)).Reference? ::
        IsPresent(w, st, FactsOf(w, g.schema, e), hash)
  {
    hide RoleOf, FactsOf, ScanFrom, IsPresent, ReferencesHold;
    forall e, p, hash | Refers(g, e, p, hash) && RoleOf(w, g.schema, Of(e, p)).Reference?
      ensures IsPresent(w, st, FactsOf(w, g.schema, e), hash)
    {
      ScannedReferenceIsPresent(w, st, g, e, p);
      assert p.value.text == hash;
    }
  }

  // On a computer without the files, what was packed has all its references if
  // and only if those the scan does not see are assets or remotes.
  lemma {:induction false} PackedReferencesArePresentExactly(w: World, g: Graph, st: Store)
    requires Lawful(w) && AllOffLocal(st, Scan(w, g))
    requires forall i | 0 <= i < |Scan(w, g)| :: WellFormedFacts(w, Scan(w, g)[i].facts)
    ensures AllReferencesPresent(Elsewhere(w), st, PackedOf(w, g)) <==>
      forall x, hash | IsCurrent(g, x) && HoldsReference(g.schema, x, hash) && RoleOf(w, g.schema, x).Neither? ::
        OffLocal(st, hash)
  {
    hide ScanFrom, IsHash, OffLocal, RoleOf, HoldsReference, Stripped, FactsOf, ReferencesHold, LocalIn, WellFormedFacts;
    var away, packed := Elsewhere(w), PackedOf(w, g);
    PackedIsSelfContained(w, g, st);
    VerifiedReferencesArePresentExactly(away, st, packed);
    PackedHolds(w, g);
    forall x
      ensures RoleOf(away, g.schema, x) == RoleOf(w, g.schema, x)
    {
      SameRoleElsewhere(w, g.schema, x);
    }
    forall facts, hash
      ensures IsPresent(away, st, facts, hash) <==> OffLocal(st, hash)
    {
    }
    if AllReferencesPresent(away, st, packed) {
      forall x, hash | IsCurrent(g, x) && HoldsReference(g.schema, x, hash) && RoleOf(w, g.schema, x).Neither?
        ensures OffLocal(st, hash)
      {
        assert IsCurrent(packed, x);
        var e, p :| e in packed.elements && p in e.props && Of(e, p) == x;
        assert Refers(packed, e, p, hash);
      }
    } else {
      var e, p, hash :| Refers(packed, e, p, hash) && !RoleOf(away, packed.schema, Of(e, p)).Reference?
        && !IsPresent(away, st, FactsOf(away, packed.schema, e), hash);
      assert IsCurrent(packed, Of(e, p));
    }
  }

  lemma {:induction false} SameRoleElsewhere(w: World, schema: Option<Schema>, x: Held)
    ensures RoleOf(Elsewhere(w), schema, x) == RoleOf(w, schema, x)
  {
  }

  // A temporal reference, and one in a list, pass with their bytes nowhere.
  lemma {:induction false} ADanglingReferenceVerifies(w: World, ty: string, value: Content, hash: string)
    requires (ty == "<String<blake3>>" && value == Text(hash)) || (ty == "String<blake3>[]" && value == Many([Text(hash)]))
    ensures var g, st := Single(Some(Documents(ty)), ["Document"], value, []), Store(map[], map[]);
      ReferencesHold(w, st, Scan(w, g)) && !AllReferencesPresent(w, st, g)
  {
    hide UnitOf, RoleOf;
    var g, st := Single(Some(Documents(ty)), ["Document"], value, []), Store(map[], map[]);
    var e := g.elements[0];
    var p := e.props[0];
    TemporalUnits();
    ListUnits();
    SourceHolds(ty, ["Document"], value);
    TextHasRole(w, ty, value);
    if value.Many? {
      assert Mentions(value.items[0], hash);
    }
    assert Refers(g, e, p, hash);
    assert e.props == [p] && e.props[1..] == [] && g.elements[1..] == [];
    assert Collect(w, g.schema, e, []) == NO_FACTS;
    assert FactsOf(w, g.schema, e) == NO_FACTS;
    assert ScanFrom(w, g.schema, []) == [];
    assert Scan(w, g) == [];
    assert !IsPresent(w, st, NO_FACTS, hash);
  }
}
