/** A bundle directory as the program checks, fills and packs it
    (`check_references`, `copy_local_assets`, `stripped_graph` and `pack_with`
    in zega/src/bundle.rs). */
module BundleStore {
  import opened Bundles
  import opened Machine
  import opened Wrappers

  datatype Report = Report(assets: nat, remote: nat, references: nat, local: nat, stale: seq<string>)

  // How many references a list of subjects holds, and how many of them a local
  // path satisfies.
  function References(subjects: seq<Subject>): nat {
    if subjects == [] then 0 else |subjects[0].facts.hashes| + References(subjects[1..])
  }

  function LocalUpTo(w: World, facts: Facts, n: nat): nat {
    if n == 0 then 0 else LocalUpTo(w, facts, n - 1) + if LocalAt(w, facts, n - 1) then 1 else 0
  }

  function LocalIn(w: World, subjects: seq<Subject>): nat {
    if subjects == [] then 0
    else LocalUpTo(w, subjects[0].facts, |subjects[0].facts.hashes|) + LocalIn(w, subjects[1..])
  }

  // A path that can be read but hashes to none of its subject's references.
  predicate IsStale(w: World, facts: Facts, url: string) {
    && facts.hashes != []
    && (exists i :: 0 <= i < |facts.paths| && facts.paths[i].value == url)
    && HashAt(w, url).Some? && Position(facts.hashes, HashAt(w, url).value) < 0
  }

  predicate AnyStale(w: World, subjects: seq<Subject>, url: string) {
    exists i :: 0 <= i < |subjects| && IsStale(w, subjects[i].facts, url)
  }

  predicate NoneTwice(urls: seq<string>) {
    forall i, j | 0 <= i < j < |urls| :: urls[i] != urls[j]
  }

  // ----- one subject's references -----

  method CheckShapes(w: World, facts: Facts) returns (r: Result<(), Error>)
    ensures r.Ok? <==>
      (forall i | 0 <= i < |facts.hashes| :: IsHash(facts.hashes[i].value))
      && (forall i | 0 <= i < |facts.paths| :: w.isFileUrl(facts.paths[i].value))
    ensures r.Err? ==> r.error.BadHash? || r.error.BadFileUrl?
  {
    var i := 0;
    while i < |facts.hashes|
      invariant 0 <= i <= |facts.hashes| && forall k | 0 <= k < i :: IsHash(facts.hashes[k].value)
    {
      if !IsHash(facts.hashes[i].value) {
        return Err(BadHash(facts.hashes[i].value));
      }
      i := i + 1;
    }
    i := 0;
    while i < |facts.paths|
      invariant 0 <= i <= |facts.paths| && forall k | 0 <= k < i :: w.isFileUrl(facts.paths[k].value)
    {
      if !w.isFileUrl(facts.paths[i].value) {
        return Err(BadFileUrl(facts.paths[i].value));
      }
      i := i + 1;
    }
    r := Ok(());
  }

  // Which references the subject's paths satisfy, and which paths are stale.
  method MarkLocal(w: World, facts: Facts, stale: seq<string>) returns (r: Result<(seq<bool>, seq<string>), Error>)
    requires facts.hashes != [] && NoneTwice(stale)
    ensures r.Ok? <==> forall i | 0 <= i < |facts.paths| :: w.pathOf(facts.paths[i].value).Some?
    ensures r.Err? ==> r.error.BadFileUrl?
    ensures r.Ok? ==>
      && |r.value.0| == |facts.hashes|
      && (forall at | 0 <= at < |facts.hashes| :: r.value.0[at] <==> LocalAt(w, facts, at))
      && (forall url :: url in r.value.1 <==> url in stale || IsStale(w, facts, url))
      && NoneTwice(r.value.1)
  {
    hide HashAt;
    var local := seq(|facts.hashes|, _ => false);
    var found := stale;
    var i := 0;
    while i < |facts.paths|
      invariant 0 <= i <= |facts.paths| && |local| == |facts.hashes| && NoneTwice(found)
      invariant forall k | 0 <= k < i :: w.pathOf(facts.paths[k].value).Some?
      invariant forall at | 0 <= at < |local| :: local[at] <==> exists k :: 0 <= k < i && CountsFor(w, facts, k, at)
      invariant forall url :: url in found <==>
        url in stale || (exists k :: 0 <= k < i && facts.paths[k].value == url && HashAt(w, url).Some?
                                     && Position(facts.hashes, HashAt(w, url).value) < 0)
    {
      var url := facts.paths[i].value;
      if w.pathOf(url).None? {
        return Err(BadFileUrl(url));
      }
      var h := HashAt(w, url);
      if h.Some? {
        var at := Position(facts.hashes, h.value);
        if at >= 0 {
          assert CountsFor(w, facts, i, at);
          local := local[at := true];
        } else if url !in found {
          found := found + [url];
        }
      }
      i := i + 1;
    }
    r := Ok((local, found));
  }

  method CheckPresent(w: World, st: Store, facts: Facts, local: seq<bool>) returns (r: Result<nat, Error>)
    requires |local| == |facts.hashes|
    requires forall at | 0 <= at < |local| :: local[at] <==> LocalAt(w, facts, at)
    ensures r.Ok? <==> AllPresent(w, st, facts)
    ensures r.Ok? ==> r.value == LocalUpTo(w, facts, |facts.hashes|)
    ensures r.Err? ==> r.error.Dangling? && !OffLocal(st, r.error.hash)
  {
    hide LocalAt;
    var count := 0;
    var at := 0;
    while at < |facts.hashes|
      invariant 0 <= at <= |facts.hashes| && count == LocalUpTo(w, facts, at)
      invariant forall k | 0 <= k < at :: LocalAt(w, facts, k) || OffLocal(st, facts.hashes[k].value)
    {
      if local[at] {
        count := count + 1;
      } else if !OffLocal(st, facts.hashes[at].value) {
        return Err(Dangling(facts.hashes[at].value));
      }
      at := at + 1;
    }
    r := Ok(count);
  }

  // Every reference names a local path with its bytes, an asset or a remote;
  // the counts are what they are called, and no stale path is named twice.
  method CheckReferences(w: World, st: Store, subjects: seq<Subject>, start: Report) returns (r: Result<Report, Error>)
    requires start.references == 0 && start.local == 0 && start.stale == []
    ensures r.Ok? <==> ReferencesHold(w, st, subjects)
    ensures r.Err? ==> r.error.BadHash? || r.error.BadFileUrl? || r.error.Dangling?
    ensures r.Ok? ==>
      && r.value.references == References(subjects)
      && r.value.local == LocalIn(w, subjects)
      && (forall url :: url in r.value.stale <==> AnyStale(w, subjects, url)) && NoneTwice(r.value.stale)
      && r.value.assets == start.assets && r.value.remote == start.remote
  {
    hide LocalAt, IsStale, OffLocal, IsHash;
    var references, local := 0, 0;
    var stale: seq<string> := [];
    var i := 0;
    while i < |subjects|
      invariant 0 <= i <= |subjects| && NoneTwice(stale)
      invariant references + References(subjects[i..]) == References(subjects)
      invariant local + LocalIn(w, subjects[i..]) == LocalIn(w, subjects)
      invariant forall k | 0 <= k < i :: WellFormedFacts(w, subjects[k].facts) && AllPresent(w, st, subjects[k].facts)
      invariant forall url :: url in stale <==> exists k :: 0 <= k < i && IsStale(w, subjects[k].facts, url)
    {
      assert subjects[i..][1..] == subjects[i + 1..];
      var facts := subjects[i].facts;
      var _ :- CheckShapes(w, facts);
      if facts.hashes != [] {
        var marked :- MarkLocal(w, facts, stale);
        var count :- CheckPresent(w, st, facts, marked.0);
        references, local, stale := references + |facts.hashes|, local + count, marked.1;
      } else {
        NothingStale(w, facts);
      }
      i := i + 1;
    }
    r := Ok(Report(start.assets, start.remote, references, local, stale));
  }

  lemma {:induction false} NothingStale(w: World, facts: Facts)
    requires facts.hashes == []
    ensures forall url :: !IsStale(w, facts, url)
    ensures LocalUpTo(w, facts, 0) == 0
  {
  }

  // ----- stripping, as the code does it -----

  // Drops the properties whose names are given.
  method KeepWithout(props: seq<Prop>, names: set<string>) returns (kept: seq<Prop>)
    ensures kept == Kept(props, names)
  {
    kept := [];
    var i := 0;
    while i < |props|
      invariant 0 <= i <= |props|
      invariant kept + Kept(props[i..], names) == Kept(props, names)
    {
      KeptFirst(props, names, i);
      hide Kept;
      if props[i].name !in names {
        assert kept + ([props[i]] + Kept(props[i + 1..], names)) == (kept + [props[i]]) + Kept(props[i + 1..], names);
        kept := kept + [props[i]];
      }
      i := i + 1;
    }
  }

  lemma {:induction false} KeptFirst(props: seq<Prop>, names: set<string>, i: nat)
    requires i < |props|
    ensures Kept(props[i..], names) ==
      if props[i].name in names then Kept(props[i + 1..], names) else [props[i]] + Kept(props[i + 1..], names)
  {
    assert props[i..][1..] == props[i + 1..];
  }

  function Kept(props: seq<Prop>, names: set<string>): seq<Prop> {
    if props == [] then [] else (if props[0].name in names then [] else [props[0]]) + Kept(props[1..], names)
  }

  lemma {:induction false} PathNames(w: World, schema: Option<Schema>, e: Element, props: seq<Prop>, name: string)
    ensures name in NamesOf(Collect(w, schema, e, props).paths) <==>
      exists p :: p in props && p.name == name && RoleOf(w, schema, Of(e, p)).FilePath?
    decreases |props|
  {
    hide RoleOf;
    if props != [] {
      var p, rest := props[0], Collect(w, schema, e, props[1..]).paths;
      PathNames(w, schema, e, props[1..], name);
      assert props == [p] + props[1..];
      var all := Collect(w, schema, e, props).paths;
      if RoleOf(w, schema, Of(e, p)).FilePath? {
        assert all == [Fact(p.name, p.value.text)] + rest;
        NamesOfMore(Fact(p.name, p.value.text), rest, name);
      }
    }
  }

  lemma {:induction false} NamesOfMore(f: Fact, rest: seq<Fact>, name: string)
    ensures name in NamesOf([f] + rest) <==> name == f.field || name in NamesOf(rest)
  {
    var all := [f] + rest;
    if name in NamesOf(rest) {
      var i :| 0 <= i < |rest| && rest[i].field == name;
      assert all[i + 1].field == name;
    }
    assert all[0].field == f.field;
  }

  // With every name once, dropping by name drops exactly the paths.
  lemma {:induction false} KeptIsWithout(
      w: World, schema: Option<Schema>, e: Element, all: seq<Prop>, props: seq<Prop>, i: nat)
    requires Distinct(all) && i <= |all| && props == all[i..]
    ensures Kept(props, NamesOf(Collect(w, schema, e, all).paths)) == Without(w, schema, e, props)
    decreases |props|
  {
    hide RoleOf, Collect, NamesOf;
    if props != [] {
      var p := props[0];
      assert p == all[i] && props[1..] == all[i + 1..];
      KeptIsWithout(w, schema, e, all, props[1..], i + 1);
      PathNames(w, schema, e, all, p.name);
      if p.name in NamesOf(Collect(w, schema, e, all).paths) {
        var q :| q in all && q.name == p.name && RoleOf(w, schema, Of(e, q)).FilePath?;
        var j :| 0 <= j < |all| && all[j] == q;
        assert j == i;
      }
    }
  }

  lemma {:induction false} NothingToStrip(w: World, schema: Option<Schema>)
    ensures StripAll(w, schema, []) == [] && PathNamesIn(w, schema, []) == {}
  {
  }

  lemma {:induction false} StripFirst(w: World, schema: Option<Schema>, elements: seq<Element>, i: nat)
    requires i < |elements|
    ensures StripAll(w, schema, elements[i..]) == [StripElement(w, schema, elements[i])] + StripAll(w, schema, elements[i + 1..])
    ensures PathNamesIn(w, schema, elements[i..]) ==
      NamesOf(FactsOf(w, schema, elements[i]).paths) + PathNamesIn(w, schema, elements[i + 1..])
  {
    hide RoleOf, Collect, NamesOf, Without;
    assert elements[i..][1..] == elements[i + 1..];
  }

  method StripGraph(w: World, g: Graph) returns (stripped: Graph)
    requires forall e <- g.elements :: Distinct(e.props)
    ensures stripped == Stripped(w, g)
  {
    hide RoleOf, Collect, NamesOf, Without, WithoutNames, StripAll, PathNamesIn;
    NothingToStrip(w, g.schema);
    assert g.elements[0..] == g.elements;
    var elements, names := [], {};
    var i := 0;
    while i < |g.elements|
      invariant 0 <= i <= |g.elements|
      invariant names + PathNamesIn(w, g.schema, g.elements[i..]) == PathNamesIn(w, g.schema, g.elements)
      invariant elements + StripAll(w, g.schema, g.elements[i..]) == StripAll(w, g.schema, g.elements)
    {
      StripFirst(w, g.schema, g.elements, i);
      var e := g.elements[i];
      var facts := FactsOf(w, g.schema, e);
      var props := KeepWithout(e.props, NamesOf(facts.paths));
      KeptIsWithout(w, g.schema, e, e.props, e.props, 0);
      assert StripElement(w, g.schema, e) == e.(props := props);
      assert elements + ([e.(props := props)] + StripAll(w, g.schema, g.elements[i + 1..]))
        == (elements + [e.(props := props)]) + StripAll(w, g.schema, g.elements[i + 1..]);
      elements, names := elements + [e.(props := props)], names + NamesOf(facts.paths);
      i := i + 1;
    }
    assert g.elements[i..] == [];
    var log := ScrubLog(g.log, names);
    stripped := Graph(g.schema, elements, [], log);
  }

  method ScrubLog(log: seq<Held>, names: set<string>) returns (kept: seq<Held>)
    ensures kept == WithoutNames(log, names)
  {
    kept := [];
    var i := 0;
    while i < |log|
      invariant 0 <= i <= |log|
      invariant kept + WithoutNames(log[i..], names) == WithoutNames(log, names)
    {
      FirstWithoutNames(log, names, i);
      hide WithoutNames;
      if log[i].prop.name !in names {
        assert kept + ([log[i]] + WithoutNames(log[i + 1..], names)) == (kept + [log[i]]) + WithoutNames(log[i + 1..], names);
        kept := kept + [log[i]];
      }
      i := i + 1;
    }
  }

  lemma {:induction false} FirstWithoutNames(log: seq<Held>, names: set<string>, i: nat)
    requires i < |log|
    ensures WithoutNames(log[i..], names) ==
      if log[i].prop.name in names then WithoutNames(log[i + 1..], names)
      else [log[i]] + WithoutNames(log[i + 1..], names)
  {
    assert log[i..][1..] == log[i + 1..];
  }

  // ----- the directory -----

  datatype Packed = Packed(graph: Graph, store: Store)

  class Bundle {
    var assets: map<string, Bytes>
    // `assets/zega.json`, when it can be read.
    const manifest: Option<map<string, string>>
    // Whether nothing but the graph file and flat assets is there.
    const tidy: bool
    const graph: Graph

    ghost predicate Valid()
      reads this
    {
      forall e <- graph.elements :: Distinct(e.props)
    }

    ghost predicate Verifies(w: World)
      reads this
    {
      && manifest.Some? && tidy && AssetsHold(w, assets)
      && ReferencesHold(w, Store(assets, manifest.value), Scan(w, graph))
    }

    constructor (assets: map<string, Bytes>, manifest: Option<map<string, string>>, tidy: bool, graph: Graph)
      requires forall e <- graph.elements :: Distinct(e.props)
      ensures Valid() && this.assets == assets && this.manifest == manifest && this.tidy == tidy && this.graph == graph
    {
      this.assets, this.manifest, this.tidy, this.graph := assets, manifest, tidy, graph;
    }

    method CheckAssets(w: World) returns (r: Result<nat, Error>)
      ensures r.Ok? <==> AssetsHold(w, assets)
      ensures r.Err? ==> r.error.BadLayout? || r.error.HashMismatch?
      ensures r.Ok? ==> r.value == |assets|
    {
      var left := assets.Keys;
      while left != {}
        invariant left <= assets.Keys
        invariant forall name | name in assets && name !in left :: IsHash(name) && w.hash(assets[name]) == name
        decreases left
      {
        var name :| name in left;
        if !IsHash(name) {
          return Err(BadLayout);
        }
        if w.hash(assets[name]) != name {
          return Err(HashMismatch(name));
        }
        left := left - {name};
      }
      r := Ok(|assets|);
    }

    method Verify(w: World) returns (r: Result<Report, Error>)
      ensures r.Ok? <==> Verifies(w)
      ensures r.Err? ==> !r.error.LocalOnly?
      ensures r.Ok? ==> r.value.references == References(Scan(w, graph)) && r.value.local == LocalIn(w, Scan(w, graph))
    {
      hide ReferencesHold, Scan, AssetsHold;
      if manifest.None? {
        return Err(BadManifest);
      }
      if !tidy {
        return Err(BadLayout);
      }
      var count :- CheckAssets(w);
      var start := Report(count, |manifest.value|, 0, 0, []);
      r := CheckReferences(w, Store(assets, manifest.value), Scan(w, graph), start);
    }

    // Adds bytes under their hash; bytes already there are not written again.
    method PutAsset(w: World, bytes: Bytes) returns (name: string)
      modifies this`assets
      ensures name == w.hash(bytes)
      ensures assets == if name in old(assets) then old(assets) else old(assets)[name := bytes]
    {
      name := w.hash(bytes);
      if name !in assets {
        assets := assets[name := bytes];
      }
    }

    // Copies the bytes behind the subject's paths for references without an
    // asset, the first matching path each.
    method CopyFor(w: World, facts: Facts) returns (r: Result<(), Error>)
      requires Lawful(w)
      modifies this`assets
      ensures forall name | name in old(assets) :: name in assets && assets[name] == old(assets)[name]
      ensures AssetsHold(w, old(assets)) ==> AssetsHold(w, assets)
      ensures WellFormedFacts(w, facts) ==> r.Ok?
      ensures r.Ok? && WellFormedFacts(w, facts) ==>
        forall at | 0 <= at < |facts.hashes| && PathHas(w, facts, facts.hashes[at].value) :: facts.hashes[at].value in assets
    {
      hide IsHash;
      var at := 0;
      while at < |facts.hashes|
        invariant 0 <= at <= |facts.hashes|
        invariant forall name | name in old(assets) :: name in assets && assets[name] == old(assets)[name]
        invariant AssetsHold(w, old(assets)) ==> AssetsHold(w, assets)
        invariant WellFormedFacts(w, facts) ==>
          forall k | 0 <= k < at && PathHas(w, facts, facts.hashes[k].value) :: facts.hashes[k].value in assets
      {
        var hash := facts.hashes[at].value;
        if !(IsHash(hash) && hash in assets) {
          var bytes :- FindLocal(w, facts, hash);
          if bytes.Some? {
            var _ := PutAsset(w, bytes.value);
          }
        }
        at := at + 1;
      }
      r := Ok(());
    }

    method CopyLocalAssets(w: World, subjects: seq<Subject>) returns (r: Result<(), Error>)
      requires Lawful(w)
      modifies this`assets
      ensures forall name | name in old(assets) :: name in assets && assets[name] == old(assets)[name]
      ensures AssetsHold(w, old(assets)) ==> AssetsHold(w, assets)
      ensures (forall i | 0 <= i < |subjects| :: WellFormedFacts(w, subjects[i].facts)) ==>
        && r.Ok?
        && (forall i | 0 <= i < |subjects| :: CopiedFor(w, assets, subjects[i].facts))
    {
      hide WellFormedFacts, AssetsHold, PathHas;
      var i := 0;
      while i < |subjects|
        invariant 0 <= i <= |subjects|
        invariant forall name | name in old(assets) :: name in assets && assets[name] == old(assets)[name]
        invariant AssetsHold(w, old(assets)) ==> AssetsHold(w, assets)
        invariant (forall k | 0 <= k < |subjects| :: WellFormedFacts(w, subjects[k].facts)) ==>
          forall k | 0 <= k < i :: CopiedFor(w, assets, subjects[k].facts)
      {
        var _ :- CopyFor(w, subjects[i].facts);
        i := i + 1;
      }
      r := Ok(());
    }

    // A bundle is packed only if it verifies. What ships holds no path, and
    // every reference in it is an asset or a remote. With `includeLocal` a
    // bundle that verifies is always packed; one that does not is left as it was.
    method PackWith(w: World, includeLocal: bool) returns (r: Result<Packed, Error>)
      requires Valid() && Lawful(w)
      modifies this`assets
      ensures !old(Verifies(w)) ==> r.Err? && !r.error.LocalOnly? && assets == old(assets)
      ensures old(Verifies(w)) && includeLocal ==> r.Ok?
      ensures old(Verifies(w)) && !includeLocal ==>
        && assets == old(assets)
        && (r.Ok? <==> AllOffLocal(Store(assets, manifest.value), Scan(w, graph)))
        && (r.Err? ==> r.error.LocalOnly?)
      ensures r.Ok? ==>
        && manifest.Some? && r.value.store == Store(assets, manifest.value)
        && r.value.graph == PackedOf(w, graph)
        && AssetsHold(w, assets) && AllOffLocal(r.value.store, Scan(w, graph))
        && (forall i | 0 <= i < |Scan(w, graph)| :: WellFormedFacts(w, Scan(w, graph)[i].facts))
    {
      hide Scan, AssetsHold, LocalAt, IsHash, Stripped, PathHas;
      var subjects := Scan(w, graph);
      var _ :- Verify(w);
      if includeLocal {
        var copied := CopyLocalAssets(w, subjects);
        CopiedIsOffLocal(w, old(assets), assets, manifest.value, subjects);
        var again := Verify(w);
        match again {
          case Err(e) => return Err(e);
          case Ok(_) =>
        }
      }
      var st := Store(assets, manifest.value);
      var off :- CheckOffLocal(st, subjects);
      var shipped := graph;
      if !NoPaths(subjects) {
        shipped := StripGraph(w, graph);
      }
      r := Ok(Packed(shipped, st));
    }
  }

  predicate PathHas(w: World, facts: Facts, hash: string) {
    exists i :: 0 <= i < |facts.paths| && HashAt(w, facts.paths[i].value) == Some(hash)
  }

  predicate CopiedFor(w: World, assets: map<string, Bytes>, facts: Facts) {
    forall at | 0 <= at < |facts.hashes| && PathHas(w, facts, facts.hashes[at].value) :: facts.hashes[at].value in assets
  }

  // The bytes of the subject's first path that hashes to `hash`.
  method FindLocal(w: World, facts: Facts, hash: string) returns (r: Result<Option<Bytes>, Error>)
    ensures r.Ok? && r.value.Some? ==> w.hash(r.value.value) == hash
    ensures r.Ok? && r.value.None? ==> !PathHas(w, facts, hash)
    ensures (forall i | 0 <= i < |facts.paths| :: w.pathOf(facts.paths[i].value).Some?) ==> r.Ok?
  {
    var i := 0;
    while i < |facts.paths|
      invariant 0 <= i <= |facts.paths|
      invariant forall k | 0 <= k < i :: HashAt(w, facts.paths[k].value) != Some(hash)
    {
      var path := w.pathOf(facts.paths[i].value);
      if path.None? {
        return Err(BadFileUrl(facts.paths[i].value));
      }
      if path.value in w.files && w.hash(w.files[path.value]) == hash {
        return Ok(Some(w.files[path.value]));
      }
      i := i + 1;
    }
    r := Ok(None);
  }

  predicate NoPaths(subjects: seq<Subject>) {
    forall i | 0 <= i < |subjects| :: subjects[i].facts.paths == []
  }

  predicate AllOff(st: Store, facts: Facts) {
    forall at | 0 <= at < |facts.hashes| :: OffLocal(st, facts.hashes[at].value)
  }

  predicate AllOffLocal(st: Store, subjects: seq<Subject>) {
    forall i | 0 <= i < |subjects| :: AllOff(st, subjects[i].facts)
  }

  method CheckOffLocal(st: Store, subjects: seq<Subject>) returns (r: Result<(), Error>)
    ensures r.Ok? <==> AllOffLocal(st, subjects)
    ensures r.Err? ==> r.error.LocalOnly? && !OffLocal(st, r.error.hash)
  {
    hide OffLocal;
    var i := 0;
    while i < |subjects|
      invariant 0 <= i <= |subjects| && forall k | 0 <= k < i :: AllOff(st, subjects[k].facts)
    {
      var facts := subjects[i].facts;
      var at := 0;
      while at < |facts.hashes|
        invariant 0 <= at <= |facts.hashes| && forall k | 0 <= k < at :: OffLocal(st, facts.hashes[k].value)
      {
        if !OffLocal(st, facts.hashes[at].value) {
          return Err(LocalOnly(facts.hashes[at].value));
        }
        at := at + 1;
      }
      i := i + 1;
    }
    r := Ok(());
  }

  // Once the local bytes are copied, nothing depends on a local path.
  lemma {:induction false} CopiedIsOffLocal(
      w: World, before: map<string, Bytes>, after: map<string, Bytes>, remote: map<string, string>, subjects: seq<Subject>)
    requires ReferencesHold(w, Store(before, remote), subjects)
    requires forall name | name in before :: name in after
    requires forall i | 0 <= i < |subjects| :: CopiedFor(w, after, subjects[i].facts)
    ensures AllOffLocal(Store(after, remote), subjects)
    ensures ReferencesHold(w, Store(after, remote), subjects)
  {
    hide IsHash, HashAt;
    forall i, at | 0 <= i < |subjects| && 0 <= at < |subjects[i].facts.hashes|
      ensures OffLocal(Store(after, remote), subjects[i].facts.hashes[at].value)
    {
      var facts := subjects[i].facts;
      assert WellFormedFacts(w, facts) && AllPresent(w, Store(before, remote), facts);
      if LocalAt(w, facts, at) {
        var k :| 0 <= k < |facts.paths| && CountsFor(w, facts, k, at);
        assert PathHas(w, facts, facts.hashes[at].value);
        assert CopiedFor(w, after, facts);
      }
    }
  }

  // The graph that ships, from the graph that is packed.
  function PackedOf(w: World, g: Graph): Graph {
    if NoPaths(Scan(w, g)) then g else Stripped(w, g)
  }

  // What was packed verifies on a computer that has none of the local files,
  // and a scan of it finds no path.
  lemma {:induction false} PackedIsSelfContained(w: World, graph: Graph, st: Store)
    requires Lawful(w) && AllOffLocal(st, Scan(w, graph))
    requires forall i | 0 <= i < |Scan(w, graph)| :: WellFormedFacts(w, Scan(w, graph)[i].facts)
    ensures var away, packed := Elsewhere(w), PackedOf(w, graph);
      && NoPaths(Scan(away, packed))
      && ReferencesHold(away, st, Scan(away, packed))
      && LocalIn(away, Scan(away, packed)) == 0
  {
    hide ScanFrom, IsHash, OffLocal, StripAll;
    var packed := PackedOf(w, graph);
    ScanElsewhere(w, packed.schema, packed.elements);
    var subjects, before := Scan(w, packed), Scan(w, graph);
    forall i | 0 <= i < |subjects|
      ensures subjects[i].facts.paths == [] && AllOff(st, subjects[i].facts)
      ensures forall at | 0 <= at < |subjects[i].facts.hashes| :: IsHash(subjects[i].facts.hashes[at].value)
    {
      if !NoPaths(before) {
        StrippedSubject(w, graph.schema, graph.elements, subjects[i]);
        var t :| t in before && t.facts.hashes == subjects[i].facts.hashes;
        var j :| 0 <= j < |before| && before[j] == t;
        assert AllOff(st, before[j].facts) && WellFormedFacts(w, before[j].facts);
      } else {
        assert AllOff(st, before[i].facts) && WellFormedFacts(w, before[i].facts);
      }
    }
    NoneLocal(Elsewhere(w), subjects);
  }

  lemma {:induction false} NoneLocal(w: World, subjects: seq<Subject>)
    requires NoPaths(subjects)
    ensures LocalIn(w, subjects) == 0
    decreases |subjects|
  {
    if subjects != [] {
      assert subjects[0].facts.paths == [];
      NoneLocalUpTo(w, subjects[0].facts, |subjects[0].facts.hashes|);
      assert forall i | 0 <= i < |subjects| - 1 :: subjects[1..][i] == subjects[i + 1];
      NoneLocal(w, subjects[1..]);
    }
  }

  lemma {:induction false} NoneLocalUpTo(w: World, facts: Facts, n: nat)
    requires facts.paths == []
    ensures LocalUpTo(w, facts, n) == 0
    decreases n
  {
    if n > 0 {
      NoneLocalUpTo(w, facts, n - 1);
    }
  }
}
