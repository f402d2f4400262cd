/** What a schema declares to be indexed, and how every write updates it
    (`DeclaredIndexes` in zega/src/index.rs, `sync_indexes` in
    zega/src/graph/mod.rs). */
module Indexes {
  import opened Graphs
  import opened Machine
  import opened Ranges
  import opened Values
  import opened Wrappers
  import T = TextIndexes

  datatype Slot = Slot(ty: string, field: string)

  datatype Kind = Range | Textual

  datatype Spec = Spec(kind: Kind, slot: Slot)

  type Tree = map<Key, set<u64>>

  // ----- what an index of the stored nodes is -----

  // Where a node stands in a range index.
  function KeyIn(near: Nearest, slot: Slot, node: Node): Option<Key> {
    if slot.ty in node.labels && slot.field in node.props then KeyOf(near, node.props[slot.field]) else None
  }

  function TextIn(slot: Slot, node: Node): Option<string> {
    if slot.ty in node.labels && slot.field in node.props && node.props[slot.field].Str?
    then Some(node.props[slot.field].text) else None
  }

  function TextsOf(slot: Slot, nodes: map<u64, Node>): map<u64, string> {
    map id | id in nodes && TextIn(slot, nodes[id]).Some? :: TextIn(slot, nodes[id]).value
  }

  predicate Has(tree: Tree, key: Key, id: u64) {
    key in tree && id in tree[key]
  }

  ghost predicate Agrees(near: Nearest, tree: Tree, slot: Slot, nodes: map<u64, Node>) {
    && (forall key: Key, id: u64 :: Has(tree, key, id) <==> id in nodes && KeyIn(near, slot, nodes[id]) == Some(key))
    && (forall key: Key :: key in tree ==> tree[key] != {})
  }

  // There is one index of given nodes: any two, however they came about, are equal.
  lemma {:induction false} AgreeingTreesAreEqual(near: Nearest, a: Tree, b: Tree, slot: Slot, nodes: map<u64, Node>)
    requires Agrees(near, a, slot, nodes) && Agrees(near, b, slot, nodes)
    ensures a == b
  {
    hide KeyIn;
    forall key: Key
      ensures key in a <==> key in b
      ensures key in a ==> a[key] == b[key]
    {
      if key in a {
        var id :| id in a[key];
        assert Has(a, key, id) && Has(b, key, id);
      }
      if key in b {
        var id :| id in b[key];
        assert Has(b, key, id) && Has(a, key, id);
      }
      if key in a {
        assert forall id: u64 :: id in a[key] <==> Has(a, key, id);
        assert forall id: u64 :: id in b[key] <==> Has(b, key, id);
      }
    }
  }

  // ----- trees -----

  function WithId(tree: Tree, key: Key, id: u64): Tree {
    tree[key := (if key in tree then tree[key] else {}) + {id}]
  }

  function WithoutId(tree: Tree, key: Key, id: u64): Tree {
    if key !in tree then tree else if tree[key] - {id} == {} then tree - {key} else tree[key := tree[key] - {id}]
  }

  lemma {:induction false} InsertedAgrees(
      near: Nearest, tree: Tree, slot: Slot, nodes: map<u64, Node>, id: u64, node: Node)
    requires Agrees(near, tree, slot, nodes) && id !in nodes
    ensures match KeyIn(near, slot, node)
      case None => Agrees(near, tree, slot, nodes[id := node])
      case Some(key) => Agrees(near, WithId(tree, key, id), slot, nodes[id := node])
  {
    hide KeyIn;
    match KeyIn(near, slot, node)
    case None =>
    case Some(key) =>
      assert id in WithId(tree, key, id)[key];
      forall k: Key, i: u64
        ensures Has(WithId(tree, key, id), k, i) <==> Has(tree, k, i) || (k == key && i == id)
      {
      }
  }

  lemma {:induction false} RemovedAgrees(
      near: Nearest, tree: Tree, slot: Slot, nodes: map<u64, Node>, id: u64)
    requires Agrees(near, tree, slot, nodes) && id in nodes
    ensures match KeyIn(near, slot, nodes[id])
      case None => Agrees(near, tree, slot, nodes - {id})
      case Some(key) => Agrees(near, WithoutId(tree, key, id), slot, nodes - {id})
  {
    hide KeyIn;
    match KeyIn(near, slot, nodes[id])
    case None =>
    case Some(key) =>
      assert Has(tree, key, id);
      forall k: Key, i: u64
        ensures Has(WithoutId(tree, key, id), k, i) <==> Has(tree, k, i) && !(k == key && i == id)
      {
        assert i in tree[key] && i != id ==> i in tree[key] - {id};
      }
  }

  lemma {:induction false} TextsWith(slot: Slot, nodes: map<u64, Node>, id: u64, node: Node)
    ensures TextsOf(slot, nodes[id := node]) ==
      match TextIn(slot, node)
      case None => TextsOf(slot, nodes) - {id}
      case Some(text) => TextsOf(slot, nodes)[id := text]
  {
    hide TextIn;
  }

  lemma {:induction false} TextsWithout(slot: Slot, nodes: map<u64, Node>, id: u64)
    ensures TextsOf(slot, nodes - {id}) == TextsOf(slot, nodes) - {id}
  {
    hide TextIn;
  }

  lemma {:induction false} TextOfNone(slot: Slot, nodes: map<u64, Node>, id: u64)
    requires id !in nodes || TextIn(slot, nodes[id]).None?
    ensures TextsOf(slot, nodes) - {id} == TextsOf(slot, nodes)
  {
    hide TextIn;
  }

  class DeclaredIndexes {
    var range: map<Slot, Tree>
    var text: map<Slot, T.Postings>
    const near: Nearest
    // The nodes that have been inserted and not removed.
    ghost var nodes: map<u64, Node>

    // Every index is what building it from the current nodes would give.
    ghost predicate Valid()
      reads this
    {
      && MonotoneCast(near)
      && (forall slot | slot in range :: Agrees(near, range[slot], slot, nodes))
      && (forall slot | slot in text :: T.Agrees(text[slot], TextsOf(slot, nodes)))
    }

    constructor (near: Nearest)
      requires MonotoneCast(near)
      ensures Valid() && nodes == map[] && range == map[] && text == map[] && this.near == near
    {
      this.near := near;
      range, text, nodes := map[], map[], map[];
    }

    method Insert(id: u64, node: Node)
      requires Valid() && id !in nodes
      modifies this
      ensures Valid() && nodes == old(nodes)[id := node]
      ensures range.Keys == old(range.Keys) && text.Keys == old(text.Keys)
    {
      hide Agrees, T.Agrees, TextsOf, KeyIn, TextIn, WithId;
      var left := range.Keys;
      while left != {}
        invariant left <= range.Keys == old(range.Keys) && text == old(text) && nodes == old(nodes)
        invariant forall slot | slot in range ::
          Agrees(near, range[slot], slot, if slot in left then nodes else nodes[id := node])
        decreases left
      {
        var slot :| slot in left;
        InsertedAgrees(near, range[slot], slot, nodes, id, node);
        match KeyIn(near, slot, node) {
          case None =>
          case Some(key) => range := range[slot := WithId(range[slot], key, id)];
        }
        left := left - {slot};
      }
      var texts := text.Keys;
      while texts != {}
        invariant texts <= text.Keys == old(text.Keys) && nodes == old(nodes) && range.Keys == old(range.Keys)
        invariant forall slot | slot in range :: Agrees(near, range[slot], slot, nodes[id := node])
        invariant forall slot | slot in text ::
          T.Agrees(text[slot], TextsOf(slot, if slot in texts then nodes else nodes[id := node]))
        decreases texts
      {
        var slot :| slot in texts;
        TextsWith(slot, nodes, id, node);
        TextOfNone(slot, nodes, id);
        match TextIn(slot, node) {
          case None =>
          case Some(s) =>
            NoTextOf(slot, nodes, id);
            var posted := T.Posted(text[slot], id, s);
            T.PostedAgreesExactly(text[slot], posted, id, s, TextsOf(slot, nodes));
            text := text[slot := posted];
        }
        texts := texts - {slot};
      }
      nodes := nodes[id := node];
    }

    static lemma {:induction false} NoTextOf(slot: Slot, nodes: map<u64, Node>, id: u64)
      requires id !in nodes
      ensures id !in TextsOf(slot, nodes)
    {
    }

    static lemma {:induction false} TextIsThere(slot: Slot, nodes: map<u64, Node>, id: u64)
      requires id in nodes && TextIn(slot, nodes[id]).Some?
      ensures id in TextsOf(slot, nodes) && TextsOf(slot, nodes)[id] == TextIn(slot, nodes[id]).value
    {
    }

    method Remove(id: u64, node: Node)
      requires Valid() && id in nodes && nodes[id] == node
      modifies this
      ensures Valid() && nodes == old(nodes) - {id}
      ensures range.Keys == old(range.Keys) && text.Keys == old(text.Keys)
    {
      hide Agrees, T.Agrees, TextsOf, KeyIn, TextIn, WithoutId;
      var left := range.Keys;
      while left != {}
        invariant left <= range.Keys == old(range.Keys) && text == old(text) && nodes == old(nodes)
        invariant forall slot | slot in range ::
          Agrees(near, range[slot], slot, if slot in left then nodes else nodes - {id})
        decreases left
      {
        var slot :| slot in left;
        RemovedAgrees(near, range[slot], slot, nodes, id);
        match KeyIn(near, slot, node) {
          case None =>
          case Some(key) => range := range[slot := WithoutId(range[slot], key, id)];
        }
        left := left - {slot};
      }
      var texts := text.Keys;
      while texts != {}
        invariant texts <= text.Keys == old(text.Keys) && nodes == old(nodes) && range.Keys == old(range.Keys)
        invariant forall slot | slot in range :: Agrees(near, range[slot], slot, nodes - {id})
        invariant forall slot | slot in text ::
          T.Agrees(text[slot], TextsOf(slot, if slot in texts then nodes else nodes - {id}))
        decreases texts
      {
        var slot :| slot in texts;
        TextsWithout(slot, nodes, id);
        match TextIn(slot, node) {
          case None => TextOfNone(slot, nodes, id);
          case Some(s) =>
            TextIsThere(slot, nodes, id);
            var unposted := T.Unposted(text[slot], id, s);
            T.UnpostedAgreesExactly(text[slot], unposted, id, s, TextsOf(slot, nodes));
            text := text[slot := unposted];
        }
        texts := texts - {slot};
      }
      nodes := nodes - {id};
    }

    // Builds one index from the nodes already stored.
    method Build(spec: Spec, stored: map<u64, Node>)
      requires Valid() && stored == nodes
      requires if spec.kind.Range? then spec.slot !in range else spec.slot !in text
      modifies this
      ensures Valid() && nodes == old(nodes)
      ensures spec.kind.Range? ==> range.Keys == old(range.Keys) + {spec.slot} && text == old(text)
      ensures spec.kind.Textual? ==> text.Keys == old(text.Keys) + {spec.slot} && range == old(range)
    {
      match spec.kind
      case Range =>
        var tree := BuildTree(near, spec.slot, stored);
        range := range[spec.slot := tree];
      case Textual =>
        var postings := BuildPostings(spec.slot, stored);
        text := text[spec.slot := postings];
    }

    // Drops every index `specs` does not name.
    method Retain(specs: seq<Spec>)
      requires Valid()
      modifies this
      ensures Valid() && nodes == old(nodes)
      ensures range.Keys == set slot | slot in old(range.Keys) && Spec(Range, slot) in specs
      ensures text.Keys == set slot | slot in old(text.Keys) && Spec(Textual, slot) in specs
    {
      range := map slot | slot in range && Spec(Range, slot) in specs :: range[slot];
      text := map slot | slot in text && Spec(Textual, slot) in specs :: text[slot];
    }

    // `sync_indexes`: makes the indexes exactly `specs`.
    method Sync(specs: seq<Spec>, stored: map<u64, Node>)
      requires Valid() && stored == nodes
      modifies this
      ensures Valid() && nodes == old(nodes)
      ensures forall slot :: slot in range <==> Spec(Range, slot) in specs
      ensures forall slot :: slot in text <==> Spec(Textual, slot) in specs
    {
      Retain(specs);
      var i := 0;
      while i < |specs|
        invariant 0 <= i <= |specs| && Valid() && nodes == old(nodes)
        invariant forall slot :: slot in range ==> Spec(Range, slot) in specs
        invariant forall slot :: slot in text ==> Spec(Textual, slot) in specs
        invariant forall slot :: Spec(Range, slot) in specs[..i] ==> slot in range
        invariant forall slot :: Spec(Textual, slot) in specs[..i] ==> slot in text
      {
        var spec := specs[i];
        assert specs[..i + 1] == specs[..i] + [spec];
        if spec.kind.Range? && spec.slot !in range {
          Build(spec, stored);
        } else if spec.kind.Textual? && spec.slot !in text {
          Build(spec, stored);
        }
        i := i + 1;
      }
      assert specs[..i] == specs;
    }

    // All nodes of these types with a key in the interval, unless a type is not
    // indexed by the field: then there is no answer.
    method RangeCandidates(types: seq<string>, field: string, interval: Interval) returns (r: Option<set<u64>>)
      requires Valid() && IsInterval(interval)
      ensures r.None? <==> exists ty <- types :: Slot(ty, field) !in range
      ensures r.Some? ==> forall id: u64 :: id in r.value <==>
        id in nodes && exists ty <- types :: IsIn(near, interval, Slot(ty, field), nodes[id])
    {
      hide Agrees, KeyIn, In, BoundsOf, Between;
      var out: set<u64> := {};
      var i := 0;
      while i < |types|
        invariant 0 <= i <= |types|
        invariant forall ty <- types[..i] :: Slot(ty, field) in range
        invariant forall id: u64 :: id in out <==>
          id in nodes && exists ty <- types[..i] :: IsIn(near, interval, Slot(ty, field), nodes[id])
      {
        var slot := Slot(types[i], field);
        if slot !in range {
          assert types[i] in types;
          return None;
        }
        assert types[..i + 1] == types[..i] + [types[i]];
        var found := InTree(range[slot], interval, near, slot, nodes);
        out := out + found;
        i := i + 1;
      }
      assert types[..i] == types;
      r := Some(out);
    }

    // The same for a text condition.
    method TextCandidates(types: seq<string>, field: string, p: T.Pattern) returns (r: Option<set<u64>>)
      requires Valid()
      ensures r.None? <==> exists ty <- types :: Slot(ty, field) !in text
      ensures r.Some? ==> forall id: u64, ty: string ::
        ty in types && id in nodes && TextMatches(p, Slot(ty, field), nodes[id]) ==> id in r.value
      ensures r.Some? ==> forall id: u64 ::
        id in r.value <==> id in nodes && exists ty <- types :: MayMatch(p, Slot(ty, field), nodes[id])
    {
      hide T.Agrees, T.Matches, T.Grams, T.HasAll, T.MayMatch, TextIn, T.Probe, MayMatch;
      var out: set<u64> := {};
      var i := 0;
      while i < |types|
        invariant 0 <= i <= |types|
        invariant forall ty <- types[..i] :: Slot(ty, field) in text
        invariant forall id: u64 ::
          id in out <==> id in nodes && exists ty <- types[..i] :: MayMatch(p, Slot(ty, field), nodes[id])
      {
        var slot := Slot(types[i], field);
        if slot !in text {
          assert types[i] in types;
          return None;
        }
        assert types[..i + 1] == types[..i] + [types[i]];
        var found := T.Find(text[slot], T.Probe(p));
        T.FoundMayMatch(text[slot], p, found, TextsOf(slot, nodes));
        forall id: u64
          ensures id in found <==> id in nodes && MayMatch(p, slot, nodes[id])
        {
          MayMatchIsFound(p, slot, nodes, id);
        }
        out := out + found;
        i := i + 1;
      }
      assert types[..i] == types;
      forall id: u64, ty: string | ty in types && id in nodes && TextMatches(p, Slot(ty, field), nodes[id])
        ensures id in out
      {
        MatchMayMatch(p, Slot(ty, field), nodes[id]);
      }
      r := Some(out);
    }
  }

  // Whether the index alone takes a node for a match.
  predicate MayMatch(p: T.Pattern, slot: Slot, node: Node) {
    TextIn(slot, node).Some? && T.MayMatch(p, TextIn(slot, node).value)
  }

  lemma {:induction false} MatchMayMatch(p: T.Pattern, slot: Slot, node: Node)
    requires TextMatches(p, slot, node)
    ensures MayMatch(p, slot, node)
  {
    hide T.MayMatch, T.Matches, TextIn;
    T.MatchMayMatch(p, TextIn(slot, node).value);
  }

  lemma {:induction false} MayMatchIsFound(p: T.Pattern, slot: Slot, nodes: map<u64, Node>, id: u64)
    ensures var texts := TextsOf(slot, nodes);
      id in texts && T.MayMatch(p, texts[id]) <==> id in nodes && MayMatch(p, slot, nodes[id])
  {
    hide T.MayMatch, TextIn;
  }

  predicate IsIn(near: Nearest, interval: Interval, slot: Slot, node: Node) {
    KeyIn(near, slot, node).Some? && In(interval, KeyIn(near, slot, node).value)
  }

  predicate TextMatches(p: T.Pattern, slot: Slot, node: Node) {
    TextIn(slot, node).Some? && T.Matches(p, TextIn(slot, node).value)
  }

  method BuildTree(near: Nearest, slot: Slot, stored: map<u64, Node>) returns (tree: Tree)
    ensures Agrees(near, tree, slot, stored)
  {
    hide Agrees, KeyIn, WithId;
    tree := map[];
    var left, done := stored.Keys, map[];
    EmptyAgrees(near, slot);
    while left != {}
      invariant left <= stored.Keys && done == map id | id in stored && id !in left :: stored[id]
      invariant Agrees(near, tree, slot, done)
      decreases left
    {
      var id :| id in left;
      InsertedAgrees(near, tree, slot, done, id, stored[id]);
      match KeyIn(near, slot, stored[id]) {
        case None =>
        case Some(key) => tree := WithId(tree, key, id);
      }
      left, done := left - {id}, done[id := stored[id]];
    }
    assert done == stored;
  }

  lemma {:induction false} EmptyAgrees(near: Nearest, slot: Slot)
    ensures Agrees(near, map[], slot, map[])
  {
  }

  method BuildPostings(slot: Slot, stored: map<u64, Node>) returns (postings: T.Postings)
    ensures T.Agrees(postings, TextsOf(slot, stored))
  {
    hide T.Agrees, TextsOf, TextIn;
    postings := T.NOTHING;
    var left, done := stored.Keys, map[];
    NoPostings(slot);
    while left != {}
      invariant left <= stored.Keys && done == map id | id in stored && id !in left :: stored[id]
      invariant T.Agrees(postings, TextsOf(slot, done))
      decreases left
    {
      var id :| id in left;
      TextsWith(slot, done, id, stored[id]);
      TextOfNone(slot, done, id);
      match TextIn(slot, stored[id]) {
        case None =>
        case Some(s) =>
          DeclaredIndexes.NoTextOf(slot, done, id);
          var posted := T.Posted(postings, id, s);
          T.PostedAgreesExactly(postings, posted, id, s, TextsOf(slot, done));
          postings := posted;
      }
      left, done := left - {id}, done[id := stored[id]];
    }
    assert done == stored;
  }

  lemma {:induction false} NoPostings(slot: Slot)
    ensures T.Agrees(T.NOTHING, TextsOf(slot, map[]))
  {
    assert TextsOf(slot, map[]) == map[];
  }

  // `tree.range(bounds)`, every bucket in turn.
  method InTree(tree: Tree, interval: Interval, near: Nearest, ghost slot: Slot, ghost nodes: map<u64, Node>)
    returns (ids: set<u64>)
    requires Agrees(near, tree, slot, nodes) && IsInterval(interval)
    ensures forall id: u64 :: id in ids <==> id in nodes && IsIn(near, interval, slot, nodes[id])
  {
    hide KeyIn, In, BoundsOf, Between, KeyOf;
    ids := {};
    var bounds := BoundsOf(interval);
    var left := if bounds.Some? then set key | key in tree && Between(bounds.value, key) else {};
    ghost var all := left;
    while left != {}
      invariant left <= all
      invariant forall id: u64 :: id in ids <==> exists key: Key :: key in all - left && Has(tree, key, id)
      decreases left
    {
      var key :| key in left;
      ghost var done := all - left;
      ids := ids + tree[key];
      left := left - {key};
      assert all - left == done + {key};
      forall id: u64
        ensures id in tree[key] <==> Has(tree, key, id)
      {
      }
    }
    assert all - left == all;
    forall id: u64
      ensures id in ids <==> id in nodes && IsIn(near, interval, slot, nodes[id])
    {
      if id in nodes && KeyIn(near, slot, nodes[id]).Some? {
        var key := KeyIn(near, slot, nodes[id]).value;
        KeysInAreKeys(near, slot, nodes[id]);
        BoundsAreExact(interval, key);
        assert Has(tree, key, id);
      }
    }
  }

  lemma {:induction false} KeysInAreKeys(near: Nearest, slot: Slot, node: Node)
    requires KeyIn(near, slot, node).Some?
    ensures IsKey(KeyIn(near, slot, node).value)
  {
    hide KeyOf, IsKey;
    KeysAreKeys(near, node.props[slot.field]);
  }

  // Whatever conditions a row meets on one field, it is among the candidates of
  // their joined interval.
  lemma {:induction false} RowsAreCandidates(near: Nearest, slot: Slot, node: Node, preds: seq<Pred>)
    requires MonotoneCast(near) && preds != [] && slot.ty in node.labels
    requires forall p <- preds :: IntervalOf(near, p).Some? && IsJson(p.value)
                                  && Satisfies(near, Get(node.props, slot.field), p)
    ensures IsInterval(Joined(near, preds)) && IsIn(near, Joined(near, preds), slot, node)
  {
    hide IntervalOf, Satisfies, Joined, In, KeyOf, IsInterval;
    SatisfiedIsInJoined(near, Get(node.props, slot.field), preds);
  }
}
