/** Taking a statement back: what `roll_back` restores, and the two cases in
    which it does not.

    Deleting a node drops whatever relationships it still has, also those whose
    own deletion was refused just before; these are in no undo entry. And a
    creation under an id that is in use, which only the last id can be, replaces
    what has it. Everything else comes back exactly. */
module JournalRollBack {
  import opened Graphs
  import opened HistFormat
  import opened Journals
  import opened Machine
  import opened ValidTime
  import opened Values
  import opened Wrappers

  function Minus(c: Core, lost: set<u64>): Core {
    c.(rels := c.rels - lost)
  }

  // ----- rolling back, in general -----

  lemma {:induction false} RollBackConcat(c: Core, a: seq<Undo>, b: seq<Undo>)
    ensures RollBack(c, a + b) == RollBack(RollBack(c, b), a)
    decreases |b|
  {
    hide UndoOne;
    if b == [] {
      assert a + b == a;
    } else {
      var last := b[|b| - 1];
      assert (a + b)[..|a + b| - 1] == a + b[..|b| - 1];
      RollBackConcat(UndoOne(c, last), a, b[..|b| - 1]);
    }
  }

  // The relationships that undo entries put back.
  function GivenBack(undo: seq<Undo>): set<u64> {
    set u | u in undo && u.DeletedRel? :: u.rel.id
  }

  lemma {:induction false} UndoOneMinus(c: Core, u: Undo, lost: set<u64>)
    ensures UndoOne(Minus(c, lost), u) == Minus(UndoOne(c, u), lost - GivenBack([u]))
  {
    assert GivenBack([u]) == if u.DeletedRel? then {u.rel.id} else {} by {
      assert u in [u];
    }
    assert lost - {} == lost;
    match u
    case Created(node) =>
      assert c.rels - lost - Attached(c.rels - lost, node) == c.rels - Attached(c.rels, node) - lost;
    case CreatedRel(id) =>
      assert c.rels - lost - {id} == c.rels - {id} - lost;
    case DeletedRel(rel) =>
      assert (c.rels - lost)[rel.id := rel] == c.rels[rel.id := rel] - (lost - {rel.id});
    case _ =>
  }

  lemma {:induction false} GivenBackConcat(a: seq<Undo>, b: seq<Undo>)
    ensures GivenBack(a + b) == GivenBack(a) + GivenBack(b)
  {
    assert forall u :: u in a + b <==> u in a || u in b;
  }

  lemma {:induction false} RollBackMinus(c: Core, undo: seq<Undo>, lost: set<u64>)
    ensures RollBack(Minus(c, lost), undo) == Minus(RollBack(c, undo), lost - GivenBack(undo))
    decreases |undo|
  {
    hide UndoOne, Minus, GivenBack;
    if undo == [] {
      NothingGivenBack();
      assert lost - {} == lost;
    } else {
      var last, before := undo[|undo| - 1], undo[..|undo| - 1];
      assert undo == before + [last];
      UndoOneMinus(c, last, lost);
      RollBackMinus(UndoOne(c, last), before, lost - GivenBack([last]));
      GivenBackConcat(before, [last]);
      assert lost - GivenBack([last]) - GivenBack(before) == lost - GivenBack(undo);
    }
  }

  lemma {:induction false} NothingGivenBack()
    ensures GivenBack([]) == {}
  {
  }

  // `to` was reached from `from` by a write whose undo entries take it back,
  // but for the relationships in `lost`.
  ghost predicate Undoes(from: State, to: State, lost: set<u64>) {
    var n := |from.j.undo|;
    && n <= |to.j.undo|
    && to.j.undo[..n] == from.j.undo
    && RollBack(to.g.core, to.j.undo[n..]) == Minus(from.g.core, lost)
  }

  lemma {:induction false} UndoesBy(from: State, to: State, undo: seq<Undo>, lost: set<u64>)
    requires to.j.undo == from.j.undo + undo
    requires RollBack(to.g.core, undo) == Minus(from.g.core, lost)
    ensures Undoes(from, to, lost)
  {
    hide RollBack;
    assert to.j.undo[|from.j.undo|..] == undo;
  }

  lemma {:induction false} NothingToUndo(from: State, to: State)
    requires to.j.undo == from.j.undo && to.g.core == from.g.core
    ensures Undoes(from, to, {})
  {
    assert from.g.core.rels - {} == from.g.core.rels;
    UndoesBy(from, to, [], {});
  }

  // The undo entries made between two states.
  function Since(from: State, to: State): seq<Undo> {
    if |from.j.undo| <= |to.j.undo| then to.j.undo[|from.j.undo|..] else []
  }

  lemma {:induction false} SinceInTurn(a: State, b: State, c: State)
    requires |a.j.undo| <= |b.j.undo| <= |c.j.undo|
    requires b.j.undo[..|a.j.undo|] == a.j.undo && c.j.undo[..|b.j.undo|] == b.j.undo
    ensures c.j.undo[..|a.j.undo|] == a.j.undo && Since(a, c) == Since(a, b) + Since(b, c)
  {
    assert c.j.undo == b.j.undo + Since(b, c) && b.j.undo == a.j.undo + Since(a, b);
  }

  lemma {:induction false} MinusInTurn(c: Core, lost: set<u64>, more: set<u64>)
    ensures Minus(Minus(c, lost), more) == Minus(c, lost + more)
  {
    assert c.rels - lost - more == c.rels - (lost + more);
  }

  // What the second write lost is lost unless the first had deleted a
  // relationship under that id, which then comes back as it was.
  lemma {:induction false} UndoesInTurn(a: State, b: State, c: State, lost: set<u64>, more: set<u64>)
    requires Undoes(a, b, lost) && Undoes(b, c, more)
    ensures Undoes(a, c, lost + (more - GivenBack(Since(a, b))))
  {
    hide RollBack, GivenBack, Minus;
    SinceInTurn(a, b, c);
    RollBackConcat(c.g.core, Since(a, b), Since(b, c));
    RollBackMinus(b.g.core, Since(a, b), more);
    MinusInTurn(a.g.core, lost, more - GivenBack(Since(a, b)));
  }

  lemma {:induction false} UndoesExactlyInTurn(a: State, b: State, c: State)
    requires Undoes(a, b, {}) && Undoes(b, c, {})
    ensures Undoes(a, c, {})
  {
    hide Undoes, GivenBack;
    var none: set<u64> := {};
    assert none + (none - GivenBack(Since(a, b))) == none;
    UndoesInTurn(a, b, c, none, none);
  }

  // One entry undoes one change of the graph.
  lemma {:induction false} UndoesOne(from: State, to: State, u: Undo)
    requires to.j.undo == from.j.undo + [u] && UndoOne(to.g.core, u) == from.g.core
    ensures Undoes(from, to, {})
  {
    hide UndoOne;
    assert from.g.core.rels - {} == from.g.core.rels;
    assert RollBack(to.g.core, [u]) == RollBack(UndoOne(to.g.core, u), []);
    UndoesBy(from, to, [u], {});
  }

  // ----- maps put back -----

  lemma {:induction false} SetBack<K, V>(m: map<K, V>, n: map<K, V>, k: K)
    requires n - {k} == m - {k}
    ensures Set(n, k, Get(m, k)) == m
  {
    forall x | x in Set(n, k, Get(m, k))
      ensures x in m && m[x] == Set(n, k, Get(m, k))[x]
    {
      if x != k {
        assert x in n - {k};
        assert (n - {k})[x] == (m - {k})[x];
      }
    }
    forall x | x in m
      ensures x in Set(n, k, Get(m, k))
    {
      if x != k {
        assert x in m - {k};
      }
    }
  }

  lemma {:induction false} SetLeavesOthers<K, V>(m: map<K, V>, k: K, v: Option<V>)
    ensures Set(m, k, v) - {k} == m - {k}
  {
  }

  lemma {:induction false} HistoriesBack(m: map<FieldKey, History>, n: map<FieldKey, History>, id: u64)
    requires WithoutHistories(n, id) == WithoutHistories(m, id)
    ensures WithHistories(n, id, HistoriesOf(m, id)) == m
  {
    var back := WithHistories(n, id, HistoriesOf(m, id));
    forall k | k in back
      ensures k in m && m[k] == back[k]
    {
      if k.0 != id {
        assert k in WithoutHistories(n, id) && back[k] == WithoutHistories(m, id)[k];
      }
    }
    forall k | k in m
      ensures k in back
    {
      if k.0 != id {
        assert k in WithoutHistories(m, id);
      } else {
        assert k.1 in HistoriesOf(m, id);
      }
    }
  }

  lemma {:induction false} RecordLeavesOthers(
      fields: map<FieldKey, History>, id: u64, at: i64, props: Props, names: seq<string>)
    ensures WithoutHistories(Record(fields, id, at, props, names), id) == WithoutHistories(fields, id)
    decreases |names|
  {
    hide Inserted, NewHistory;
    if names != [] {
      var f := names[0];
      var next := if f in props then RecordOne(fields, id, at, f, props[f]) else fields;
      assert WithoutHistories(next, id) == WithoutHistories(fields, id);
      RecordLeavesOthers(next, id, at, props, names[1..]);
    }
  }

  // ----- each write in turn -----

  lemma {:induction false} LifetimeUndoes(s: State, id: u64)
    ensures Undoes(s, RecordLifetime(s, id), {})
    ensures RecordLifetime(s, id).g.core.rels == s.g.core.rels && RecordLifetime(s, id).g.core.nodes == s.g.core.nodes
  {
    hide Undoes, DateOf, FirstLifespan, Reversed;
    var to := RecordLifetime(s, id);
    if to.j.undo == s.j.undo {
      NothingToUndo(s, to);
    } else {
      var t := s.g.core.time.value;
      var lifespan := FirstLifespan(s.j.schema.lifespans, s.g.core.nodes[id].labels).value;
      var appears, ends := DateOf(s.g.core.nodes[id], lifespan.appears), DateOf(s.g.core.nodes[id], lifespan.ends);
      LifetimeBack(t, id, appears, ends);
      UndoesOne(s, to, LifetimeWas(id, Get(t.appears, id), Get(t.ends, id)));
    }
  }

  lemma {:induction false} LifetimeBack(t: Timeline, id: u64, appears: Option<i64>, ends: Option<i64>)
    ensures WithLifetime(WithLifetime(t, id, appears, ends), id, Get(t.appears, id), Get(t.ends, id)) == t
  {
    hide Set, Get;
    SetLeavesOthers(t.appears, id, appears);
    SetLeavesOthers(t.ends, id, ends);
    SetBack(t.appears, Set(t.appears, id, appears), id);
    SetBack(t.ends, Set(t.ends, id, ends), id);
  }

  // ----- what every write keeps -----

  predicate Closed(c: Core) {
    forall r <- c.rels :: c.rels[r].id == r && c.rels[r].from in c.nodes && c.rels[r].to in c.nodes
  }

  // An id lies below its counter, which never leaves the last id.
  predicate Issued(id: u64, next: u64) {
    id < next || next == U64_MAX
  }

  // Relationships end at nodes that exist, and ids lie below their counters.
  predicate Sound(s: State) {
    && Closed(s.g.core)
    && (forall n <- s.g.core.nodes :: Issued(n, s.g.nextNode))
    && (forall r <- s.g.core.rels :: Issued(r, s.g.nextRel))
    && (s.g.core.time.Err? ==> s.g.encoded)
  }

  // What a write needs to be taken back: the id it gives is free, which it is
  // unless the counter is at the last id, and the ends it joins exist.
  predicate Permitted(s: State, call: Call) {
    match call
    case CallCreateNode(_, _) => s.g.nextNode !in s.g.core.nodes
    case CallCreateRel(_, from, to, _) => s.g.nextRel !in s.g.core.rels && from in s.g.core.nodes && to in s.g.core.nodes
    case _ => true
  }

  lemma {:induction false} LifetimeKeepsSound(s: State, id: u64)
    requires Sound(s)
    ensures Sound(RecordLifetime(s, id))
  {
    hide DateOf, FirstLifespan, Reversed, WithLifetime;
  }

  lemma {:induction false} InsertingUndoes(s: State, labels: seq<string>, props: Props)
    requires Closed(s.g.core) && s.g.nextNode !in s.g.core.nodes
    ensures Undoes(s, Inserting(s, labels, props), {})
  {
    hide Undoes, TemporalNames, Record, HistoriesOf;
    var id, to := s.g.nextNode, Inserting(s, labels, props);
    var names := TemporalNames(s.j.schema.fields, labels, props);
    var g := CreateNodeIn(s.g, Node(labels, props));
    var one := State(g, Push(s.j, [Created(id)], []));
    CreatedIsUndone(s.g.core, id, Node(labels, props));
    UndoesOne(s, one, Created(id));
    if names == [] {
      UndoesOne(s, to, Created(id));
    } else {
      if s.g.core.time.Err? {
        NothingToUndo(one, to);
      } else {
        var t := s.g.core.time.value;
        var was := HistoriesWere(id, HistoriesOf(t.fields, id));
        assert s.j.undo + [Created(id), was] == s.j.undo + [Created(id)] + [was];
        RecordIsUndone(g.core, id, s.j.at, props, names);
        UndoesOne(one, to, was);
      }
      UndoesExactlyInTurn(s, one, to);
    }
  }

  lemma {:induction false} CreateNodeUndoes(s: State, labels: seq<string>, props: Props)
    requires Closed(s.g.core) && s.g.nextNode !in s.g.core.nodes
    ensures Undoes(s, AfterCreateNode(s, labels, props), {})
  {
    hide Undoes, Inserting, RecordLifetime;
    var inserted := Inserting(s, labels, props);
    InsertingUndoes(s, labels, props);
    LifetimeUndoes(inserted, s.g.nextNode);
    UndoesExactlyInTurn(s, inserted, RecordLifetime(inserted, s.g.nextNode));
  }

  lemma {:induction false} CreatedIsUndone(c: Core, id: u64, node: Node)
    requires Closed(c) && id !in c.nodes
    ensures UndoOne(PutNode(c, id, node), Created(id)) == c
  {
    var after := PutNode(c, id, node);
    assert Attached(after.rels, id) == {};
    assert after.nodes - {id} == c.nodes;
    assert after.rels - {} == c.rels;
  }

  lemma {:induction false} RecordIsUndone(c: Core, id: u64, at: i64, props: Props, names: seq<string>)
    requires c.time.Ok?
    ensures var t := c.time.value;
      UndoOne(c.(time := Ok(t.(fields := Record(t.fields, id, at, props, names)))),
              HistoriesWere(id, HistoriesOf(t.fields, id))) == c
  {
    hide Record, WithHistories, HistoriesOf, WithoutHistories;
    var t := c.time.value;
    RecordLeavesOthers(t.fields, id, at, props, names);
    HistoriesBack(t.fields, Record(t.fields, id, at, props, names), id);
  }

  lemma {:induction false} ReplacedIsUndone(c: Core, id: u64, props: Props)
    requires id in c.nodes
    ensures UndoOne(MergeNode(c, id, props), Replaced(id, c.nodes[id])) == c
  {
    assert MergeNode(c, id, props).nodes[id := c.nodes[id]] == c.nodes;
  }

  lemma {:induction false} MergingUndoes(s: State, id: u64, props: Props)
    requires id in s.g.core.nodes
    ensures Undoes(s, Merging(s, id, props), {})
  {
    hide Undoes, TemporalNames, Record, HistoriesOf, MergeNode, UndoOne, Current;
    var before, to := s.g.core.nodes[id], Merging(s, id, props);
    var names := TemporalNames(s.j.schema.fields, before.labels, props);
    if names == [] {
      ReplacedIsUndone(s.g.core, id, props);
      UndoesOne(s, to, Replaced(id, before));
    } else if s.g.core.time.Err? {
      NothingToUndo(s, to);
    } else {
      var t := s.g.core.time.value;
      var fields, was := Record(t.fields, id, s.j.at, props, names), HistoriesWere(id, HistoriesOf(t.fields, id));
      var one := State(WithTime(s.g, t.(fields := fields)), Push(s.j, [was], []));
      RecordIsUndone(s.g.core, id, s.j.at, props, names);
      UndoesOne(s, one, was);
      assert s.j.undo + [was, Replaced(id, before)] == s.j.undo + [was] + [Replaced(id, before)];
      ReplacedIsUndone(one.g.core, id, Current(fields, id, props, names));
      UndoesOne(one, to, Replaced(id, before));
      UndoesExactlyInTurn(s, one, to);
    }
  }

  lemma {:induction false} UpdateNodeUndoes(s: State, id: u64, props: Props)
    ensures Undoes(s, AfterUpdateNode(s, id, props), {})
  {
    hide Undoes, Merging, RecordLifetime;
    var to := AfterUpdateNode(s, id, props);
    if id in s.g.mirrors || id !in s.g.core.nodes {
      NothingToUndo(s, to);
    } else {
      MergingUndoes(s, id, props);
      LifetimeUndoes(Merging(s, id, props), id);
      UndoesExactlyInTurn(s, Merging(s, id, props), to);
    }
  }

  lemma {:induction false} IntervalIsUndone(c: Core, id: u64, interval: RelHistory)
    requires c.time.Ok?
    ensures var t := c.time.value;
      UndoOne(c.(time := Ok(t.(intervals := t.intervals[id := interval]))), IntervalWas(id, Get(t.intervals, id))) == c
  {
    hide Set, Get;
    var m := c.time.value.intervals;
    assert m[id := interval] - {id} == m - {id};
    SetBack(m, m[id := interval], id);
  }

  lemma {:induction false} CreatedRelIsUndone(c: Core, rel: Relationship)
    requires rel.id !in c.rels
    ensures UndoOne(PutRel(c, rel), CreatedRel(rel.id)) == c
  {
    assert c.rels[rel.id := rel] - {rel.id} == c.rels;
  }

  lemma {:induction false} CreateRelUndoes(s: State, kind: string, from: u64, to: u64, props: Props)
    requires s.g.nextRel !in s.g.core.rels
    ensures Undoes(s, AfterCreateRel(s, kind, from, to, props), {})
  {
    hide Undoes, UndoOne, PutRel;
    var id := s.g.nextRel;
    var rel, g := Relationship(id, kind, from, to, props), CreateRelIn(s.g, kind, from, to, props);
    var after := AfterCreateRel(s, kind, from, to, props);
    CreatedRelIsUndone(s.g.core, rel);
    if kind !in s.j.schema.rels {
      UndoesOne(s, after, CreatedRel(id));
    } else {
      var one := State(g, Push(s.j, [CreatedRel(id)], []));
      UndoesOne(s, one, CreatedRel(id));
      PutRelKeepsTime(s.g.core, rel);
      if g.core.time.Err? {
        NothingToUndo(one, after);
      } else {
        var t := g.core.time.value;
        var was := IntervalWas(id, Get(t.intervals, id));
        assert s.j.undo + [CreatedRel(id), was] == s.j.undo + [CreatedRel(id)] + [was];
        IntervalIsUndone(g.core, id, RelHistory(rel, s.j.at, None));
        UndoesOne(one, after, was);
      }
      UndoesExactlyInTurn(s, one, after);
    }
  }

  lemma {:induction false} PutRelKeepsTime(c: Core, rel: Relationship)
    ensures PutRel(c, rel).time == c.time
  {
  }

  lemma {:induction false} DeletedRelIsUndone(c: Core, id: u64)
    requires id in c.rels && c.rels[id].id == id
    ensures UndoOne(DropRel(c, id), DeletedRel(c.rels[id])) == c
  {
    assert (c.rels - {id})[id := c.rels[id]] == c.rels;
  }

  lemma {:induction false} DeleteRelUndoes(s: State, id: u64)
    requires Closed(s.g.core)
    ensures Undoes(s, AfterDeleteRel(s, id), {})
  {
    hide Undoes, UndoOne, Ended;
    var g, after := s.g, AfterDeleteRel(s, id);
    if after.j.undo == s.j.undo {
      NothingToUndo(s, after);
    } else {
      var rel := Known(g, id).value;
      if rel.kind in s.j.schema.rels || (g.core.time.Ok? && id in g.core.time.value.intervals) {
        EndedRelUndoes(s, id);
      } else {
        DeletedRelIsUndone(g.core, id);
        UndoesOne(s, after, DeletedRel(rel));
      }
    }
  }

  lemma {:induction false} EndedRelUndoes(s: State, id: u64)
    requires Closed(s.g.core) && AfterDeleteRel(s, id).j.undo != s.j.undo
    requires s.g.core.time.Ok? && Known(s.g, id).Some?
    requires Known(s.g, id).value.kind in s.j.schema.rels || id in s.g.core.time.value.intervals
    ensures Undoes(s, AfterDeleteRel(s, id), {})
  {
    hide Undoes, UndoOne, Ended;
    var rel, t, after := Known(s.g, id).value, s.g.core.time.value, AfterDeleteRel(s, id);
    var was := IntervalWas(id, Get(t.intervals, id));
    var ended := WithTime(s.g, t.(intervals := t.intervals[id := Ended(t, rel, s.j.at)]));
    var one := State(ended, Push(s.j, [was], []));
    IntervalIsUndone(s.g.core, id, Ended(t, rel, s.j.at));
    UndoesOne(s, one, was);
    if id in s.g.core.rels {
      assert s.j.undo + ([was] + [DeletedRel(rel)]) == s.j.undo + [was] + [DeletedRel(rel)];
      DeletedRelIsUndone(ended.core, id);
      UndoesOne(one, after, DeletedRel(rel));
    } else {
      assert s.j.undo + ([was] + []) == s.j.undo + [was];
      assert ended.core.rels - {id} == ended.core.rels;
      NothingToUndo(one, after);
    }
    UndoesExactlyInTurn(s, one, after);
  }

  // ----- creations are taken back exactly when their id was free -----

  // The entries of a creation start with the one that takes the id away, so
  // that is what rolling them back does last.
  lemma {:induction false} FirstIsUndoneLast(from: State, to: State, first: Undo, rest: seq<Undo>)
    requires to.j.undo == from.j.undo + [first] + rest
    ensures RollBack(to.g.core, Since(from, to)) == UndoOne(RollBack(to.g.core, rest), first)
  {
    hide UndoOne;
    var c := RollBack(to.g.core, rest);
    assert Since(from, to) == [first] + rest;
    RollBackConcat(to.g.core, [first], rest);
    assert [first][..0] == [];
    assert RollBack(c, [first]) == RollBack(UndoOne(c, first), []);
  }

  lemma {:induction false} InsertingSaysCreated(s: State, labels: seq<string>, props: Props) returns (rest: seq<Undo>)
    ensures Inserting(s, labels, props).j.undo == s.j.undo + [Created(s.g.nextNode)] + rest
  {
    hide TemporalNames, Record, HistoriesOf;
    var undo := Inserting(s, labels, props).j.undo;
    rest := undo[|s.j.undo| + 1..];
  }

  lemma {:induction false} LifetimeAdds(s: State, id: u64) returns (more: seq<Undo>)
    ensures RecordLifetime(s, id).j.undo == s.j.undo + more
  {
    hide DateOf, FirstLifespan, Reversed, WithLifetime, Get;
    var undo := RecordLifetime(s, id).j.undo;
    more := undo[|s.j.undo|..];
  }

  lemma {:induction false} UsedNodeIdIsNotGivenBack(s: State, labels: seq<string>, props: Props)
    ensures s.g.nextNode !in RollBack(AfterCreateNode(s, labels, props).g.core, Since(s, AfterCreateNode(s, labels, props))).nodes
  {
    hide RollBack, Inserting, RecordLifetime, Attached;
    var id, to := s.g.nextNode, AfterCreateNode(s, labels, props);
    var rest := InsertingSaysCreated(s, labels, props);
    var more := LifetimeAdds(Inserting(s, labels, props), id);
    assert s.j.undo + [Created(id)] + rest + more == s.j.undo + [Created(id)] + (rest + more);
    FirstIsUndoneLast(s, to, Created(id), rest + more);
  }

  // At any point of any statement.
  lemma {:induction false} NodeCreationIsUndoneExactly(s: State, labels: seq<string>, props: Props)
    requires Closed(s.g.core)
    ensures Undoes(s, AfterCreateNode(s, labels, props), {}) <==> s.g.nextNode !in s.g.core.nodes
  {
    hide RollBack, AfterCreateNode;
    if s.g.nextNode !in s.g.core.nodes {
      CreateNodeUndoes(s, labels, props);
    } else {
      UsedNodeIdIsNotGivenBack(s, labels, props);
    }
  }

  lemma {:induction false} UsedRelIdIsNotGivenBack(s: State, kind: string, from: u64, to: u64, props: Props)
    ensures var after := AfterCreateRel(s, kind, from, to, props);
      s.g.nextRel !in RollBack(after.g.core, Since(s, after)).rels
  {
    hide RollBack, Get;
    var after := AfterCreateRel(s, kind, from, to, props);
    FirstIsUndoneLast(s, after, CreatedRel(s.g.nextRel), after.j.undo[|s.j.undo| + 1..]);
  }

  lemma {:induction false} RelCreationIsUndoneExactly(s: State, kind: string, from: u64, to: u64, props: Props)
    ensures Undoes(s, AfterCreateRel(s, kind, from, to, props), {}) <==> s.g.nextRel !in s.g.core.rels
  {
    hide RollBack, AfterCreateRel;
    if s.g.nextRel !in s.g.core.rels {
      CreateRelUndoes(s, kind, from, to, props);
    } else {
      UsedRelIdIsNotGivenBack(s, kind, from, to, props);
      assert s.g.core.rels - {} == s.g.core.rels;
    }
  }
}
