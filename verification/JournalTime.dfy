/** What statements keep of the valid-time records, at whatever times they
    write: histories in order, intervals and lifetimes that do not end before
    they start, and live values that are the newest ones recorded. */
module JournalTime {
  import opened Graphs
  import opened HistFormat
  import opened JournalLosses
  import opened JournalRollBack
  import opened Journals
  import opened Machine
  import opened ValidTime
  import opened Values
  import opened Wrappers

  // ----- order, which decoding demands -----

  predicate AllWellFormed(fields: map<FieldKey, History>) {
    forall k | k in fields :: WellFormed(fields[k])
  }

  predicate Orderly(t: Timeline) {
    && AllWellFormed(t.fields)
    && (forall r <- t.intervals :: t.intervals[r].rel.id == r && InOrder(t.intervals[r]))
    && (forall n <- t.appears :: n in t.ends ==> t.appears[n] <= t.ends[n])
  }

  predicate OrderlyGraph(g: GraphState) {
    g.core.time.Ok? ==> Orderly(g.core.time.value)
  }

  lemma {:induction false} RecordKeepsWellFormed(
      fields: map<FieldKey, History>, id: u64, at: i64, props: Props, names: seq<string>)
    requires AllWellFormed(fields)
    ensures AllWellFormed(Record(fields, id, at, props, names))
    decreases |names|
  {
    hide WellFormed, Inserted, NewHistory;
    if names != [] {
      var f := names[0];
      if f in props {
        NewIsWellFormed(at, props[f]);
        if (id, f) in fields {
          InsertKeepsWellFormed(fields[(id, f)], at, props[f]);
        }
      }
      var next := if f in props then RecordOne(fields, id, at, f, props[f]) else fields;
      RecordKeepsWellFormed(next, id, at, props, names[1..]);
    }
  }

  lemma {:induction false} LifetimeKeepsOrder(s: State, id: u64)
    requires OrderlyGraph(s.g)
    ensures OrderlyGraph(RecordLifetime(s, id).g)
  {
    hide AllWellFormed, InOrder, DateOf, FirstLifespan;
  }

  lemma {:induction false} CreateNodeKeepsOrder(s: State, labels: seq<string>, props: Props)
    requires OrderlyGraph(s.g)
    ensures OrderlyGraph(AfterCreateNode(s, labels, props).g)
  {
    hide AllWellFormed, InOrder, RecordLifetime, TemporalNames, Record, HistoriesOf;
    if s.g.core.time.Ok? {
      RecordKeepsWellFormed(s.g.core.time.value.fields, s.g.nextNode, s.j.at, props,
                            TemporalNames(s.j.schema.fields, labels, props));
    }
    LifetimeKeepsOrder(Inserting(s, labels, props), s.g.nextNode);
  }

  lemma {:induction false} UpdateNodeKeepsOrder(s: State, id: u64, props: Props)
    requires OrderlyGraph(s.g)
    ensures OrderlyGraph(AfterUpdateNode(s, id, props).g)
  {
    hide AllWellFormed, InOrder, RecordLifetime, TemporalNames, Record, Current, HistoriesOf;
    if id in s.g.core.nodes {
      if s.g.core.time.Ok? {
        RecordKeepsWellFormed(s.g.core.time.value.fields, id, s.j.at, props,
                              TemporalNames(s.j.schema.fields, s.g.core.nodes[id].labels, props));
      }
      LifetimeKeepsOrder(Merging(s, id, props), id);
    }
  }

  lemma {:induction false} DeleteRelKeepsOrder(s: State, id: u64)
    requires Sound(s) && OrderlyGraph(s.g)
    ensures OrderlyGraph(AfterDeleteRel(s, id).g)
  {
    hide Get, AllWellFormed;
  }

  lemma {:induction false} DeleteRelsKeepOrder(s: State, ids: seq<u64>)
    requires Sound(s) && OrderlyGraph(s.g)
    ensures OrderlyGraph(DeleteRels(s, ids).g)
    decreases |ids|
  {
    hide AfterDeleteRel, OrderlyGraph;
    if ids != [] {
      DeleteRelEffect(s, ids[0]);
      DeleteRelKeepsOrder(s, ids[0]);
      DeleteRelsKeepOrder(AfterDeleteRel(s, ids[0]), ids[1..]);
    }
  }

  lemma {:induction false} DeleteNodeKeepsOrder(s: State, id: u64)
    requires Sound(s) && OrderlyGraph(s.g)
    ensures OrderlyGraph(AfterDeleteNode(s, id).g)
  {
    hide DeleteRels, SortedIds, IntervalsWere, Incident, HistoriesOf, Get, WellFormed, InOrder, Closed;
    DeleteRelsKeepOrder(s, SortedIds(Attached(s.g.core.rels, id)));
  }

  lemma {:induction false} StepKeepsOrder(s: State, call: Call)
    requires Sound(s) && OrderlyGraph(s.g)
    ensures OrderlyGraph(Step(s, call).g)
  {
    hide AfterCreateNode, AfterUpdateNode, AfterDeleteNode, AfterDeleteRel, WellFormed;
    match call
    case Configure(_, _) =>
    case CallCreateNode(labels, props) => CreateNodeKeepsOrder(s, labels, props);
    case CallUpdateNode(id, props) => UpdateNodeKeepsOrder(s, id, props);
    case CallDeleteNode(id) => DeleteNodeKeepsOrder(s, id);
    case CallCreateRel(_, _, _, _) =>
    case CallDeleteRel(id) => DeleteRelKeepsOrder(s, id);
  }

  // ----- live values -----

  predicate IsTemporal(fields: seq<TemporalField>, labels: seq<string>, f: string) {
    exists tf <- fields :: tf.ty in labels && tf.field == f
  }

  // Under one schema, a field with a history is temporal, and what is live is
  // what the history has last.
  predicate LiveIsNewest(g: GraphState, fields: seq<TemporalField>) {
    g.core.time.Ok? ==> forall k | k in g.core.time.value.fields :: NewestIsLive(g.core, fields, k)
  }

  predicate NewestIsLive(c: Core, fields: seq<TemporalField>, k: FieldKey)
    requires c.time.Ok? && k in c.time.value.fields
  {
    && k.0 in c.nodes
    && IsTemporal(fields, c.nodes[k.0].labels, k.1)
    && Get(c.nodes[k.0].props, k.1) == Some(Newest(c.time.value.fields[k]))
  }

  // The schema is `fields` whenever a node is written.
  predicate Under(s: State, call: Call, fields: seq<TemporalField>) {
    (call.CallCreateNode? || call.CallUpdateNode? ==> s.j.schema.fields == fields)
  }

  lemma {:induction false} TemporalNamesAre(fields: seq<TemporalField>, labels: seq<string>, props: Props)
    ensures forall f :: f in TemporalNames(fields, labels, props) <==> f in props && IsTemporal(fields, labels, f)
    decreases |fields|
  {
    if fields != [] {
      TemporalNamesAre(fields[1..], labels, props);
      assert fields == [fields[0]] + fields[1..];
      forall f
        ensures IsTemporal(fields, labels, f) <==>
          (fields[0].ty in labels && fields[0].field == f) || IsTemporal(fields[1..], labels, f)
      {
      }
    }
  }

  lemma {:induction false} RecordHolds(
      fields: map<FieldKey, History>, id: u64, at: i64, props: Props, names: seq<string>)
    requires forall f <- names :: f in props
    ensures var after := Record(fields, id, at, props, names);
      && (forall f <- names :: (id, f) in after)
      && (forall k <- after :: k in fields || (k.0 == id && k.1 in names))
      && (forall k <- fields :: k in after && (k.0 != id || k.1 !in names ==> after[k] == fields[k]))
    decreases |names|
  {
    hide Inserted, NewHistory;
    if names != [] {
      var f := names[0];
      RecordHolds(RecordOne(fields, id, at, f, props[f]), id, at, props, names[1..]);
      assert names == [f] + names[1..];
    }
  }

  lemma {:induction false} SameInsertion(at: i64, v: Value)
    ensures Inserted(NewHistory(at, v), at, v) == NewHistory(at, v)
    ensures Newest(NewHistory(at, v)) == v
  {
    var changes := [Change(at, v)];
    assert changes[..0] == [];
    assert Below(changes, at) == 0;
    assert InsertChange(changes, at, v) == changes;
    NewIsWellFormed(at, v);
  }

  // A new node's histories hold the values it was created with.
  lemma {:induction false} RecordOfNew(
      fields: map<FieldKey, History>, id: u64, at: i64, props: Props, names: seq<string>)
    requires forall f <- names :: f in props
    requires forall k <- fields :: k.0 == id ==> k.1 in props && fields[k] == NewHistory(at, props[k.1])
    ensures var after := Record(fields, id, at, props, names);
      forall k <- after :: k.0 == id ==> k.1 in props && after[k] == NewHistory(at, props[k.1])
    decreases |names|
  {
    hide Inserted, NewHistory;
    if names != [] {
      var f := names[0];
      SameInsertion(at, props[f]);
      RecordOfNew(RecordOne(fields, id, at, f, props[f]), id, at, props, names[1..]);
    }
  }

  lemma {:induction false} CurrentIsNewest(
      fields: map<FieldKey, History>, id: u64, props: Props, names: seq<string>)
    ensures var after := Current(fields, id, props, names);
      && (forall f <- names :: (id, f) in fields ==> Get(after, f) == Some(Newest(fields[(id, f)])))
      && (forall f :: f !in names ==> Get(after, f) == Get(props, f))
    decreases |names|
  {
    hide Newest;
    if names != [] {
      var f := names[0];
      var next := if (id, f) in fields then props[f := Newest(fields[(id, f)])] else props;
      CurrentIsNewest(fields, id, next, names[1..]);
      assert names == [f] + names[1..];
    }
  }

  lemma {:induction false} LifetimeKeepsLive(s: State, id: u64, fields: seq<TemporalField>)
    requires LiveIsNewest(s.g, fields)
    ensures LiveIsNewest(RecordLifetime(s, id).g, fields)
  {
    hide IsTemporal, Newest, DateOf, FirstLifespan, Reversed;
  }

  // What creating and updating a node leave of the graph, histories and all.
  lemma {:induction false} InsertedCore(s: State, labels: seq<string>, props: Props)
    requires s.g.core.time.Ok?
    ensures var c, t, id := s.g.core, s.g.core.time.value, s.g.nextNode;
      var names := TemporalNames(s.j.schema.fields, labels, props);
      Inserting(s, labels, props).g.core ==
      Core(c.nodes[id := Node(labels, props)], c.rels, Ok(t.(fields := Record(t.fields, id, s.j.at, props, names))))
  {
    hide TemporalNames, RecordOne, HistoriesOf;
  }

  lemma {:induction false} MergedCore(s: State, id: u64, props: Props)
    requires s.g.core.time.Ok? && id in s.g.core.nodes
    ensures var c, t, node := s.g.core, s.g.core.time.value, s.g.core.nodes[id];
      var names := TemporalNames(s.j.schema.fields, node.labels, props);
      var fields := Record(t.fields, id, s.j.at, props, names);
      Merging(s, id, props).g.core ==
      Core(c.nodes[id := node.(props := node.props + Current(fields, id, props, names))], c.rels, Ok(t.(fields := fields)))
  {
    hide TemporalNames, RecordOne, HistoriesOf, Newest;
  }

  lemma {:induction false} InsertingKeepsLive(s: State, labels: seq<string>, props: Props)
    requires s.g.nextNode !in s.g.core.nodes && LiveIsNewest(s.g, s.j.schema.fields)
    ensures LiveIsNewest(Inserting(s, labels, props).g, s.j.schema.fields)
  {
    hide Inserting, NewestIsLive;
    InsertingKeepsDecoded(s, labels, props);
    if s.g.core.time.Ok? {
      forall k | k in Inserting(s, labels, props).g.core.time.value.fields
        ensures NewestIsLive(Inserting(s, labels, props).g.core, s.j.schema.fields, k)
      {
        InsertedIsLive(s, labels, props, k);
      }
    }
  }

  lemma {:induction false} InsertingKeepsDecoded(s: State, labels: seq<string>, props: Props)
    ensures Inserting(s, labels, props).g.core.time.Ok? <==> s.g.core.time.Ok?
  {
    hide Record, TemporalNames, HistoriesOf;
  }

  lemma {:induction false} InsertedIsLive(s: State, labels: seq<string>, props: Props, k: FieldKey)
    requires s.g.nextNode !in s.g.core.nodes && LiveIsNewest(s.g, s.j.schema.fields) && s.g.core.time.Ok?
    requires var time := Inserting(s, labels, props).g.core.time; time.Ok? && k in time.value.fields
    ensures NewestIsLive(Inserting(s, labels, props).g.core, s.j.schema.fields, k)
  {
    hide Inserting, IsTemporal, Record, TemporalNames, Closed, Newest, NewHistory;
    var id, names := s.g.nextNode, TemporalNames(s.j.schema.fields, labels, props);
    var before := s.g.core.time.value.fields;
    InsertedCore(s, labels, props);
    TemporalNamesAre(s.j.schema.fields, labels, props);
    assert forall q <- before :: NewestIsLive(s.g.core, s.j.schema.fields, q) && q.0 != id;
    RecordHolds(before, id, s.j.at, props, names);
    RecordOfNew(before, id, s.j.at, props, names);
    if k.0 == id {
      SameInsertion(s.j.at, props[k.1]);
    }
  }

  lemma {:induction false} MergedIsLive(s: State, id: u64, props: Props, k: FieldKey)
    requires LiveIsNewest(s.g, s.j.schema.fields) && id in s.g.core.nodes && s.g.core.time.Ok?
    requires var time := Merging(s, id, props).g.core.time; time.Ok? && k in time.value.fields
    ensures NewestIsLive(Merging(s, id, props).g.core, s.j.schema.fields, k)
  {
    hide Merging, IsTemporal, Record, TemporalNames, Newest, Current;
    var before, labels := s.g.core.time.value.fields, s.g.core.nodes[id].labels;
    var names := TemporalNames(s.j.schema.fields, labels, props);
    MergedCore(s, id, props);
    TemporalNamesAre(s.j.schema.fields, labels, props);
    RecordHolds(before, id, s.j.at, props, names);
    CurrentIsNewest(Record(before, id, s.j.at, props, names), id, props, names);
    if k.0 != id || k.1 !in names {
      assert k in before && NewestIsLive(s.g.core, s.j.schema.fields, k);
    }
  }

  lemma {:induction false} MergingKeepsLive(s: State, id: u64, props: Props)
    requires LiveIsNewest(s.g, s.j.schema.fields) && id in s.g.core.nodes
    ensures LiveIsNewest(Merging(s, id, props).g, s.j.schema.fields)
  {
    hide Merging, NewestIsLive;
    MergingKeepsDecoded(s, id, props);
    if s.g.core.time.Ok? {
      forall k | k in Merging(s, id, props).g.core.time.value.fields
        ensures NewestIsLive(Merging(s, id, props).g.core, s.j.schema.fields, k)
      {
        MergedIsLive(s, id, props, k);
      }
    }
  }

  lemma {:induction false} MergingKeepsDecoded(s: State, id: u64, props: Props)
    requires id in s.g.core.nodes
    ensures Merging(s, id, props).g.core.time.Ok? <==> s.g.core.time.Ok?
  {
    hide Record, TemporalNames, HistoriesOf, Current;
  }

  lemma {:induction false} DeleteRelKeepsLive(s: State, id: u64, fields: seq<TemporalField>)
    requires LiveIsNewest(s.g, fields)
    ensures LiveIsNewest(AfterDeleteRel(s, id).g, fields)
  {
    hide IsTemporal, Newest, Ended, Get;
  }

  lemma {:induction false} DeleteRelsKeepLive(s: State, ids: seq<u64>, fields: seq<TemporalField>)
    requires LiveIsNewest(s.g, fields)
    ensures LiveIsNewest(DeleteRels(s, ids).g, fields)
    decreases |ids|
  {
    hide AfterDeleteRel, LiveIsNewest;
    if ids != [] {
      DeleteRelKeepsLive(s, ids[0], fields);
      DeleteRelsKeepLive(AfterDeleteRel(s, ids[0]), ids[1..], fields);
    }
  }

  lemma {:induction false} DropKeepsLive(g: GraphState, id: u64, fields: seq<TemporalField>)
    requires LiveIsNewest(g, fields)
    requires g.core.time.Ok? ==> forall k <- g.core.time.value.fields :: k.0 != id
    ensures LiveIsNewest(g.(core := DropNode(g.core, id)), fields)
  {
    hide IsTemporal, Newest, Get;
  }

  lemma {:induction false} DeleteNodeKeepsLive(s: State, id: u64, fields: seq<TemporalField>)
    requires LiveIsNewest(s.g, fields)
    ensures LiveIsNewest(AfterDeleteNode(s, id).g, fields)
  {
    hide DeleteRels, SortedIds, IntervalsWere, Incident, HistoriesOf, DropNode, IsTemporal, Newest, Get;
    var detached := DeleteRels(s, SortedIds(Attached(s.g.core.rels, id)));
    DeleteRelsKeepLive(s, SortedIds(Attached(s.g.core.rels, id)), fields);
    if detached.g.HasData() && detached.g.core.time.Ok? {
      DropKeepsLive(WithTime(detached.g, WithoutNode(detached.g.core.time.value, id)), id, fields);
    } else if !detached.g.HasData() {
      DropKeepsLive(detached.g, id, fields);
    }
  }

  lemma {:induction false} CreateRelKeepsLive(
      s: State, kind: string, from: u64, to: u64, props: Props, fields: seq<TemporalField>)
    requires LiveIsNewest(s.g, fields)
    ensures LiveIsNewest(AfterCreateRel(s, kind, from, to, props).g, fields)
  {
    hide IsTemporal, Newest, Get;
  }

  lemma {:induction false} StepKeepsLive(s: State, call: Call, fields: seq<TemporalField>)
    requires Sound(s) && Permitted(s, call) && LiveIsNewest(s.g, fields) && Under(s, call, fields)
    ensures LiveIsNewest(Step(s, call).g, fields)
  {
    hide Inserting, Merging, RecordLifetime, AfterDeleteNode, AfterCreateRel, AfterDeleteRel, LiveIsNewest;
    match call
    case Configure(_, _) => SameGraphIsLive(s.g, Step(s, call).g, fields);
    case CallCreateNode(labels, props) =>
      InsertingKeepsLive(s, labels, props);
      LifetimeKeepsLive(Inserting(s, labels, props), s.g.nextNode, fields);
    case CallUpdateNode(id, props) =>
      if id in s.g.core.nodes {
        MergingKeepsLive(s, id, props);
        LifetimeKeepsLive(Merging(s, id, props), id, fields);
      }
    case CallDeleteNode(id) => DeleteNodeKeepsLive(s, id, fields);
    case CallCreateRel(kind, from, to, props) => CreateRelKeepsLive(s, kind, from, to, props, fields);
    case CallDeleteRel(id) => DeleteRelKeepsLive(s, id, fields);
  }

  lemma {:induction false} SameGraphIsLive(g: GraphState, h: GraphState, fields: seq<TemporalField>)
    requires g == h && LiveIsNewest(g, fields)
    ensures LiveIsNewest(h, fields)
  {
  }

  // ----- reading as of a time -----

  // `AsOf::prop`: the history if the field has one, the live value otherwise.
  function AsOf(g: GraphState, id: u64, f: string, at: i64): Option<Value> {
    if g.core.time.Ok? && (id, f) in g.core.time.value.fields then At(g.core.time.value.fields[(id, f)].changes, at)
    else if id in g.core.nodes then Get(g.core.nodes[id].props, f)
    else None
  }

  lemma {:induction false} NewestIsSeenLast(h: History, t: i64)
    requires WellFormed(h) && h.last <= t
    ensures At(h.changes, t) == Some(Newest(h))
  {
    var n := |h.changes|;
    BelowAt(h.changes, t + 1, n - 1);
  }

  // From its last change on, a field read as of a time is what is live.
  lemma {:induction false} AsOfTheLastChangeIsLive(
      g: GraphState, fields: seq<TemporalField>, id: u64, f: string, at: i64)
    requires OrderlyGraph(g) && LiveIsNewest(g, fields) && id in g.core.nodes
    requires g.core.time.Ok? && (id, f) in g.core.time.value.fields ==> g.core.time.value.fields[(id, f)].last <= at
    ensures AsOf(g, id, f, at) == Get(g.core.nodes[id].props, f)
  {
    hide WellFormed, IsTemporal, Newest;
    if g.core.time.Ok? && (id, f) in g.core.time.value.fields {
      NewestIsSeenLast(g.core.time.value.fields[(id, f)], at);
    }
  }
}
