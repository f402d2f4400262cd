/** The journal the program updates in place, write by write, and the roll back
    that goes through its undo entries from the last to the first
    (zega/src/journal.rs), proved against the functions of `Journals`. */
module JournalObjects {
  import opened GraphStore
  import opened Graphs
  import opened HistFormat
  import opened JournalLosses
  import opened JournalRollBack
  import opened JournalStatements
  import opened Journals
  import opened Machine
  import opened ValidTime
  import opened Values
  import opened Wrappers

  class Journal {
    var ops: seq<Operation>
    var undo: seq<Undo>
    const nextIds: (u64, u64)
    var schema: TimeSchema
    var at: i64
    var historyError: Option<string>
    var writeError: Option<string>

    ghost function Now(): JournalState
      reads this
    {
      JournalState(ops, undo, nextIds, schema, at, historyError, writeError)
    }

    ghost function With(graph: Graph): State
      reads this, graph
    {
      State(graph.Now(), Now())
    }

    constructor (graph: Graph, now: i64)
      ensures Now() == NewJournal(graph.Now(), now)
    {
      ops, undo := [], [];
      nextIds := (graph.nextNode, graph.nextRel);
      schema, at := NO_SCHEMA, now;
      historyError, writeError := None, None;
    }

    method ConfigureTime(schema: TimeSchema, at: i64)
      modifies this`schema, this`at
      ensures Now() == old(Now()).(schema := schema, at := at)
    {
      this.schema, this.at := schema, at;
    }

    method SaveHistory(graph: Graph, id: u64) returns (saved: bool)
      requires graph.Valid()
      modifies this`undo, this`historyError
      ensures graph.Now() == old(graph.Now()) && saved == graph.time.Ok?
      ensures Now() ==
        if saved then Push(old(Now()), [HistoriesWere(id, HistoriesOf(graph.time.value.fields, id))], [])
        else old(Now()).(historyError := Some(graph.time.error))
    {
      match graph.time
      case Ok(t) =>
        undo := undo + [HistoriesWere(id, HistoriesOf(t.fields, id))];
        saved := true;
      case Err(e) =>
        historyError := Some(e);
        saved := false;
    }

    method RecordNodeLifetime(graph: Graph, id: u64)
      requires graph.Valid()
      modifies this`ops, this`undo, this`historyError, graph`time, graph`encoded
      ensures graph.Valid() && With(graph) == RecordLifetime(old(With(graph)), id)
    {
      hide DateOf, WithLifetime, FirstLifespan;
      if id in graph.nodes {
        match FirstLifespan(schema.lifespans, graph.nodes[id].labels)
        case None =>
        case Some(lifespan) =>
          var appears, ends := DateOf(graph.nodes[id], lifespan.appears), DateOf(graph.nodes[id], lifespan.ends);
          if Reversed(appears, ends) {
            historyError := Some(REVERSED);
            return;
          }
          match graph.time {
            case Err(e) => historyError := Some(e);
            case Ok(t) =>
              undo := undo + [LifetimeWas(id, Get(t.appears, id), Get(t.ends, id))];
              graph.SetTime(WithLifetime(t, id, appears, ends));
              ops := ops + [SetLifetime(id, appears, ends)];
          }
      }
    }

    method CreateNode(graph: Graph, labels: seq<string>, props: Props) returns (id: u64)
      requires graph.Valid()
      modifies this`ops, this`undo, this`historyError, graph
      ensures graph.Valid() && id == old(graph.nextNode)
      ensures With(graph) == AfterCreateNode(old(With(graph)), labels, props)
    {
      hide RecordLifetime, TemporalNames, Record, HistoriesOf;
      ghost var before := With(graph);
      id := graph.CreateNode(Node(labels, props));
      undo := undo + [Created(id)];
      var names := TemporalNames(schema.fields, labels, props);
      if names == [] {
        ops := ops + [InsertNode(id, labels, props)];
        assert undo == before.j.undo + [Created(id)];
      } else {
        ghost var was := undo;
        var saved := SaveHistory(graph, id);
        if saved {
          assert undo == before.j.undo + [Created(id), HistoriesWere(id, HistoriesOf(graph.time.value.fields, id))];
          graph.RecordHistory(id, at, props, names);
          ops := ops + [InsertNodeAt(id, labels, props, at, names)];
        }
      }
      assert With(graph) == Inserting(before, labels, props);
      RecordNodeLifetime(graph, id);
    }

    method UpdateNode(graph: Graph, id: u64, props: Props)
      requires graph.Valid()
      modifies this`ops, this`undo, this`historyError, this`writeError, graph
      ensures graph.Valid() && With(graph) == AfterUpdateNode(old(With(graph)), id, props)
    {
      hide RecordLifetime, TemporalNames, Record, HistoriesOf, Current, MergeNode;
      if id in graph.mirrors {
        writeError := Some(READ_ONLY);
        return;
      }
      if id !in graph.nodes {
        return;
      }
      ghost var start := With(graph);
      var before := graph.nodes[id];
      var names := TemporalNames(schema.fields, before.labels, props);
      if names == [] {
        graph.UpdateNode(id, props);
        undo := undo + [Replaced(id, before)];
        ops := ops + [Operation.UpdateNode(id, props)];
      } else {
        var saved := SaveHistory(graph, id);
        if saved {
          graph.RecordHistory(id, at, props, names);
          var current := ReadCurrent(graph.time.value.fields, id, props, names);
          graph.UpdateNode(id, current);
          undo := undo + [Replaced(id, before)];
          ops := ops + [UpdateNodeAt(id, props, at, names)];
          assert undo == start.j.undo + [HistoriesWere(id, HistoriesOf(start.g.core.time.value.fields, id)), Replaced(id, before)];
        }
      }
      assert With(graph) == Merging(start, id, props);
      RecordNodeLifetime(graph, id);
    }

    static method ReadCurrent(fields: map<FieldKey, History>, id: u64, props: Props, names: seq<string>)
      returns (current: Props)
      ensures current == Current(fields, id, props, names)
    {
      hide Newest;
      current := props;
      var i := 0;
      while i < |names|
        invariant 0 <= i <= |names|
        invariant Current(fields, id, current, names[i..]) == Current(fields, id, props, names)
      {
        assert names[i..][1..] == names[i + 1..];
        if (id, names[i]) in fields {
          current := current[names[i] := Newest(fields[(id, names[i])])];
        }
        i := i + 1;
      }
    }

    method CreateRelationship(graph: Graph, kind: string, from: u64, to: u64, props: Props) returns (id: u64)
      requires graph.Valid()
      modifies this`ops, this`undo, this`historyError, graph
      ensures graph.Valid() && id == old(graph.nextRel)
      ensures With(graph) == AfterCreateRel(old(With(graph)), kind, from, to, props)
    {
      hide Get;
      ghost var before := With(graph);
      id := graph.CreateRelationship(kind, from, to, props);
      undo := undo + [CreatedRel(id)];
      var rel := Relationship(id, kind, from, to, props);
      if kind in schema.rels {
        match graph.time
        case Ok(t) =>
          undo := undo + [IntervalWas(id, Get(t.intervals, id))];
          assert undo == before.j.undo + [CreatedRel(id), IntervalWas(id, Get(t.intervals, id))];
          graph.SetTime(t.(intervals := t.intervals[id := RelHistory(rel, at, None)]));
          ops := ops + [InsertRelAt(rel, at)];
        case Err(e) =>
          historyError := Some(e);
      } else {
        ops := ops + [InsertRel(rel)];
      }
    }

    method DeleteRelationship(graph: Graph, id: u64)
      requires graph.Valid()
      modifies this`ops, this`undo, this`historyError, this`writeError, graph`rels, graph`adjacency, graph`time, graph`encoded
      ensures graph.Valid() && With(graph) == AfterDeleteRel(old(With(graph)), id)
    {
      hide Deleting;
      if exists m <- graph.mirrors :: id in graph.mirrors[m] {
        writeError := Some(READ_ONLY);
        return;
      }
      var data := graph.encoded || (graph.time.Ok? && !graph.time.value.IsEmpty());
      if data && graph.time.Err? {
        historyError := Some(graph.time.error);
        return;
      }
      if id in graph.rels {
        DeleteKnown(graph, id, graph.rels[id]);
      } else if graph.time.Ok? && id in graph.time.value.intervals {
        DeleteKnown(graph, id, graph.time.value.intervals[id].rel);
      }
    }

    method DeleteKnown(graph: Graph, id: u64, before: Relationship)
      requires graph.Valid()
      modifies this`ops, this`undo, this`historyError, graph`rels, graph`adjacency, graph`time, graph`encoded
      ensures graph.Valid() && With(graph) == Deleting(old(With(graph)), id, before)
    {
      hide Ended, Get;
      var live := id in graph.rels;
      if before.kind in schema.rels || (graph.time.Ok? && id in graph.time.value.intervals) {
        match graph.time
        case Err(e) =>
          historyError := Some(e);
          return;
        case Ok(t) =>
          if id in t.intervals && at < t.intervals[id].from {
            graph.SetTime(t);
            historyError := Some(REVERSED);
            return;
          }
          undo := undo + [IntervalWas(id, Get(t.intervals, id))];
          graph.SetTime(t.(intervals := t.intervals[id := Ended(t, before, at)]));
          ops := ops + [EndRelAt(before, at)];
      } else {
        ops := ops + [Operation.DeleteRel(id)];
      }
      graph.DeleteRelationship(id);
      if live {
        undo := undo + [DeletedRel(before)];
      }
    }

    method DeleteNode(graph: Graph, id: u64)
      requires graph.Valid()
      modifies this`ops, this`undo, this`historyError, this`writeError, graph
      ensures graph.Valid() && With(graph) == AfterDeleteNode(old(With(graph)), id)
    {
      hide DeleteRels, SortedIds, Attached, DropNode, ForgetNode;
      ghost var start := With(graph);
      if id in graph.mirrors {
        writeError := Some(READ_ONLY);
        return;
      }
      if id !in graph.nodes {
        return;
      }
      var before := graph.nodes[id];
      var rels := graph.NodeRelationshipIds(id);
      DeleteAll(graph, rels);
      ghost var detached := With(graph);
      DeleteRelsKeepsNodes(start, rels);
      if graph.encoded || (graph.time.Ok? && !graph.time.value.IsEmpty()) {
        if graph.time.Err? {
          historyError := Some(graph.time.error);
          return;
        }
        Forget(graph, id);
      }
      graph.DeleteNode(id);
      undo := undo + [Replaced(id, before)];
      ops := ops + [Operation.DeleteNode(id)];
    }

    method DeleteAll(graph: Graph, ids: seq<u64>)
      requires graph.Valid()
      modifies this`ops, this`undo, this`historyError, this`writeError, graph`rels, graph`adjacency, graph`time, graph`encoded
      ensures graph.Valid() && With(graph) == DeleteRels(old(With(graph)), ids)
    {
      hide AfterDeleteRel;
      var i := 0;
      while i < |ids|
        invariant 0 <= i <= |ids| && graph.Valid()
        invariant DeleteRels(With(graph), ids[i..]) == DeleteRels(old(With(graph)), ids)
      {
        assert ids[i..][1..] == ids[i + 1..];
        DeleteRelationship(graph, ids[i]);
        i := i + 1;
      }
    }

    method Forget(graph: Graph, id: u64)
      requires graph.Valid() && graph.time.Ok?
      modifies this`undo, this`historyError, graph`time, graph`encoded
      ensures graph.Valid() && With(graph) == ForgetNode(old(With(graph)), id, old(graph.time).value)
    {
      hide HistoriesOf, WithoutNode, SortedIds, Incident, Get;
      ghost var start := With(graph);
      var t := graph.time.value;
      var saved := SaveHistory(graph, id);
      undo := undo + [LifetimeWas(id, Get(t.appears, id), Get(t.ends, id))];
      var incident := SortedIds(Incident(t, id));
      ghost var kept := undo;
      var i := 0;
      while i < |incident|
        invariant 0 <= i <= |incident|
        invariant undo == kept + IntervalsWere(t, incident[..i])
        invariant graph.Now() == start.g && graph.Valid()
        invariant Now() == start.j.(undo := undo)
      {
        assert IntervalsWere(t, incident[..i + 1]) ==
          IntervalsWere(t, incident[..i]) + [IntervalWas(incident[i], Get(t.intervals, incident[i]))];
        undo := undo + [IntervalWas(incident[i], Get(t.intervals, incident[i]))];
        i := i + 1;
      }
      assert incident[..i] == incident;
      graph.SetTime(WithoutNode(t, id));
      assert undo == start.j.undo
        + ([HistoriesWere(id, HistoriesOf(t.fields, id)), LifetimeWas(id, Get(t.appears, id), Get(t.ends, id))]
           + IntervalsWere(t, incident));
    }

    static lemma {:induction false} DeleteRelsKeepsNodes(s: State, ids: seq<u64>)
      ensures DeleteRels(s, ids).g.core.nodes == s.g.core.nodes
      decreases |ids|
    {
      if ids != [] {
        DeleteRelKeepsNodes(s, ids[0]);
        DeleteRelsKeepsNodes(AfterDeleteRel(s, ids[0]), ids[1..]);
      }
    }

    static lemma {:induction false} DeleteRelKeepsNodes(s: State, id: u64)
      ensures AfterDeleteRel(s, id).g.core.nodes == s.g.core.nodes
    {
      hide Ended, Get;
    }

    method Do(graph: Graph, call: Call)
      requires graph.Valid()
      modifies this, graph
      ensures graph.Valid() && With(graph) == Step(old(With(graph)), call)
    {
      hide AfterCreateNode, AfterUpdateNode, AfterDeleteNode, AfterCreateRel, AfterDeleteRel;
      match call
      case Configure(schema, at) => ConfigureTime(schema, at);
      case CallCreateNode(labels, props) => var _ := CreateNode(graph, labels, props);
      case CallUpdateNode(id, props) => UpdateNode(graph, id, props);
      case CallDeleteNode(id) => DeleteNode(graph, id);
      case CallCreateRel(kind, from, to, props) => var _ := CreateRelationship(graph, kind, from, to, props);
      case CallDeleteRel(id) => DeleteRelationship(graph, id);
    }
  }

  // ----- rolling back -----

  method UndoChange(graph: Graph, u: Undo)
    requires graph.Valid() && (TouchesTime(u) ==> graph.time.Ok?)
    modifies graph
    ensures graph.Valid() && graph.mirrors == old(graph.mirrors)
    ensures graph.Now().core == UndoOne(old(graph.Now()).core, u)
    ensures graph.encoded == (old(graph.encoded) && !TouchesTime(u))
  {
    hide DropNode, WithHistories, WithLifetime, Set;
    match u
    case IntervalWas(id, interval) =>
      var t := graph.time.value;
      graph.SetTime(t.(intervals := Set(t.intervals, id, interval)));
    case LifetimeWas(node, appears, ends) =>
      graph.SetTime(WithLifetime(graph.time.value, node, appears, ends));
    case HistoriesWere(node, histories) =>
      var t := graph.time.value;
      graph.SetTime(t.(fields := WithHistories(t.fields, node, histories)));
    case Created(node) => graph.DeleteNode(node);
    case Replaced(node, was) => graph.RestoreNode(node, was);
    case CreatedRel(id) => graph.DeleteRelationship(id);
    case DeletedRel(rel) => graph.RestoreRelationship(rel);
  }

  lemma {:induction false} UndoOneKeepsTimeDecoded(c: Core, u: Undo)
    requires c.time.Ok?
    ensures UndoOne(c, u).time.Ok?
  {
  }

  method RollBackAll(graph: Graph, undo: seq<Undo>, nextIds: (u64, u64))
    requires graph.Valid() && (graph.time.Err? ==> forall u <- undo :: !TouchesTime(u))
    modifies graph
    ensures graph.Valid()
    ensures graph.Now() == old(graph.Now()).(
        core := RollBack(old(graph.Now()).core, undo), nextNode := nextIds.0, nextRel := nextIds.1,
        encoded := old(graph.encoded) && forall u <- undo :: !TouchesTime(u))
  {
    hide UndoOne;
    assert undo[..|undo|] == undo;
    var i := |undo|;
    while i > 0
      invariant 0 <= i <= |undo| && graph.Valid() && graph.mirrors == old(graph.mirrors)
      invariant RollBack(graph.Now().core, undo[..i]) == RollBack(old(graph.Now()).core, undo)
      invariant graph.time.Err? ==> forall u <- undo[..i] :: !TouchesTime(u)
      invariant graph.encoded == (old(graph.encoded) && forall u <- undo[i..] :: !TouchesTime(u))
    {
      i := i - 1;
      assert undo[..i + 1][..i] == undo[..i] && undo[..i + 1][i] == undo[i];
      assert undo[i..] == [undo[i]] + undo[i + 1..];
      if graph.time.Ok? {
        UndoOneKeepsTimeDecoded(graph.Now().core, undo[i]);
      }
      UndoChange(graph, undo[i]);
    }
    graph.ResetNextIds(nextIds);
  }

  // ----- one statement -----

  method RunAtomically(graph: Graph, st: Statement) returns (entry: Option<seq<Operation>>, done: bool)
    requires graph.Valid() && SoundGraph(graph.Now())
    modifies graph
    ensures graph.Valid()
    ensures Outcome(graph.Now(), entry, done) == Atomically(old(graph.Now()), st)
  {
    hide Step, RollBack, Closed, Removed;
    var journal := new Journal(graph, st.now);
    ghost var start := journal.With(graph);
    var i := 0;
    while i < |st.calls|
      invariant 0 <= i <= |st.calls| && graph.Valid()
      invariant Run(journal.With(graph), st.calls[i..]) == Run(start, st.calls)
    {
      assert st.calls[i..][1..] == st.calls[i + 1..];
      journal.Do(graph, st.calls[i]);
      i := i + 1;
    }
    RunStays(start, st.calls);
    BrokenFromTheStart(start.g, st.now);
    entry, done := None, false;
    if journal.writeError.None? && journal.historyError.None? && !st.fails {
      var view := GraphState(Core(graph.nodes, graph.rels, graph.time), graph.nextNode, graph.nextRel, graph.encoded, graph.mirrors);
      var record := st.recorder(view, journal.ops, Removed(journal.undo));
      if record.Ok? {
        var ops := journal.ops + if record.value.Some? then [Linked(record.value.value)] else [];
        if ops == [] {
          return None, true;
        }
        if st.accepted {
          return Some(ops), true;
        }
      }
    }
    RollBackAll(graph, journal.undo, journal.nextIds);
  }
}
