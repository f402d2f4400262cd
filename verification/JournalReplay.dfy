/** What a statement logs, and what replaying the log gives: the graph that is
    in memory (`apply_op_to_memory` in zega/src/lib.rs, `atomically` in
    zega/src/journal.rs). */
module JournalReplay {
  import opened Graphs
  import opened HistFormat
  import opened JournalLosses
  import opened JournalRollBack
  import opened JournalTime
  import opened Journals
  import opened Machine
  import opened ValidTime
  import opened Values
  import opened Wrappers

  // ----- replay -----

  function ReplayOne(g: GraphState, op: Operation): Result<GraphState, string> {
    match op
    case InsertNode(id, labels, props) => Ok(RestoreNode(g, id, Node(labels, props)))
    case InsertNodeAt(id, labels, props, at, names) =>
      var restored := RestoreNode(g, id, Node(labels, props));
      var t :- g.core.time;
      Ok(WithTime(restored, t.(fields := Record(t.fields, id, at, props, names))))
    case UpdateNode(id, props) => Ok(g.(core := MergeNode(g.core, id, props)))
    case UpdateNodeAt(id, props, at, names) =>
      if id !in g.core.nodes then Ok(g)
      else
        var t :- g.core.time;
        var fields := Record(t.fields, id, at, props, names);
        var recorded := WithTime(g, t.(fields := fields));
        Ok(recorded.(core := MergeNode(recorded.core, id, Current(fields, id, props, names))))
    case DeleteNode(id) =>
      if g.HasData() then
        var t :- g.core.time;
        var forgotten := WithTime(g, WithoutNode(t, id));
        Ok(forgotten.(core := DropNode(forgotten.core, id)))
      else Ok(g.(core := DropNode(g.core, id)))
    case InsertRel(rel) => Ok(RestoreRel(g, rel))
    case InsertRelAt(rel, at) =>
      var t :- g.core.time;
      Ok(WithTime(RestoreRel(g, rel), t.(intervals := t.intervals[rel.id := RelHistory(rel, at, None)])))
    case DeleteRel(id) => Ok(g.(core := DropRel(g.core, id)))
    case EndRelAt(rel, at) =>
      var t :- g.core.time;
      var ended := WithTime(g, WithEnd(t, rel, at));
      Ok(ended.(core := DropRel(ended.core, rel.id)))
    case SetLifetime(id, appears, ends) =>
      var t :- g.core.time;
      Ok(WithTime(g, WithLifetime(t, id, appears, ends)))
    case Linked(_) => Ok(g)
  }

  function ReplayAll(g: GraphState, ops: seq<Operation>): Result<GraphState, string>
    decreases |ops|
  {
    if ops == [] then Ok(g)
    else
      var next :- ReplayOne(g, ops[0]);
      ReplayAll(next, ops[1..])
  }

  lemma {:induction false} ReplayConcat(g: GraphState, a: seq<Operation>, b: seq<Operation>)
    requires ReplayAll(g, a).Ok?
    ensures ReplayAll(g, a + b) == ReplayAll(ReplayAll(g, a).value, b)
    decreases |a|
  {
    hide ReplayOne;
    if a == [] {
      assert a + b == b;
    } else {
      assert (a + b)[1..] == a[1..] + b;
      ReplayConcat(ReplayOne(g, a[0]).value, a[1..], b);
    }
  }

  // Equal but for the form the histories are held in.
  predicate Same(a: GraphState, b: GraphState) {
    && a.core == b.core && a.NextIds() == b.NextIds() && a.mirrors == b.mirrors
    && (a.core.time.Err? ==> a.encoded && b.encoded)
  }

  lemma {:induction false} NothingToForget(t: Timeline, id: u64)
    requires t.IsEmpty()
    ensures WithoutNode(t, id) == t
  {
  }

  lemma {:induction false} SameReplayOne(a: GraphState, b: GraphState, op: Operation)
    requires Same(a, b)
    ensures ReplayOne(a, op).Ok? <==> ReplayOne(b, op).Ok?
    ensures ReplayOne(a, op).Ok? ==> Same(ReplayOne(a, op).value, ReplayOne(b, op).value)
  {
    hide Record, Current, Attached, WithoutNode, WithLifetime, WithEnd;
    if op.DeleteNode? && a.core.time.Ok? && a.core.time.value.IsEmpty() {
      NothingToForget(a.core.time.value, op.node);
    }
  }

  lemma {:induction false} SameReplayAll(a: GraphState, b: GraphState, ops: seq<Operation>)
    requires Same(a, b)
    ensures ReplayAll(a, ops).Ok? <==> ReplayAll(b, ops).Ok?
    ensures ReplayAll(a, ops).Ok? ==> Same(ReplayAll(a, ops).value, ReplayAll(b, ops).value)
    decreases |ops|
  {
    hide ReplayOne, Same;
    if ops != [] {
      SameReplayOne(a, b, ops[0]);
      if ReplayOne(a, ops[0]).Ok? && ReplayOne(b, ops[0]).Ok? {
        SameReplayAll(ReplayOne(a, ops[0]).value, ReplayOne(b, ops[0]).value, ops[1..]);
      }
    }
  }

  // ----- what one write logs -----

  // Replaying what was logged between two states leads from the one to the other.
  predicate Logs(from: State, to: State) {
    var n := |from.j.ops|;
    && n <= |to.j.ops| && to.j.ops[..n] == from.j.ops
    && var r := ReplayAll(from.g, to.j.ops[n..]);
       r.Ok? && Same(r.value, to.g)
  }

  lemma {:induction false} LogsInTurn(a: State, b: State, c: State)
    requires Logs(a, b) && Logs(b, c)
    ensures Logs(a, c)
  {
    hide ReplayAll;
    var first, second := b.j.ops[|a.j.ops|..], c.j.ops[|b.j.ops|..];
    assert c.j.ops[|a.j.ops|..] == first + second && c.j.ops[..|a.j.ops|] == a.j.ops;
    ReplayConcat(a.g, first, second);
    SameReplayAll(ReplayAll(a.g, first).value, b.g, second);
  }

  lemma {:induction false} LogsNothing(from: State, to: State)
    requires from.j.ops == to.j.ops && Same(from.g, to.g)
    ensures Logs(from, to)
  {
    assert to.j.ops[|from.j.ops|..] == [];
  }

  lemma {:induction false} LogsOne(from: State, to: State, op: Operation)
    requires to.j.ops == from.j.ops + [op]
    requires ReplayOne(from.g, op).Ok? && Same(ReplayOne(from.g, op).value, to.g)
    ensures Logs(from, to)
  {
    hide ReplayOne, Same;
    assert to.j.ops[|from.j.ops|..] == [op];
    assert ReplayAll(from.g, [op]) == ReplayAll(ReplayOne(from.g, op).value, []);
  }

  // ----- each call -----

  lemma {:induction false} LifetimeLogs(s: State, id: u64)
    requires Sound(s) && !RecordLifetime(s, id).j.Failed()
    ensures Logs(s, RecordLifetime(s, id)) && !s.j.Failed()
  {
    hide Logs, DateOf, FirstLifespan, Reversed, WithLifetime, Closed;
    var to := RecordLifetime(s, id);
    if to.j.ops == s.j.ops {
      LogsNothing(s, to);
    } else {
      var lifespan := FirstLifespan(s.j.schema.lifespans, s.g.core.nodes[id].labels).value;
      LogsOne(s, to, SetLifetime(id, DateOf(s.g.core.nodes[id], lifespan.appears), DateOf(s.g.core.nodes[id], lifespan.ends)));
    }
  }

  lemma {:induction false} CreateNodeLogs(s: State, labels: seq<string>, props: Props)
    requires Sound(s) && !AfterCreateNode(s, labels, props).j.Failed()
    ensures Logs(s, AfterCreateNode(s, labels, props)) && !s.j.Failed()
  {
    hide Logs, RecordLifetime, TemporalNames, Record, HistoriesOf, Closed;
    var id, one := s.g.nextNode, Inserting(s, labels, props);
    InsertingKeepsSound(s, labels, props);
    LifetimeLogs(one, id);
    var names := TemporalNames(s.j.schema.fields, labels, props);
    LogsOne(s, one, if names == [] then InsertNode(id, labels, props) else InsertNodeAt(id, labels, props, s.j.at, names));
    LogsInTurn(s, one, RecordLifetime(one, id));
  }

  lemma {:induction false} UpdateNodeLogs(s: State, id: u64, props: Props)
    requires Sound(s) && !AfterUpdateNode(s, id, props).j.Failed()
    ensures Logs(s, AfterUpdateNode(s, id, props)) && !s.j.Failed()
  {
    hide Logs, RecordLifetime, TemporalNames, Record, HistoriesOf, Closed, MergeNode, Current;
    if id !in s.g.core.nodes {
      LogsNothing(s, s);
    } else {
      var one := Merging(s, id, props);
      MergingKeepsSound(s, id, props);
      LifetimeLogs(one, id);
      var names := TemporalNames(s.j.schema.fields, s.g.core.nodes[id].labels, props);
      LogsOne(s, one, if names == [] then UpdateNode(id, props) else UpdateNodeAt(id, props, s.j.at, names));
      LogsInTurn(s, one, RecordLifetime(one, id));
    }
  }

  lemma {:induction false} InsertingKeepsSound(s: State, labels: seq<string>, props: Props)
    requires Sound(s)
    ensures Sound(Inserting(s, labels, props))
  {
    hide TemporalNames, Record, HistoriesOf;
  }

  lemma {:induction false} MergingKeepsSound(s: State, id: u64, props: Props)
    requires Sound(s) && id in s.g.core.nodes
    ensures Sound(Merging(s, id, props))
  {
    hide TemporalNames, Record, HistoriesOf, Current;
  }

  lemma {:induction false} CreateRelLogs(s: State, kind: string, from: u64, to: u64, props: Props)
    requires Sound(s) && !AfterCreateRel(s, kind, from, to, props).j.Failed()
    ensures Logs(s, AfterCreateRel(s, kind, from, to, props)) && !s.j.Failed()
  {
    hide Logs, Closed, Get;
    var rel := Relationship(s.g.nextRel, kind, from, to, props);
    LogsOne(s, AfterCreateRel(s, kind, from, to, props),
            if kind in s.j.schema.rels then InsertRelAt(rel, s.j.at) else InsertRel(rel));
  }

  lemma {:induction false} DeleteRelLogs(s: State, id: u64)
    requires Sound(s) && OrderlyGraph(s.g) && !AfterDeleteRel(s, id).j.Failed()
    ensures Logs(s, AfterDeleteRel(s, id)) && !s.j.Failed()
  {
    hide Logs, Get;
    var to := AfterDeleteRel(s, id);
    match Known(s.g, id)
    case None => LogsNothing(s, to);
    case Some(rel) =>
      assert rel.id == id;
      if rel.kind in s.j.schema.rels || (s.g.core.time.Ok? && id in s.g.core.time.value.intervals) {
        LogsOne(s, to, EndRelAt(rel, s.j.at));
      } else {
        LogsOne(s, to, DeleteRel(id));
      }
  }

  lemma {:induction false} DeleteRelsLog(s: State, ids: seq<u64>)
    requires Sound(s) && OrderlyGraph(s.g) && !DeleteRels(s, ids).j.Failed()
    ensures Logs(s, DeleteRels(s, ids)) && !s.j.Failed() && OrderlyGraph(DeleteRels(s, ids).g)
    ensures forall r <- ids :: !Refused(s, r) || s.g.core.time.Err?
    decreases |ids|
  {
    hide Logs, AfterDeleteRel, Sound, OrderlyGraph, Refused;
    if ids == [] {
      SameAsItself(s);
      LogsNothing(s, s);
    } else {
      var next := AfterDeleteRel(s, ids[0]);
      DeleteRelEffect(s, ids[0]);
      DeleteRelKeepsOrder(s, ids[0]);
      DeleteRelsLog(next, ids[1..]);
      DeleteRelLogs(s, ids[0]);
      LogsInTurn(s, next, DeleteRels(s, ids));
      NotFailedNotRefused(s, ids[0]);
      forall r | r in ids
        ensures !Refused(s, r) || s.g.core.time.Err?
      {
        if r != ids[0] {
          assert r in ids[1..];
        }
      }
    }
  }

  lemma {:induction false} SameAsItself(s: State)
    requires Sound(s)
    ensures Same(s.g, s.g)
  {
    hide Closed;
  }

  lemma {:induction false} NotFailedNotRefused(s: State, rel: u64)
    requires !AfterDeleteRel(s, rel).j.Failed()
    ensures !Refused(s, rel) || s.g.core.time.Err?
  {
    hide Get;
  }

  lemma {:induction false} DropLogs(s: State, id: u64)
    requires Sound(s) && id in s.g.core.nodes && (s.g.HasData() ==> s.g.core.time.Ok?)
    ensures var forgotten := if s.g.HasData() then ForgetNode(s, id, s.g.core.time.value) else s;
      Logs(s, State(forgotten.g.(core := DropNode(forgotten.g.core, id)),
                    Push(forgotten.j, [Replaced(id, s.g.core.nodes[id])], [DeleteNode(id)])))
  {
    hide Logs, DropNode, WithoutNode, IntervalsWere, SortedIds, Incident, HistoriesOf, Get, Closed;
    var forgotten := if s.g.HasData() then ForgetNode(s, id, s.g.core.time.value) else s;
    DropKeepsTime(forgotten.g.core, id);
    LogsOne(
      s,
      State(forgotten.g.(core := DropNode(forgotten.g.core, id)),
            Push(forgotten.j, [Replaced(id, s.g.core.nodes[id])], [DeleteNode(id)])),
      DeleteNode(id));
  }

  lemma {:induction false} DropKeepsTime(c: Core, id: u64)
    ensures DropNode(c, id).time == c.time
  {
  }

  lemma {:induction false} DeleteNodeLogs(s: State, id: u64)
    requires Sound(s) && OrderlyGraph(s.g) && !AfterDeleteNode(s, id).j.Failed()
    ensures Logs(s, AfterDeleteNode(s, id)) && !s.j.Failed()
  {
    hide Logs, DeleteRels, DropNode, ForgetNode, SortedIds, Attached, Sound, OrderlyGraph;
    SameAsItself(s);
    if id !in s.g.core.nodes {
      LogsNothing(s, s);
    } else {
      var ids := SortedIds(Attached(s.g.core.rels, id));
      var detached := DeleteRels(s, ids);
      if detached.g.HasData() && detached.g.core.time.Ok? {
        ForgettingKeepsErrors(detached, id);
      }
      SortedIdsHolds(Attached(s.g.core.rels, id));
      DeleteRelsEffect(s, ids);
      DeleteRelsLog(s, ids);
      DropLogs(detached, id);
      LogsInTurn(s, detached, AfterDeleteNode(s, id));
    }
  }

  lemma {:induction false} ForgettingKeepsErrors(s: State, id: u64)
    requires s.g.core.time.Ok?
    ensures ForgetNode(s, id, s.g.core.time.value).j.Failed() <==> s.j.Failed()
  {
  }

  lemma {:induction false} StepLogs(s: State, call: Call)
    requires Sound(s) && OrderlyGraph(s.g) && Permitted(s, call) && !Step(s, call).j.Failed()
    ensures Logs(s, Step(s, call)) && !s.j.Failed()
  {
    hide Logs, AfterCreateNode, AfterUpdateNode, AfterDeleteNode, AfterCreateRel, AfterDeleteRel, Sound, OrderlyGraph;
    match call
    case Configure(_, _) =>
      SameAsItself(s);
      LogsNothing(s, Step(s, call));
    case CallCreateNode(labels, props) => CreateNodeLogs(s, labels, props);
    case CallUpdateNode(id, props) => UpdateNodeLogs(s, id, props);
    case CallDeleteNode(id) => DeleteNodeLogs(s, id);
    case CallCreateRel(kind, from, to, props) => CreateRelLogs(s, kind, from, to, props);
    case CallDeleteRel(id) => DeleteRelLogs(s, id);
  }

  // A statement that meets no error logs exactly what it did.
  lemma {:induction false} RunLogs(s: State, calls: seq<Call>)
    requires Sound(s) && OrderlyGraph(s.g) && AllPermitted(s, calls) && !Run(s, calls).j.Failed()
    ensures Logs(s, Run(s, calls)) && !s.j.Failed()
    decreases |calls|
  {
    hide Logs, Step, Sound, OrderlyGraph, Permitted;
    if calls == [] {
      SameAsItself(s);
      LogsNothing(s, s);
    } else {
      var next := Step(s, calls[0]);
      StepKeepsSound(s, calls[0]);
      StepKeepsOrder(s, calls[0]);
      RunLogs(next, calls[1..]);
      StepLogs(s, calls[0]);
      LogsInTurn(s, next, Run(s, calls));
    }
  }
}
