/** Which writes fail (zega/src/journal.rs), and which statements are done
    (`atomically` there). */
module JournalErrors {
  import opened Graphs
  import opened HistFormat
  import opened JournalLosses
  import opened JournalReads
  import opened JournalRollBack
  import opened JournalStatements
  import opened Journals
  import opened Machine
  import opened Wrappers

  // The node's lifespan names an end before its appearance.
  predicate IsReversed(s: State, node: Node) {
    var span := FirstLifespan(s.j.schema.lifespans, node.labels);
    span.Some? && Reversed(DateOf(node, span.value.appears), DateOf(node, span.value.ends))
  }

  lemma {:induction false} ReversedIsNamed(s: State, node: Node, i: nat)
    requires var lifespans := s.j.schema.lifespans;
      i < |lifespans| && lifespans[i].ty in node.labels && forall j | 0 <= j < i :: lifespans[j].ty !in node.labels
    ensures var span := s.j.schema.lifespans[i];
      IsReversed(s, node) <==> exists a, e :: NamesDate(node, span.appears, a) && NamesDate(node, span.ends, e) && a > e
  {
    hide NamesDate, DateOf, FirstLifespan;
    FirstLifespanIs(s.j.schema.lifespans, node.labels, i);
    DateOfIsNamed(node, s.j.schema.lifespans[i].appears);
    DateOfIsNamed(node, s.j.schema.lifespans[i].ends);
  }

  lemma {:induction false} LifetimeFailsExactly(s: State, id: u64)
    requires !s.j.Failed() && s.g.core.time.Ok?
    ensures RecordLifetime(s, id).j.Failed() <==> id in s.g.core.nodes && IsReversed(s, s.g.core.nodes[id])
  {
    hide DateOf, FirstLifespan;
  }

  lemma {:induction false} DeleteRelFailsExactly(s: State, r: u64)
    requires Sound(s) && s.g.core.time.Ok?
    ensures AfterDeleteRel(s, r).j.Failed() <==> s.j.Failed() || Refused(s, r)
  {
    hide Get, Ended;
  }

  lemma {:induction false} DeleteRelsFailExactly(s: State, ids: seq<u64>)
    requires Sound(s) && s.g.core.time.Ok? && forall i, j :: 0 <= i < j < |ids| ==> ids[i] != ids[j]
    ensures DeleteRels(s, ids).j.Failed() <==> s.j.Failed() || exists r <- ids :: Refused(s, r)
    ensures DeleteRels(s, ids).g.core.time.Ok?
    decreases |ids|
  {
    hide AfterDeleteRel, Refused, Sound;
    if ids != [] {
      var next := AfterDeleteRel(s, ids[0]);
      DeleteRelEffect(s, ids[0]);
      DeleteRelFailsExactly(s, ids[0]);
      DeleteRelKeepsDecoded(s, ids[0]);
      DeleteRelsFailExactly(next, ids[1..]);
      assert ids == [ids[0]] + ids[1..];
      assert forall r <- ids[1..] :: r != ids[0] && (Refused(next, r) <==> Refused(s, r));
    }
  }

  lemma {:induction false} DeleteRelKeepsDecoded(s: State, r: u64)
    requires s.g.core.time.Ok?
    ensures AfterDeleteRel(s, r).g.core.time.Ok?
  {
    hide Get, Ended;
  }

  lemma {:induction false} DeleteNodeFailsExactly(s: State, id: u64)
    requires Sound(s) && s.g.core.time.Ok? && !s.j.Failed()
    ensures AfterDeleteNode(s, id).j.Failed() <==>
      id in s.g.mirrors || (id in s.g.core.nodes && exists r :: r in s.g.core.rels && Touches(s.g.core.rels[r], id) && Refused(s, r))
  {
    hide DeleteRels, SortedIds, IntervalsWere, Incident, HistoriesOf, DropNode, Refused, Sound, WithoutNode;
    var attached := Attached(s.g.core.rels, id);
    SortedIdsHolds(attached);
    DeleteRelsFailExactly(s, SortedIds(attached));
    assert forall r :: r in attached <==> r in s.g.core.rels && Touches(s.g.core.rels[r], id);
  }

  lemma {:induction false} NodeWriteKeepsTime(s: State, labels: seq<string>, props: Props)
    requires s.g.core.time.Ok?
    ensures var to := Inserting(s, labels, props);
      to.g.core.time.Ok? && to.j.schema == s.j.schema && (to.j.Failed() <==> s.j.Failed())
      && Get(to.g.core.nodes, s.g.nextNode) == Some(Node(labels, props))
  {
    hide TemporalNames, Record, HistoriesOf;
  }

  lemma {:induction false} MergeKeepsTime(s: State, id: u64, props: Props)
    requires s.g.core.time.Ok? && id in s.g.core.nodes
    ensures var to := Merging(s, id, props);
      to.g.core.time.Ok? && to.j.schema == s.j.schema && (to.j.Failed() <==> s.j.Failed()) && id in to.g.core.nodes
  {
    hide TemporalNames, Record, HistoriesOf, Current;
  }

  // With histories that can be read, a write fails exactly when it is to change
  // mirror facts, end a relationship before it began, or leave a node whose
  // lifespan ends before it starts.
  lemma {:induction false} WriteFailsExactly(s: State, call: Call)
    requires Sound(s) && s.g.core.time.Ok? && !s.j.Failed()
    ensures var to := Step(s, call);
      to.j.Failed() <==>
      match call
      case Configure(_, _) => false
      case CallCreateNode(labels, props) => IsReversed(s, Node(labels, props))
      case CallUpdateNode(id, _) =>
        id in s.g.mirrors || (id in s.g.core.nodes && id in to.g.core.nodes && IsReversed(s, to.g.core.nodes[id]))
      case CallDeleteNode(id) =>
        || id in s.g.mirrors
        || (id in s.g.core.nodes
            && exists r :: r in s.g.core.rels && Touches(s.g.core.rels[r], id) && Refused(s, r))
      case CallCreateRel(_, _, _, _) => false
      case CallDeleteRel(r) => Refused(s, r)
  {
    hide Inserting, Merging, RecordLifetime, AfterDeleteNode, AfterDeleteRel, IsReversed, Refused;
    match call
    case CallCreateNode(labels, props) =>
      NodeWriteKeepsTime(s, labels, props);
      LifetimeFailsExactly(Inserting(s, labels, props), s.g.nextNode);
      SameSchemaReverses(s, Inserting(s, labels, props), Node(labels, props));
    case CallUpdateNode(id, props) =>
      if id !in s.g.mirrors && id in s.g.core.nodes {
        var one := Merging(s, id, props);
        MergeKeepsTime(s, id, props);
        LifetimeFailsExactly(one, id);
        LifetimeIsNotRead(one, id);
        SameSchemaReverses(s, one, one.g.core.nodes[id]);
      }
    case CallDeleteNode(id) => DeleteNodeFailsExactly(s, id);
    case CallDeleteRel(r) => DeleteRelFailsExactly(s, r);
    case _ =>
  }

  lemma {:induction false} SameSchemaReverses(s: State, t: State, node: Node)
    requires s.j.schema == t.j.schema
    ensures IsReversed(s, node) <==> IsReversed(t, node)
  {
  }

  // A statement is done exactly when none of its writes failed, it does not end
  // in an error, its linked-data record is made, and the log takes it or it has
  // nothing to log; then its graph is the one its writes left.
  lemma {:induction false} DoneExactly(g: GraphState, st: Statement)
    ensures var s, after := Run(State(g, NewJournal(g, st.now)), st.calls), Atomically(g, st);
      var record := st.recorder(s.g, s.j.ops, Removed(s.j.undo));
      && (after.done <==>
            && !s.j.Failed() && !st.fails && record.Ok?
            && ((s.j.ops == [] && record.value.None?) || st.accepted))
      && (after.done ==> after.g == s.g)
      && (after.entry.Some? ==> after.done)
  {
    hide Run, RolledBack, Removed;
  }
}
