/** Relationships over time: the intervals statements leave agree with the
    relationships that are live, so reading the graph as of a late enough time
    finds exactly those (`RelHistory::contains` in zega/src/history.rs, the
    relationship writes of zega/src/journal.rs). */
module JournalIntervals {
  import opened Graphs
  import opened HistFormat
  import opened JournalLosses
  import opened JournalRollBack
  import opened JournalTime
  import opened Journals
  import opened Machine
  import opened Values
  import opened Wrappers

  predicate Contains(h: RelHistory, at: int) {
    h.from <= at && (h.to.Some? ==> at < h.to.value)
  }

  // A recorded relationship is live exactly while its interval is open, and is
  // what the interval says.
  predicate OpenIsLive(c: Core, r: u64)
    requires c.time.Ok? && r in c.time.value.intervals
  {
    var h := c.time.value.intervals[r];
    && (r in c.rels <==> h.to.None?)
    && (r in c.rels ==> c.rels[r] == h.rel)
  }

  predicate OpenAreLive(g: GraphState) {
    g.core.time.Ok? ==> forall r | r in g.core.time.value.intervals :: Issued(r, g.nextRel) && OpenIsLive(g.core, r)
  }

  // From its start on, and once it ended from its end on, an interval holds a
  // time exactly when the relationship is live.
  lemma {:induction false} AsOfTheLastEventIsLive(g: GraphState, r: u64, at: int)
    requires OpenAreLive(g) && g.core.time.Ok? && r in g.core.time.value.intervals
    requires var h := g.core.time.value.intervals[r]; h.from <= at && (h.to.Some? ==> h.to.value <= at)
    ensures Contains(g.core.time.value.intervals[r], at) <==> r in g.core.rels
  {
    assert OpenIsLive(g.core, r);
  }

  // Deleting a live relationship is seen from its time on, and not before.
  lemma {:induction false} DeletionIsSeenFromItsTime(s: State, r: u64, t: int)
    requires OpenAreLive(s.g) && r in s.g.core.rels && s.g.core.time.Ok? && !Refused(s, r)
    requires r in s.g.core.time.value.intervals && s.g.core.rels[r].id == r
    ensures var to := AfterDeleteRel(s, r).g.core;
      && r !in to.rels && to.time.Ok? && r in to.time.value.intervals
      && (Contains(to.time.value.intervals[r], t) <==>
            Contains(s.g.core.time.value.intervals[r], t) && t < s.j.at)
  {
    assert OpenIsLive(s.g.core, r);
  }

  // ----- every write keeps it -----

  lemma {:induction false} SameRelationshipsKeep(g: GraphState, h: GraphState)
    requires OpenAreLive(g) && h.core.rels == g.core.rels && g.nextRel == h.nextRel
    requires h.core.time.Ok? ==> g.core.time.Ok? && h.core.time.value.intervals == g.core.time.value.intervals
    ensures OpenAreLive(h)
  {
    if h.core.time.Ok? {
      forall r | r in h.core.time.value.intervals
        ensures Issued(r, h.nextRel) && OpenIsLive(h.core, r)
      {
        assert OpenIsLive(g.core, r);
      }
    }
  }

  lemma {:induction false} LifetimeLeaves(s: State, id: u64)
    requires OpenAreLive(s.g)
    ensures OpenAreLive(RecordLifetime(s, id).g)
  {
    hide OpenAreLive, DateOf, FirstLifespan, Reversed, Get, Set;
    SameRelationshipsKeep(s.g, RecordLifetime(s, id).g);
  }

  lemma {:induction false} CreateNodeLeaves(s: State, labels: seq<string>, props: Props)
    requires OpenAreLive(s.g)
    ensures OpenAreLive(AfterCreateNode(s, labels, props).g)
  {
    hide OpenAreLive, TemporalNames, Record, HistoriesOf, RecordLifetime;
    var one := Inserting(s, labels, props);
    SameRelationshipsKeep(s.g, one.g);
    LifetimeLeaves(one, s.g.nextNode);
  }

  lemma {:induction false} UpdateNodeLeaves(s: State, id: u64, props: Props)
    requires OpenAreLive(s.g)
    ensures OpenAreLive(AfterUpdateNode(s, id, props).g)
  {
    hide OpenAreLive, TemporalNames, Record, HistoriesOf, Current, RecordLifetime;
    if id !in s.g.mirrors && id in s.g.core.nodes {
      SameRelationshipsKeep(s.g, Merging(s, id, props).g);
      LifetimeLeaves(Merging(s, id, props), id);
    }
  }

  // A relationship of a kind without time does not take the id of one that has
  // ended and is still on record. Only the last id can be given out again.
  predicate Unrecorded(s: State, call: Call) {
    call.CallCreateRel? && call.kind !in s.j.schema.rels && s.g.core.time.Ok? ==>
      s.g.nextRel !in s.g.core.time.value.intervals
  }

  lemma {:induction false} CreateRelKeepsOpenExactly(s: State, kind: string, from: u64, to: u64, props: Props)
    requires OpenAreLive(s.g) && s.g.nextRel !in s.g.core.rels
    ensures OpenAreLive(AfterCreateRel(s, kind, from, to, props).g) <==>
      Unrecorded(s, CallCreateRel(kind, from, to, props))
    ensures s.g.nextRel < U64_MAX ==> Unrecorded(s, CallCreateRel(kind, from, to, props))
  {
    hide Get;
    var g := AfterCreateRel(s, kind, from, to, props).g;
    if !Unrecorded(s, CallCreateRel(kind, from, to, props)) {
      assert OpenIsLive(s.g.core, s.g.nextRel);
      assert !OpenIsLive(g.core, s.g.nextRel);
    } else if g.core.time.Ok? {
      forall r | r in g.core.time.value.intervals
        ensures Issued(r, g.nextRel) && OpenIsLive(g.core, r)
      {
        if r != s.g.nextRel {
          assert OpenIsLive(s.g.core, r);
        }
      }
    }
  }

  lemma {:induction false} DeleteRelKeepsOpen(s: State, id: u64)
    requires Sound(s) && OpenAreLive(s.g) && IdsAreKeys(s.g)
    ensures OpenAreLive(AfterDeleteRel(s, id).g) && IdsAreKeys(AfterDeleteRel(s, id).g)
  {
    hide Get;
    var g := AfterDeleteRel(s, id).g;
    if g.core.time.Ok? {
      forall r | r in g.core.time.value.intervals
        ensures Issued(r, g.nextRel) && OpenIsLive(g.core, r) && g.core.time.value.intervals[r].rel.id == r
      {
        if r != id {
          assert OpenIsLive(s.g.core, r);
        }
      }
    }
  }

  // Every interval is stored under its relationship's id.
  predicate IdsAreKeys(g: GraphState) {
    g.core.time.Ok? ==> forall r | r in g.core.time.value.intervals :: g.core.time.value.intervals[r].rel.id == r
  }

  lemma {:induction false} DeleteRelsKeepOpen(s: State, ids: seq<u64>)
    requires Sound(s) && OpenAreLive(s.g) && IdsAreKeys(s.g)
    ensures OpenAreLive(DeleteRels(s, ids).g)
    decreases |ids|
  {
    hide AfterDeleteRel, OpenAreLive, Sound, IdsAreKeys;
    if ids != [] {
      DeleteRelEffect(s, ids[0]);
      DeleteRelKeepsOpen(s, ids[0]);
      DeleteRelsKeepOpen(AfterDeleteRel(s, ids[0]), ids[1..]);
    }
  }

  lemma {:induction false} ForgottenAndDropped(g: GraphState, id: u64)
    requires OpenAreLive(g) && id in g.core.nodes && g.core.time.Ok?
    ensures var forgotten := WithTime(g, WithoutNode(g.core.time.value, id));
      OpenAreLive(forgotten.(core := DropNode(forgotten.core, id)))
  {
    hide WithoutHistories;
    var t := g.core.time.value;
    var forgotten := WithTime(g, WithoutNode(t, id));
    var h := forgotten.(core := DropNode(forgotten.core, id));
    forall r | r in h.core.time.value.intervals
      ensures Issued(r, h.nextRel) && OpenIsLive(h.core, r)
    {
      assert r in t.intervals && !Touches(t.intervals[r].rel, id);
      assert OpenIsLive(g.core, r);
    }
  }

  lemma {:induction false} DeleteNodeKeepsOpen(s: State, id: u64)
    requires Sound(s) && OpenAreLive(s.g) && IdsAreKeys(s.g)
    ensures OpenAreLive(AfterDeleteNode(s, id).g)
  {
    hide DeleteRels, SortedIds, IntervalsWere, Incident, HistoriesOf, DropNode, Get, OpenIsLive, Attached, WithoutNode;
    var detached := DeleteRels(s, SortedIds(Attached(s.g.core.rels, id)));
    DeleteRelsKeepOpen(s, SortedIds(Attached(s.g.core.rels, id)));
    if id in s.g.core.nodes && id !in s.g.mirrors {
      SortedIdsHolds(Attached(s.g.core.rels, id));
      DeleteRelsEffect(s, SortedIds(Attached(s.g.core.rels, id)));
      if detached.g.HasData() && detached.g.core.time.Ok? {
        ForgottenAndDropped(detached.g, id);
      } else if !detached.g.HasData() {
        DropKeepsTimeline(detached.g.core, id);
      }
    }
  }

  lemma {:induction false} DropKeepsTimeline(c: Core, id: u64)
    ensures DropNode(c, id).time == c.time
  {
  }

  // Through every call of a statement, at whatever time it writes.
  lemma {:induction false} StepKeepsOpen(s: State, call: Call)
    requires Sound(s) && Permitted(s, call) && Unrecorded(s, call) && OpenAreLive(s.g) && IdsAreKeys(s.g)
    ensures OpenAreLive(Step(s, call).g)
  {
    hide AfterCreateNode, AfterUpdateNode, AfterDeleteNode, AfterCreateRel, AfterDeleteRel, OpenAreLive;
    match call
    case Configure(_, _) => SameRelationshipsKeep(s.g, Step(s, call).g);
    case CallCreateNode(labels, props) => CreateNodeLeaves(s, labels, props);
    case CallUpdateNode(id, props) => UpdateNodeLeaves(s, id, props);
    case CallDeleteNode(id) => DeleteNodeKeepsOpen(s, id);
    case CallCreateRel(kind, from, to, props) => CreateRelKeepsOpenExactly(s, kind, from, to, props);
    case CallDeleteRel(id) => DeleteRelKeepsOpen(s, id);
  }

  lemma {:induction false} OrderlyIdsAreKeys(g: GraphState)
    requires OrderlyGraph(g)
    ensures IdsAreKeys(g)
  {
    hide AllWellFormed, InOrder;
  }

  predicate AllUnrecorded(s: State, calls: seq<Call>)
    decreases |calls|
  {
    calls == [] || (Unrecorded(s, calls[0]) && AllUnrecorded(Step(s, calls[0]), calls[1..]))
  }

  // So through every statement.
  lemma {:induction false} RunKeepsOpen(s: State, calls: seq<Call>)
    requires Sound(s) && OrderlyGraph(s.g) && OpenAreLive(s.g) && AllPermitted(s, calls) && AllUnrecorded(s, calls)
    ensures OpenAreLive(Run(s, calls).g)
    decreases |calls|
  {
    hide Step, Sound, OrderlyGraph, OpenAreLive, IdsAreKeys, Permitted, Unrecorded;
    if calls != [] {
      OrderlyIdsAreKeys(s.g);
      StepKeepsSound(s, calls[0]);
      StepKeepsOrder(s, calls[0]);
      StepKeepsOpen(s, calls[0]);
      RunKeepsOpen(Step(s, calls[0]), calls[1..]);
    }
  }

  // A statement that is rolled back keeps it if and only if it lost nothing
  // with a recorded interval that the graph had before.
  lemma {:induction false} RollBackKeepsOpen(g: GraphState, now: i64, calls: seq<Call>)
    requires SoundGraph(g) && OpenAreLive(g) && g.core.time.Ok? && AllPermitted(State(g, NewJournal(g, now)), calls)
    ensures var start := State(g, NewJournal(g, now));
      OpenAreLive(RolledBack(Run(start, calls))) <==>
      LostIn(start, calls) !! g.core.rels.Keys * g.core.time.value.intervals.Keys
  {
    hide Run, RollBack, LostIn, AllPermitted, Closed;
    var start := State(g, NewJournal(g, now));
    var back, lost := RolledBack(Run(start, calls)), LostIn(start, calls);
    RollBackRestores(g, now, calls);
    var intervals := g.core.time.value.intervals;
    if lost !! g.core.rels.Keys * intervals.Keys {
      forall r | r in intervals
        ensures Issued(r, back.nextRel) && OpenIsLive(back.core, r)
      {
        assert OpenIsLive(g.core, r);
      }
    } else {
      var r :| r in lost && r in g.core.rels && r in intervals;
      assert OpenIsLive(g.core, r);
      assert !OpenIsLive(back.core, r);
    }
  }
}
