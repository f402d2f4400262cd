/** What statements do to what is read, as of any time (`History::at`,
    `AsOf::prop`, `RelHistory::contains` and `Histories::visible` in
    zega/src/history.rs): each write of zega/src/journal.rs is seen from its time
    on up to the next later change, and nothing else is read differently. */
module JournalReads {
  import opened Graphs
  import opened HistFormat
  import opened JournalIntervals
  import opened JournalLosses
  import opened JournalRollBack
  import opened JournalTime
  import opened Journals
  import opened Machine
  import opened ValidTime
  import opened Values
  import opened Wrappers
  import Dates
  import DateTexts

  // ----- what a graph has on record -----

  predicate HasHistory(g: GraphState, id: u64, f: string) {
    g.core.time.Ok? && (id, f) in g.core.time.value.fields
  }

  // Between `at` and `t` there is no later change of the field.
  ghost predicate Undisturbed(g: GraphState, id: u64, f: string, at: int, t: int) {
    HasHistory(g, id, f) ==> BeforeNext(g.core.time.value.fields[(id, f)].changes, at, t)
  }

  // What the history of a field has as of `t`, nothing before there was one.
  function Recorded(g: GraphState, id: u64, f: string, t: i64): Option<Value> {
    if HasHistory(g, id, f) then AsOf(g, id, f, t) else None
  }

  // ----- recording -----

  lemma {:induction false} NewReads(at: i64, v: Value, t: int)
    ensures At(NewHistory(at, v).changes, t) == if at <= t then Some(v) else None
    ensures BeforeNext(NewHistory(at, v).changes, at, t)
  {
    var changes := [Change(at, v)];
    BelowAt(changes, t + 1, 0);
  }

  lemma {:induction false} NextStays(changes: seq<Change>, at: i64, v: Value, t: int)
    requires Ascending(changes)
    ensures BeforeNext(InsertChange(changes, at, v), at, t) <==> BeforeNext(changes, at, t)
  {
    hide InsertChange;
    InsertedElements(changes, at, v);
    var after := InsertChange(changes, at, v);
    if BeforeNext(changes, at, t) {
      forall i | 0 <= i < |after| && after[i].time > at
        ensures t < after[i].time
      {
        assert after[i] in after;
        var k :| 0 <= k < |changes| && changes[k] == after[i];
      }
    }
    if BeforeNext(after, at, t) {
      forall i | 0 <= i < |changes| && changes[i].time > at
        ensures t < changes[i].time
      {
        assert changes[i] in changes && changes[i] in after;
        var k :| 0 <= k < |after| && after[k] == changes[i];
      }
    }
  }

  ghost predicate FieldUndisturbed(fields: map<FieldKey, History>, k: FieldKey, at: int, t: int) {
    k in fields ==> BeforeNext(fields[k].changes, at, t)
  }

  function FieldAt(fields: map<FieldKey, History>, k: FieldKey, t: int): Option<Value> {
    if k in fields then At(fields[k].changes, t) else None
  }

  lemma {:induction false} OneReads(fields: map<FieldKey, History>, id: u64, at: i64, f: string, v: Value, t: int)
    requires AllWellFormed(fields)
    ensures var after := RecordOne(fields, id, at, f, v);
      && AllWellFormed(after) && (id, f) in after
      && (FieldUndisturbed(after, (id, f), at, t) <==> FieldUndisturbed(fields, (id, f), at, t))
      && FieldAt(after, (id, f), t) ==
         if at <= t && FieldUndisturbed(fields, (id, f), at, t) then Some(v) else FieldAt(fields, (id, f), t)
  {
    hide At, BeforeNext, InsertChange, NewHistory;
    NewIsWellFormed(at, v);
    NewReads(at, v, t);
    if (id, f) in fields {
      var h := fields[(id, f)];
      InsertKeepsWellFormed(h, at, v);
      NextStays(h.changes, at, v, t);
      InsertChangesOnlyItsInterval(h.changes, at, v, t);
    }
  }

  // A recorded field is read as it was but for the time from `at` to its next
  // later change.
  lemma {:induction false} RecordReads(
      fields: map<FieldKey, History>, id: u64, at: i64, props: Props, names: seq<string>, f: string, t: int)
    requires AllWellFormed(fields) && f in names && forall n <- names :: n in props
    ensures var after := Record(fields, id, at, props, names);
      && (id, f) in after
      && FieldAt(after, (id, f), t) ==
         if at <= t && FieldUndisturbed(fields, (id, f), at, t) then Some(props[f]) else FieldAt(fields, (id, f), t)
    decreases |names|
  {
    hide AllWellFormed, FieldAt, FieldUndisturbed, RecordOne;
    var n, rest := names[0], names[1..];
    var next := RecordOne(fields, id, at, n, props[n]);
    OneReads(fields, id, at, n, props[n], t);
    if f in rest {
      if n != f {
        OtherFieldReads(fields, id, at, n, props[n], f, t);
      }
      RecordReads(next, id, at, props, rest, f, t);
    } else {
      assert n == f;
      RecordHolds(next, id, at, props, rest);
      SameHistoryReads(next, Record(next, id, at, props, rest), (id, f), t);
    }
  }

  lemma {:induction false} OtherFieldReads(
      fields: map<FieldKey, History>, id: u64, at: i64, n: string, v: Value, f: string, t: int)
    requires n != f
    ensures var after := RecordOne(fields, id, at, n, v);
      && FieldAt(after, (id, f), t) == FieldAt(fields, (id, f), t)
      && (FieldUndisturbed(after, (id, f), at, t) <==> FieldUndisturbed(fields, (id, f), at, t))
  {
    hide At, BeforeNext, Inserted, NewHistory;
  }

  lemma {:induction false} SameHistoryReads(a: map<FieldKey, History>, b: map<FieldKey, History>, k: FieldKey, t: int)
    requires Get(a, k) == Get(b, k)
    ensures FieldAt(a, k, t) == FieldAt(b, k, t)
  {
  }

  // ----- lifetimes -----

  // `Histories::visible`.
  predicate Visible(t: Timeline, id: u64, at: int) {
    (id in t.appears ==> t.appears[id] <= at) && (id in t.ends ==> at < t.ends[id])
  }

  // The node's text under a field names this date.
  ghost predicate NamesDate(node: Node, field: Option<string>, d: int) {
    && field.Some? && field.value in node.props && node.props[field.value].Str?
    && exists i :: DateTexts.IsDateText(node.props[field.value].text, i) && Dates.Seconds(i) == d
  }

  lemma {:induction false} DateOfIsNamed(node: Node, field: Option<string>)
    ensures match DateOf(node, field)
      case Some(d) => NamesDate(node, field, d) && forall e :: NamesDate(node, field, e) ==> e == d
      case None => forall d :: !NamesDate(node, field, d)
  {
    hide Dates.Date, DateTexts.IsDateText, Dates.Seconds;
    if field.Some? && field.value in node.props && node.props[field.value].Str? {
      DateTexts.DatesAreTheSpellings(node.props[field.value].text);
    }
  }

  lemma {:induction false} FirstLifespanIs(lifespans: seq<Lifespan>, labels: seq<string>, i: nat)
    requires i < |lifespans| && lifespans[i].ty in labels && forall j | 0 <= j < i :: lifespans[j].ty !in labels
    ensures FirstLifespan(lifespans, labels) == Some(lifespans[i])
    decreases i
  {
    if i > 0 {
      FirstLifespanIs(lifespans[1..], labels, i - 1);
    }
  }

  // A node is seen from the date its first type with a lifespan names for its
  // appearance, and until the one for its end; a reversed lifespan is an error
  // and changes nothing.
  lemma {:induction false} LifetimeIsSeen(s: State, id: u64, i: nat, at: int)
    requires id in s.g.core.nodes && s.g.core.time.Ok?
    requires var lifespans, labels := s.j.schema.lifespans, s.g.core.nodes[id].labels;
      i < |lifespans| && lifespans[i].ty in labels && forall j | 0 <= j < i :: lifespans[j].ty !in labels
    ensures var node, span, after := s.g.core.nodes[id], s.j.schema.lifespans[i], RecordLifetime(s, id);
      if exists a, e :: NamesDate(node, span.appears, a) && NamesDate(node, span.ends, e) && a > e
      then after.g == s.g && after.j.historyError == Some(REVERSED)
      else
        && after.g.core.time.Ok? && after.j.historyError == s.j.historyError
        && (Visible(after.g.core.time.value, id, at) <==>
              && (forall a :: NamesDate(node, span.appears, a) ==> a <= at)
              && (forall e :: NamesDate(node, span.ends, e) ==> at < e))
        && (forall other | other != id ::
              Visible(after.g.core.time.value, other, at) <==> Visible(s.g.core.time.value, other, at))
  {
    hide NamesDate, DateOf, FirstLifespan;
    var node, span := s.g.core.nodes[id], s.j.schema.lifespans[i];
    FirstLifespanIs(s.j.schema.lifespans, node.labels, i);
    DateOfIsNamed(node, span.appears);
    DateOfIsNamed(node, span.ends);
  }

  // Recording a lifetime is all that reading a field, a live node or a
  // relationship does not notice.
  lemma {:induction false} LifetimeIsNotRead(s: State, id: u64)
    ensures var g := RecordLifetime(s, id).g;
      && g.core.nodes == s.g.core.nodes && g.core.rels == s.g.core.rels
      && (g.core.time.Ok? <==> s.g.core.time.Ok?)
      && (g.core.time.Ok? ==>
            g.core.time.value.fields == s.g.core.time.value.fields
            && g.core.time.value.intervals == s.g.core.time.value.intervals)
  {
    hide DateOf, FirstLifespan, Reversed, Get, Set;
  }

  lemma {:induction false} SameRead(g: GraphState, h: GraphState, id: u64, f: string, t: i64)
    requires g.core.nodes == h.core.nodes && (g.core.time.Ok? <==> h.core.time.Ok?)
    requires g.core.time.Ok? ==> g.core.time.value.fields == h.core.time.value.fields
    ensures AsOf(g, id, f, t) == AsOf(h, id, f, t)
  {
  }

  // ----- creating and updating nodes -----

  predicate IsRecorded(s: State, labels: seq<string>, props: Props, f: string) {
    f in props && IsTemporal(s.j.schema.fields, labels, f)
  }

  // A field written over time is read from the write's time on up to its next
  // later change, and as its history had it elsewhere; a plain one always.
  lemma {:induction false} UpdateIsRead(s: State, id: u64, props: Props, f: string, t: i64)
    requires OrderlyGraph(s.g) && s.g.core.time.Ok? && id in s.g.core.nodes && id !in s.g.mirrors
    ensures var g, labels := AfterUpdateNode(s, id, props).g, s.g.core.nodes[id].labels;
      AsOf(g, id, f, t) ==
        if IsRecorded(s, labels, props, f) then
          (if s.j.at <= t && Undisturbed(s.g, id, f, s.j.at, t) then Some(props[f]) else Recorded(s.g, id, f, t))
        else if f in props && !HasHistory(s.g, id, f) then Some(props[f])
        else AsOf(s.g, id, f, t)
  {
    hide Merging, RecordLifetime, IsTemporal, TemporalNames, Record, Current, At, BeforeNext, AllWellFormed;
    var node, before := s.g.core.nodes[id], s.g.core.time.value.fields;
    var names := TemporalNames(s.j.schema.fields, node.labels, props);
    LifetimeIsNotRead(Merging(s, id, props), id);
    MergedCore(s, id, props);
    TemporalNamesAre(s.j.schema.fields, node.labels, props);
    RecordHolds(before, id, s.j.at, props, names);
    CurrentIsNewest(Record(before, id, s.j.at, props, names), id, props, names);
    if f in names {
      RecordReads(before, id, s.j.at, props, names, f, t);
    }
  }

  // What is live after an update: the new value, unless a later change is on
  // record, which then stays.
  lemma {:induction false} UpdateIsLive(s: State, id: u64, props: Props, f: string)
    requires OrderlyGraph(s.g) && s.g.core.time.Ok? && id in s.g.core.nodes && id !in s.g.mirrors
    ensures var g, node := AfterUpdateNode(s, id, props).g, s.g.core.nodes[id];
      && id in g.core.nodes && g.core.nodes[id].labels == node.labels
      && Get(g.core.nodes[id].props, f) ==
         if f !in props then Get(node.props, f)
         else if IsRecorded(s, node.labels, props, f) && HasHistory(s.g, id, f)
                 && s.j.at < s.g.core.time.value.fields[(id, f)].last
         then Some(Newest(s.g.core.time.value.fields[(id, f)]))
         else Some(props[f])
  {
    hide Merging, RecordLifetime, IsTemporal, TemporalNames, Record, Current, At, BeforeNext, WellFormed, Newest;
    var node, before := s.g.core.nodes[id], s.g.core.time.value.fields;
    var names := TemporalNames(s.j.schema.fields, node.labels, props);
    LifetimeIsNotRead(Merging(s, id, props), id);
    MergedCore(s, id, props);
    TemporalNamesAre(s.j.schema.fields, node.labels, props);
    var after := Record(before, id, s.j.at, props, names);
    RecordHolds(before, id, s.j.at, props, names);
    CurrentIsNewest(after, id, props, names);
    if f in names {
      RecordKeepsWellFormed(before, id, s.j.at, props, names);
      NewestAfterRecording(before, id, s.j.at, props, names, f);
    }
  }

  lemma {:induction false} NewestAfterRecording(
      fields: map<FieldKey, History>, id: u64, at: i64, props: Props, names: seq<string>, f: string)
    requires AllWellFormed(fields) && f in names && forall n <- names :: n in props
    ensures var after := Record(fields, id, at, props, names);
      && (id, f) in after
      && Newest(after[(id, f)]) ==
         if (id, f) in fields && at < fields[(id, f)].last then Newest(fields[(id, f)]) else props[f]
  {
    hide Record, At, BeforeNext, Newest;
    var after := Record(fields, id, at, props, names);
    RecordKeepsWellFormed(fields, id, at, props, names);
    RecordReads(fields, id, at, props, names, f, I64_MAX);
    NewestIsSeenLast(after[(id, f)], I64_MAX);
    if (id, f) in fields {
      NewestIsSeenLast(fields[(id, f)], I64_MAX);
      LastDisturbs(fields[(id, f)], at);
    }
  }

  lemma {:induction false} LastDisturbs(h: History, at: i64)
    requires WellFormed(h)
    ensures BeforeNext(h.changes, at, I64_MAX) <==> h.last <= at
  {
    var n := |h.changes|;
    assert h.changes[n - 1].time == h.last;
  }

  // The same of a new node, whose histories are those its id has on record: none,
  // unless it is the last id.
  lemma {:induction false} CreationIsRead(s: State, labels: seq<string>, props: Props, f: string, t: i64)
    requires OrderlyGraph(s.g) && s.g.core.time.Ok?
    ensures var g, id := AfterCreateNode(s, labels, props).g, s.g.nextNode;
      && Get(g.core.nodes, id) == Some(Node(labels, props))
      && AsOf(g, id, f, t) ==
         if IsRecorded(s, labels, props, f) then
           (if s.j.at <= t && Undisturbed(s.g, id, f, s.j.at, t) then Some(props[f]) else Recorded(s.g, id, f, t))
         else if HasHistory(s.g, id, f) then AsOf(s.g, id, f, t)
         else Get(props, f)
  {
    hide Inserting, RecordLifetime, IsTemporal, TemporalNames, Record, At, BeforeNext, AllWellFormed;
    var id, before := s.g.nextNode, s.g.core.time.value.fields;
    var names := TemporalNames(s.j.schema.fields, labels, props);
    LifetimeIsNotRead(Inserting(s, labels, props), id);
    InsertedCore(s, labels, props);
    TemporalNamesAre(s.j.schema.fields, labels, props);
    RecordHolds(before, id, s.j.at, props, names);
    if f in names {
      RecordReads(before, id, s.j.at, props, names, f, t);
    }
  }

  // Of every other node each field is read as before, at every time, and its
  // live labels and values are what they were; so are all relationships and
  // their intervals.
  lemma {:induction false} NodeWritesLeaveOthers(s: State, call: Call, id: u64)
    requires s.g.core.time.Ok?
    requires match call
      case CallCreateNode(_, _) => id == s.g.nextNode
      case CallUpdateNode(node, _) => id == node
      case _ => false
    ensures var g := Step(s, call).g;
      && (forall other | other != id :: Get(g.core.nodes, other) == Get(s.g.core.nodes, other))
      && (forall other: u64, f: string, t: i64 | other != id :: AsOf(g, other, f, t) == AsOf(s.g, other, f, t))
      && g.core.rels == s.g.core.rels
      && g.core.time.Ok? && g.core.time.value.intervals == s.g.core.time.value.intervals
  {
    hide Inserting, Merging, RecordLifetime, TemporalNames, Record, Current, At;
    var t := s.g.core.time.value;
    match call
    case CallCreateNode(labels, props) =>
      LifetimeIsNotRead(Inserting(s, labels, props), id);
      InsertedCore(s, labels, props);
      TemporalNamesAre(s.j.schema.fields, labels, props);
      RecordHolds(t.fields, id, s.j.at, props, TemporalNames(s.j.schema.fields, labels, props));
    case CallUpdateNode(_, props) =>
      if id in s.g.core.nodes && id !in s.g.mirrors {
        var labels := s.g.core.nodes[id].labels;
        LifetimeIsNotRead(Merging(s, id, props), id);
        MergedCore(s, id, props);
        TemporalNamesAre(s.j.schema.fields, labels, props);
        RecordHolds(t.fields, id, s.j.at, props, TemporalNames(s.j.schema.fields, labels, props));
      }
  }

  // A value that was written is read as of its time and still is after a write
  // at a later one, which is read from its own time on.
  lemma {:induction false} EarlierValuesAreKept(
      s: State, id: u64, f: string, v: Value, w: Value, later: i64, t: i64)
    requires OrderlyGraph(s.g) && s.g.core.time.Ok? && id in s.g.core.nodes && id !in s.g.mirrors
    requires IsTemporal(s.j.schema.fields, s.g.core.nodes[id].labels, f) && !HasHistory(s.g, id, f)
    requires s.j.at < later
    ensures var one := AfterUpdateNode(s, id, map[f := v]);
      var two := AfterUpdateNode(one.(j := one.j.(at := later)), id, map[f := w]);
      AsOf(two.g, id, f, t) == if t < s.j.at then None else if t < later then Some(v) else Some(w)
  {
    hide AfterUpdateNode, IsTemporal, OrderlyGraph, AsOf, BeforeNext;
    var one := AfterUpdateNode(s, id, map[f := v]);
    var next := one.(j := one.j.(at := later));
    UpdateIsRead(s, id, map[f := v], f, t);
    UpdateKeepsSchema(s, id, map[f := v]);
    UpdateNodeKeepsOrder(s, id, map[f := v]);
    UpdateIsLive(s, id, map[f := v], f);
    FirstRecord(s, id, f, v, later, t);
    UpdateIsRead(next, id, map[f := w], f, t);
    SameGraphReads(one.g, next.g, id, f, t);
  }

  lemma {:induction false} SameGraphReads(g: GraphState, h: GraphState, id: u64, f: string, t: i64)
    requires g == h
    ensures AsOf(g, id, f, t) == AsOf(h, id, f, t)
  {
  }

  lemma {:induction false} UpdateKeepsSchema(s: State, id: u64, props: Props)
    requires s.g.core.time.Ok?
    ensures var to := AfterUpdateNode(s, id, props);
      to.j.schema == s.j.schema && to.g.core.time.Ok? && to.g.mirrors == s.g.mirrors
  {
    hide TemporalNames, Record, Current, HistoriesOf, DateOf, FirstLifespan, Reversed;
  }

  // The first value recorded of a field makes a history of one change.
  lemma {:induction false} FirstRecord(s: State, id: u64, f: string, v: Value, later: int, t: int)
    requires s.g.core.time.Ok? && id in s.g.core.nodes && id !in s.g.mirrors
    requires IsTemporal(s.j.schema.fields, s.g.core.nodes[id].labels, f) && !HasHistory(s.g, id, f)
    requires s.j.at < later
    ensures var g := AfterUpdateNode(s, id, map[f := v]).g;
      HasHistory(g, id, f) && Undisturbed(g, id, f, later, t)
  {
    hide Merging, RecordLifetime, IsTemporal, TemporalNames, Current;
    var props: Props, labels := map[f := v], s.g.core.nodes[id].labels;
    var before, names := s.g.core.time.value.fields, TemporalNames(s.j.schema.fields, labels, props);
    LifetimeIsNotRead(Merging(s, id, props), id);
    MergedCore(s, id, props);
    TemporalNamesAre(s.j.schema.fields, labels, props);
    RecordHolds(before, id, s.j.at, props, names);
    FirstRecordIs(before, id, s.j.at, props, names, f);
  }

  lemma {:induction false} FirstRecordIs(
      fields: map<FieldKey, History>, id: u64, at: i64, props: Props, names: seq<string>, f: string)
    requires (forall n <- names :: n in props)
    requires f in names || (id, f) in fields
    requires f in props && ((id, f) in fields ==> fields[(id, f)] == NewHistory(at, props[f]))
    ensures var after := Record(fields, id, at, props, names);
      (id, f) in after && after[(id, f)] == NewHistory(at, props[f])
    decreases |names|
  {
    hide Inserted, NewHistory;
    if names != [] {
      SameInsertion(at, props[f]);
      var n := names[0];
      FirstRecordIs(RecordOne(fields, id, at, n, props[n]), id, at, props, names[1..], f);
    }
  }

  // ----- relationships -----

  // A relationship of a kind with time is there from the statement's time on,
  // with the ends and values it was created with; of every other, the interval
  // is what it was.
  lemma {:induction false} RelationshipIsSeenFromItsTime(
      s: State, kind: string, from: u64, to: u64, props: Props, t: int)
    requires s.g.core.time.Ok?
    ensures var g, id := AfterCreateRel(s, kind, from, to, props).g, s.g.nextRel;
      var before, rel := s.g.core.time.value.intervals, Relationship(id, kind, from, to, props);
      && g.core.time.Ok? && g.core.nodes == s.g.core.nodes && g.core.time.value.fields == s.g.core.time.value.fields
      && g.core.rels == s.g.core.rels[id := rel]
      && (forall r | r != id :: Get(g.core.time.value.intervals, r) == Get(before, r))
      && if kind in s.j.schema.rels
         then
           && id in g.core.time.value.intervals && g.core.time.value.intervals[id].rel == rel
           && (Contains(g.core.time.value.intervals[id], t) <==> s.j.at <= t)
         else g.core.time.value.intervals == before
  {
  }

  // A deletion that is not refused takes exactly that relationship away. Of a
  // kind with time, or on record, it is there from where its interval began, or
  // from ever, up to the statement's time.
  lemma {:induction false} DeletionIsSeen(s: State, r: u64, t: int)
    requires Sound(s) && s.g.core.time.Ok? && !Refused(s, r) && r in s.g.core.rels
    requires IdsAreKeys(s.g)
    ensures var g, before := AfterDeleteRel(s, r).g, s.g.core.time.value.intervals;
      && g.core.time.Ok? && g.core.nodes == s.g.core.nodes && g.core.time.value.fields == s.g.core.time.value.fields
      && g.core.rels == s.g.core.rels - {r}
      && (forall other | other != r :: Get(g.core.time.value.intervals, other) == Get(before, other))
      && if s.g.core.rels[r].kind in s.j.schema.rels || r in before
         then
           && r in g.core.time.value.intervals
           && g.core.time.value.intervals[r].rel == (if r in before then before[r].rel else s.g.core.rels[r])
           && (Contains(g.core.time.value.intervals[r], t) <==>
                 (if r in before then before[r].from else I64_MIN) <= t < s.j.at)
         else r !in g.core.time.value.intervals
  {
  }

  // What deletions under the given ids leave of the records: every interval is
  // still of its relationship, and new ones are of relationships that were live.
  predicate LeavesOthers(s: State, g: GraphState, ids: seq<u64>)
    requires s.g.core.time.Ok?
  {
    var before := s.g.core.time.value;
    && g.core.time.Ok?
    && var after := g.core.time.value;
    && after.fields == before.fields && after.appears == before.appears && after.ends == before.ends
    && (forall r | r in before.intervals && r !in ids :: r in after.intervals && after.intervals[r] == before.intervals[r])
    && (forall r | r in before.intervals :: r in after.intervals && after.intervals[r].rel == before.intervals[r].rel)
    && (forall r | r in after.intervals && r !in before.intervals ::
          r in ids && r in s.g.core.rels && after.intervals[r].rel == s.g.core.rels[r])
  }

  lemma {:induction false} DeletingLeavesOthers(s: State, r: u64, rel: Relationship)
    requires s.g.core.time.Ok? && IdsAreKeys(s.g) && rel.id == r
    requires r !in s.g.core.time.value.intervals ==> r in s.g.core.rels && rel == s.g.core.rels[r]
    ensures LeavesOthers(s, Deleting(s, r, rel).g, [r]) && IdsAreKeys(Deleting(s, r, rel).g)
  {
    hide LeavesOthers, IdsAreKeys, Ended;
    DeletedTime(s, r, rel);
    SameLeavesOthers(s, [r]);
    var g := Deleting(s, r, rel).g;
    if g.core.time != s.g.core.time {
      EndedLeavesOthers(s, g, r, rel);
    } else {
      SameKeys(s.g, g);
      SameTimeLeavesOthers(s, g, [r]);
    }
  }

  lemma {:induction false} DeletedTime(s: State, r: u64, rel: Relationship)
    requires s.g.core.time.Ok?
    ensures var t, time := s.g.core.time.value, Deleting(s, r, rel).g.core.time;
      time == Ok(t) || time == Ok(t.(intervals := t.intervals[r := Ended(t, rel, s.j.at)]))
  {
    hide Get, Ended;
  }

  lemma {:induction false} SameKeys(g: GraphState, h: GraphState)
    requires g.core.time == h.core.time && IdsAreKeys(g)
    ensures IdsAreKeys(h)
  {
  }

  lemma {:induction false} SameTimeLeavesOthers(s: State, g: GraphState, ids: seq<u64>)
    requires s.g.core.time.Ok? && g.core.time == s.g.core.time
    ensures LeavesOthers(s, g, ids)
  {
  }

  lemma {:induction false} EndedLeavesOthers(s: State, g: GraphState, r: u64, rel: Relationship)
    requires s.g.core.time.Ok? && IdsAreKeys(s.g) && rel.id == r
    requires r !in s.g.core.time.value.intervals ==> r in s.g.core.rels && rel == s.g.core.rels[r]
    requires var t := s.g.core.time.value;
      g.core.time == Ok(t.(intervals := t.intervals[r := Ended(t, rel, s.j.at)]))
    ensures LeavesOthers(s, g, [r]) && IdsAreKeys(g)
  {
    var t := s.g.core.time.value;
    assert Ended(t, rel, s.j.at).rel == if r in t.intervals then t.intervals[r].rel else rel;
    hide Ended;
    assert r in [r] && forall other :: other in [r] ==> other == r;
  }

  lemma {:induction false} DeletionLeavesOthers(s: State, r: u64)
    requires Sound(s) && s.g.core.time.Ok? && IdsAreKeys(s.g)
    ensures LeavesOthers(s, AfterDeleteRel(s, r).g, [r]) && IdsAreKeys(AfterDeleteRel(s, r).g)
  {
    hide Deleting, LeavesOthers;
    SameLeavesOthers(s, [r]);
    if Known(s.g, r).Some? {
      DeletingLeavesOthers(s, r, Known(s.g, r).value);
    }
  }

  lemma {:induction false} SameLeavesOthers(s: State, ids: seq<u64>)
    requires s.g.core.time.Ok?
    ensures LeavesOthers(s, s.g, ids)
  {
  }

  lemma {:induction false} DeletionsLeaveOthers(s: State, ids: seq<u64>)
    requires Sound(s) && s.g.core.time.Ok? && IdsAreKeys(s.g)
    ensures LeavesOthers(s, DeleteRels(s, ids).g, ids)
    decreases |ids|
  {
    hide AfterDeleteRel, Sound, IdsAreKeys, Refused;
    if ids != [] {
      var next := AfterDeleteRel(s, ids[0]);
      DeletionLeavesOthers(s, ids[0]);
      DeleteRelEffect(s, ids[0]);
      DeletionsLeaveOthers(next, ids[1..]);
      assert ids == [ids[0]] + ids[1..];
    }
  }

  // Deleting a node takes it, its relationships and all that was on record of
  // either; whatever does not touch it is read as before.
  lemma {:induction false} NodeDeletionIsSeen(s: State, id: u64)
    requires Sound(s) && s.g.core.time.Ok? && OpenAreLive(s.g) && IdsAreKeys(s.g)
    requires id in s.g.core.nodes && id !in s.g.mirrors
    ensures var g, before := AfterDeleteNode(s, id).g, s.g.core.time.value;
      && g.core.nodes == s.g.core.nodes - {id}
      && (forall r :: r in g.core.rels <==> r in s.g.core.rels && !Touches(s.g.core.rels[r], id))
      && (forall r | r in g.core.rels :: g.core.rels[r] == s.g.core.rels[r])
      && g.core.time.Ok?
      && (forall f: string, t: i64 :: AsOf(g, id, f, t) == None)
      && (forall other: u64, f: string, t: i64 | other != id :: AsOf(g, other, f, t) == AsOf(s.g, other, f, t))
      && (forall r | r in before.intervals && !Touches(before.intervals[r].rel, id) ::
            Get(g.core.time.value.intervals, r) == Some(before.intervals[r]))
      && (forall r | r in g.core.time.value.intervals :: r in before.intervals && !Touches(before.intervals[r].rel, id))
      && (forall t :: Visible(g.core.time.value, id, t))
      && (forall other, t | other != id :: Visible(g.core.time.value, other, t) <==> Visible(before, other, t))
  {
    hide DeleteRels, SortedIds, IntervalsWere, Incident, HistoriesOf, At, Sound;
    var attached := Attached(s.g.core.rels, id);
    var ids := SortedIds(attached);
    SortedIdsHolds(attached);
    DeletionsLeaveOthers(s, ids);
    DeleteRelsEffect(s, ids);
    var detached := DeleteRels(s, ids);
    forall r | r in attached && r in s.g.core.time.value.intervals
      ensures s.g.core.time.value.intervals[r].rel == s.g.core.rels[r]
    {
      assert OpenIsLive(s.g.core, r);
    }
    DeletedNodeTime(s, id, detached);
    forall r | r in s.g.core.time.value.intervals && !Touches(s.g.core.time.value.intervals[r].rel, id)
      ensures r !in ids
    {
    }
  }

  lemma {:induction false} DeletedNodeTime(s: State, id: u64, detached: State)
    requires detached == DeleteRels(s, SortedIds(Attached(s.g.core.rels, id)))
    requires id in s.g.core.nodes && id !in s.g.mirrors && detached.g.core.time.Ok?
    ensures AfterDeleteNode(s, id).g.core == DropNode(
      detached.g.core.(time := Ok(WithoutNode(detached.g.core.time.value, id))), id)
  {
    hide DeleteRels, SortedIds, IntervalsWere, Incident, HistoriesOf, DropNode;
    var t := detached.g.core.time.value;
    if !detached.g.HasData() {
      assert WithoutNode(t, id) == t;
    }
  }
}
