/** One statement's writes (zega/src/journal.rs), as functions from the graph
    and the journal before a call to both after it. */
module Journals {
  import opened Graphs
  import opened HistFormat
  import opened Machine
  import opened ValidTime
  import opened Values
  import opened Wrappers
  import Dates

  type Props = map<string, Value>

  datatype Operation =
    | InsertNode(node: u64, labels: seq<string>, props: Props)
    | InsertNodeAt(node: u64, labels: seq<string>, props: Props, at: i64, names: seq<string>)
    | UpdateNode(node: u64, props: Props)
    | UpdateNodeAt(node: u64, props: Props, at: i64, names: seq<string>)
    | DeleteNode(node: u64)
    | InsertRel(rel: Relationship)
    | InsertRelAt(rel: Relationship, at: i64)
    | DeleteRel(id: u64)
    | EndRelAt(rel: Relationship, at: i64)
    | SetLifetime(node: u64, appears: Option<i64>, ends: Option<i64>)
      // A change to the linked-data metadata, which is not part of this model.
    | Linked(bytes: seq<byte>)

  datatype Undo =
    | IntervalWas(id: u64, interval: Option<RelHistory>)
    | LifetimeWas(node: u64, appears: Option<i64>, ends: Option<i64>)
    | HistoriesWere(node: u64, histories: map<string, History>)
    | Created(node: u64)
    | Replaced(node: u64, was: Node)
    | CreatedRel(id: u64)
    | DeletedRel(rel: Relationship)

  datatype TemporalField = TemporalField(ty: string, field: string)

  datatype Lifespan = Lifespan(ty: string, appears: Option<string>, ends: Option<string>)

  // What a schema says about time.
  datatype TimeSchema = TimeSchema(
    fields: seq<TemporalField>,
    rels: seq<string>,
    lifespans: seq<Lifespan>)

  datatype JournalState = JournalState(
    ops: seq<Operation>,
    undo: seq<Undo>,
    nextIds: (u64, u64),
    schema: TimeSchema,
    at: i64,
    historyError: Option<string>,
    writeError: Option<string>)
  {
    predicate Failed() {
      historyError.Some? || writeError.Some?
    }
  }

  datatype State = State(g: GraphState, j: JournalState)

  const READ_ONLY := "mirror facts are read-only"
  const REVERSED := "ends before it starts"

  // ----- the small steps every write is made of -----

  function Push(j: JournalState, undo: seq<Undo>, ops: seq<Operation>): JournalState {
    j.(undo := j.undo + undo, ops := j.ops + ops)
  }

  function HistoryFails(s: State, e: string): State {
    s.(j := s.j.(historyError := Some(e)))
  }

  function WriteFails(s: State): State {
    s.(j := s.j.(writeError := Some(READ_ONLY)))
  }

  // ----- which fields of a write are temporal -----

  function TemporalNames(fields: seq<TemporalField>, labels: seq<string>, props: Props): seq<string> {
    if fields == [] then []
    else
      (if fields[0].ty in labels && fields[0].field in props then [fields[0].field] else [])
      + TemporalNames(fields[1..], labels, props)
  }

  // ----- lifetimes -----

  function FirstLifespan(lifespans: seq<Lifespan>, labels: seq<string>): Option<Lifespan> {
    if lifespans == [] then None
    else if lifespans[0].ty in labels then Some(lifespans[0])
    else FirstLifespan(lifespans[1..], labels)
  }

  function DateOf(node: Node, field: Option<string>): Option<i64> {
    match field
    case None => None
    case Some(f) =>
      if f in node.props && node.props[f].Str? && Dates.Date(node.props[f].text).Ok? then
        Dates.DateIsInRange(node.props[f].text);
        Some(Dates.Date(node.props[f].text).value)
      else None
  }

  predicate Reversed(appears: Option<i64>, ends: Option<i64>) {
    appears.Some? && ends.Some? && appears.value > ends.value
  }

  function RecordLifetime(s: State, id: u64): State {
    var core := s.g.core;
    if id !in core.nodes then s
    else
      match FirstLifespan(s.j.schema.lifespans, core.nodes[id].labels)
      case None => s
      case Some(lifespan) =>
        var appears, ends := DateOf(core.nodes[id], lifespan.appears), DateOf(core.nodes[id], lifespan.ends);
        if Reversed(appears, ends) then HistoryFails(s, REVERSED)
        else
          match core.time
          case Err(e) => HistoryFails(s, e)
          case Ok(t) =>
            State(
              WithTime(s.g, WithLifetime(t, id, appears, ends)),
              Push(s.j, [LifetimeWas(id, Get(t.appears, id), Get(t.ends, id))], [SetLifetime(id, appears, ends)]))
  }

  // ----- nodes -----

  function Inserting(s: State, labels: seq<string>, props: Props): State {
    var id := s.g.nextNode;
    var g := CreateNodeIn(s.g, Node(labels, props));
    var names := TemporalNames(s.j.schema.fields, labels, props);
    if names == [] then State(g, Push(s.j, [Created(id)], [InsertNode(id, labels, props)]))
    else
      match g.core.time
      case Err(e) => HistoryFails(State(g, Push(s.j, [Created(id)], [])), e)
      case Ok(t) =>
        State(
          WithTime(g, t.(fields := Record(t.fields, id, s.j.at, props, names))),
          Push(s.j, [Created(id), HistoriesWere(id, HistoriesOf(t.fields, id))],
               [InsertNodeAt(id, labels, props, s.j.at, names)]))
  }

  function AfterCreateNode(s: State, labels: seq<string>, props: Props): State {
    RecordLifetime(Inserting(s, labels, props), s.g.nextNode)
  }

  function Merging(s: State, id: u64, props: Props): State
    requires id in s.g.core.nodes
  {
    var before := s.g.core.nodes[id];
    var names := TemporalNames(s.j.schema.fields, before.labels, props);
    if names == [] then
      State(s.g.(core := MergeNode(s.g.core, id, props)), Push(s.j, [Replaced(id, before)], [UpdateNode(id, props)]))
    else
      match s.g.core.time
      case Err(e) => HistoryFails(s, e)
      case Ok(t) =>
        var fields := Record(t.fields, id, s.j.at, props, names);
        var g := WithTime(s.g, t.(fields := fields));
        State(
          g.(core := MergeNode(g.core, id, Current(fields, id, props, names))),
          Push(s.j, [HistoriesWere(id, HistoriesOf(t.fields, id)), Replaced(id, before)],
               [UpdateNodeAt(id, props, s.j.at, names)]))
  }

  function AfterUpdateNode(s: State, id: u64, props: Props): State {
    if id in s.g.mirrors then WriteFails(s)
    else if id !in s.g.core.nodes then s
    else RecordLifetime(Merging(s, id, props), id)
  }

  // ----- relationships -----

  function AfterCreateRel(s: State, kind: string, from: u64, to: u64, props: Props): State {
    var id := s.g.nextRel;
    var rel := Relationship(id, kind, from, to, props);
    var g := CreateRelIn(s.g, kind, from, to, props);
    if kind !in s.j.schema.rels then State(g, Push(s.j, [CreatedRel(id)], [InsertRel(rel)]))
    else
      match g.core.time
      case Err(e) => HistoryFails(State(g, Push(s.j, [CreatedRel(id)], [])), e)
      case Ok(t) =>
        State(
          WithTime(g, t.(intervals := t.intervals[id := RelHistory(rel, s.j.at, None)])),
          Push(s.j, [CreatedRel(id), IntervalWas(id, Get(t.intervals, id))], [InsertRelAt(rel, s.j.at)]))
  }

  // The interval of a relationship that ends at `at`.
  function Ended(t: Timeline, rel: Relationship, at: i64): RelHistory {
    (if rel.id in t.intervals then t.intervals[rel.id] else RelHistory(rel, I64_MIN, None)).(to := Some(at))
  }

  function WithEnd(t: Timeline, rel: Relationship, at: i64): Timeline {
    t.(intervals := t.intervals[rel.id := Ended(t, rel, at)])
  }

  // The relationship to delete: the live one, or what its interval says it was.
  function Known(g: GraphState, id: u64): Option<Relationship> {
    if id in g.core.rels then Some(g.core.rels[id])
    else if g.core.time.Ok? && id in g.core.time.value.intervals then Some(g.core.time.value.intervals[id].rel)
    else None
  }

  // Deletes a relationship that is known to have been `rel`.
  function Deleting(s: State, id: u64, rel: Relationship): State {
    var g := s.g;
    var gone := if id in g.core.rels then [DeletedRel(rel)] else [];
    if rel.kind in s.j.schema.rels || (g.core.time.Ok? && id in g.core.time.value.intervals) then
      match g.core.time
      case Err(e) => HistoryFails(s, e)
      case Ok(t) =>
        // By now the histories are open to change, so the loaded bytes are given up.
        if id in t.intervals && s.j.at < t.intervals[id].from then HistoryFails(State(WithTime(g, t), s.j), REVERSED)
        else
          var ended := WithTime(g, t.(intervals := t.intervals[id := Ended(t, rel, s.j.at)]));
          State(
            ended.(core := DropRel(ended.core, id)),
            Push(s.j, [IntervalWas(id, Get(t.intervals, id))] + gone, [EndRelAt(rel, s.j.at)]))
    else State(g.(core := DropRel(g.core, id)), Push(s.j, gone, [DeleteRel(id)]))
  }

  function AfterDeleteRel(s: State, id: u64): State {
    if s.g.Mirrored(id) then WriteFails(s)
    else if s.g.HasData() && s.g.core.time.Err? then HistoryFails(s, s.g.core.time.error)
    else
      match Known(s.g, id)
      case None => s
      case Some(rel) => Deleting(s, id, rel)
  }

  function DeleteRels(s: State, ids: seq<u64>): State
    decreases |ids|
  {
    if ids == [] then s else DeleteRels(AfterDeleteRel(s, ids[0]), ids[1..])
  }

  function IntervalsWere(t: Timeline, ids: seq<u64>): seq<Undo> {
    seq(|ids|, i requires 0 <= i < |ids| => IntervalWas(ids[i], Get(t.intervals, ids[i])))
  }

  function Incident(t: Timeline, id: u64): set<u64> {
    set r | r in t.intervals && Touches(t.intervals[r].rel, id)
  }

  function ForgetNode(s: State, id: u64, t: Timeline): State {
    State(
      WithTime(s.g, WithoutNode(t, id)),
      Push(s.j,
           [HistoriesWere(id, HistoriesOf(t.fields, id)), LifetimeWas(id, Get(t.appears, id), Get(t.ends, id))]
           + IntervalsWere(t, SortedIds(Incident(t, id))), []))
  }

  function AfterDeleteNode(s: State, id: u64): State {
    if id in s.g.mirrors then WriteFails(s)
    else if id !in s.g.core.nodes then s
    else
      var before := s.g.core.nodes[id];
      var detached := DeleteRels(s, SortedIds(Attached(s.g.core.rels, id)));
      if detached.g.HasData() && detached.g.core.time.Err? then HistoryFails(detached, detached.g.core.time.error)
      else
        var forgotten :=
          if detached.g.HasData() then ForgetNode(detached, id, detached.g.core.time.value) else detached;
        State(
          forgotten.g.(core := DropNode(forgotten.g.core, id)),
          Push(forgotten.j, [Replaced(id, before)], [DeleteNode(id)]))
  }

  // ----- statements -----

  datatype Call =
    | Configure(schema: TimeSchema, at: i64)
    | CallCreateNode(labels: seq<string>, props: Props)
    | CallUpdateNode(node: u64, props: Props)
    | CallDeleteNode(node: u64)
    | CallCreateRel(kind: string, from: u64, to: u64, props: Props)
    | CallDeleteRel(id: u64)

  function Step(s: State, call: Call): State {
    match call
    case Configure(schema, at) => s.(j := s.j.(schema := schema, at := at))
    case CallCreateNode(labels, props) => AfterCreateNode(s, labels, props)
    case CallUpdateNode(node, props) => AfterUpdateNode(s, node, props)
    case CallDeleteNode(node) => AfterDeleteNode(s, node)
    case CallCreateRel(kind, from, to, props) => AfterCreateRel(s, kind, from, to, props)
    case CallDeleteRel(id) => AfterDeleteRel(s, id)
  }

  function Run(s: State, calls: seq<Call>): State
    decreases |calls|
  {
    if calls == [] then s else Run(Step(s, calls[0]), calls[1..])
  }

  const NO_SCHEMA := TimeSchema([], [], [])

  function NewJournal(g: GraphState, now: i64): JournalState {
    JournalState([], [], g.NextIds(), NO_SCHEMA, now, None, None)
  }

  // ----- taking a statement back -----

  function UndoOne(c: Core, u: Undo): Core {
    match u
    case IntervalWas(id, interval) =>
      if c.time.Ok? then c.(time := Ok(c.time.value.(intervals := Set(c.time.value.intervals, id, interval)))) else c
    case LifetimeWas(node, appears, ends) =>
      if c.time.Ok? then c.(time := Ok(WithLifetime(c.time.value, node, appears, ends))) else c
    case HistoriesWere(node, histories) =>
      if c.time.Ok?
      then c.(time := Ok(c.time.value.(fields := WithHistories(c.time.value.fields, node, histories)))) else c
    case Created(node) => DropNode(c, node)
    case Replaced(node, was) => PutNode(c, node, was)
    case CreatedRel(id) => DropRel(c, id)
    case DeletedRel(rel) => PutRel(c, rel)
  }

  function RollBack(c: Core, undo: seq<Undo>): Core
    decreases |undo|
  {
    if undo == [] then c else RollBack(UndoOne(c, undo[|undo| - 1]), undo[..|undo| - 1])
  }

  predicate TouchesTime(u: Undo) {
    u.IntervalWas? || u.LifetimeWas? || u.HistoriesWere?
  }

  function RolledBack(s: State): GraphState {
    s.g.(core := RollBack(s.g.core, s.j.undo), nextNode := s.j.nextIds.0, nextRel := s.j.nextIds.1,
         encoded := s.g.encoded && forall u <- s.j.undo :: !TouchesTime(u))
  }
}
