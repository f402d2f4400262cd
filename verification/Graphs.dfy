/** The stored graph as values: what the writes of zega/src/graph/mod.rs do to
    it, and the valid-time records kept beside it.

    Labels, properties and adjacency are plain maps and sets here; the shapes,
    slots and indexes the program keeps them in are not part of this model. */
module Graphs {
  import opened HistFormat
  import opened Machine
  import opened ValidTime
  import opened Values
  import opened Wrappers

  datatype Node = Node(labels: seq<string>, props: map<string, Value>)

  type FieldKey = (u64, string)

  datatype Timeline = Timeline(
    fields: map<FieldKey, History>,
    intervals: map<u64, RelHistory>,
    appears: map<u64, i64>,
    ends: map<u64, i64>)
  {
    predicate IsEmpty() {
      fields == map[] && intervals == map[] && appears == map[] && ends == map[]
    }
  }

  // What reading the graph sees of it. `time` is an error when the stored
  // histories could not be decoded.
  datatype Core = Core(
    nodes: map<u64, Node>,
    rels: map<u64, Relationship>,
    time: Result<Timeline, string>)

  datatype GraphState = GraphState(
    core: Core,
    nextNode: u64,
    nextRel: u64,
    // Whether the histories are still held as the bytes they were loaded from.
    encoded: bool,
    // For every mirror node, the relationships that came with it.
    mirrors: map<u64, set<u64>>)
  {
    predicate HasData() {
      encoded || (core.time.Ok? && !core.time.value.IsEmpty())
    }

    predicate Mirrored(rel: u64) {
      exists m <- mirrors :: rel in mirrors[m]
    }

    function NextIds(): (u64, u64) {
      (nextNode, nextRel)
    }
  }

  function Max(a: int, b: int): int {
    if a < b then b else a
  }

  // `id.saturating_add(1)`.
  function After(id: u64): u64 {
    if id == U64_MAX then U64_MAX else id + 1
  }

  function Get<K, V>(m: map<K, V>, k: K): Option<V> {
    if k in m then Some(m[k]) else None
  }

  // Puts back what was under a key, or nothing.
  function Set<K, V>(m: map<K, V>, k: K, v: Option<V>): map<K, V> {
    match v
    case Some(x) => m[k := x]
    case None => m - {k}
  }

  // ----- nodes -----

  function PutNode(c: Core, id: u64, node: Node): Core {
    c.(nodes := c.nodes[id := node])
  }

  predicate Touches(r: Relationship, id: u64) {
    r.from == id || r.to == id
  }

  function Attached(rels: map<u64, Relationship>, id: u64): set<u64> {
    set r | r in rels && Touches(rels[r], id)
  }

  // Deleting a node takes its relationships with it.
  function DropNode(c: Core, id: u64): Core {
    if id in c.nodes then c.(nodes := c.nodes - {id}, rels := c.rels - Attached(c.rels, id)) else c
  }

  function MergeNode(c: Core, id: u64, props: map<string, Value>): Core {
    if id in c.nodes then PutNode(c, id, c.nodes[id].(props := c.nodes[id].props + props)) else c
  }

  function CreateNodeIn(g: GraphState, node: Node): GraphState {
    var id := g.nextNode;
    g.(core := PutNode(g.core, id, node), nextNode := Max((id + 1) % TWO_64, After(id)))
  }

  function RestoreNode(g: GraphState, id: u64, node: Node): GraphState {
    g.(core := PutNode(g.core, id, node), nextNode := Max(g.nextNode, After(id)))
  }

  // ----- relationships -----

  function PutRel(c: Core, rel: Relationship): Core {
    c.(rels := c.rels[rel.id := rel])
  }

  function DropRel(c: Core, id: u64): Core {
    c.(rels := c.rels - {id})
  }

  function CreateRelIn(g: GraphState, kind: string, from: u64, to: u64, props: map<string, Value>): GraphState {
    var id := g.nextRel;
    g.(core := PutRel(g.core, Relationship(id, kind, from, to, props)), nextRel := Max((id + 1) % TWO_64, After(id)))
  }

  function RestoreRel(g: GraphState, rel: Relationship): GraphState {
    g.(core := PutRel(g.core, rel), nextRel := Max(g.nextRel, After(rel.id)))
  }

  // ----- valid time -----

  // Histories change only once decoded, and are no longer the loaded bytes.
  function WithTime(g: GraphState, t: Timeline): GraphState {
    g.(core := g.core.(time := Ok(t)), encoded := false)
  }

  function HistoriesOf(fields: map<FieldKey, History>, id: u64): map<string, History> {
    map k | k in fields && k.0 == id :: k.1 := fields[k]
  }

  function WithoutHistories(fields: map<FieldKey, History>, id: u64): map<FieldKey, History> {
    map k | k in fields && k.0 != id :: fields[k]
  }

  function WithHistories(fields: map<FieldKey, History>, id: u64, of: map<string, History>): map<FieldKey, History> {
    WithoutHistories(fields, id) + (map f | f in of :: (id, f) := of[f])
  }

  function RecordOne(fields: map<FieldKey, History>, id: u64, at: i64, f: string, v: Value): map<FieldKey, History> {
    fields[(id, f) := if (id, f) in fields then Inserted(fields[(id, f)], at, v) else NewHistory(at, v)]
  }

  function Record(
      fields: map<FieldKey, History>, id: u64, at: i64, props: map<string, Value>, names: seq<string>)
      : map<FieldKey, History>
    decreases |names|
  {
    if names == [] then fields
    else
      var f := names[0];
      Record(if f in props then RecordOne(fields, id, at, f, props[f]) else fields, id, at, props, names[1..])
  }

  // The value a history holds last.
  function Newest(h: History): Value {
    if h.changes == [] then Null else h.changes[|h.changes| - 1].value
  }

  // `props`, with each recorded field as its history has it last.
  function Current(
      fields: map<FieldKey, History>, id: u64, props: map<string, Value>, names: seq<string>): map<string, Value>
    decreases |names|
  {
    if names == [] then props
    else
      var f := names[0];
      Current(fields, id, if (id, f) in fields then props[f := Newest(fields[(id, f)])] else props, names[1..])
  }

  function WithoutNode(t: Timeline, id: u64): Timeline {
    Timeline(
      WithoutHistories(t.fields, id),
      map r | r in t.intervals && !Touches(t.intervals[r].rel, id) :: t.intervals[r],
      t.appears - {id},
      t.ends - {id})
  }

  function WithLifetime(t: Timeline, id: u64, appears: Option<i64>, ends: Option<i64>): Timeline {
    t.(appears := Set(t.appears, id, appears), ends := Set(t.ends, id, ends))
  }

  // ----- ids in order -----

  lemma {:induction false} FindLeast(ids: set<u64>) returns (m: u64)
    requires ids != {}
    ensures m in ids && forall k <- ids :: m <= k
    decreases ids
  {
    var x :| x in ids;
    var others := ids - {x};
    assert forall k <- ids :: k == x || k in others;
    if others == {} {
      m := x;
    } else {
      var n := FindLeast(others);
      m := if x < n then x else n;
    }
  }

  lemma {:induction false} LeastExists(ids: set<u64>)
    requires ids != {}
    ensures exists m <- ids :: forall k <- ids :: m <= k
  {
    var m := FindLeast(ids);
  }

  function Least(ids: set<u64>): (m: u64)
    requires ids != {}
    ensures m in ids && forall k <- ids :: m <= k
  {
    LeastExists(ids);
    var m :| m in ids && forall k <- ids :: m <= k;
    m
  }

  function SortedIds(ids: set<u64>): seq<u64> {
    if ids == {} then [] else [Least(ids)] + SortedIds(ids - {Least(ids)})
  }

  lemma {:induction false} SortedIdsHolds(ids: set<u64>)
    ensures forall id :: id in SortedIds(ids) <==> id in ids
    ensures forall i, j :: 0 <= i < j < |SortedIds(ids)| ==> SortedIds(ids)[i] < SortedIds(ids)[j]
    decreases ids
  {
    if ids != {} {
      var m := Least(ids);
      var rest := SortedIds(ids - {m});
      SortedIdsHolds(ids - {m});
      hide Least;
      forall j | 0 <= j < |rest|
        ensures m < rest[j]
      {
        assert rest[j] in rest;
      }
    }
  }
}
