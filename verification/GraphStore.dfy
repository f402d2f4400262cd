/** The graph the program updates in place (zega/src/graph/mod.rs), with the
    adjacency it keeps so that a node's relationships need no scan. */
module GraphStore {
  import opened Graphs
  import opened HistFormat
  import opened Machine
  import opened Values
  import opened Wrappers

  // The relationships that leave and that enter one node.
  datatype Adjacency = Adjacency(out: set<u64>, inc: set<u64>)

  const APART := Adjacency({}, {})

  function AdjacencyOf(rels: map<u64, Relationship>, n: u64): Adjacency {
    Adjacency(set r | r in rels && rels[r].from == n, set r | r in rels && rels[r].to == n)
  }

  function Entry(adjacency: map<u64, Adjacency>, n: u64): Adjacency {
    if n in adjacency then adjacency[n] else APART
  }

  // Entries without relationships are dropped.
  function WithEntry(adjacency: map<u64, Adjacency>, n: u64, a: Adjacency): map<u64, Adjacency> {
    if a == APART then adjacency - {n} else adjacency[n := a]
  }

  function Join(adjacency: map<u64, Adjacency>, rel: Relationship): map<u64, Adjacency> {
    var from := Entry(adjacency, rel.from);
    var left := WithEntry(adjacency, rel.from, from.(out := from.out + {rel.id}));
    var to := Entry(left, rel.to);
    WithEntry(left, rel.to, to.(inc := to.inc + {rel.id}))
  }

  function Leave(adjacency: map<u64, Adjacency>, rel: Relationship): map<u64, Adjacency> {
    var from := Entry(adjacency, rel.from);
    var left := WithEntry(adjacency, rel.from, from.(out := from.out - {rel.id}));
    var to := Entry(left, rel.to);
    WithEntry(left, rel.to, to.(inc := to.inc - {rel.id}))
  }

  // Every relationship is stored under its own id.
  ghost predicate Keyed(rels: map<u64, Relationship>) {
    forall r | r in rels :: rels[r].id == r
  }

  // The adjacency of every node but `gone` is what a scan would find.
  ghost predicate AgreesBut(adjacency: map<u64, Adjacency>, rels: map<u64, Relationship>, gone: Option<u64>) {
    && (forall n: u64 :: gone != Some(n) ==> Entry(adjacency, n) == AdjacencyOf(rels, n))
    && (forall n: u64 :: n in adjacency ==> adjacency[n] != APART)
  }

  lemma {:induction false} JoinAgrees(adjacency: map<u64, Adjacency>, rels: map<u64, Relationship>, rel: Relationship)
    requires AgreesBut(adjacency, rels, None) && Keyed(rels) && rel.id !in rels
    ensures AgreesBut(Join(adjacency, rel), rels[rel.id := rel], None)
  {
    var after, now := Join(adjacency, rel), rels[rel.id := rel];
    forall n: u64
      ensures Entry(after, n) == AdjacencyOf(now, n)
    {
      var was, has := AdjacencyOf(rels, n), AdjacencyOf(now, n);
      assert Entry(adjacency, n) == was;
      assert has.out == if n == rel.from then was.out + {rel.id} else was.out;
      assert has.inc == if n == rel.to then was.inc + {rel.id} else was.inc;
      EntryOfJoin(adjacency, rel, n);
    }
  }

  lemma {:induction false} EntryOfJoin(adjacency: map<u64, Adjacency>, rel: Relationship, n: u64)
    ensures Entry(Join(adjacency, rel), n) ==
      Adjacency(Entry(adjacency, n).out + (if n == rel.from then {rel.id} else {}),
                Entry(adjacency, n).inc + (if n == rel.to then {rel.id} else {}))
  {
  }

  lemma {:induction false} EntryOfLeave(adjacency: map<u64, Adjacency>, rel: Relationship, n: u64)
    ensures Entry(Leave(adjacency, rel), n) ==
      Adjacency(Entry(adjacency, n).out - (if n == rel.from then {rel.id} else {}),
                Entry(adjacency, n).inc - (if n == rel.to then {rel.id} else {}))
  {
  }

  lemma {:induction false} LeaveAgrees(
      adjacency: map<u64, Adjacency>, rels: map<u64, Relationship>, id: u64, gone: Option<u64>)
    requires AgreesBut(adjacency, rels, gone) && Keyed(rels) && id in rels
    requires gone.Some? ==> gone.value !in adjacency
    ensures AgreesBut(Leave(adjacency, rels[id]), rels - {id}, gone)
    ensures gone.Some? ==> gone.value !in Leave(adjacency, rels[id])
  {
    var rel := rels[id];
    var after, now := Leave(adjacency, rel), rels - {id};
    forall n: u64
      ensures gone != Some(n) ==> Entry(after, n) == AdjacencyOf(now, n)
    {
      var was, has := AdjacencyOf(rels, n), AdjacencyOf(now, n);
      assert has.out == was.out - (if n == rel.from then {id} else {});
      assert has.inc == was.inc - (if n == rel.to then {id} else {});
      EntryOfLeave(adjacency, rel, n);
    }
  }

  lemma {:induction false} NoneAttached(adjacency: map<u64, Adjacency>, rels: map<u64, Relationship>, id: u64)
    requires AgreesBut(adjacency, rels, Some(id)) && id !in adjacency
    requires forall r | r in rels :: !Touches(rels[r], id)
    ensures AgreesBut(adjacency, rels, None)
  {
    assert AdjacencyOf(rels, id) == APART;
  }

  class Graph {
    var nodes: map<u64, Node>
    var rels: map<u64, Relationship>
    var adjacency: map<u64, Adjacency>
    var time: Result<Timeline, string>
    var nextNode: u64
    var nextRel: u64
    var encoded: bool
    var mirrors: map<u64, set<u64>>

    ghost predicate Valid()
      reads this
    {
      Keyed(rels) && AgreesBut(adjacency, rels, None)
    }

    ghost function Now(): GraphState
      reads this
    {
      GraphState(Core(nodes, rels, time), nextNode, nextRel, encoded, mirrors)
    }

    constructor ()
      ensures Valid()
      ensures Now() == GraphState(Core(map[], map[], Ok(Timeline(map[], map[], map[], map[]))), 1, 1, false, map[])
    {
      nodes, rels, adjacency, mirrors := map[], map[], map[], map[];
      time := Ok(Timeline(map[], map[], map[], map[]));
      nextNode, nextRel, encoded := 1, 1, false;
    }

    method RestoreNode(id: u64, node: Node)
      requires Valid()
      modifies this`nodes, this`nextNode
      ensures Valid() && Now() == Graphs.RestoreNode(old(Now()), id, node)
    {
      nodes := nodes[id := node];
      nextNode := Max(nextNode, After(id));
    }

    method CreateNode(node: Node) returns (id: u64)
      requires Valid()
      modifies this`nodes, this`nextNode
      ensures Valid() && Now() == CreateNodeIn(old(Now()), node) && id == old(nextNode)
    {
      id := nextNode;
      nextNode := (nextNode as int + 1) % TWO_64;
      RestoreNode(id, node);
    }

    method UpdateNode(id: u64, props: map<string, Value>)
      requires Valid()
      modifies this`nodes
      ensures Valid() && Now() == old(Now()).(core := MergeNode(old(Now()).core, id, props))
    {
      if id in nodes {
        nodes := nodes[id := nodes[id].(props := nodes[id].props + props)];
      }
    }

    method RestoreRelationship(rel: Relationship)
      requires Valid()
      modifies this`rels, this`adjacency, this`nextRel
      ensures Valid() && Now() == RestoreRel(old(Now()), rel)
    {
      if rel.id in rels {
        LeaveAgrees(adjacency, rels, rel.id, None);
        adjacency := Leave(adjacency, rels[rel.id]);
        ghost var others := rels - {rel.id};
        JoinAgrees(adjacency, others, rel);
        assert rels[rel.id := rel] == others[rel.id := rel];
      } else {
        JoinAgrees(adjacency, rels, rel);
      }
      rels := rels[rel.id := rel];
      adjacency := Join(adjacency, rel);
      nextRel := Max(nextRel, After(rel.id));
    }

    method CreateRelationship(kind: string, from: u64, to: u64, props: map<string, Value>) returns (id: u64)
      requires Valid()
      modifies this`rels, this`adjacency, this`nextRel
      ensures Valid() && Now() == CreateRelIn(old(Now()), kind, from, to, props) && id == old(nextRel)
    {
      id := nextRel;
      nextRel := (nextRel as int + 1) % TWO_64;
      RestoreRelationship(Relationship(id, kind, from, to, props));
    }

    method DeleteRelationship(id: u64)
      requires Valid()
      modifies this`rels, this`adjacency
      ensures Valid() && Now() == old(Now()).(core := DropRel(old(Now()).core, id))
    {
      if id in rels {
        LeaveAgrees(adjacency, rels, id, None);
        adjacency := Leave(adjacency, rels[id]);
        rels := rels - {id};
      } else {
        assert rels - {id} == rels;
      }
    }

    // The relationships of a node, each once and in order, without a scan.
    method NodeRelationshipIds(id: u64) returns (ids: seq<u64>)
      requires Valid()
      ensures ids == SortedIds(Attached(rels, id))
    {
      var a := Entry(adjacency, id);
      assert a == AdjacencyOf(rels, id);
      assert a.out + a.inc == Attached(rels, id);
      ids := SortedIds(a.out + a.inc);
    }

    // Drops the relationships in `ids`, the entry of node `id` being gone already.
    method DropAll(id: u64, ids: seq<u64>)
      requires Keyed(rels) && AgreesBut(adjacency, rels, Some(id)) && id !in adjacency
      modifies this`rels, this`adjacency
      ensures Keyed(rels) && AgreesBut(adjacency, rels, Some(id)) && id !in adjacency
      ensures rels == old(rels) - (set r | r in ids)
    {
      hide AgreesBut;
      var i := 0;
      assert rels - {} == rels;
      while i < |ids|
        invariant 0 <= i <= |ids|
        invariant Keyed(rels) && AgreesBut(adjacency, rels, Some(id)) && id !in adjacency
        invariant rels == old(rels) - (set r | r in ids[..i])
      {
        ghost var done := ids[..i + 1];
        assert (set r | r in done) == (set r | r in ids[..i]) + {ids[i]};
        if ids[i] in rels {
          LeaveAgrees(adjacency, rels, ids[i], Some(id));
          adjacency := Leave(adjacency, rels[ids[i]]);
          rels := rels - {ids[i]};
        }
        i := i + 1;
      }
      assert ids[..i] == ids;
    }

    method DeleteNode(id: u64)
      requires Valid()
      modifies this`nodes, this`rels, this`adjacency
      ensures Valid() && Now() == old(Now()).(core := DropNode(old(Now()).core, id))
    {
      hide SortedIds, Leave;
      if id in nodes {
        nodes := nodes - {id};
        var a := Entry(adjacency, id);
        assert a == AdjacencyOf(rels, id);
        var all := a.out + a.inc;
        assert all == Attached(rels, id);
        SortedIdsHolds(all);
        assert (set r | r in SortedIds(all)) == all;
        adjacency := adjacency - {id};
        DropAll(id, SortedIds(all));
        NoneAttached(adjacency, rels, id);
      }
    }

    method ResetNextIds(ids: (u64, u64))
      requires Valid()
      modifies this`nextNode, this`nextRel
      ensures Valid() && Now() == old(Now()).(nextNode := ids.0, nextRel := ids.1)
    {
      nextNode, nextRel := ids.0, ids.1;
    }

    // The histories, decoded and open to change.
    method SetTime(t: Timeline)
      requires Valid()
      modifies this`time, this`encoded
      ensures Valid() && Now() == WithTime(old(Now()), t)
    {
      time, encoded := Ok(t), false;
    }

    // Each named property goes into its history at `at`.
    method RecordHistory(id: u64, at: i64, props: map<string, Value>, names: seq<string>)
      requires Valid() && time.Ok?
      modifies this`time, this`encoded
      ensures Valid()
      ensures Now() == WithTime(old(Now()), old(time).value.(fields := Record(old(time).value.fields, id, at, props, names)))
    {
      hide RecordOne;
      var fields := time.value.fields;
      var i := 0;
      while i < |names|
        invariant 0 <= i <= |names|
        invariant Record(fields, id, at, props, names[i..]) == Record(time.value.fields, id, at, props, names)
      {
        assert names[i..][1..] == names[i + 1..];
        if names[i] in props {
          fields := RecordOne(fields, id, at, names[i], props[names[i]]);
        }
        i := i + 1;
      }
      SetTime(time.value.(fields := fields));
    }
  }
}
