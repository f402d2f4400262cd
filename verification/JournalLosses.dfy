/** Deleting a node, and whole statements: rolling back restores the graph
    exactly if and only if no deleted node still had a relationship that the
    journal had refused to delete. */
module JournalLosses {
  import opened Graphs
  import opened HistFormat
  import opened JournalRollBack
  import opened Journals
  import opened Machine
  import opened ValidTime
  import opened Values
  import opened Wrappers

  // Whether the journal refuses to delete a live relationship.
  predicate Refused(s: State, rel: u64) {
    || s.g.Mirrored(rel)
    || (s.g.core.time.Ok? && rel in s.g.core.time.value.intervals
        && s.j.at < s.g.core.time.value.intervals[rel].from)
  }

  // The relationships that deleting a node drops though their deletion is refused.
  function LostWith(s: State, id: u64): set<u64> {
    if id in s.g.mirrors || id !in s.g.core.nodes || s.g.core.time.Err? then {}
    else set r | r in Attached(s.g.core.rels, id) && Refused(s, r)
  }

  function Lost(s: State, call: Call): set<u64> {
    match call
    case CallDeleteNode(id) => LostWith(s, id)
    case _ => {}
  }

  // A relationship that was deleted before another under its id was lost comes
  // back as it was.
  function LostIn(s: State, calls: seq<Call>): set<u64>
    decreases |calls|
  {
    if calls == [] then {}
    else
      var next := Step(s, calls[0]);
      Lost(s, calls[0]) + (LostIn(next, calls[1..]) - GivenBack(Since(s, next)))
  }

  predicate AllPermitted(s: State, calls: seq<Call>)
    decreases |calls|
  {
    calls == [] || (Permitted(s, calls[0]) && AllPermitted(Step(s, calls[0]), calls[1..]))
  }

  // ----- deleting relationships one after another -----

  // What deletions of relationships leave alone.
  predicate SameBut(a: State, b: State) {
    && a.g.core.nodes == b.g.core.nodes
    && a.g.nextNode == b.g.nextNode && a.g.nextRel == b.g.nextRel && a.g.mirrors == b.g.mirrors
    && a.j.schema == b.j.schema && a.j.at == b.j.at
    && (a.g.core.time.Ok? <==> b.g.core.time.Ok?)
    && (a.g.core.time.Err? ==> a.g == b.g)
  }

  // What deletions would give back is not there any more.
  predicate GivesBackDeleted(a: State, b: State) {
    && |a.j.undo| <= |b.j.undo| && b.j.undo[..|a.j.undo|] == a.j.undo
    && GivenBack(Since(a, b)) !! b.g.core.rels.Keys
  }

  lemma {:induction false} GivesBackNothing(s: State)
    ensures GivesBackDeleted(s, s)
  {
    assert Since(s, s) == [];
  }

  lemma {:induction false} GivesBackInTurn(a: State, b: State, c: State)
    requires GivesBackDeleted(a, b) && GivesBackDeleted(b, c) && c.g.core.rels.Keys <= b.g.core.rels.Keys
    ensures GivesBackDeleted(a, c)
  {
    hide GivenBack;
    assert Since(a, c) == Since(a, b) + Since(b, c);
    GivenBackConcat(Since(a, b), Since(b, c));
  }

  lemma {:induction false} DeleteRelGivesBack(s: State, id: u64)
    requires Closed(s.g.core)
    ensures GivesBackDeleted(s, AfterDeleteRel(s, id))
  {
    hide Ended, Get;
    var to := AfterDeleteRel(s, id);
    if to.j.undo == s.j.undo {
      assert Since(s, to) == [];
    } else {
      assert forall u <- Since(s, to) :: u.DeletedRel? ==> u.rel.id == id;
      assert id !in to.g.core.rels;
    }
  }

  lemma {:induction false} DeleteRelEffect(s: State, id: u64)
    requires Sound(s)
    ensures var to := AfterDeleteRel(s, id);
      && SameBut(s, to) && Sound(to)
      && to.g.core.rels == s.g.core.rels - (if s.g.core.time.Err? || Refused(s, id) then {} else {id})
      && (forall other :: other != id ==> (Refused(to, other) <==> Refused(s, other)))
  {
    hide Ended;
    var to := AfterDeleteRel(s, id);
    if Refused(s, id) || s.g.core.time.Err? || Known(s.g, id).None? {
      assert s.g.core.rels - {} == s.g.core.rels;
      if Known(s.g, id).None? {
        assert s.g.core.rels - {id} == s.g.core.rels;
      }
    } else {
      assert to.g.core.rels == s.g.core.rels - {id};
    }
  }

  lemma {:induction false} DeleteRelsEffect(s: State, ids: seq<u64>)
    requires Sound(s) && forall i, j :: 0 <= i < j < |ids| ==> ids[i] != ids[j]
    ensures var to := DeleteRels(s, ids);
      && SameBut(s, to) && Sound(to)
      && to.g.core.rels == s.g.core.rels - (set r | r in ids && s.g.core.time.Ok? && !Refused(s, r))
      && GivesBackDeleted(s, to)
    decreases |ids|
  {
    hide AfterDeleteRel, Refused, Sound, GivesBackDeleted;
    if ids == [] {
      GivesBackNothing(s);
      assert s.g.core.rels == s.g.core.rels - (set r | r in ids && s.g.core.time.Ok? && !Refused(s, r));
    } else {
      var next := AfterDeleteRel(s, ids[0]);
      DeleteRelEffect(s, ids[0]);
      SoundIsClosed(s);
      DeleteRelGivesBack(s, ids[0]);
      DeleteRelsEffect(next, ids[1..]);
      GivesBackInTurn(s, next, DeleteRels(s, ids));
      assert ids == [ids[0]] + ids[1..];
      assert forall r <- ids[1..] :: r != ids[0];
      assert (set r | r in ids && s.g.core.time.Ok? && !Refused(s, r)) ==
        (if s.g.core.time.Err? || Refused(s, ids[0]) then {} else {ids[0]})
        + (set r | r in ids[1..] && next.g.core.time.Ok? && !Refused(next, r));
    }
  }

  lemma {:induction false} SoundIsClosed(s: State)
    requires Sound(s)
    ensures Closed(s.g.core)
  {
  }

  lemma {:induction false} DeleteRelsUndoes(s: State, ids: seq<u64>)
    requires Sound(s)
    ensures Undoes(s, DeleteRels(s, ids), {})
    decreases |ids|
  {
    hide AfterDeleteRel, Undoes;
    if ids == [] {
      NothingToUndo(s, s);
    } else {
      var next := AfterDeleteRel(s, ids[0]);
      DeleteRelUndoes(s, ids[0]);
      DeleteRelEffect(s, ids[0]);
      DeleteRelsUndoes(next, ids[1..]);
      UndoesExactlyInTurn(s, next, DeleteRels(s, ids));
    }
  }

  // ----- forgetting a node's histories -----

  lemma {:induction false} IntervalsAreUndone(c: Core, t: Timeline, ids: seq<u64>)
    requires c.time.Ok?
    requires forall k :: k !in ids ==> Get(c.time.value.intervals, k) == Get(t.intervals, k)
    ensures RollBack(c, IntervalsWere(t, ids)) == c.(time := Ok(c.time.value.(intervals := t.intervals)))
    decreases |ids|
  {
    var m := c.time.value.intervals;
    if ids == [] {
      SameGets(m, t.intervals);
      assert IntervalsWere(t, ids) == [];
    } else {
      var n := |ids| - 1;
      var undo := IntervalsWere(t, ids);
      assert undo[n] == IntervalWas(ids[n], Get(t.intervals, ids[n]));
      assert undo[..n] == IntervalsWere(t, ids[..n]);
      var next := UndoOne(c, undo[n]);
      forall k | k !in ids[..n]
        ensures Get(next.time.value.intervals, k) == Get(t.intervals, k)
      {
        assert k in ids ==> k == ids[n];
      }
      IntervalsAreUndone(next, t, ids[..n]);
    }
  }

  lemma {:induction false} SameGets<K(!new), V(!new)>(m: map<K, V>, n: map<K, V>)
    requires forall k :: Get(m, k) == Get(n, k)
    ensures m == n
  {
    forall k
      ensures k in m <==> k in n
      ensures k in m ==> m[k] == n[k]
    {
      assert Get(m, k) == Get(n, k);
    }
  }

  lemma {:induction false} ForgottenHistoriesAreUndone(c: Core, id: u64)
    requires c.time.Ok?
    ensures var t := c.time.value;
      UndoOne(c.(time := Ok(t.(fields := WithoutHistories(t.fields, id)))), HistoriesWere(id, HistoriesOf(t.fields, id)))
      == c
  {
    hide WithHistories, HistoriesOf;
    var fields := c.time.value.fields;
    assert WithoutHistories(WithoutHistories(fields, id), id) == WithoutHistories(fields, id);
    HistoriesBack(fields, WithoutHistories(fields, id), id);
  }

  lemma {:induction false} ForgottenLifetimeIsUndone(c: Core, id: u64)
    requires c.time.Ok?
    ensures var t := c.time.value;
      UndoOne(c.(time := Ok(t.(appears := t.appears - {id}, ends := t.ends - {id}))),
              LifetimeWas(id, Get(t.appears, id), Get(t.ends, id))) == c
  {
    hide Set, Get;
    var t := c.time.value;
    assert t.appears - {id} - {id} == t.appears - {id} && t.ends - {id} - {id} == t.ends - {id};
    SetBack(t.appears, t.appears - {id}, id);
    SetBack(t.ends, t.ends - {id}, id);
  }

  lemma {:induction false} ForgottenIntervalsAreUndone(c: Core, id: u64)
    requires c.time.Ok?
    ensures var t := c.time.value;
      RollBack(c.(time := Ok(t.(intervals := WithoutNode(t, id).intervals))),
               IntervalsWere(t, SortedIds(Incident(t, id)))) == c
  {
    hide RollBack, IntervalsWere, SortedIds;
    var t := c.time.value;
    SortedIdsHolds(Incident(t, id));
    var after := c.(time := Ok(t.(intervals := WithoutNode(t, id).intervals)));
    IntervalsAreUndone(after, t, SortedIds(Incident(t, id)));
  }

  lemma {:induction false} ForgetNodeUndoes(s: State, id: u64, t: Timeline)
    requires s.g.core.time == Ok(t)
    ensures Undoes(s, ForgetNode(s, id, t), {})
    ensures ForgetNode(s, id, t).g.core.rels == s.g.core.rels && ForgetNode(s, id, t).g.core.nodes == s.g.core.nodes
    ensures |s.j.undo| <= |ForgetNode(s, id, t).j.undo| && ForgetNode(s, id, t).j.undo[..|s.j.undo|] == s.j.undo
    ensures GivenBack(Since(s, ForgetNode(s, id, t))) == {}
  {
    hide Undoes, UndoOne, RollBack, SortedIds, HistoriesOf, WithoutHistories, Get, Incident;
    var histories := HistoriesWere(id, HistoriesOf(t.fields, id));
    var lifetime := LifetimeWas(id, Get(t.appears, id), Get(t.ends, id));
    var intervals := IntervalsWere(t, SortedIds(Incident(t, id)));
    var forgotten, after := WithoutNode(t, id), ForgetNode(s, id, t);
    var t1 := t.(fields := forgotten.fields);
    var t2 := t1.(appears := forgotten.appears, ends := forgotten.ends);
    var one := State(WithTime(s.g, t1), Push(s.j, [histories], []));
    ForgottenHistoriesAreUndone(s.g.core, id);
    UndoesOne(s, one, histories);
    var two := State(WithTime(s.g, t2), Push(one.j, [lifetime], []));
    ForgottenLifetimeIsUndone(one.g.core, id);
    UndoesOne(one, two, lifetime);
    SameIncident(t, t2, id);
    ForgottenIntervalsAreUndone(two.g.core, id);
    assert s.j.undo + ([histories, lifetime] + intervals) == s.j.undo + [histories] + [lifetime] + intervals;
    assert two.g.core.rels - {} == two.g.core.rels;
    UndoesBy(two, after, intervals, {});
    UndoesExactlyInTurn(s, one, two);
    UndoesExactlyInTurn(s, two, after);
  }

  lemma {:induction false} SameIncident(t: Timeline, u: Timeline, id: u64)
    requires t.intervals == u.intervals
    ensures Incident(t, id) == Incident(u, id)
    ensures WithoutNode(t, id).intervals == WithoutNode(u, id).intervals
    ensures forall ids :: IntervalsWere(t, ids) == IntervalsWere(u, ids)
  {
  }

  // ----- deleting a node -----

  lemma {:induction false} DroppedIsUndone(c: Core, id: u64)
    requires id in c.nodes
    ensures UndoOne(DropNode(c, id), Replaced(id, c.nodes[id])) == Minus(c, Attached(c.rels, id))
  {
    assert (c.nodes - {id})[id := c.nodes[id]] == c.nodes;
  }

  lemma {:induction false} DropUndoes(s: State, id: u64)
    requires id in s.g.core.nodes
    ensures var to := State(s.g.(core := DropNode(s.g.core, id)), Push(s.j, [Replaced(id, s.g.core.nodes[id])], [DeleteNode(id)]));
      Undoes(s, to, Attached(s.g.core.rels, id))
  {
    hide Undoes, UndoOne, Attached, DropNode;
    var undo := [Replaced(id, s.g.core.nodes[id])];
    var to := State(s.g.(core := DropNode(s.g.core, id)), Push(s.j, undo, [DeleteNode(id)]));
    DroppedIsUndone(s.g.core, id);
    assert RollBack(to.g.core, undo) == RollBack(UndoOne(to.g.core, undo[0]), []);
    UndoesBy(s, to, undo, Attached(s.g.core.rels, id));
  }

  // What is still attached once every attached relationship was to be deleted.
  lemma {:induction false} RefusedStayAttached(s: State, id: u64)
    requires Sound(s) && s.g.core.time.Ok? && id in s.g.core.nodes && id !in s.g.mirrors
    ensures var detached := DeleteRels(s, SortedIds(Attached(s.g.core.rels, id)));
      && SameBut(s, detached) && Sound(detached) && GivesBackDeleted(s, detached)
      && Attached(detached.g.core.rels, id) == LostWith(s, id)
  {
    hide DeleteRels, SortedIds, Refused, Sound, GivenBack;
    var all := Attached(s.g.core.rels, id);
    SortedIdsHolds(all);
    DeleteRelsEffect(s, SortedIds(all));
  }

  lemma {:induction false} BrokenDeletesNothing(s: State, id: u64)
    requires Sound(s) && s.g.core.time.Err?
    ensures Undoes(s, AfterDeleteNode(s, id), {})
  {
    hide DeleteRels, SortedIds, Undoes, Attached;
    var after := AfterDeleteNode(s, id);
    var ids := SortedIds(Attached(s.g.core.rels, id));
    SortedIdsHolds(Attached(s.g.core.rels, id));
    DeleteRelsEffect(s, ids);
    DeleteRelsUndoes(s, ids);
    if id in s.g.mirrors || id !in s.g.core.nodes {
      NothingToUndo(s, after);
    } else {
      NothingToUndo(DeleteRels(s, ids), after);
      UndoesExactlyInTurn(s, DeleteRels(s, ids), after);
    }
  }

  lemma {:induction false} DeleteNodeUndoes(s: State, id: u64)
    requires Sound(s)
    ensures Undoes(s, AfterDeleteNode(s, id), LostWith(s, id))
  {
    if s.g.core.time.Err? {
      BrokenDeletesNothing(s, id);
    } else if id in s.g.mirrors || id !in s.g.core.nodes {
      hide Undoes;
      NothingToUndo(s, AfterDeleteNode(s, id));
    } else {
      LiveNodeUndoes(s, id);
    }
  }

  lemma {:induction false} LiveNodeUndoes(s: State, id: u64)
    requires Sound(s) && s.g.core.time.Ok? && id !in s.g.mirrors && id in s.g.core.nodes
    ensures Undoes(s, AfterDeleteNode(s, id), LostWith(s, id))
  {
    hide DeleteRels, SortedIds, Undoes, Attached, LostWith, ForgetNode, DropNode, GivenBack;
    var detached := DeleteRels(s, SortedIds(Attached(s.g.core.rels, id)));
    RefusedStayAttached(s, id);
    DeleteRelsUndoes(s, SortedIds(Attached(s.g.core.rels, id)));
    var forgotten := if detached.g.HasData() then ForgetNode(detached, id, detached.g.core.time.value) else detached;
    if detached.g.HasData() {
      ForgetNodeUndoes(detached, id, detached.g.core.time.value);
    } else {
      NothingToUndo(detached, forgotten);
      NothingGivenBack();
    }
    UndoesExactlyInTurn(s, detached, forgotten);
    DropUndoes(forgotten, id);
    AttachedAreLive(detached.g.core.rels, id);
    var none: set<u64> := {};
    assert Since(s, forgotten) == Since(s, detached) + Since(detached, forgotten);
    GivenBackConcat(Since(s, detached), Since(detached, forgotten));
    assert none + (LostWith(s, id) - GivenBack(Since(s, forgotten))) == LostWith(s, id);
    UndoesInTurn(s, forgotten, AfterDeleteNode(s, id), none, LostWith(s, id));
  }

  lemma {:induction false} AttachedAreLive(rels: map<u64, Relationship>, id: u64)
    ensures forall r <- Attached(rels, id) :: r in rels
  {
  }

  // ----- every call -----

  lemma {:induction false} StepUndoes(s: State, call: Call)
    requires Sound(s) && Permitted(s, call)
    ensures Undoes(s, Step(s, call), Lost(s, call))
  {
    hide Undoes, AfterCreateNode, AfterUpdateNode, AfterDeleteNode, AfterCreateRel, AfterDeleteRel;
    match call
    case Configure(_, _) => NothingToUndo(s, Step(s, call));
    case CallCreateNode(labels, props) => CreateNodeUndoes(s, labels, props);
    case CallUpdateNode(id, props) => UpdateNodeUndoes(s, id, props);
    case CallDeleteNode(id) => DeleteNodeUndoes(s, id);
    case CallCreateRel(kind, from, to, props) => CreateRelUndoes(s, kind, from, to, props);
    case CallDeleteRel(id) => DeleteRelUndoes(s, id);
  }

  lemma {:induction false} CreateNodeKeepsSound(s: State, labels: seq<string>, props: Props)
    requires Sound(s)
    ensures Sound(AfterCreateNode(s, labels, props))
  {
    hide TemporalNames, Record, HistoriesOf, RecordLifetime;
    LifetimeKeepsSound(Inserting(s, labels, props), s.g.nextNode);
  }

  lemma {:induction false} UpdateNodeKeepsSound(s: State, id: u64, props: Props)
    requires Sound(s)
    ensures Sound(AfterUpdateNode(s, id, props))
  {
    hide TemporalNames, Record, HistoriesOf, RecordLifetime, Current;
    if id !in s.g.mirrors && id in s.g.core.nodes {
      LifetimeKeepsSound(Merging(s, id, props), id);
    }
  }

  lemma {:induction false} CreateRelKeepsSound(s: State, kind: string, from: u64, to: u64, props: Props)
    requires Sound(s) && from in s.g.core.nodes && to in s.g.core.nodes
    ensures Sound(AfterCreateRel(s, kind, from, to, props))
  {
    hide Get;
  }

  lemma {:induction false} DropKeepsSound(s: State, id: u64)
    requires Sound(s) && id in s.g.core.nodes
    ensures Sound(State(s.g.(core := DropNode(s.g.core, id)),
                        Push(s.j, [Replaced(id, s.g.core.nodes[id])], [DeleteNode(id)])))
  {
  }

  lemma {:induction false} ForgetKeepsSound(s: State, id: u64, t: Timeline)
    requires Sound(s) && s.g.core.time == Ok(t)
    ensures Sound(ForgetNode(s, id, t))
  {
    hide WithoutNode, SortedIds, Incident, HistoriesOf, Get;
  }

  lemma {:induction false} DeleteNodeKeepsSound(s: State, id: u64)
    requires Sound(s)
    ensures Sound(AfterDeleteNode(s, id))
  {
    hide DeleteRels, SortedIds, Attached, DropNode, ForgetNode, Sound;
    if id in s.g.mirrors || id !in s.g.core.nodes {
      SameGraphKeepsSound(s, AfterDeleteNode(s, id));
    } else {
      var ids := SortedIds(Attached(s.g.core.rels, id));
      SortedIdsHolds(Attached(s.g.core.rels, id));
      DeleteRelsEffect(s, ids);
      var detached := DeleteRels(s, ids);
      if detached.g.HasData() && detached.g.core.time.Err? {
        SameGraphKeepsSound(detached, AfterDeleteNode(s, id));
      } else if detached.g.HasData() {
        var t := detached.g.core.time.value;
        ForgetKeepsSound(detached, id, t);
        ForgetNodeUndoes(detached, id, t);
        DropKeepsSound(ForgetNode(detached, id, t), id);
      } else {
        DropKeepsSound(detached, id);
      }
    }
  }

  lemma {:induction false} SameGraphKeepsSound(s: State, to: State)
    requires Sound(s) && s.g == to.g
    ensures Sound(to)
  {
  }

  lemma {:induction false} StepKeepsSound(s: State, call: Call)
    requires Sound(s) && Permitted(s, call)
    ensures Sound(Step(s, call))
  {
    hide AfterCreateNode, AfterUpdateNode, AfterDeleteNode, AfterCreateRel, AfterDeleteRel;
    match call
    case Configure(_, _) =>
    case CallCreateNode(labels, props) => CreateNodeKeepsSound(s, labels, props);
    case CallUpdateNode(id, props) => UpdateNodeKeepsSound(s, id, props);
    case CallDeleteNode(id) => DeleteNodeKeepsSound(s, id);
    case CallCreateRel(kind, from, to, props) => CreateRelKeepsSound(s, kind, from, to, props);
    case CallDeleteRel(id) => DeleteRelEffect(s, id);
  }

  // ----- what no call does -----

  // Mirrors and what the journal was opened with stay.
  predicate Onward(s: State, to: State) {
    to.g.mirrors == s.g.mirrors && to.j.nextIds == s.j.nextIds
  }

  lemma {:induction false} LifetimeGoesOnward(s: State, id: u64)
    ensures Onward(s, RecordLifetime(s, id))
  {
    hide DateOf, FirstLifespan, Reversed, WithLifetime, Get;
  }

  lemma {:induction false} DeleteRelGoesOnward(s: State, id: u64)
    ensures Onward(s, AfterDeleteRel(s, id))
  {
    hide Ended, Get;
  }

  lemma {:induction false} DeleteRelsGoOnward(s: State, ids: seq<u64>)
    ensures Onward(s, DeleteRels(s, ids))
    decreases |ids|
  {
    hide AfterDeleteRel;
    if ids != [] {
      DeleteRelGoesOnward(s, ids[0]);
      DeleteRelsGoOnward(AfterDeleteRel(s, ids[0]), ids[1..]);
    }
  }

  lemma {:induction false} OnwardInTurn(a: State, b: State, c: State)
    requires Onward(a, b) && Onward(b, c)
    ensures Onward(a, c)
  {
  }

  lemma {:induction false} CreateNodeGoesOnward(s: State, labels: seq<string>, props: Props)
    ensures Onward(s, AfterCreateNode(s, labels, props))
  {
    hide TemporalNames, Record, HistoriesOf, RecordLifetime;
    var inserted := Inserting(s, labels, props);
    LifetimeGoesOnward(inserted, s.g.nextNode);
    OnwardInTurn(s, inserted, RecordLifetime(inserted, s.g.nextNode));
  }

  lemma {:induction false} UpdateNodeGoesOnward(s: State, id: u64, props: Props)
    ensures Onward(s, AfterUpdateNode(s, id, props))
  {
    hide TemporalNames, Record, HistoriesOf, Current, RecordLifetime;
    if id !in s.g.mirrors && id in s.g.core.nodes {
      LifetimeGoesOnward(Merging(s, id, props), id);
      OnwardInTurn(s, Merging(s, id, props), AfterUpdateNode(s, id, props));
    }
  }

  lemma {:induction false} DeleteNodeGoesOnward(s: State, id: u64)
    ensures Onward(s, AfterDeleteNode(s, id))
  {
    hide DeleteRels, SortedIds, WithoutNode, IntervalsWere, Incident, HistoriesOf, Get;
    DeleteRelsGoOnward(s, SortedIds(Attached(s.g.core.rels, id)));
  }

  lemma {:induction false} StepGoesOnward(s: State, call: Call)
    ensures Onward(s, Step(s, call))
  {
    hide AfterCreateNode, AfterUpdateNode, AfterDeleteNode, AfterDeleteRel, Get;
    match call
    case Configure(_, _) =>
    case CallCreateNode(labels, props) => CreateNodeGoesOnward(s, labels, props);
    case CallUpdateNode(id, props) => UpdateNodeGoesOnward(s, id, props);
    case CallDeleteNode(id) => DeleteNodeGoesOnward(s, id);
    case CallCreateRel(_, _, _, _) =>
    case CallDeleteRel(id) => DeleteRelGoesOnward(s, id);
  }

  lemma {:induction false} RunGoesOnward(s: State, calls: seq<Call>)
    ensures Onward(s, Run(s, calls))
    decreases |calls|
  {
    hide Step, Permitted;
    if calls != [] {
      StepGoesOnward(s, calls[0]);
      RunGoesOnward(Step(s, calls[0]), calls[1..]);
    }
  }

  // ----- whole statements -----

  // Any number of writes, taken back from the last to the first, leave the
  // graph as it was but for what the deleted nodes lost.
  lemma {:induction false} RunUndoes(s: State, calls: seq<Call>)
    requires Sound(s) && AllPermitted(s, calls)
    ensures Undoes(s, Run(s, calls), LostIn(s, calls)) && Sound(Run(s, calls))
    decreases |calls|
  {
    hide Undoes, Step, Lost, Permitted, Closed, GivenBack;
    if calls == [] {
      NothingToUndo(s, s);
    } else {
      var next := Step(s, calls[0]);
      StepUndoes(s, calls[0]);
      StepKeepsSound(s, calls[0]);
      RunUndoes(next, calls[1..]);
      UndoesInTurn(s, next, Run(s, calls), Lost(s, calls[0]), LostIn(next, calls[1..]));
    }
  }

  // The graph a statement finds.
  predicate SoundGraph(g: GraphState) {
    Sound(State(g, NewJournal(g, 0)))
  }

  // Rolling back a whole statement: relationships lost with deleted nodes stay
  // lost, everything else is as before.
  lemma {:induction false} RollBackRestores(g: GraphState, now: i64, calls: seq<Call>)
    requires SoundGraph(g) && AllPermitted(State(g, NewJournal(g, now)), calls)
    ensures var start := State(g, NewJournal(g, now));
      var back := RolledBack(Run(start, calls));
      && back.core == Minus(g.core, LostIn(start, calls))
      && back.NextIds() == g.NextIds() && back.mirrors == g.mirrors
      && (back.core == g.core <==> LostIn(start, calls) !! g.core.rels.Keys)
  {
    hide AllPermitted, LostIn, RollBack, Run, Closed;
    var start := State(g, NewJournal(g, now));
    var end := Run(start, calls);
    RunUndoes(start, calls);
    RunGoesOnward(start, calls);
    assert end.j.undo[0..] == end.j.undo;
    var lost := LostIn(start, calls);
    if lost !! g.core.rels.Keys {
      assert g.core.rels - lost == g.core.rels;
    } else {
      var r :| r in lost && r in g.core.rels;
      assert r !in (g.core.rels - lost);
    }
  }

  // ----- two statements whose roll back is not exact -----

  // Two people who know each other from time 100 on.
  function Acquaintance(): GraphState {
    var rel := Relationship(1, "KNOWS", 1, 2, map[]);
    GraphState(
      Core(map[1 := Node(["Person"], map[]), 2 := Node(["Person"], map[])], map[1 := rel],
           Ok(Timeline(map[], map[1 := RelHistory(rel, 100, None)], map[], map[]))),
      3, 2, false, map[])
  }

  lemma {:induction false} OneCall(s: State, call: Call)
    ensures Run(s, [call]) == Step(s, call)
    ensures LostIn(s, [call]) == Lost(s, call)
    ensures AllPermitted(s, [call]) <==> Permitted(s, call)
  {
    hide Step, Lost, Permitted;
    assert [call][1..] == [];
    assert Run(Step(s, call), []) == Step(s, call);
    assert LostIn(Step(s, call), []) == {} && AllPermitted(Step(s, call), []);
  }

  // Deleting a node before one of its relationships started: the statement
  // fails, and the relationship is gone all the same.
  lemma {:induction false} RefusedDeletionLosesARelationship()
    ensures var start, calls := State(Acquaintance(), NewJournal(Acquaintance(), 0)), [CallDeleteNode(1)];
      && SoundGraph(Acquaintance()) && AllPermitted(start, calls)
      && Run(start, calls).j.Failed()
      && RolledBack(Run(start, calls)).core == Minus(Acquaintance().core, {1})
      && 1 in Acquaintance().core.rels
  {
    hide Run, LostIn, AllPermitted, AfterDeleteNode, SortedIds, RolledBack;
    var g := Acquaintance();
    var start := State(g, NewJournal(g, 0));
    assert Attached(g.core.rels, 1) == {1} && Refused(start, 1);
    OneCall(start, CallDeleteNode(1));
    RollBackRestores(g, 0, [CallDeleteNode(1)]);
    SortedIdOfOne(1);
    RefusedDeletionFails(start, 1, 1);
  }

  lemma {:induction false} SortedIdOfOne(id: u64)
    ensures SortedIds({id}) == [id]
  {
    assert {id} - {id} == {};
  }

  lemma {:induction false} RefusedDeletionFails(s: State, id: u64, rel: u64)
    requires Sound(s) && s.g.core.time.Ok? && id !in s.g.mirrors && id in s.g.core.nodes
    requires SortedIds(Attached(s.g.core.rels, id)) == [rel] && Refused(s, rel)
    ensures AfterDeleteNode(s, id).j.Failed()
  {
    var detached := AfterDeleteRel(s, rel);
    assert DeleteRels(s, [rel]) == DeleteRels(detached, []) == detached;
  }

  // ----- the last id -----

  // A statement that only creates something is taken back exactly if and only
  // if the id it is given is free.
  lemma {:induction false} OneNodeIsTakenBackExactly(g: GraphState, now: i64, labels: seq<string>, props: Props)
    requires SoundGraph(g)
    ensures var start := State(g, NewJournal(g, now));
      RolledBack(Run(start, [CallCreateNode(labels, props)])).core == g.core <==> g.nextNode !in g.core.nodes
  {
    hide Run, RollBack, Closed, AfterCreateNode;
    var start, call := State(g, NewJournal(g, now)), CallCreateNode(labels, props);
    OneCall(start, call);
    OneStepBack(start, call);
    NodeCreationIsUndoneExactly(start, labels, props);
  }

  lemma {:induction false} OneRelationshipIsTakenBackExactly(
      g: GraphState, now: i64, kind: string, from: u64, to: u64, props: Props)
    ensures var start := State(g, NewJournal(g, now));
      RolledBack(Run(start, [CallCreateRel(kind, from, to, props)])).core == g.core <==> g.nextRel !in g.core.rels
  {
    hide Run, RollBack, AfterCreateRel;
    var start, call := State(g, NewJournal(g, now)), CallCreateRel(kind, from, to, props);
    OneCall(start, call);
    OneStepBack(start, call);
    RelCreationIsUndoneExactly(start, kind, from, to, props);
  }

  lemma {:induction false} OneStepBack(start: State, call: Call)
    requires start.j.undo == []
    ensures Undoes(start, Step(start, call), {}) <==> RolledBack(Step(start, call)).core == start.g.core
  {
    hide RollBack, Step;
    assert start.g.core.rels - {} == start.g.core.rels;
    assert Step(start, call).j.undo[0..] == Step(start, call).j.undo;
  }

  // The last ids are in use, and none is left.
  function Full(): GraphState {
    GraphState(
      Core(map[U64_MAX := Node(["Person"], map[])],
           map[U64_MAX := Relationship(U64_MAX, "KNOWS", U64_MAX, U64_MAX, map[])],
           Ok(Timeline(map[], map[], map[], map[]))),
      U64_MAX, U64_MAX, false, map[])
  }

  // Creating a node or a relationship then replaces what has the last id, and
  // taking the creation back removes it.
  lemma {:induction false} TheLastIdIsNotTakenBack()
    ensures SoundGraph(Full()) && U64_MAX in Full().core.nodes && U64_MAX in Full().core.rels
    ensures var start := State(Full(), NewJournal(Full(), 0));
      && U64_MAX !in RolledBack(Run(start, [CallCreateNode(["Person"], map[])])).core.nodes
      && U64_MAX !in RolledBack(Run(start, [CallCreateRel("KNOWS", U64_MAX, U64_MAX, map[])])).core.rels
  {
    hide Run, RollBack, AfterCreateNode, AfterCreateRel;
    var start := State(Full(), NewJournal(Full(), 0));
    OneCall(start, CallCreateNode(["Person"], map[]));
    UsedNodeIdIsNotGivenBack(start, ["Person"], map[]);
    OneCall(start, CallCreateRel("KNOWS", U64_MAX, U64_MAX, map[]));
    UsedRelIdIsNotGivenBack(start, "KNOWS", U64_MAX, U64_MAX, map[]);
    var a, b := AfterCreateNode(start, ["Person"], map[]), AfterCreateRel(start, "KNOWS", U64_MAX, U64_MAX, map[]);
    assert Since(start, a) == a.j.undo && Since(start, b) == b.j.undo;
  }
}
