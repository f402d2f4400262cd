/** Statement after statement (`atomically` in zega/src/journal.rs): each is in
    the log as a whole or not at all, and the graph in memory is always what
    replaying the log gives. */
module JournalStatements {
  import opened Graphs
  import opened HistFormat
  import opened JournalLosses
  import opened JournalReplay
  import opened JournalRollBack
  import opened JournalTime
  import opened Journals
  import opened Machine
  import opened ValidTime
  import opened Values
  import opened Wrappers

  // The linked-data record made of a statement: from the graph, what was
  // logged and the relationships removed. It may refuse the statement.
  type Recorder = (GraphState, seq<Operation>, seq<Relationship>) -> Result<Option<seq<byte>>, string>

  datatype Statement = Statement(
    now: i64,
    calls: seq<Call>,
    // Whether the statement itself ends in an error.
    fails: bool,
    recorder: Recorder,
    // Whether the write-ahead log takes the entry.
    accepted: bool)

  datatype Outcome = Outcome(g: GraphState, entry: Option<seq<Operation>>, done: bool)

  function Removed(undo: seq<Undo>): seq<Relationship> {
    if undo == [] then []
    else (if undo[0].DeletedRel? then [undo[0].rel] else []) + Removed(undo[1..])
  }

  function Atomically(g: GraphState, st: Statement): Outcome {
    var s := Run(State(g, NewJournal(g, st.now)), st.calls);
    if s.j.Failed() || st.fails then Outcome(RolledBack(s), None, false)
    else
      match st.recorder(s.g, s.j.ops, Removed(s.j.undo))
      case Err(_) => Outcome(RolledBack(s), None, false)
      case Ok(record) =>
        var ops := s.j.ops + if record.Some? then [Linked(record.value)] else [];
        if ops == [] then Outcome(s.g, None, true)
        else if !st.accepted then Outcome(RolledBack(s), None, false)
        else Outcome(s.g, Some(ops), true)
  }

  type Log = seq<seq<Operation>>

  function ReplayLog(g: GraphState, log: Log): Result<GraphState, string>
    decreases |log|
  {
    if log == [] then Ok(g)
    else
      var before :- ReplayLog(g, log[..|log| - 1]);
      ReplayAll(before, log[|log| - 1])
  }

  // ----- histories that cannot be decoded stay as they are -----

  predicate Broken(s: State) {
    s.g.core.time.Err? && s.g.encoded && forall u <- s.j.undo :: !TouchesTime(u)
  }

  predicate StaysAsDecoded(s: State, to: State) {
    (Broken(s) ==> Broken(to)) && (s.g.core.time.Ok? ==> to.g.core.time.Ok?)
  }

  lemma {:induction false} LifetimeStays(s: State, id: u64)
    ensures StaysAsDecoded(s, RecordLifetime(s, id))
  {
    hide DateOf, FirstLifespan, Reversed, WithLifetime, Get;
  }

  lemma {:induction false} NodeWritesStay(s: State, id: u64, labels: seq<string>, props: Props)
    ensures StaysAsDecoded(s, AfterCreateNode(s, labels, props))
    ensures StaysAsDecoded(s, AfterUpdateNode(s, id, props))
  {
    hide TemporalNames, Record, Current, HistoriesOf, RecordLifetime;
    LifetimeStays(Inserting(s, labels, props), s.g.nextNode);
    if id in s.g.core.nodes {
      LifetimeStays(Merging(s, id, props), id);
    }
  }

  lemma {:induction false} DeleteRelStays(s: State, id: u64)
    ensures StaysAsDecoded(s, AfterDeleteRel(s, id))
  {
    hide Ended, Get;
  }

  lemma {:induction false} DeleteRelsStay(s: State, ids: seq<u64>)
    ensures StaysAsDecoded(s, DeleteRels(s, ids))
    decreases |ids|
  {
    hide AfterDeleteRel, Broken;
    if ids != [] {
      DeleteRelStays(s, ids[0]);
      DeleteRelsStay(AfterDeleteRel(s, ids[0]), ids[1..]);
    }
  }

  lemma {:induction false} DeleteNodeStays(s: State, id: u64)
    ensures StaysAsDecoded(s, AfterDeleteNode(s, id))
  {
    hide DeleteRels, SortedIds, IntervalsWere, Incident, HistoriesOf, WithoutNode, Get;
    DeleteRelsStay(s, SortedIds(Attached(s.g.core.rels, id)));
  }

  lemma {:induction false} StepStays(s: State, call: Call)
    ensures StaysAsDecoded(s, Step(s, call))
  {
    hide AfterCreateNode, AfterUpdateNode, AfterDeleteNode, AfterDeleteRel, Get;
    match call
    case Configure(_, _) =>
    case CallCreateNode(labels, props) => NodeWritesStay(s, 0, labels, props);
    case CallUpdateNode(id, props) => NodeWritesStay(s, id, [], props);
    case CallDeleteNode(id) => DeleteNodeStays(s, id);
    case CallCreateRel(_, _, _, _) =>
    case CallDeleteRel(id) => DeleteRelStays(s, id);
  }

  lemma {:induction false} RunStays(s: State, calls: seq<Call>)
    ensures StaysAsDecoded(s, Run(s, calls))
    decreases |calls|
  {
    hide Step, Broken;
    if calls != [] {
      StepStays(s, calls[0]);
      RunStays(Step(s, calls[0]), calls[1..]);
    }
  }

  // ----- one statement -----

  // What the store keeps between statements.
  predicate Kept(g: GraphState) {
    SoundGraph(g) && OrderlyGraph(g)
  }

  lemma {:induction false} RunKeepsOrder(s: State, calls: seq<Call>)
    requires Sound(s) && OrderlyGraph(s.g) && AllPermitted(s, calls)
    ensures OrderlyGraph(Run(s, calls).g)
    decreases |calls|
  {
    hide Step, Sound, OrderlyGraph, Permitted;
    if calls != [] {
      StepKeepsSound(s, calls[0]);
      StepKeepsOrder(s, calls[0]);
      RunKeepsOrder(Step(s, calls[0]), calls[1..]);
    }
  }

  lemma {:induction false} SoundStart(g: GraphState, now: i64)
    requires SoundGraph(g)
    ensures Sound(State(g, NewJournal(g, now)))
  {
    hide Closed;
  }

  lemma {:induction false} SoundEnd(s: State)
    requires Sound(s)
    ensures SoundGraph(s.g)
  {
    hide Closed;
  }

  // The statement's creations are given free ids and ends that exist.
  predicate Permits(g: GraphState, st: Statement) {
    AllPermitted(State(g, NewJournal(g, st.now)), st.calls)
  }

  function LostBy(g: GraphState, st: Statement): set<u64> {
    LostIn(State(g, NewJournal(g, st.now)), st.calls)
  }

  // A statement that was refused left nothing in the log, and in the graph
  // nothing but its losses.
  lemma {:induction false} RefusedLeavesNothing(g: GraphState, st: Statement)
    requires SoundGraph(g) && Permits(g, st) && !Atomically(g, st).done
    ensures var after := Atomically(g, st);
      && after.entry.None?
      && Same(after.g, g.(core := Minus(g.core, LostBy(g, st))))
      && (Same(after.g, g) <==> LostBy(g, st) !! g.core.rels.Keys)
  {
    hide Run, LostIn, AllPermitted, RollBack, Closed, Removed;
    var start := State(g, NewJournal(g, st.now));
    RollBackRestores(g, st.now, st.calls);
    RunStays(start, st.calls);
    BrokenFromTheStart(g, st.now);
  }

  lemma {:induction false} BrokenFromTheStart(g: GraphState, now: i64)
    requires SoundGraph(g)
    ensures g.core.time.Err? ==> Broken(State(g, NewJournal(g, now))) && g.encoded
  {
    hide Closed;
  }

  // A statement that was done is in the log as one entry, which replays to what
  // is in memory; without an entry, nothing changed.
  lemma {:induction false} DoneIsLogged(g: GraphState, st: Statement)
    requires Kept(g) && Permits(g, st) && Atomically(g, st).done
    ensures var after := Atomically(g, st);
      && (after.entry.None? ==> Same(after.g, g))
      && (after.entry.Some? ==>
            var replayed := ReplayAll(g, after.entry.value);
            replayed.Ok? && Same(replayed.value, after.g))
  {
    hide Run, AllPermitted, OrderlyGraph, Same, Removed, Sound, SoundGraph;
    var start := State(g, NewJournal(g, st.now));
    SoundStart(g, st.now);
    var s := Run(start, st.calls);
    RunLogs(start, st.calls);
    assert s.j.ops[0..] == s.j.ops;
    var record := st.recorder(s.g, s.j.ops, Removed(s.j.undo)).value;
    if record.Some? {
      LinkedReplaysToItself(g, s.j.ops, record.value);
    } else {
      assert s.j.ops + [] == s.j.ops;
    }
    if Atomically(g, st).entry.None? {
      SameBack(g, s.g);
    }
  }

  lemma {:induction false} SameBack(a: GraphState, b: GraphState)
    requires Same(a, b)
    ensures Same(b, a)
  {
  }

  lemma {:induction false} LinkedReplaysToItself(g: GraphState, ops: seq<Operation>, bytes: seq<byte>)
    requires ReplayAll(g, ops).Ok?
    ensures ReplayAll(g, ops + [Linked(bytes)]) == ReplayAll(g, ops)
  {
    ReplayConcat(g, ops, [Linked(bytes)]);
    var h := ReplayAll(g, ops).value;
    assert ReplayAll(h, [Linked(bytes)]) == ReplayAll(h, []);
  }

  // Whatever the outcome, and whatever was lost, the next statement finds a
  // graph in order.
  lemma {:induction false} StatementKeeps(g: GraphState, st: Statement)
    requires Kept(g) && Permits(g, st)
    ensures Kept(Atomically(g, st).g)
  {
    if Atomically(g, st).done {
      hide Run, AllPermitted, OrderlyGraph, Removed, Sound, SoundGraph;
      var start := State(g, NewJournal(g, st.now));
      SoundStart(g, st.now);
      RunUndoes(start, st.calls);
      SoundEnd(Run(start, st.calls));
      RunKeepsOrder(start, st.calls);
    } else {
      hide Atomically, Permits, LostBy, Kept;
      RefusedLeavesNothing(g, st);
      KeptWithout(g, Atomically(g, st).g, LostBy(g, st));
    }
  }

  lemma {:induction false} KeptWithout(g: GraphState, h: GraphState, lost: set<u64>)
    requires Kept(g) && Same(h, g.(core := Minus(g.core, lost)))
    ensures Kept(h)
  {
    hide Orderly;
    assert Closed(h.core);
  }

  // ----- live values, under one schema -----

  predicate AllUnder(s: State, calls: seq<Call>, fields: seq<TemporalField>)
    decreases |calls|
  {
    calls == [] || (Under(s, calls[0], fields) && AllUnder(Step(s, calls[0]), calls[1..], fields))
  }

  lemma {:induction false} RunKeepsLive(s: State, calls: seq<Call>, fields: seq<TemporalField>)
    requires Sound(s) && LiveIsNewest(s.g, fields) && AllPermitted(s, calls) && AllUnder(s, calls, fields)
    ensures LiveIsNewest(Run(s, calls).g, fields)
    decreases |calls|
  {
    hide Step, Sound, LiveIsNewest, Permitted, Under;
    if calls != [] {
      StepKeepsSound(s, calls[0]);
      StepKeepsLive(s, calls[0], fields);
      RunKeepsLive(Step(s, calls[0]), calls[1..], fields);
    }
  }

  predicate IsUnder(g: GraphState, st: Statement, fields: seq<TemporalField>) {
    AllUnder(State(g, NewJournal(g, st.now)), st.calls, fields)
  }

  // Done or refused, a statement leaves every recorded field's live value the
  // newest one recorded.
  lemma {:induction false} StatementKeepsLive(g: GraphState, st: Statement, fields: seq<TemporalField>)
    requires SoundGraph(g) && Permits(g, st) && LiveIsNewest(g, fields) && IsUnder(g, st, fields)
    ensures LiveIsNewest(Atomically(g, st).g, fields)
  {
    if Atomically(g, st).done {
      hide Run, AllPermitted, AllUnder, LiveIsNewest, Removed, Sound, SoundGraph;
      SoundStart(g, st.now);
      RunKeepsLive(State(g, NewJournal(g, st.now)), st.calls, fields);
    } else {
      hide Atomically, Permits, IsUnder, LostBy, SoundGraph, Newest, IsTemporal;
      RefusedLeavesNothing(g, st);
    }
  }

  // ----- any run of statements -----

  function GraphAfter(g: GraphState, sts: seq<Statement>): GraphState
    decreases |sts|
  {
    if sts == [] then g else GraphAfter(Atomically(g, sts[0]).g, sts[1..])
  }

  function Appended(log: Log, entry: Option<seq<Operation>>): Log {
    if entry.Some? then log + [entry.value] else log
  }

  function LogAfter(g: GraphState, log: Log, sts: seq<Statement>): Log
    decreases |sts|
  {
    if sts == [] then log
    else
      var after := Atomically(g, sts[0]);
      LogAfter(after.g, Appended(log, after.entry), sts[1..])
  }

  predicate AllPermit(g: GraphState, sts: seq<Statement>)
    decreases |sts|
  {
    sts != [] ==> Permits(g, sts[0]) && AllPermit(Atomically(g, sts[0]).g, sts[1..])
  }

  predicate AllAreUnder(g: GraphState, sts: seq<Statement>, fields: seq<TemporalField>)
    decreases |sts|
  {
    sts != [] ==> IsUnder(g, sts[0], fields) && AllAreUnder(Atomically(g, sts[0]).g, sts[1..], fields)
  }

  // No refused statement lost a relationship the graph had before it.
  predicate LosesNothing(g: GraphState, sts: seq<Statement>)
    decreases |sts|
  {
    sts != [] ==>
      && (!Atomically(g, sts[0]).done ==> LostBy(g, sts[0]) !! g.core.rels.Keys)
      && LosesNothing(Atomically(g, sts[0]).g, sts[1..])
  }

  predicate IsReplayed(base: GraphState, log: Log, g: GraphState) {
    var replayed := ReplayLog(base, log);
    replayed.Ok? && Same(replayed.value, g)
  }

  // Before and after every statement, the log replays to what is in memory.
  predicate AlwaysReplayed(base: GraphState, g: GraphState, log: Log, sts: seq<Statement>)
    decreases |sts|
  {
    && IsReplayed(base, log, g)
    && (sts != [] ==>
          var after := Atomically(g, sts[0]);
          AlwaysReplayed(base, after.g, Appended(log, after.entry), sts[1..]))
  }

  lemma {:induction false} StatementsKeep(g: GraphState, sts: seq<Statement>)
    requires Kept(g) && AllPermit(g, sts)
    ensures Kept(GraphAfter(g, sts))
    decreases |sts|
  {
    hide Atomically, Kept, Permits;
    if sts != [] {
      StatementKeeps(g, sts[0]);
      StatementsKeep(Atomically(g, sts[0]).g, sts[1..]);
    }
  }

  lemma {:induction false} StatementsKeepLive(g: GraphState, sts: seq<Statement>, fields: seq<TemporalField>)
    requires Kept(g) && AllPermit(g, sts) && LiveIsNewest(g, fields) && AllAreUnder(g, sts, fields)
    ensures LiveIsNewest(GraphAfter(g, sts), fields)
    decreases |sts|
  {
    hide Atomically, SoundGraph, OrderlyGraph, Permits, LiveIsNewest, IsUnder;
    if sts != [] {
      StatementKeeps(g, sts[0]);
      StatementKeepsLive(g, sts[0], fields);
      StatementsKeepLive(Atomically(g, sts[0]).g, sts[1..], fields);
    }
  }

  lemma {:induction false} DoneIsReplayed(base: GraphState, g: GraphState, log: Log, st: Statement)
    requires Kept(g) && Permits(g, st) && IsReplayed(base, log, g) && Atomically(g, st).done
    ensures IsReplayed(base, Appended(log, Atomically(g, st).entry), Atomically(g, st).g)
  {
    hide Atomically, Kept, Same, Permits;
    var after, now := Atomically(g, st), ReplayLog(base, log).value;
    DoneIsLogged(g, st);
    if after.entry.Some? {
      var next := log + [after.entry.value];
      assert next[..|next| - 1] == log;
      SameReplayAll(now, g, after.entry.value);
      SameInTurn(ReplayAll(now, after.entry.value).value, ReplayAll(g, after.entry.value).value, after.g);
    } else {
      SameBack(after.g, g);
      SameInTurn(now, g, after.g);
    }
  }

  lemma {:induction false} RefusedIsReplayedExactly(base: GraphState, g: GraphState, log: Log, st: Statement)
    requires SoundGraph(g) && Permits(g, st) && IsReplayed(base, log, g) && !Atomically(g, st).done
    ensures Atomically(g, st).entry.None?
    ensures IsReplayed(base, log, Atomically(g, st).g) <==> LostBy(g, st) !! g.core.rels.Keys
  {
    hide Atomically, SoundGraph, Same, Permits, LostBy;
    var after, now := Atomically(g, st), ReplayLog(base, log).value;
    RefusedLeavesNothing(g, st);
    if Same(after.g, g) {
      SameBack(after.g, g);
      SameInTurn(now, g, after.g);
    }
    if Same(now, after.g) {
      SameBack(now, g);
      SameBack(now, after.g);
      SameInTurn(after.g, now, g);
    }
  }

  // Memory is what the log replays to, through any run of statements and any
  // change of schema, if and only if no refused statement lost a relationship.
  lemma {:induction false} MemoryIsTheLogExactly(base: GraphState, g: GraphState, log: Log, sts: seq<Statement>)
    requires Kept(g) && AllPermit(g, sts) && IsReplayed(base, log, g)
    ensures AlwaysReplayed(base, g, log, sts) <==> LosesNothing(g, sts)
    decreases |sts|
  {
    hide Atomically, Kept, Permits, IsReplayed, LostBy;
    if sts != [] {
      var after := Atomically(g, sts[0]);
      StatementKeeps(g, sts[0]);
      if after.done {
        DoneIsReplayed(base, g, log, sts[0]);
        MemoryIsTheLogExactly(base, after.g, Appended(log, after.entry), sts[1..]);
      } else {
        KeptIsSound(g);
        RefusedIsReplayedExactly(base, g, log, sts[0]);
        if IsReplayed(base, log, after.g) {
          MemoryIsTheLogExactly(base, after.g, log, sts[1..]);
        } else {
          assert !AlwaysReplayed(base, after.g, log, sts[1..]);
        }
      }
    }
  }

  lemma {:induction false} KeptIsSound(g: GraphState)
    requires Kept(g)
    ensures SoundGraph(g)
  {
  }

  // So at the end of such a run.
  lemma {:induction false} MemoryIsTheLog(base: GraphState, g: GraphState, log: Log, sts: seq<Statement>)
    requires Kept(g) && AllPermit(g, sts) && IsReplayed(base, log, g) && LosesNothing(g, sts)
    ensures IsReplayed(base, LogAfter(g, log, sts), GraphAfter(g, sts)) && Kept(GraphAfter(g, sts))
  {
    hide Atomically, Kept, AllPermit, IsReplayed, LosesNothing, AlwaysReplayed, LogAfter, GraphAfter;
    MemoryIsTheLogExactly(base, g, log, sts);
    ReplayedAtTheEnd(base, g, log, sts);
    StatementsKeep(g, sts);
  }

  lemma {:induction false} ReplayedAtTheEnd(base: GraphState, g: GraphState, log: Log, sts: seq<Statement>)
    requires AlwaysReplayed(base, g, log, sts)
    ensures IsReplayed(base, LogAfter(g, log, sts), GraphAfter(g, sts))
    decreases |sts|
  {
    hide Atomically, IsReplayed;
    if sts != [] {
      var after := Atomically(g, sts[0]);
      ReplayedAtTheEnd(base, after.g, Appended(log, after.entry), sts[1..]);
    }
  }

  lemma {:induction false} SameInTurn(a: GraphState, b: GraphState, c: GraphState)
    requires Same(a, b) && Same(b, c)
    ensures Same(a, c)
  {
  }
}
