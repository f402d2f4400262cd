/** Killing the process: exactly when the process that opens the directory next
    can rely on what it finds.

    A killed process leaves what it saw, but the next one works on from
    directory entries and log entries that no sync has covered. That is safe if
    and only if the log is `Settled`; otherwise some run of the next process and
    a power cut lose a write or leave a directory that cannot be opened. */
module CheckpointKills {
  import opened Checkpoints
  import opened CheckpointGaps
  import opened CheckpointSafety
  import opened CheckpointSteps
  import opened Wrappers

  // What opening after a power cut owes: the log that was found, as replayed,
  // and in it every acknowledged write. Refusing is for a log found empty, with
  // no next log to go on with, while nothing was acknowledged.
  ghost predicate Safe(s: Sys, f: Found) {
    match Open(f, s.base)
    case Opened(es, _, g) => g == Fold(s.base, es) && Accepts(s, g)
    case Refused =>
      && s.acked == s.base && f.bin == []
      && (f.tmp.Some? && f.tmp.value.Whole? ==> f.tmp.value.entries == [])
  }

  lemma {:induction false} InvIsSafe(s: Sys, f: Found)
    requires Inv(s) && !s.refused && MayFind(s, f)
    ensures Safe(s, f)
  {
    hide LastReplace, MayFind, Accepts, FilesAreThere, TmpsAreSafe, ActorIsRight, CleaningIsSafe, Open, Readable;
    PowerCutKeepsEveryWrite(s, f);
    RefusedExactly(s, f);
  }

  // After the steps `ls`, a power cut that leaves `f` is safe.
  ghost predicate SafeAfter(s: Sys, ls: seq<Label>, f: Found) {
    Runs(s, ls) && !Run(s, ls).refused && MayFind(Run(s, ls), f) ==> Safe(Run(s, ls), f)
  }

  lemma {:induction false} RunOne(s: Sys, a: Label)
    requires Can(s, a) && !a.Kill?
    ensures Runs(s, [a]) && Run(s, [a]) == After(s, a)
  {
    hide Can, After;
    assert [a][1..] == [];
    assert Runs(After(s, a), []) && Run(After(s, a), []) == After(s, a);
  }

  lemma {:induction false} RunTwo(s: Sys, a: Label, b: Label)
    requires Can(s, a) && Can(After(s, a), b) && !a.Kill? && !b.Kill?
    ensures Runs(s, [a, b]) && Run(s, [a, b]) == After(After(s, a), b)
  {
    hide Can, After;
    RunOne(After(s, a), b);
    assert [a, b][1..] == [b];
  }

  // ----- a rename that is not durable -----

  lemma {:induction false} SomeOtherWrite(m: Graph, g: Graph, h: Graph) returns (w: nat)
    ensures m + [w] != g && m + [w] != h
  {
    var n := |m|;
    assert (m + [0])[n] == 0 && (m + [1])[n] == 1 && (m + [2])[n] == 2;
    w := if m + [0] != g && m + [0] != h then 0 else if m + [1] != g && m + [1] != h then 1 else 2;
  }

  lemma {:induction false} ReopenedOnTheNewLog(s: Sys, whole: bool)
    requires Inv(s) && !s.refused && s.disk.former.Some?
    ensures var t := After(s, Kill(whole));
      && !t.refused && !t.poisoned && t.inflight.None? && (t.actor.Cleaning? || t.actor.Idle?) && t.base == s.base
      && t.disk.former == s.disk.former && t.disk.graphs == s.disk.graphs && t.disk.durableGraphs == s.disk.durableGraphs
      && t.disk.snapshot == s.disk.snapshot && t.disk.durableSnapshot == s.disk.durableSnapshot
  {
    hide LastReplace, FilesAreThere, TmpsAreSafe, ActorIsRight, CleaningIsSafe, Fold, MayFind;
    assert s.disk.bin.All() != [];
    KillFindsWhatACutMay(s, whole);
    RefusedExactly(s, AfterKill(s, whole));
  }

  lemma {:induction false} OldLogMayComeBack(s: Sys, whole: bool, w: nat, f: Found)
    requires Inv(s) && !s.refused && s.disk.former.Some?
    requires var d := s.disk;
      f == Found(d.former.value.durable, None, d.graphs + d.durableGraphs, d.snapshot || d.durableSnapshot)
    ensures var t := After(s, Kill(whole));
      && Can(t, BeginWrite(w)) && Can(After(t, BeginWrite(w)), Ack)
      && MayFind(After(After(t, BeginWrite(w)), Ack), f)
  {
    hide LastReplace, Fold, FilesAreThere, TmpsAreSafe, ActorIsRight, CleaningIsSafe, AfterKilled, NextMayBe;
    ReopenedOnTheNewLog(s, whole);
    var former := s.disk.former.value;
    assert former.durable == former.durable + former.unsynced[..0];
    assert Survives(f.bin, former.durable, former.unsynced);
  }

  // While the rename of a new log is not durable, the next process can
  // acknowledge a write that a power cut takes away with the new log.
  lemma {:induction false} PendingRenameLosesTheNextWrite(s: Sys, whole: bool)
    requires Inv(s) && !s.refused && s.disk.former.Some?
    ensures exists ls, f :: !SafeAfter(After(s, Kill(whole)), ls, f)
  {
    hide LastReplace, FilesAreThere, TmpsAreSafe, ActorIsRight, CleaningIsSafe, Open, MayFind, Can, AfterKilled, Fold;
    var t, d := After(s, Kill(whole)), s.disk;
    ReopenedOnTheNewLog(s, whole);
    var f := Found(d.former.value.durable, None, d.graphs + d.durableGraphs, d.snapshot || d.durableSnapshot);
    var g := match Open(f, s.base) case Opened(_, _, g) => g case Refused => [];
    var w := SomeOtherWrite(t.memory, g, s.base);
    OldLogMayComeBack(s, whole, w, f);
    var u := After(After(t, BeginWrite(w)), Ack);
    RunTwo(t, BeginWrite(w), Ack);
    assert u.acked == t.memory + [w] && u.ahead == [] && u.base == s.base;
    OnlyTheAcknowledged(u, g);
    assert !SafeAfter(t, [BeginWrite(w), Ack], f);
  }

  lemma {:induction false} OnlyTheAcknowledged(s: Sys, g: Graph)
    requires s.ahead == []
    ensures Accepts(s, g) <==> g == s.acked
  {
    assert s.ahead[..0] == [] && Fold(s.acked, []) == s.acked;
  }

  // ----- a replacement that is not synced -----

  lemma {:induction false} ReopenedOnTheReplacement(s: Sys, whole: bool)
    requires Inv(s) && !s.refused && s.disk.former.None?
    requires LastReplace(LeftUnsynced(s, whole)) >= 0
    ensures var t, un := After(s, Kill(whole)), LeftUnsynced(s, whole);
      && !t.refused && t.inflight.None? && t.actor == Cleaning(un[LastReplace(un)].graph) && t.base == s.base
      && t.disk.bin == Log(s.disk.bin.durable, un) && t.disk.former.None?
      && forall x :: NextMayBe(s.disk, x) ==> NextMayBe(t.disk, x)
  {
    hide LastReplace, FilesAreThere, TmpsAreSafe, ActorIsRight, CleaningIsSafe, Fold, MayFind, NextMayBe;
    var t, un, d := After(s, Kill(whole)), LeftUnsynced(s, whole), s.disk.bin.durable;
    KillFindsWhatACutMay(s, whole);
    RefusedExactly(s, AfterKill(s, whole));
    var i := LastReplace(un);
    LastReplaceConcat(d, un);
    assert AfterKill(s, whole).bin == d + un;
    assert (d + un)[|d| + i] == un[i];
    forall x | NextMayBe(s.disk, x)
      ensures NextMayBe(t.disk, x)
    {
      WithoutTmpIsStill(s.disk, x);
      SameNexts(t.disk, WithoutTmp(s.disk), x);
    }
  }

  // A part of the log that starts from another file than the one kept.
  lemma {:induction false} PartReadsADeletedFile(t: Sys, k: nat)
    requires !t.refused && t.actor.Cleaning? && t.inflight.None? && t.disk.former.None? && k <= |t.disk.bin.unsynced|
    requires var es := t.disk.bin.durable + t.disk.bin.unsynced[..k];
      LastReplace(es) >= 0 && es[LastReplace(es)].graph != t.actor.keep
    ensures exists ls, f :: !SafeAfter(t, ls, f)
  {
    hide LastReplace, Fold, NextMayBe;
    var es := t.disk.bin.durable + t.disk.bin.unsynced[..k];
    var g := es[LastReplace(es)].graph;
    RunOne(t, DeleteGraph(g));
    var u := After(t, DeleteGraph(g));
    var f := Found(es, None, (u.disk.graphs + u.disk.durableGraphs) - {g}, u.disk.snapshot);
    assert (t.disk.bin.unsynced + Inflight(t))[..k] == t.disk.bin.unsynced[..k];
    assert Survives(f.bin, u.disk.bin.durable, u.disk.bin.unsynced + Inflight(u));
    assert !SafeAfter(t, [DeleteGraph(g)], f);
  }

  lemma {:induction false} WritesAddUp(g: Graph, es: seq<Entry>)
    requires NoReplacement(es)
    ensures |Fold(g, es)| == |g| + |es|
    decreases |es|
  {
    if es != [] {
      assert es[0] in es && NoReplacement(es[1..]);
      WritesAddUp(Apply(g, es[0]), es[1..]);
    }
  }

  lemma {:induction false} NoneIsNoReplacement(es: seq<Entry>)
    requires LastReplace(es) < 0
    ensures NoReplacement(es)
  {
    var i := LastReplace(es);
    assert forall j :: i < j < |es| ==> !es[j].Replace?;
  }

  // A part of the log that needs the snapshot, which is not kept.
  lemma {:induction false} PartNeedsTheSnapshot(t: Sys, k: nat)
    requires !t.refused && t.actor.Cleaning? && t.inflight.None? && t.disk.former.None? && k <= |t.disk.bin.unsynced|
    requires var es := t.disk.bin.durable + t.disk.bin.unsynced[..k]; LastReplace(es) < 0 && es != [] && t.base != []
    ensures exists ls, f :: !SafeAfter(t, ls, f)
  {
    hide LastReplace, Fold, NextMayBe;
    var es := t.disk.bin.durable + t.disk.bin.unsynced[..k];
    RunOne(t, DeleteSnapshot);
    var u := After(t, DeleteSnapshot);
    var f := Found(es, None, u.disk.graphs + u.disk.durableGraphs, false);
    assert (t.disk.bin.unsynced + Inflight(t))[..k] == t.disk.bin.unsynced[..k];
    assert Survives(f.bin, u.disk.bin.durable, u.disk.bin.unsynced + Inflight(u));
    NoneIsNoReplacement(es);
    WritesAddUp([], es);
    WritesAddUp(t.base, es);
    assert !SafeAfter(t, [DeleteSnapshot], f);
  }

  // A next log that may come back and starts from another file.
  lemma {:induction false} NextReadsADeletedFile(t: Sys, x: Next, g: Graph)
    requires !t.refused && t.actor.Cleaning? && t.disk.former.None? && t.disk.bin.durable == []
    requires NextMayBe(t.disk, x) && x.Whole? && x.entries == [Replace(g)] && g != t.actor.keep
    ensures exists ls, f :: !SafeAfter(t, ls, f)
  {
    hide Fold, LastReplace;
    LastReplaceIs(x.entries, 0);
    RunOne(t, DeleteGraph(g));
    var u := After(t, DeleteGraph(g));
    SameNexts(t.disk, u.disk, x);
    hide NextMayBe;
    var f := Found([], Some(x), (u.disk.graphs + u.disk.durableGraphs) - {g}, u.disk.snapshot);
    assert [] == u.disk.bin.durable + (u.disk.bin.unsynced + Inflight(u))[..0];
    assert Survives(f.bin, u.disk.bin.durable, u.disk.bin.unsynced + Inflight(u));
    assert !SafeAfter(t, [DeleteGraph(g)], f);
  }

  lemma {:induction false} LastOfFirst(d: seq<Entry>, un: seq<Entry>, j: nat)
    requires j < |un| && un[j].Replace?
    ensures LastReplace(d + un[..j + 1]) == |d| + j && (d + un[..j + 1])[|d| + j] == un[j]
  {
    LastReplaceIs(d + un[..j + 1], |d| + j);
  }

  // What the next process keeps is not what every part of the log reads.
  lemma {:induction false} UnsyncedReplacementLosesTheStart(s: Sys, whole: bool)
    requires Inv(s) && !s.refused && s.disk.former.None?
    requires LastReplace(LeftUnsynced(s, whole)) >= 0
    requires var un := LeftUnsynced(s, whole);
      !StartsFromKept(s.base, Log(s.disk.bin.durable, un), un, un[LastReplace(un)].graph)
    ensures exists ls, f :: !SafeAfter(After(s, Kill(whole)), ls, f)
  {
    hide LastReplace, SafeAfter, Inv, AfterKilled;
    ReopenedOnTheReplacement(s, whole);
    var t, un, d := After(s, Kill(whole)), LeftUnsynced(s, whole), s.disk.bin.durable;
    var keep := t.actor.keep;
    if !Keeps(un, keep) {
      var e :| e in un && e.Replace? && e.graph != keep;
      var j :| 0 <= j < |un| && un[j] == e;
      LastOfFirst(d, un, j);
      PartReadsADeletedFile(t, j + 1);
    } else if LastReplace(d) >= 0 {
      assert d + un[..0] == d;
      PartReadsADeletedFile(t, 0);
    } else {
      var k := if d != [] then 0 else 1;
      assert d == [] ==> un != [] && !un[0].Replace?;
      LastReplaceConcat(d, un[..k]);
      NoReplacementHasNone(un[..k]);
      PartNeedsTheSnapshot(t, k);
    }
  }

  // A next log of an empty log is one entry, for a graph.
  lemma {:induction false} NextNamesAnother(s: Sys, x: Next, keep: Graph)
    requires Inv(s) && !s.refused && s.disk.former.None? && s.disk.bin.durable == []
    requires NextMayBe(s.disk, x) && x.Whole? && x.entries != [] && x.entries != [Replace(keep)]
    ensures |x.entries| == 1 && x.entries[0].Replace? && x.entries[0].graph != keep
  {
    hide LogsAgree, FilesAreThere, ActorIsRight, CleaningIsSafe, Fold, NextMayBe;
    assert TmpIsSafe(s, x);
  }

  // From the first open on, every power cut is safe as long as every kill is.
  lemma {:induction false} EveryCutIsSafe(base: Graph, ls: seq<Label>, f: Found)
    ensures SafeAfter(Start(base), ls, f)
  {
    hide Inv, Runs, Run, MayFind, Safe;
    StartHolds(base);
    if Runs(Start(base), ls) && !Run(Start(base), ls).refused && MayFind(Run(Start(base), ls), f) {
      RunKeeps(Start(base), ls);
      InvIsSafe(Run(Start(base), ls), f);
    }
  }

  // ----- exactly -----

  // A kill is safe if and only if the log was settled: after it, every run of
  // the next process and every power cut keep what was acknowledged.
  lemma {:induction false} KillsAreSafeExactlyWhenSettled(s: Sys, whole: bool)
    requires Inv(s) && !s.refused
    ensures Settled(s, whole) <==> forall ls, f :: SafeAfter(After(s, Kill(whole)), ls, f)
  {
    hide LastReplace, Inv, AfterKilled, SafeAfter, StartsFromKept, NextsKeep, NextMayBe;
    var t := After(s, Kill(whole));
    if Settled(s, whole) {
      forall ls, f
        ensures SafeAfter(t, ls, f)
      {
        SettledIsSafe(s, whole, ls, f);
      }
    } else if s.disk.former.Some? {
      PendingRenameLosesTheNextWrite(s, whole);
    } else {
      UnsettledIsNotSafe(s, whole);
    }
  }

  lemma {:induction false} SettledIsSafe(s: Sys, whole: bool, ls: seq<Label>, f: Found)
    requires Inv(s) && !s.refused && Settled(s, whole)
    ensures SafeAfter(After(s, Kill(whole)), ls, f)
  {
    hide Inv, Settled, Runs, Run, MayFind, Safe, AfterKilled;
    var t := After(s, Kill(whole));
    KillKeeps(s, whole);
    if Runs(t, ls) && !Run(t, ls).refused && MayFind(Run(t, ls), f) {
      RunKeeps(t, ls);
      InvIsSafe(Run(t, ls), f);
    }
  }

  lemma {:induction false} UnsettledIsNotSafe(s: Sys, whole: bool)
    requires Inv(s) && !s.refused && !Settled(s, whole) && s.disk.former.None?
    ensures exists ls, f :: !SafeAfter(After(s, Kill(whole)), ls, f)
  {
    hide LastReplace, Inv, AfterKilled, SafeAfter, StartsFromKept, NextMayBe;
    var t, un := After(s, Kill(whole)), LeftUnsynced(s, whole);
    var keep := un[LastReplace(un)].graph;
    if !StartsFromKept(s.base, Log(s.disk.bin.durable, un), un, keep) {
      UnsyncedReplacementLosesTheStart(s, whole);
    } else {
      var x :| NextMayBe(s.disk, x) && x.Whole? && x.entries != [] && x.entries != [Replace(keep)];
      ReopenedOnTheReplacement(s, whole);
      NextNamesAnother(s, x, keep);
      assert x.entries == [Replace(x.entries[0].graph)];
      NextReadsADeletedFile(t, x, x.entries[0].graph);
    }
  }

  // ----- runs that lead to an unsafe kill -----

  lemma {:induction false} RunsConcat(s: Sys, a: seq<Label>, b: seq<Label>)
    requires Runs(s, a) && Runs(Run(s, a), b)
    ensures Runs(s, a + b) && Run(s, a + b) == Run(Run(s, a), b)
    decreases |a|
  {
    hide Can, After, Settled;
    if a == [] {
      assert a + b == b;
    } else {
      assert (a + b)[1..] == a[1..] + b;
      RunsConcat(After(s, a[0]), a[1..], b);
    }
  }

  const WRITE_ASIDE := [Encode, WriteGraph, SyncGraph, RenameGraph]
  const TO_THE_RENAME := WRITE_ASIDE + [SyncGraphs, BeginRotate, WriteNext, SyncNext] + [RenameLog]

  // The first checkpoint of a directory: its graph file in place, its next log
  // on disk, its log renamed.
  function Aside(base: Graph): Sys {
    var s := Start(base);
    s.(actor := GraphRenamed(base, 0), disk := s.disk.(graphs := {base}))
  }

  function NextOnDisk(base: Graph): Sys {
    var s := Start(base);
    s.(actor := NextSynced(base, 0),
       disk := s.disk.(graphs := {base}, durableGraphs := {base}, tmp := Some(Whole([Replace(base)], true))))
  }

  function Renamed(base: Graph): Sys {
    var s := Start(base);
    s.(actor := LogRenamed(base),
       disk := Disk(Log([Replace(base)], []), Some(Log([], [])), None, {Whole([Replace(base)], true)}, {base}, {base},
                    base != [], base != []))
  }

  lemma {:induction false} RunsAside(base: Graph)
    ensures Runs(Start(base), WRITE_ASIDE) && Run(Start(base), WRITE_ASIDE) == Aside(base)
  {
    hide Runs, Run;
    var s0 := Start(base);
    assert s0.disk.graphs + {base} == {base};
    RunFour(s0, Encode, WriteGraph, SyncGraph, RenameGraph);
  }

  function NextBegun(base: Graph): Sys {
    var s := Aside(base);
    s.(actor := NextStarted(base, 0), disk := s.disk.(durableGraphs := {base}, tmp := Some(Torn)))
  }

  lemma {:induction false} BeginsTheNext(base: Graph)
    ensures Runs(Aside(base), [SyncGraphs, BeginRotate])
    ensures Run(Aside(base), [SyncGraphs, BeginRotate]) == NextBegun(base)
  {
    hide Runs, Run, NextEntries;
    RunTwo(Aside(base), SyncGraphs, BeginRotate);
  }

  lemma {:induction false} PutsTheNextOnDisk(base: Graph)
    ensures Runs(NextBegun(base), [WriteNext, SyncNext])
    ensures Run(NextBegun(base), [WriteNext, SyncNext]) == NextOnDisk(base)
  {
    OnlyTheGraph(NextBegun(base), base);
    hide Runs, Run, NextEntries;
    RunTwo(NextBegun(base), WriteNext, SyncNext);
  }

  lemma {:induction false} OnlyTheGraph(s: Sys, graph: Graph)
    requires s.disk.bin.All() == []
    ensures NextEntries(s, graph, 0) == [Replace(graph)]
  {
  }

  lemma {:induction false} RunsOnDisk(base: Graph)
    ensures Runs(Aside(base), [SyncGraphs, BeginRotate, WriteNext, SyncNext])
    ensures Run(Aside(base), [SyncGraphs, BeginRotate, WriteNext, SyncNext]) == NextOnDisk(base)
  {
    BeginsTheNext(base);
    PutsTheNextOnDisk(base);
    hide Runs, Run, Aside, NextBegun, NextOnDisk;
    RunsConcat(Aside(base), [SyncGraphs, BeginRotate], [WriteNext, SyncNext]);
    assert [SyncGraphs, BeginRotate] + [WriteNext, SyncNext] == [SyncGraphs, BeginRotate, WriteNext, SyncNext];
  }

  lemma {:induction false} RunsToTheRename(base: Graph)
    ensures Runs(Start(base), TO_THE_RENAME) && Run(Start(base), TO_THE_RENAME) == Renamed(base)
  {
    RunsAside(base);
    RunsOnDisk(base);
    RenamesTheLog(base);
    hide Runs, Run, Aside, NextOnDisk, Renamed, After;
    RunsConcat(Start(base), WRITE_ASIDE, [SyncGraphs, BeginRotate, WriteNext, SyncNext]);
    RunsConcat(Start(base), WRITE_ASIDE + [SyncGraphs, BeginRotate, WriteNext, SyncNext], [RenameLog]);
  }

  lemma {:induction false} RenamesTheLog(base: Graph)
    ensures Runs(NextOnDisk(base), [RenameLog]) && Run(NextOnDisk(base), [RenameLog]) == Renamed(base)
  {
    hide Runs, Run;
    RunOne(NextOnDisk(base), RenameLog);
    assert {} + {Whole([Replace(base)], true)} == {Whole([Replace(base)], true)};
  }

  // A process killed between the rename of its log and the sync that makes the
  // rename durable can be followed by the loss of an acknowledged write.
  lemma {:induction false} AKillBeforeTheSyncIsUnsafe(base: Graph, whole: bool)
    ensures Runs(Start(base), TO_THE_RENAME)
    ensures var s := Run(Start(base), TO_THE_RENAME);
      !s.refused && !Settled(s, whole) && exists ls, f :: !SafeAfter(After(s, Kill(whole)), ls, f)
  {
    hide Runs, Run, Inv, SafeAfter, AfterKilled;
    RunsToTheRename(base);
    StartHolds(base);
    RunKeeps(Start(base), TO_THE_RENAME);
    PendingRenameLosesTheNextWrite(Renamed(base), whole);
  }

  // A checkpoint, and after it an import of `graph` up to its log entry.
  function ToTheImport(graph: Graph): seq<Label> {
    TO_THE_RENAME + [SyncLog] + [EndCleaning, RenameImport(graph)] + [SyncImport, AppendImport]
  }

  function Checkpointed(base: Graph): Sys {
    Start(base).(
      actor := Cleaning(base),
      disk := Disk(Log([Replace(base)], []), None, None, {}, {base}, {base}, base != [], base != []))
  }

  lemma {:induction false} SyncsTheRename(base: Graph)
    ensures Runs(Renamed(base), [SyncLog]) && Run(Renamed(base), [SyncLog]) == Checkpointed(base)
  {
    hide Runs, Run;
    assert Fold(base, []) == base;
    RunOne(Renamed(base), SyncLog);
  }

  lemma {:induction false} StartsAnImport(s: Sys, graph: Graph)
    requires s.actor.Cleaning? && !s.refused
    ensures Runs(s, [EndCleaning, RenameImport(graph)])
    ensures Run(s, [EndCleaning, RenameImport(graph)]) ==
      s.(actor := ImportRenamed(graph), disk := s.disk.(graphs := s.disk.graphs + {graph}))
  {
    hide Runs, Run;
    RunTwo(s, EndCleaning, RenameImport(graph));
  }

  lemma {:induction false} AppendsAnImport(s: Sys, graph: Graph)
    requires s.actor == ImportRenamed(graph) && LogIsFree(s) && !s.refused
    ensures var ls := [SyncImport, AppendImport];
      && Runs(s, ls) && !Run(s, ls).refused
      && Run(s, ls).disk == s.disk.(durableGraphs := s.disk.graphs) && Run(s, ls).inflight == Some(Replace(graph))
  {
    hide Runs, Run;
    RunTwo(s, SyncImport, AppendImport);
  }

  lemma {:induction false} RunsToTheImport(base: Graph, graph: Graph)
    ensures Runs(Start(base), ToTheImport(graph))
    ensures var s := Run(Start(base), ToTheImport(graph));
      !s.refused && s.disk.bin == Log([Replace(base)], []) && s.inflight == Some(Replace(graph)) && s.disk.former.None?
  {
    RunsToTheRename(base);
    SyncsTheRename(base);
    StartsAnImport(Checkpointed(base), graph);
    var s := Run(Checkpointed(base), [EndCleaning, RenameImport(graph)]);
    AppendsAnImport(s, graph);
    hide Runs, Run, Renamed, After;
    RunsConcat(Start(base), TO_THE_RENAME, [SyncLog]);
    RunsConcat(Start(base), TO_THE_RENAME + [SyncLog], [EndCleaning, RenameImport(graph)]);
    RunsConcat(Start(base), TO_THE_RENAME + [SyncLog] + [EndCleaning, RenameImport(graph)], [SyncImport, AppendImport]);
  }

  // A process killed with the entry of an import in the file but not synced
  // can be followed by the loss of the file the durable log starts from.
  lemma {:induction false} AKillDuringAnImportIsUnsafe(base: Graph, graph: Graph)
    requires graph != base
    ensures Runs(Start(base), ToTheImport(graph))
    ensures var s := Run(Start(base), ToTheImport(graph));
      !s.refused && !Settled(s, true) && exists ls, f :: !SafeAfter(After(s, Kill(true)), ls, f)
  {
    hide Runs, Run, Inv, SafeAfter, AfterKilled, LastReplace, NextsKeep;
    RunsToTheImport(base, graph);
    StartHolds(base);
    RunKeeps(Start(base), ToTheImport(graph));
    var s := Run(Start(base), ToTheImport(graph));
    assert LeftUnsynced(s, true) == [Replace(graph)];
    LastReplaceIs([Replace(graph)], 0);
    LastReplaceIs([Replace(base)], 0);
    UnsyncedReplacementLosesTheStart(s, true);
  }
}
