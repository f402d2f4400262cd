/** Every step of the checkpoint system keeps its invariant, so it holds after
    any run, whatever is killed or cut off on the way. */
module CheckpointSteps {
  import opened Checkpoints
  import opened CheckpointSafety
  import opened Wrappers

  // The same logs, memory and acknowledgements, at least the same files on
  // disk, and at most the same next logs.
  ghost predicate SameLogs(s: Sys, t: Sys) {
    && t.base == s.base && t.disk.bin == s.disk.bin && t.disk.former == s.disk.former
    && t.inflight == s.inflight && t.acked == s.acked && t.ahead == s.ahead
    && (!t.poisoned ==> !s.poisoned && t.memory == s.memory)
    && (forall g :: IsOnDisk(s.disk, g) ==> IsOnDisk(t.disk, g))
    && (s.disk.snapshot && s.disk.durableSnapshot ==> t.disk.snapshot && t.disk.durableSnapshot)
    && (forall x :: NextMayBe(t.disk, x) ==> NextMayBe(s.disk, x))
  }

  lemma {:induction false} SameLogsKeep(s: Sys, t: Sys)
    requires SameLogs(s, t) && LogsAgree(s) && FilesAreThere(s) && TmpsAreSafe(s)
    ensures LogsAgree(t) && FilesAreThere(t) && TmpsAreSafe(t)
  {
    hide LastReplace, IsOnDisk, NextMayBe, Fold;
    forall x | NextMayBe(t.disk, x) && Behind(t).durable == []
      ensures TmpIsSafe(t, x)
    {
      assert TmpIsSafe(s, x);
    }
  }

  lemma {:induction false} WithoutTmpIsStill(d: Disk, x: Next)
    ensures NextMayBe(WithoutTmp(d), x) <==> NextMayBe(d, x)
  {
    hide NextAfterCut;
  }

  // ----- steps of the lock holder that leave the log alone -----

  lemma {:induction false} QuietStepsKeep(s: Sys, l: Label)
    requires Inv(s) && Can(s, l)
    requires l.WriteGraph? || l.SyncGraph? || l.RenameGraph? || l.SyncGraphs? || l.RenameImport? || l.SyncImport?
             || l.AbortImport? || l.EndCleaning?
    ensures Inv(After(s, l))
  {
    hide LastReplace, Fold, NextAfterCut, LogsAgree, FilesAreThere, TmpsAreSafe, StartsFromKept, NextsKeep;
    SameLogsKeep(s, After(s, l));
  }

  lemma {:induction false} AbortCheckpointKeeps(s: Sys, removed: bool)
    requires Inv(s) && Can(s, AbortCheckpoint(removed))
    ensures Inv(After(s, AbortCheckpoint(removed)))
  {
    hide LastReplace, Fold, NextMayBe, LogsAgree, FilesAreThere, TmpsAreSafe;
    forall x
      ensures NextMayBe(WithoutTmp(s.disk), x) <==> NextMayBe(s.disk, x)
    {
      WithoutTmpIsStill(s.disk, x);
    }
    SameLogsKeep(s, After(s, AbortCheckpoint(removed)));
  }

  lemma {:induction false} FailSyncLogKeeps(s: Sys)
    requires Inv(s) && Can(s, FailSyncLog)
    ensures Inv(After(s, FailSyncLog))
  {
    hide LastReplace, Fold, NextMayBe, FilesAreThere, TmpsAreSafe;
    SameLogsKeep(s, After(s, FailSyncLog));
  }

  lemma {:induction false} EncodeKeeps(s: Sys)
    requires Inv(s) && Can(s, Encode)
    ensures Inv(After(s, Encode))
  {
    hide LastReplace, NextMayBe, FilesAreThere, TmpsAreSafe;
    var all := s.disk.bin.All();
    assert all[..|all|] == all;
    SameLogsKeep(s, After(s, Encode));
  }

  // ----- writing -----

  lemma {:induction false} AppendKeepsLogs(s: Sys, e: Entry, t: Sys)
    requires Inv(s) && !s.refused && LogIsFree(s) && s.disk.former.None?
    requires e.Replace? ==> IsOnDisk(s.disk, e.graph)
    requires t == s.(inflight := Some(e), ahead := s.ahead + [e], actor := t.actor)
    ensures LogsAgree(t) && FilesAreThere(t) && TmpsAreSafe(t)
  {
    hide LastReplace, NextMayBe, ActorIsRight, IsOnDisk, Fold;
    forall x | NextMayBe(t.disk, x) && Behind(t).durable == []
      ensures TmpIsSafe(t, x)
    {
      assert TmpIsSafe(s, x);
    }
  }

  lemma {:induction false} BeginWriteKeeps(s: Sys, w: nat)
    requires Inv(s) && Can(s, BeginWrite(w))
    ensures Inv(After(s, BeginWrite(w)))
  {
    hide LastReplace, Fold, NextMayBe, LogsAgree, FilesAreThere, TmpsAreSafe;
    AppendKeepsLogs(s, Write(w), After(s, BeginWrite(w)));
  }

  lemma {:induction false} AppendImportKeeps(s: Sys)
    requires Inv(s) && Can(s, AppendImport)
    ensures Inv(After(s, AppendImport))
  {
    hide LastReplace, Fold, NextMayBe, LogsAgree, FilesAreThere, TmpsAreSafe;
    AppendKeepsLogs(s, Replace(s.actor.graph), After(s, AppendImport));
  }

  lemma {:induction false} FailWriteKeepsLogs(s: Sys, removed: bool, poisons: bool)
    requires Inv(s) && Can(s, FailWrite(removed, poisons))
    ensures var t := After(s, FailWrite(removed, poisons)); LogsAgree(t) && FilesAreThere(t) && TmpsAreSafe(t)
  {
    hide LastReplace, NextMayBe, ActorIsRight, IsOnDisk, Fold;
    var t := After(s, FailWrite(removed, poisons));
    assert s.disk.former.None?;
    assert s.ahead == s.disk.bin.unsynced + [s.inflight.value];
    assert s.ahead[..|s.ahead| - 1] == s.disk.bin.unsynced;
    forall x | NextMayBe(t.disk, x) && Behind(t).durable == []
      ensures TmpIsSafe(t, x)
    {
      assert NextMayBe(s.disk, x) by {
        SameNexts(s.disk, t.disk, x);
      }
      assert TmpIsSafe(s, x);
      if x.Whole? && StartsFrom(s, x.entries) {
        var un := s.disk.bin.unsynced;
        var k :| 0 <= k <= |un| && x.entries == [Replace(Fold(s.acked, un[..k]))] && IsOnDisk(s.disk, Fold(s.acked, un[..k]));
        assert t.disk.bin.unsynced[..k] == un[..k];
        SameFiles(s.disk, t.disk, Fold(s.acked, un[..k]));
      }
    }
    forall e | e in t.ahead && e.Replace?
      ensures IsOnDisk(t.disk, e.graph)
    {
      SameFiles(s.disk, t.disk, e.graph);
    }
    LogReadableStill(s, t, s.disk.bin, t.disk.bin);
  }

  lemma {:induction false} SameNexts(d: Disk, e: Disk, x: Next)
    requires d.tmp == e.tmp && d.stale == e.stale
    ensures NextMayBe(d, x) <==> NextMayBe(e, x)
  {
  }

  lemma {:induction false} SameFiles(d: Disk, e: Disk, g: Graph)
    requires d.graphs == e.graphs && d.durableGraphs == e.durableGraphs
    ensures IsOnDisk(d, g) <==> IsOnDisk(e, g)
  {
  }

  lemma {:induction false} ReadableStill(s: Sys, t: Sys, es: seq<Entry>)
    requires Readable(s, es) && t.base == s.base
    requires s.disk.graphs <= t.disk.graphs && s.disk.durableGraphs <= t.disk.durableGraphs
    requires s.disk.snapshot && s.disk.durableSnapshot ==> t.disk.snapshot && t.disk.durableSnapshot
    ensures Readable(t, es)
  {
    hide LastReplace;
  }

  lemma {:induction false} LogReadableStill(s: Sys, t: Sys, log: Log, longer: Log)
    requires LogIsReadable(s, log) && t.base == s.base
    requires longer.durable == log.durable && log.unsynced <= longer.unsynced
    requires s.disk.graphs <= t.disk.graphs && s.disk.durableGraphs <= t.disk.durableGraphs
    requires SnapshotIsOnDisk(s.disk) ==> SnapshotIsOnDisk(t.disk)
    ensures LogIsReadable(t, longer)
  {
    hide LastReplace;
  }

  lemma {:induction false} FailWriteKeeps(s: Sys, removed: bool, poisons: bool)
    requires Inv(s) && Can(s, FailWrite(removed, poisons))
    ensures Inv(After(s, FailWrite(removed, poisons)))
  {
    hide LastReplace, Fold, NextMayBe, FilesAreThere, TmpsAreSafe, LogsAgree, CleaningIsSafe, NextEntries;
    FailWriteKeepsLogs(s, removed, poisons);
    FailWriteCleansSafely(s, removed, poisons);
  }

  lemma {:induction false} FailWriteCleansSafely(s: Sys, removed: bool, poisons: bool)
    requires Inv(s) && Can(s, FailWrite(removed, poisons))
    ensures CleaningIsSafe(After(s, FailWrite(removed, poisons)))
  {
    hide LastReplace, Fold, NextMayBe, FilesAreThere, TmpsAreSafe, NextsKeep, HoldsLogUpTo, IsOnDisk;
    if s.actor.Cleaning? {
      var t, e := After(s, FailWrite(removed, poisons)), Inflight(s);
      var d, u := s.disk.bin.durable, s.disk.bin.unsynced;
      assert d + (u + e) == (d + u) + e;
      LastReplaceConcat(d + u, e);
      NoReplacementHasNone(e);
      NextsKeepStill(s.disk, t.disk, s.actor.keep);
    }
  }

  lemma {:induction false} NextsKeepStill(d: Disk, e: Disk, keep: Graph)
    requires NextsKeep(d, keep) && d.tmp == e.tmp && d.stale == e.stale
    requires e.bin.durable == [] ==> d.bin.durable == []
    ensures NextsKeep(e, keep)
  {
    hide NextAfterCut;
    forall x | NextMayBe(e, x)
      ensures NextMayBe(d, x)
    {
      SameNexts(d, e, x);
    }
  }

  // Once everything appended is on disk, all of it is acknowledged.
  lemma {:induction false} SyncedKeepsLogs(s: Sys)
    requires Inv(s) && !s.refused && s.inflight.Some? && !s.poisoned
    ensures LogsAgree(Synced(s)) && FilesAreThere(Synced(s)) && TmpsAreSafe(Synced(s))
    ensures Synced(s).disk.bin.durable == s.disk.bin.All() + [s.inflight.value]
    ensures Synced(s).disk.bin.All() == Synced(s).disk.bin.durable
  {
    hide LastReplace, NextMayBe, IsOnDisk, Fold, ActorIsRight;
    var t := Synced(s);
    FoldLast(s.base, s.disk.bin.All(), s.inflight.value);
    var e := Inflight(s);
    var d, u := s.disk.bin.durable, s.disk.bin.unsynced;
    assert s.ahead == u + e;
    assert t.disk.bin.durable == (d + u) + e;
    assert (d + u) + e == d + (u + e);
    assert t.disk.bin.durable == s.disk.bin.durable + s.ahead;
    assert s.ahead[..|s.ahead|] == s.ahead;
    PartOfLogIsReadable(s, |s.ahead|);
    assert t.disk.bin.durable + [] == t.disk.bin.durable;
    ReadableStill(s, t, t.disk.bin.durable);
  }

  lemma {:induction false} AckKeeps(s: Sys)
    requires Inv(s) && Can(s, Ack)
    ensures Inv(After(s, Ack))
  {
    hide Fold, NextMayBe, FilesAreThere, TmpsAreSafe, LogsAgree, LastReplace;
    SyncedKeepsLogs(s);
    var t := After(s, Ack);
    ActorChangeKeeps(Synced(s), t);
    var e := s.inflight.value;
    var all := s.disk.bin.All();
    if IsCheckpoint(s.actor) {
      CheckpointGrows(s);
    } else if s.actor.ImportAppending? {
      LastReplaceIs(all + [e], |all|);
    } else if s.actor.Cleaning? {
      KeepGrows(s);
    }
  }

  lemma {:induction false} ActorChangeKeeps(s: Sys, t: Sys)
    requires LogsAgree(s) && FilesAreThere(s) && TmpsAreSafe(s) && t == s.(actor := t.actor)
    ensures LogsAgree(t) && FilesAreThere(t) && TmpsAreSafe(t)
  {
    hide LastReplace, Fold, NextAfterCut;
    assert SameLogs(s, t);
    SameLogsKeep(s, t);
  }

  lemma {:induction false} CheckpointGrows(s: Sys)
    requires Inv(s) && !s.refused && s.inflight.Some? && IsCheckpoint(s.actor)
    ensures HoldsLogUpTo(Synced(s), s.actor.graph, s.actor.from)
  {
    hide Fold, NextMayBe, FilesAreThere, TmpsAreSafe, LogsAgree, LastReplace;
    var all, from := s.disk.bin.All(), s.actor.from;
    var more := all + [s.inflight.value];
    assert more[..from] == all[..from] && more[from..] == all[from..] + [s.inflight.value];
    assert Synced(s).disk.bin.All() == more;
  }

  lemma {:induction false} KeepGrows(s: Sys)
    requires Inv(s) && !s.refused && s.inflight.Some? && s.actor.Cleaning?
    ensures var es := Synced(s).disk.bin.durable;
      LastReplace(es) >= 0 && es[LastReplace(es)].graph == s.actor.keep
  {
    hide Fold, NextMayBe, FilesAreThere, TmpsAreSafe, LastReplace, HoldsLogUpTo, IsOnDisk, NextsKeep, NextEntries;
    var d, u, e := s.disk.bin.durable, s.disk.bin.unsynced, Inflight(s);
    assert Synced(s).disk.bin.durable == (d + u) + e;
    LastReplaceConcat(d, u);
    LastReplaceConcat(d + u, e);
    NoReplacementHasNone(e);
    var i := LastReplace(u);
    if i >= 0 {
      assert u[i] in s.ahead;
      assert (d + u)[|d| + i] == u[i];
    }
  }

  // ----- rotating the log -----

  lemma {:induction false} TornTmpIsSafe(s: Sys, t: Sys)
    requires LogsAgree(s) && FilesAreThere(s) && TmpsAreSafe(s)
    requires t == s.(actor := t.actor, disk := WithoutTmp(s.disk).(tmp := Some(Torn)))
    ensures LogsAgree(t) && FilesAreThere(t) && TmpsAreSafe(t)
  {
    hide LastReplace, Fold, IsOnDisk;
    forall x | NextMayBe(t.disk, x) && Behind(t).durable == []
      ensures TmpIsSafe(t, x)
    {
      if x.Whole? {
        assert NextMayBe(s.disk, x);
        assert TmpIsSafe(s, x);
        if StartsFrom(s, x.entries) {
          StartsFromStill(s, t, x.entries);
        }
      }
    }
    forall e | e in t.ahead && e.Replace?
      ensures IsOnDisk(t.disk, e.graph)
    {
      SameFiles(s.disk, t.disk, e.graph);
    }
    LogReadableStill(s, t, Behind(s), Behind(t));
    if s.disk.former.Some? {
      ReadableStill(s, t, s.disk.bin.durable);
    }
  }

  lemma {:induction false} StartsFromStill(s: Sys, t: Sys, es: seq<Entry>)
    requires StartsFrom(s, es) && t.acked == s.acked
    requires Behind(s).unsynced <= Behind(t).unsynced
    requires s.disk.graphs <= t.disk.graphs && s.disk.durableGraphs <= t.disk.durableGraphs
    ensures StartsFrom(t, es)
  {
    hide Fold;
    var un := Behind(s).unsynced;
    var k :| 0 <= k <= |un| && es == [Replace(Fold(s.acked, un[..k]))] && IsOnDisk(s.disk, Fold(s.acked, un[..k]));
    assert Behind(t).unsynced[..k] == un[..k];
  }

  lemma {:induction false} BeginRotateKeeps(s: Sys)
    requires Inv(s) && Can(s, BeginRotate)
    ensures Inv(After(s, BeginRotate))
  {
    hide Fold, NextMayBe, FilesAreThere, TmpsAreSafe, LogsAgree, LastReplace;
    var synced := if s.inflight.Some? then Synced(s) else s;
    if s.inflight.Some? {
      SyncedKeepsLogs(s);
      CheckpointGrows(s);
    }
    TornTmpIsSafe(synced, After(s, BeginRotate));
  }

  // The next log means what the log does.
  lemma {:induction false} NextMeansTheSame(s: Sys, graph: Graph, from: nat)
    requires HoldsLogUpTo(s, graph, from)
    ensures Fold(s.base, NextEntries(s, graph, from)) == Fold(s.base, s.disk.bin.All())
    ensures NoReplacement(NextEntries(s, graph, from)[1..])
  {
    hide LastReplace;
    var all, next := s.disk.bin.All(), NextEntries(s, graph, from);
    assert next[1..] == all[from..] && all == all[..from] + all[from..];
    FoldConcat(s.base, all[..from], all[from..]);
  }

  lemma {:induction false} NextOfEmptyLog(s: Sys, graph: Graph, from: nat)
    requires LogsAgree(s) && HoldsLogUpTo(s, graph, from) && IsOnDisk(s.disk, graph)
    requires s.disk.former.None? && s.disk.bin.durable == []
    ensures StartsFrom(s, NextEntries(s, graph, from))
    ensures |NextEntries(s, graph, from)| == 1
  {
    hide LastReplace;
    var all := s.disk.bin.All();
    assert all == s.disk.bin.unsynced && from == |all| && all[..from] == all && all[from..] == [];
    assert s.acked == s.base;
    assert s.disk.bin.unsynced[..from] == all;
  }

  lemma {:induction false} NewTmpIsSafe(s: Sys, t: Sys, synced: bool)
    requires LogsAgree(s) && FilesAreThere(s) && TmpsAreSafe(s) && s.disk.former.None?
    requires IsCheckpoint(s.actor)
    requires HoldsLogUpTo(s, s.actor.graph, s.actor.from) && IsOnDisk(s.disk, s.actor.graph)
    requires t == s.(actor := t.actor,
                     disk := s.disk.(tmp := Some(Whole(NextEntries(s, s.actor.graph, s.actor.from), synced))))
    ensures LogsAgree(t) && FilesAreThere(t) && TmpsAreSafe(t)
  {
    hide LastReplace, Fold, IsOnDisk, HoldsLogUpTo, NextEntries;
    forall x | NextMayBe(t.disk, x) && Behind(t).durable == []
      ensures TmpIsSafe(t, x)
    {
      NextOfEmptyLog(s, s.actor.graph, s.actor.from);
      StartsFromStill(s, t, NextEntries(s, s.actor.graph, s.actor.from));
      if NextMayBe(s.disk, x) {
        assert TmpIsSafe(s, x);
        if x.Whole? && StartsFrom(s, x.entries) {
          StartsFromStill(s, t, x.entries);
        }
      } else if x.Whole? && x.entries != [] {
        assert x.entries == NextEntries(s, s.actor.graph, s.actor.from);
      }
    }
    forall e | e in t.ahead && e.Replace?
      ensures IsOnDisk(t.disk, e.graph)
    {
      SameFiles(s.disk, t.disk, e.graph);
    }
    LogReadableStill(s, t, s.disk.bin, t.disk.bin);
  }

  lemma {:induction false} WriteNextKeeps(s: Sys)
    requires Inv(s) && Can(s, WriteNext)
    ensures Inv(After(s, WriteNext))
  {
    hide Fold, NextMayBe, FilesAreThere, TmpsAreSafe, LogsAgree, LastReplace;
    NewTmpIsSafe(s, After(s, WriteNext), false);
  }

  lemma {:induction false} SyncNextKeeps(s: Sys)
    requires Inv(s) && Can(s, SyncNext)
    ensures Inv(After(s, SyncNext))
  {
    hide Fold, NextMayBe, FilesAreThere, TmpsAreSafe, LogsAgree, LastReplace;
    NewTmpIsSafe(s, After(s, SyncNext), true);
  }

  lemma {:induction false} RenameLogKeeps(s: Sys)
    requires Inv(s) && Can(s, RenameLog)
    ensures Inv(After(s, RenameLog))
  {
    hide LastReplace, Fold, IsOnDisk, LogsAgree, FilesAreThere, TmpsAreSafe;
    var t := After(s, RenameLog);
    NextMeansTheSame(s, s.actor.graph, s.actor.from);
    RenamedLogsAgree(s, t);
    RenamedTmpsAreSafe(s, t);
    RenamedFilesAreThere(s, t);
  }

  lemma {:induction false} RenamedFilesAreThere(s: Sys, t: Sys)
    requires Inv(s) && Can(s, RenameLog) && t == After(s, RenameLog)
    ensures FilesAreThere(t)
  {
    hide LastReplace, Fold, IsOnDisk, LogsAgree, TmpsAreSafe;
    var next := NextEntries(s, s.actor.graph, s.actor.from);
    NextMeansTheSame(s, s.actor.graph, s.actor.from);
    LastReplaceIs(next, 0);
    SameFiles(s.disk, t.disk, s.actor.graph);
    assert Readable(t, next);
    LogReadableStill(s, t, s.disk.bin, Behind(t));
    forall e | e in t.ahead && e.Replace?
      ensures IsOnDisk(t.disk, e.graph)
    {
      SameFiles(s.disk, t.disk, e.graph);
    }
  }

  lemma {:induction false} RenamedLogsAgree(s: Sys, t: Sys)
    requires Inv(s) && Can(s, RenameLog) && t == After(s, RenameLog)
    ensures LogsAgree(t)
  {
    hide LastReplace, IsOnDisk, Fold, FilesAreThere, TmpsAreSafe, NextMayBe;
    NextMeansTheSame(s, s.actor.graph, s.actor.from);
    FoldConcat(s.base, s.disk.bin.durable, s.disk.bin.unsynced);
    assert t.disk.bin.All() == t.disk.bin.durable;
    assert s.disk.bin.unsynced + [] == s.disk.bin.unsynced;
  }

  lemma {:induction false} RenamedTmpsAreSafe(s: Sys, t: Sys)
    requires Inv(s) && Can(s, RenameLog) && t == After(s, RenameLog)
    ensures TmpsAreSafe(t)
  {
    hide LastReplace, IsOnDisk, Fold, FilesAreThere, NextMayBe;
    forall x | NextMayBe(t.disk, x) && Behind(t).durable == []
      ensures TmpIsSafe(t, x)
    {
      WithoutTmpIsStill(s.disk, x);
      SameNexts(t.disk, WithoutTmp(s.disk), x);
      assert TmpIsSafe(s, x);
      if x.Whole? && StartsFrom(s, x.entries) {
        StartsFromStill(s, t, x.entries);
      }
    }
  }

  lemma {:induction false} SyncLogKeeps(s: Sys)
    requires Inv(s) && Can(s, SyncLog)
    ensures Inv(After(s, SyncLog))
  {
    hide LastReplace, IsOnDisk;
    var t := After(s, SyncLog);
    assert t.disk.bin.All() == t.disk.bin.durable;
    assert t.disk.bin.durable != [];
    ReadableStill(s, t, s.disk.bin.durable);
    assert forall j :: 0 < j < |s.disk.bin.durable| ==> s.disk.bin.durable[j] == s.disk.bin.durable[1..][j - 1];
    LastReplaceIs(s.disk.bin.durable, 0);
  }

  // ----- deleting -----

  lemma {:induction false} DeletingKeeps(s: Sys, l: Label)
    requires Inv(s) && Can(s, l) && (l.DeleteGraph? || l.DeleteSnapshot?)
    ensures Inv(After(s, l))
  {
    hide LastReplace, Fold, NextMayBe, NextsKeep, TmpsAreSafe;
    var t := After(s, l);
    NextsKeepStill(s.disk, t.disk, s.actor.keep);
    DeletingKeepsNexts(s, l);
  }

  lemma {:induction false} DeletingKeepsNexts(s: Sys, l: Label)
    requires Inv(s) && Can(s, l) && (l.DeleteGraph? || l.DeleteSnapshot?)
    ensures TmpsAreSafe(After(s, l))
  {
    hide LastReplace, Fold, NextMayBe, LogsAgree, FilesAreThere;
    var t, keep := After(s, l), s.actor.keep;
    forall x | NextMayBe(t.disk, x) && Behind(t).durable == []
      ensures TmpIsSafe(t, x)
    {
      SameNexts(s.disk, t.disk, x);
      assert TmpIsSafe(s, x);
      if x.Whole? && x.entries != [] {
        assert x.entries == [Replace(keep)];
        var un := Behind(s).unsynced;
        var k :| 0 <= k <= |un| && x.entries == [Replace(Fold(s.acked, un[..k]))] && IsOnDisk(s.disk, Fold(s.acked, un[..k]));
        assert Behind(t).unsynced[..k] == un[..k];
      }
    }
  }

  // ----- crashes -----

  // A directory as a power cut leaves it, opened.
  lemma {:induction false} OpenedKeeps(t: Sys)
    requires !t.poisoned && t.inflight.None? && t.ahead == [] && t.disk.former.None? && t.disk.tmp.None?
    requires t.disk.bin.durable == [] ==> t.disk.stale == {}
    requires t.disk.bin.unsynced == []
    requires Fold(t.base, t.disk.bin.durable) == t.acked == t.memory
    requires LogIsReadable(t, t.disk.bin)
    requires var i := LastReplace(t.disk.bin.durable);
      t.actor == if i >= 0 then Cleaning(t.disk.bin.durable[i].graph) else Idle
    ensures Inv(t)
  {
    hide LastReplace, Fold, IsOnDisk;
    assert t.disk.bin.All() == t.disk.bin.durable;
  }

  lemma {:induction false} PowerCutKeeps(s: Sys, f: Found)
    requires Inv(s) && Can(s, PowerCut(f))
    ensures Inv(After(s, PowerCut(f)))
  {
    hide LastReplace, MayFind, LogsAgree, FilesAreThere, TmpsAreSafe, ActorIsRight, Accepts, IsOnDisk;
    PowerCutKeepsEveryWrite(s, f);
    var o := Open(f, s.base);
    if o.Opened? {
      var t := After(s, PowerCut(f));
      assert t.disk.bin.All() == o.entries + [] == o.entries;
      assert Fold(t.acked, t.ahead) == t.acked;
      OpenedIsReadable(s, f);
      OpenedKeeps(t);
    }
  }

  lemma {:induction false} OpenedIsReadable(s: Sys, f: Found)
    requires Open(f, s.base).Opened? && Readable(s, Open(f, s.base).entries) && MayFind(s, f)
    ensures LogIsReadable(After(s, PowerCut(f)), After(s, PowerCut(f)).disk.bin)
  {
    hide LastReplace, Fold;
    FoundIsReadable(s, f, Open(f, s.base).entries);
  }

  // What is not synced stays ahead; everything read is readable still.
  lemma {:induction false} RestartedKeeps(s: Sys, whole: bool)
    requires Inv(s) && Can(s, Kill(whole)) && Settled(s, whole)
    requires Open(AfterKill(s, whole), s.base).Opened? && !Open(AfterKill(s, whole), s.base).promoted
    ensures Inv(After(s, Kill(whole)))
  {
    hide LastReplace, Fold, NextMayBe, IsOnDisk, Open, NextsKeep, CleaningIsSafe;
    var t := After(s, Kill(whole));
    var un := t.disk.bin.unsynced;
    assert un == LeftUnsynced(s, whole);
    FoldConcat(s.base, s.disk.bin.durable, un);
    forall x | NextMayBe(t.disk, x) && Behind(t).durable == []
      ensures TmpIsSafe(t, x)
    {
      WithoutTmpIsStill(s.disk, x);
      SameNexts(t.disk, WithoutTmp(s.disk), x);
      assert TmpIsSafe(s, x);
      if x.Whole? && StartsFrom(s, x.entries) {
        StartsFromStill(s, t, x.entries);
      }
    }
    forall e | e in t.ahead && e.Replace?
      ensures IsOnDisk(t.disk, e.graph)
    {
      SameFiles(s.disk, t.disk, e.graph);
    }
    LogReadableStill(s, t, s.disk.bin, t.disk.bin);
    RestartedCleansSafely(s, whole);
  }

  lemma {:induction false} RestartedCleansSafely(s: Sys, whole: bool)
    requires Inv(s) && Can(s, Kill(whole)) && Settled(s, whole)
    requires Open(AfterKill(s, whole), s.base).Opened? && !Open(AfterKill(s, whole), s.base).promoted
    ensures CleaningIsSafe(After(s, Kill(whole)))
  {
    hide LastReplace, Fold, NextMayBe, IsOnDisk, Open, LogsAgree, FilesAreThere, TmpsAreSafe;
    var t, un := After(s, Kill(whole)), LeftUnsynced(s, whole);
    var d := s.disk.bin.durable;
    LastReplaceConcat(d, un);
    if LastReplace(un) >= 0 {
      assert (d + un)[|d| + LastReplace(un)] == un[LastReplace(un)];
      forall x | NextMayBe(t.disk, x)
        ensures NextMayBe(s.disk, x)
      {
        WithoutTmpIsStill(s.disk, x);
        SameNexts(t.disk, WithoutTmp(s.disk), x);
      }
    } else if LastReplace(d) >= 0 {
      assert (d + un)[LastReplace(d)] == d[LastReplace(d)];
    }
  }

  lemma {:induction false} NoReplacementHasNone(es: seq<Entry>)
    requires NoReplacement(es)
    ensures LastReplace(es) == -1
  {
    assert forall i | 0 <= i < |es| :: es[i] in es;
  }

  // A next log put in place by an open: all of it is acknowledged if it was
  // synced, and ahead of what is if not.
  lemma {:induction false} PromotedKeeps(s: Sys, whole: bool)
    requires Inv(s) && Can(s, Kill(whole)) && Settled(s, whole)
    requires Open(AfterKill(s, whole), s.base).Opened? && Open(AfterKill(s, whole), s.base).promoted
    ensures Inv(After(s, Kill(whole)))
  {
    hide Inv, Settled, After, Open;
    PromotedIsTheAcknowledged(s, whole);
    if s.disk.tmp.value.synced {
      PromotedSyncedKeeps(s, whole);
    } else {
      PromotedUnsyncedKeeps(s, whole);
    }
  }

  lemma {:induction false} PromotedSyncedKeeps(s: Sys, whole: bool)
    requires Inv(s) && Can(s, Kill(whole)) && Settled(s, whole)
    requires Open(AfterKill(s, whole), s.base).Opened? && Open(AfterKill(s, whole), s.base).promoted
    requires s.disk.tmp.Some? && s.disk.tmp.value.Whole? && s.disk.tmp.value.synced
    ensures Inv(After(s, Kill(whole)))
  {
    hide LastReplace, MayFind, FilesAreThere, ActorIsRight, Accepts, IsOnDisk, TmpsAreSafe, CleaningIsSafe, LogsAgree;
    hide Settled;
    var f := AfterKill(s, whole);
    KillFindsWhatACutMay(s, whole);
    PowerCutKeepsEveryWrite(s, f);
    var t, es := After(s, Kill(whole)), Open(f, s.base).entries;
    assert t.disk.bin == Log(es, []);
    assert t.disk.bin.All() == es;
    assert Fold(t.acked, t.ahead) == t.acked;
    OpenedIsReadableStill(s, f, t);
    OpenedKeeps(t);
  }

  lemma {:induction false} OpenedIsReadableStill(s: Sys, f: Found, t: Sys)
    requires Open(f, s.base).Opened? && Readable(s, Open(f, s.base).entries) && MayFind(s, f)
    requires t.base == s.base && t.disk.bin == Log(Open(f, s.base).entries, [])
    requires t.disk.graphs == s.disk.graphs && t.disk.durableGraphs == s.disk.durableGraphs
    requires t.disk.snapshot == s.disk.snapshot && t.disk.durableSnapshot == s.disk.durableSnapshot
    ensures LogIsReadable(t, t.disk.bin)
  {
    hide LastReplace, Fold;
    FoundIsReadable(s, f, Open(f, s.base).entries);
  }

  // Such a log has one entry at most, for the graph that is acknowledged.
  lemma {:induction false} PromotedIsTheAcknowledged(s: Sys, whole: bool)
    requires Inv(s) && !s.refused && Settled(s, whole)
    requires Open(AfterKill(s, whole), s.base).Opened? && Open(AfterKill(s, whole), s.base).promoted
    ensures s.disk.bin.All() == [] && s.disk.tmp.Some? && s.disk.tmp.value.Whole?
    ensures s.disk.tmp.value.entries == Open(AfterKill(s, whole), s.base).entries
    ensures s.acked == s.base
    ensures s.disk.tmp.value.entries == [] ||
      (s.disk.tmp.value.entries == [Replace(s.acked)] && IsOnDisk(s.disk, s.acked))
  {
    hide LastReplace, IsOnDisk, FilesAreThere, ActorIsRight, CleaningIsSafe;
    assert NextMayBe(s.disk, s.disk.tmp.value);
    assert TmpIsSafe(s, s.disk.tmp.value);
    var un := Behind(s).unsynced;
    assert un == [] && Fold(s.acked, un[..0]) == s.acked;
  }

  lemma {:induction false} PromotedUnsyncedKeeps(s: Sys, whole: bool)
    requires Inv(s) && Can(s, Kill(whole)) && Settled(s, whole)
    requires Open(AfterKill(s, whole), s.base).Opened? && Open(AfterKill(s, whole), s.base).promoted
    requires s.disk.tmp.Some? && s.disk.tmp.value.Whole? && !s.disk.tmp.value.synced
    ensures Inv(After(s, Kill(whole)))
  {
    hide LastReplace, ActorIsRight, IsOnDisk, LogsAgree, TmpsAreSafe, CleaningIsSafe, Open, LogIsReadable, StartsFromKept, NextsKeep;
    var t, es := After(s, Kill(whole)), s.disk.tmp.value.entries;
    PromotedIsTheAcknowledged(s, whole);
    assert t.disk.bin == Log([], es) && t.disk.bin.All() == es;
    LastReplaceOfNone();
    if es == [] {
      assert Fold(t.base, []) == t.base;
      LogReadableStill(s, t, s.disk.bin, t.disk.bin);
      OpenedKeeps(t);
    } else {
      StartedOverKeeps(s, t);
    }
  }

  lemma {:induction false} LastReplaceOfNone()
    ensures LastReplace([]) == -1
  {
  }

  // A log of one unsynced entry, with nothing else that could come back.
  lemma {:induction false} StartedOverKeeps(s: Sys, t: Sys)
    requires s.acked == s.base && IsOnDisk(s.disk, s.acked) && !s.refused
    requires t == Restart(s, s.disk.(bin := Log([], [Replace(s.acked)]), former := None, tmp := None, stale := {}),
                          s.acked, [Replace(s.acked)])
    ensures Inv(t)
  {
    hide LastReplace, IsOnDisk;
    var e := Replace(s.acked);
    LastReplaceOfNone();
    LastReplaceIs([e], 0);
    FoldOne(s.base, e);
    assert t.disk.bin.All() == [e] && Fold(s.base, []) == s.base;
    SameFiles(s.disk, t.disk, s.acked);
  }

  lemma {:induction false} KillKeeps(s: Sys, whole: bool)
    requires Inv(s) && Can(s, Kill(whole)) && Settled(s, whole)
    ensures Inv(After(s, Kill(whole)))
  {
    hide LastReplace, Fold, Settled, Open, LogsAgree, FilesAreThere, TmpsAreSafe, ActorIsRight;
    var o := Open(AfterKill(s, whole), s.base);
    if o.Opened? && o.promoted {
      PromotedKeeps(s, whole);
    } else if o.Opened? {
      RestartedKeeps(s, whole);
    }
  }

  // ----- runs -----

  lemma {:induction false} StepKeeps(s: Sys, l: Label)
    requires Inv(s) && Can(s, l) && (l.Kill? ==> Settled(s, l.whole))
    ensures Inv(After(s, l))
  {
    hide Inv, Can, Settled;
    match l
    case BeginWrite(w) => BeginWriteKeeps(s, w);
    case Ack => AckKeeps(s);
    case FailWrite(removed, poisons) => FailWriteKeeps(s, removed, poisons);
    case Encode => EncodeKeeps(s);
    case WriteGraph => QuietStepsKeep(s, l);
    case SyncGraph => QuietStepsKeep(s, l);
    case RenameGraph => QuietStepsKeep(s, l);
    case SyncGraphs => QuietStepsKeep(s, l);
    case BeginRotate => BeginRotateKeeps(s);
    case WriteNext => WriteNextKeeps(s);
    case SyncNext => SyncNextKeeps(s);
    case RenameLog => RenameLogKeeps(s);
    case SyncLog => SyncLogKeeps(s);
    case FailSyncLog => FailSyncLogKeeps(s);
    case AbortCheckpoint(removed) => AbortCheckpointKeeps(s, removed);
    case RenameImport(_) => QuietStepsKeep(s, l);
    case SyncImport => QuietStepsKeep(s, l);
    case AppendImport => AppendImportKeeps(s);
    case AbortImport => QuietStepsKeep(s, l);
    case DeleteGraph(_) => DeletingKeeps(s, l);
    case DeleteSnapshot => DeletingKeeps(s, l);
    case EndCleaning => QuietStepsKeep(s, l);
    case Kill(whole) => KillKeeps(s, whole);
    case PowerCut(f) => PowerCutKeeps(s, f);
  }

  function Run(s: Sys, ls: seq<Label>): Sys
    decreases |ls|
  {
    if ls == [] then s else Run(After(s, ls[0]), ls[1..])
  }

  ghost predicate Runs(s: Sys, ls: seq<Label>)
    decreases |ls|
  {
    ls != [] ==> Can(s, ls[0]) && (ls[0].Kill? ==> Settled(s, ls[0].whole)) && Runs(After(s, ls[0]), ls[1..])
  }

  lemma {:induction false} RunKeeps(s: Sys, ls: seq<Label>)
    requires Inv(s) && Runs(s, ls)
    ensures Inv(Run(s, ls))
    decreases |ls|
  {
    hide Inv, Can, Settled, After;
    if ls != [] {
      StepKeeps(s, ls[0]);
      RunKeeps(After(s, ls[0]), ls[1..]);
    }
  }

  // A directory that has just been opened for the first time, with what an
  // earlier version left in `snapshot.bin`, if anything.
  function Start(base: Graph): Sys {
    Sys(base, Disk(Log([], []), None, None, {}, {}, {}, base != [], base != []), base, None, Idle, false, false, base, [])
  }

  lemma {:induction false} StartHolds(base: Graph)
    ensures Inv(Start(base))
  {
  }

  // After any run, and at whatever step the power goes: opening yields the
  // acknowledged graph and at most entries still in flight. It refuses only
  // while the log holds no acknowledged entry.
  lemma {:induction false} EveryWriteSurvives(base: Graph, ls: seq<Label>, f: Found)
    requires Runs(Start(base), ls)
    requires var s := Run(Start(base), ls); !s.refused && MayFind(s, f)
    ensures var s := Run(Start(base), ls);
      match Open(f, base)
      case Opened(_, _, g) => Accepts(s, g)
      case Refused => Behind(s).durable == []
  {
    hide LastReplace, MayFind, Inv, Accepts, Runs, Run;
    StartHolds(base);
    RunKeeps(Start(base), ls);
    RunKeepsBase(Start(base), ls);
    PowerCutKeepsEveryWrite(Run(Start(base), ls), f);
  }

  lemma {:induction false} StepKeepsBase(s: Sys, l: Label)
    ensures After(s, l).base == s.base
  {
    hide Open, NextEntries, Fold, LastReplace;
  }

  lemma {:induction false} RunKeepsBase(s: Sys, ls: seq<Label>)
    ensures Run(s, ls).base == s.base
    decreases |ls|
  {
    hide After;
    if ls != [] {
      StepKeepsBase(s, ls[0]);
      RunKeepsBase(After(s, ls[0]), ls[1..]);
    }
  }

  // A killed process leaves what it saw: it opens to all of it.
  lemma {:induction false} EveryWriteSurvivesAKill(base: Graph, ls: seq<Label>, whole: bool)
    requires Runs(Start(base), ls) && !Run(Start(base), ls).refused
    ensures var s := Run(Start(base), ls);
      match Open(AfterKill(s, whole), base)
      case Opened(_, _, g) => Accepts(s, g)
      case Refused => Behind(s).durable == []
  {
    hide LastReplace, MayFind, Inv, Accepts, Runs, Run, Open;
    StartHolds(base);
    RunKeeps(Start(base), ls);
    var s := Run(Start(base), ls);
    KillFindsWhatACutMay(s, whole);
    EveryWriteSurvives(base, ls, AfterKill(s, whole));
  }

  lemma {:induction false} KillFindsWhatACutMay(s: Sys, whole: bool)
    requires Inv(s) && !s.refused
    ensures MayFind(s, AfterKill(s, whole))
  {
    hide LastReplace, MayFind, FilesAreThere, TmpsAreSafe, ActorIsRight, LogsAgree;
    KillIsACut(s, whole);
  }
}
