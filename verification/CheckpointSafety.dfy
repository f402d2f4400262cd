/** No crash loses an acknowledged write: the invariant of the checkpoint
    system, kept by every step, and what opening after a crash then yields. */
module CheckpointSafety {
  import opened Checkpoints
  import opened Wrappers

  // ----- folding entries -----

  lemma {:induction false} FoldConcat(g: Graph, a: seq<Entry>, b: seq<Entry>)
    ensures Fold(g, a + b) == Fold(Fold(g, a), b)
    decreases |a|
  {
    if a == [] {
      assert a + b == b;
    } else {
      assert (a + b)[1..] == a[1..] + b;
      FoldConcat(Apply(g, a[0]), a[1..], b);
    }
  }

  lemma {:induction false} FoldOne(g: Graph, e: Entry)
    ensures Fold(g, [e]) == Apply(g, e)
  {
    assert Fold(Apply(g, e), [e][1..]) == Apply(g, e);
  }

  lemma {:induction false} FoldLast(g: Graph, es: seq<Entry>, e: Entry)
    ensures Fold(g, es + [e]) == Apply(Fold(g, es), e)
  {
    FoldConcat(g, es, [e]);
    FoldOne(Fold(g, es), e);
  }

  // What comes before a replacement does not matter.
  lemma {:induction false} FoldFromReplacement(g: Graph, es: seq<Entry>, i: nat)
    requires i < |es| && es[i].Replace?
    ensures Fold(g, es) == Fold([], es[i..]) == Fold(es[i].graph, es[i + 1..])
  {
    assert es == es[..i] + es[i..];
    FoldConcat(g, es[..i], es[i..]);
    assert es[i..][1..] == es[i + 1..];
  }

  lemma {:induction false} LastReplaceIs(es: seq<Entry>, i: int)
    requires -1 <= i < |es| && (i >= 0 ==> es[i].Replace?) && forall j :: i < j < |es| ==> !es[j].Replace?
    ensures LastReplace(es) == i
  {
    var k := LastReplace(es);
    assert k >= 0 ==> es[k].Replace?;
  }

  lemma {:induction false} LastReplaceConcat(a: seq<Entry>, b: seq<Entry>)
    ensures LastReplace(a + b) == if LastReplace(b) >= 0 then |a| + LastReplace(b) else LastReplace(a)
  {
    var i := if LastReplace(b) >= 0 then |a| + LastReplace(b) else LastReplace(a);
    hide LastReplace;
    forall j | i < j < |a + b|
      ensures !(a + b)[j].Replace?
    {
      if j >= |a| {
        assert (a + b)[j] == b[j - |a|];
      }
    }
    LastReplaceIs(a + b, i);
  }

  // ----- the invariant -----

  predicate IsOnDisk(d: Disk, g: Graph) {
    g in d.graphs && g in d.durableGraphs
  }

  predicate NoReplacement(es: seq<Entry>) {
    forall e <- es :: !e.Replace?
  }

  predicate SnapshotIsOnDisk(d: Disk) {
    d.snapshot && d.durableSnapshot
  }

  // What replaying `es` reads is on disk for sure: the file its last
  // replacement names, or the snapshot that everything started from. A log
  // without entries needs neither while `.graph` files make the open refuse.
  predicate Readable(s: Sys, es: seq<Entry>) {
    var i := LastReplace(es);
    if i >= 0 then IsOnDisk(s.disk, es[i].graph)
    else s.base != [] ==>
      SnapshotIsOnDisk(s.disk) || (es == [] && s.disk.graphs * s.disk.durableGraphs != {})
  }

  // The acknowledged graph, with some of the entries that are ahead of it.
  ghost predicate Accepts(s: Sys, g: Graph) {
    exists k :: 0 <= k <= |s.ahead| && g == Fold(s.acked, s.ahead[..k])
  }

  // The log that `wal.bin` durably names.
  function Behind(s: Sys): Log {
    if s.disk.former.Some? then s.disk.former.value else s.disk.bin
  }

  ghost predicate LogsAgree(s: Sys) {
    && Fold(s.base, Behind(s).durable) == s.acked
    && (s.disk.former.None? ==> s.ahead == s.disk.bin.unsynced + Inflight(s))
    && (s.disk.former.Some? ==>
          && s.ahead == s.disk.former.value.unsynced
          && s.disk.bin.unsynced == [] && s.inflight.None? && s.disk.bin.durable != []
          && Fold(s.base, s.disk.bin.durable) == Fold(s.acked, s.ahead))
    && (!s.poisoned ==> s.memory == Fold(s.base, s.disk.bin.All()))
  }

  // A log that starts over at its very first entry needs no snapshot.
  predicate StartsOver(log: Log) {
    log.durable == [] && log.unsynced != [] && log.unsynced[0].Replace?
  }

  predicate LogIsReadable(s: Sys, log: Log) {
    var i := LastReplace(log.durable);
    if i >= 0 then IsOnDisk(s.disk, log.durable[i].graph)
    else s.base != [] ==> SnapshotIsOnDisk(s.disk) || StartsOver(log)
  }

  ghost predicate FilesAreThere(s: Sys) {
    && LogIsReadable(s, Behind(s))
    && (s.disk.former.Some? ==> Readable(s, s.disk.bin.durable))
    && (forall e <- s.ahead :: e.Replace? ==> IsOnDisk(s.disk, e.graph))
  }

  // The log an interrupted rotation of an empty log leaves.
  ghost predicate StartsFrom(s: Sys, es: seq<Entry>) {
    exists k :: 0 <= k <= |Behind(s).unsynced|
      && es == [Replace(Fold(s.acked, Behind(s).unsynced[..k]))]
      && IsOnDisk(s.disk, Fold(s.acked, Behind(s).unsynced[..k]))
  }

  ghost predicate TmpIsSafe(s: Sys, x: Next) {
    match x
    case Torn => true
    case Whole(es, _) => es == [] || StartsFrom(s, es) || (s.disk.former.Some? && es == s.disk.bin.durable)
  }

  ghost predicate TmpsAreSafe(s: Sys) {
    Behind(s).durable == [] ==> forall x | NextMayBe(s.disk, x) :: TmpIsSafe(s, x)
  }

  predicate IsCheckpoint(a: Actor) {
    a.Encoded? || a.GraphWritten? || a.GraphSynced? || a.GraphRenamed? || a.GraphDurable?
    || a.NextStarted? || a.NextWritten? || a.NextSynced?
  }

  // A checkpoint's graph is the log up to where it was taken.
  predicate HoldsLogUpTo(s: Sys, graph: Graph, from: nat) {
    var all := s.disk.bin.All();
    && from <= |all|
    && graph == Fold(s.base, all[..from])
    && (s.disk.bin.unsynced != [] ==> from == |all|)
    && NoReplacement(all[from..]) && NoReplacement(Inflight(s))
  }

  predicate ActorIsRight(s: Sys) {
    var a, d := s.actor, s.disk;
    && (IsCheckpoint(a) && !s.poisoned ==> HoldsLogUpTo(s, a.graph, a.from))
    && (a.GraphRenamed? ==> a.graph in d.graphs)
    && (a.GraphDurable? || a.NextStarted? || a.NextWritten? || a.NextSynced? ==> IsOnDisk(d, a.graph))
    && (a.NextStarted? || a.NextWritten? || a.NextSynced? ==> !s.poisoned && s.inflight.None?)
    && (a.NextWritten? ==> d.tmp == Some(Whole(NextEntries(s, a.graph, a.from), false)))
    && (a.NextSynced? ==> d.tmp == Some(Whole(NextEntries(s, a.graph, a.from), true)))
    && (d.former.Some? ==> a.LogRenamed? || s.poisoned)
    && (a.LogRenamed? ==>
          d.former.Some? && d.bin.durable != [] && d.bin.durable[0] == Replace(a.graph)
          && NoReplacement(d.bin.durable[1..]))
    && (IsCheckpoint(a) || a.Cleaning? ==> d.former.None?)
    && (a.ImportRenamed? ==> a.graph in d.graphs)
    && (a.ImportDurable? || a.ImportAppending? ==> IsOnDisk(d, a.graph))
    && (a.ImportAppending? ==> s.inflight == Some(Replace(a.graph)))
    && (!a.ImportAppending? ==> NoReplacement(Inflight(s)))
    && (s.inflight.Some? ==> !s.poisoned && d.former.None?)
  }

  predicate Keeps(es: seq<Entry>, keep: Graph) {
    forall e <- es :: e.Replace? ==> e.graph == keep
  }

  // Whatever part of the log survives, its replay starts from `keep`, or from
  // a snapshot that holds nothing, or it is refused.
  predicate StartsFromKept(base: Graph, log: Log, ahead: seq<Entry>, keep: Graph) {
    var i := LastReplace(log.durable);
    && Keeps(ahead, keep)
    && if i >= 0 then log.durable[i].graph == keep else base == [] || StartsOver(log)
  }

  ghost predicate NextsKeep(d: Disk, keep: Graph) {
    d.bin.durable == [] ==>
      forall x | NextMayBe(d, x) :: x.Whole? && x.entries != [] ==> x.entries == [Replace(keep)]
  }

  // What is deleted is nothing that any surviving log would read.
  ghost predicate CleaningIsSafe(s: Sys) {
    s.actor.Cleaning? ==>
      && LastReplace(s.disk.bin.All()) >= 0
      && StartsFromKept(s.base, s.disk.bin, s.ahead, s.actor.keep)
      && NextsKeep(s.disk, s.actor.keep)
  }

  ghost predicate Inv(s: Sys) {
    s.refused || (LogsAgree(s) && FilesAreThere(s) && TmpsAreSafe(s) && ActorIsRight(s) && CleaningIsSafe(s))
  }

  // The entries a killed process leaves that no sync has covered.
  function LeftUnsynced(s: Sys, whole: bool): seq<Entry> {
    s.disk.bin.unsynced + if whole then Inflight(s) else []
  }

  // A killed process may be followed by another only once the log is settled:
  // no rename of it waits to be durable, and when a replacement in it waits for
  // a sync, nothing else is what some part of the log would start from.
  ghost predicate Settled(s: Sys, whole: bool) {
    var unsynced := LeftUnsynced(s, whole);
    var i := LastReplace(unsynced);
    && s.disk.former.None?
    && (i >= 0 ==>
          && StartsFromKept(s.base, Log(s.disk.bin.durable, unsynced), unsynced, unsynced[i].graph)
          && NextsKeep(s.disk, unsynced[i].graph))
  }

  // ----- opening what a crash leaves -----

  lemma {:induction false} OpensTo(s: Sys, es: seq<Entry>, promoted: bool, f: Found)
    requires LastReplace(es) >= 0 ==> es[LastReplace(es)].graph in f.graphs
    requires LastReplace(es) < 0 && s.base != [] ==> f.snapshot || (es == [] && f.graphs != {})
    ensures OpenLog(es, promoted, f, s.base) ==
      if es == [] && f.graphs != {} then Refused else Opened(es, promoted, Fold(s.base, es))
  {
    hide LastReplace;
    if LastReplace(es) >= 0 {
      FoldFromReplacement(s.base, es, LastReplace(es));
    }
  }

  // Any part of the log that survives can be read.
  lemma {:induction false} PartIsReadable(s: Sys, log: Log, part: seq<Entry>)
    requires LogIsReadable(s, log) && forall e <- part :: e.Replace? ==> IsOnDisk(s.disk, e.graph)
    requires StartsOver(log) && part != [] ==> part[0] == log.unsynced[0]
    requires StartsOver(log) ==> IsOnDisk(s.disk, log.unsynced[0].graph)
    ensures Readable(s, log.durable + part)
  {
    hide LastReplace;
    LastReplaceConcat(log.durable, part);
    var i := LastReplace(part);
    if i >= 0 {
      assert part[i] in part && (log.durable + part)[|log.durable| + i] == part[i];
    } else if StartsOver(log) {
      assert part == [];
      assert log.unsynced[0].graph in s.disk.graphs * s.disk.durableGraphs;
    }
  }

  lemma {:induction false} PartOfLogIsReadable(s: Sys, k: nat)
    requires LogsAgree(s) && FilesAreThere(s) && k <= |s.ahead|
    ensures Readable(s, Behind(s).durable + s.ahead[..k])
  {
    hide LastReplace, Readable, IsOnDisk, LogIsReadable, Fold;
    var log := Behind(s);
    if log.unsynced != [] {
      assert s.ahead[0] == log.unsynced[0] && s.ahead[0] in s.ahead;
    }
    PartIsReadable(s, log, s.ahead[..k]);
  }

  // A log the crash may have left opens to something acceptable.
  lemma {:induction false} SurvivorIsAccepted(s: Sys, es: seq<Entry>)
    requires Inv(s) && !s.refused && LogMayBe(s, es)
    ensures Readable(s, es) && Accepts(s, Fold(s.base, es))
    ensures es == [] ==> Behind(s).durable == []
  {
    hide LastReplace, Readable, ActorIsRight, TmpsAreSafe, IsOnDisk, CleaningIsSafe;
    var bin, behind := s.disk.bin, Behind(s);
    if Survives(es, behind.durable, s.ahead) {
      var k :| 0 <= k <= |s.ahead| && es == behind.durable + s.ahead[..k];
      FoldConcat(s.base, behind.durable, s.ahead[..k]);
      PartOfLogIsReadable(s, k);
    } else {
      assert s.disk.former.Some? && Survives(es, bin.durable, []);
      assert bin.unsynced + Inflight(s) == [];
      assert es == bin.durable;
      assert s.ahead[..|s.ahead|] == s.ahead;
    }
  }

  // The next log found beside an empty one opens to something acceptable too.
  lemma {:induction false} PromotedIsAccepted(s: Sys, x: Next)
    requires Inv(s) && !s.refused && x.Whole? && x.entries != []
    requires TmpIsSafe(s, x)
    ensures Readable(s, x.entries) && Accepts(s, Fold(s.base, x.entries))
  {
    hide ActorIsRight, TmpsAreSafe;
    if StartsFrom(s, x.entries) {
      var un := Behind(s).unsynced;
      var k :| 0 <= k <= |un| && x.entries == [Replace(Fold(s.acked, un[..k]))] && IsOnDisk(s.disk, Fold(s.acked, un[..k]));
      LastReplaceIs(x.entries, 0);
      FoldFromReplacement(s.base, x.entries, 0);
      assert s.ahead[..k] == un[..k];
    } else {
      SurvivorIsBin(s);
    }
  }

  lemma {:induction false} SurvivorIsBin(s: Sys)
    requires Inv(s) && !s.refused && s.disk.former.Some?
    ensures Readable(s, s.disk.bin.durable) && Accepts(s, Fold(s.base, s.disk.bin.durable))
  {
    hide Readable, ActorIsRight, TmpsAreSafe;
    assert s.ahead[..|s.ahead|] == s.ahead;
  }

  lemma {:induction false} FoundIsReadable(s: Sys, f: Found, es: seq<Entry>)
    requires MayFind(s, f) && Readable(s, es)
    ensures LastReplace(es) >= 0 ==> es[LastReplace(es)].graph in f.graphs
    ensures LastReplace(es) < 0 && s.base != [] ==> f.snapshot || (es == [] && f.graphs != {})
  {
    hide LastReplace, LogMayBe, NextMayBe;
  }

  // After a power cut at any moment, opening yields the acknowledged graph and
  // at most entries that were still in flight; it refuses only while no entry
  // was ever acknowledged.
  lemma {:induction false} PowerCutKeepsEveryWrite(s: Sys, f: Found)
    requires Inv(s) && !s.refused && MayFind(s, f)
    ensures match Open(f, s.base)
      case Opened(es, _, g) => g == Fold(s.base, es) && Readable(s, es) && Accepts(s, g)
      case Refused => Behind(s).durable == []
  {
    hide LastReplace, Readable, ActorIsRight, Accepts, LogsAgree, FilesAreThere;
    if f.tmp.Some? && f.bin == [] {
      var x := f.tmp.value;
      if LogMayBe(s, f.bin) {
        SurvivorIsAccepted(s, f.bin);
        assert TmpIsSafe(s, x);
      } else {
        assert TmpIsSafe(s, x);
        SurvivorIsNotEmpty(s);
      }
      if x.Whole? {
        if x.entries == [] {
          EmptyLogFoldsToBase(s, f);
        } else {
          PromotedIsAccepted(s, x);
          FoundIsReadable(s, f, x.entries);
          OpensTo(s, x.entries, true, f);
        }
      }
    } else {
      SurvivorIsAccepted(s, f.bin);
      FoundIsReadable(s, f, f.bin);
      OpensTo(s, f.bin, false, f);
    }
  }

  lemma {:induction false} SurvivorIsNotEmpty(s: Sys)
    requires Inv(s) && !s.refused && s.disk.former.Some?
    ensures s.disk.bin.durable != []
  {
    hide FilesAreThere, TmpsAreSafe, ActorIsRight;
  }

  lemma {:induction false} EmptyLogFoldsToBase(s: Sys, f: Found)
    requires Inv(s) && !s.refused && MayFind(s, f) && f.bin == [] && LogMayBe(s, [])
    ensures Readable(s, []) && Accepts(s, Fold(s.base, []))
    ensures OpenLog([], true, f, s.base) == if f.graphs != {} then Refused else Opened([], true, Fold(s.base, []))
  {
    hide LastReplace, Readable, ActorIsRight, Accepts, LogsAgree, FilesAreThere, TmpsAreSafe;
    SurvivorIsAccepted(s, []);
    FoundIsReadable(s, f, []);
    OpensTo(s, [], true, f);
  }

  // The file that a durable log's last replacement names is on disk, whole.
  lemma {:induction false} NamedFileIsOnDisk(s: Sys)
    requires Inv(s) && !s.refused && LastReplace(Behind(s).durable) >= 0
    ensures IsOnDisk(s.disk, Behind(s).durable[LastReplace(Behind(s).durable)].graph)
  {
    hide LastReplace, LogsAgree, TmpsAreSafe, ActorIsRight;
  }

  lemma {:induction false} KillIsACut(s: Sys, whole: bool)
    requires LogsAgree(s)
    ensures MayFind(s, AfterKill(s, whole))
  {
    var unsynced := s.disk.bin.unsynced + Inflight(s);
    var kept := s.disk.bin.unsynced + if whole then Inflight(s) else [];
    var k := |kept|;
    assert unsynced[..k] == kept;
    assert AfterKill(s, whole).bin == s.disk.bin.durable + unsynced[..k];
    assert s.disk.tmp.Some? ==> NextAfterCut(s.disk.tmp.value, s.disk.tmp.value);
  }
}
