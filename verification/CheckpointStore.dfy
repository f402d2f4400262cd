/** `Store::checkpoint_into` of zega/src/checkpoint.rs as the code drives it,
    with writers at work between its steps: each step it takes is one the
    system allows, so the invariant holds all the way. */
module CheckpointStore {
  import opened Checkpoints
  import opened CheckpointGaps
  import opened CheckpointSafety
  import opened CheckpointSteps
  import opened Wrappers

  predicate ByWriter(l: Label) {
    l.BeginWrite? || l.Ack? || l.FailWrite?
  }

  predicate WriterCan(s: Sys, l: Label)
    requires ByWriter(l)
  {
    match l
    case BeginWrite(_) => LogIsFree(s)
    case Ack => s.inflight.Some?
    case FailWrite(removed, poisons) => s.inflight.Some? && (removed || poisons)
  }

  // The log is the replacement with `graph` and writes after it, and no other
  // log could come back.
  ghost predicate StartsAt(s: Sys, graph: Graph) {
    && s.disk.bin.durable != [] && s.disk.bin.durable[0] == Replace(graph)
    && NoReplacement(s.disk.bin.All()[1..]) && NoReplacement(Inflight(s))
    && s.disk.former.None? && s.disk.tmp.None?
  }

  // A writer only adds to the log.
  lemma {:induction false} WriterEffect(s: Sys, l: Label)
    requires ByWriter(l) && WriterCan(s, l)
    ensures var t := After(s, l);
      && t.base == s.base && (!s.actor.ImportAppending? ==> t.actor == s.actor)
      && t.disk == s.disk.(bin := t.disk.bin)
      && (t.disk.bin.All() == s.disk.bin.All() || t.disk.bin.All() == s.disk.bin.All() + Inflight(s))
      && s.disk.bin.durable <= t.disk.bin.durable
      && NoReplacement(Inflight(t))
  {
    hide LastReplace, Fold, MayFind, Open, NextEntries, Restart, AfterKilled, WithoutTmp;
  }

  lemma {:induction false} WriterKeepsStart(s: Sys, l: Label)
    requires ByWriter(l) && WriterCan(s, l)
    ensures !s.actor.ImportAppending? ==> After(s, l).actor == s.actor
    ensures forall graph :: StartsAt(s, graph) ==> StartsAt(After(s, l), graph)
    ensures After(s, l).disk.graphs == s.disk.graphs && After(s, l).disk.snapshot == s.disk.snapshot
    ensures After(s, l).base == s.base
  {
    hide After, WriterCan;
    WriterEffect(s, l);
    var all := s.disk.bin.All();
    forall graph | StartsAt(s, graph)
      ensures StartsAt(After(s, l), graph)
    {
      assert (all + Inflight(s))[1..] == all[1..] + Inflight(s);
    }
  }

  // Such a log holds the graph it starts from, all of it acknowledged.
  lemma {:induction false} StartIsAcknowledged(s: Sys, graph: Graph)
    requires Inv(s) && !s.refused && StartsAt(s, graph)
    ensures graph <= s.acked == Fold(s.base, s.disk.bin.durable)
    ensures !s.poisoned ==> s.memory == Fold(s.base, s.disk.bin.All())
  {
    hide FilesAreThere, TmpsAreSafe, ActorIsRight, CleaningIsSafe, Fold;
    var d := s.disk.bin.durable;
    FoldFromReplacement(s.base, d, 0);
    assert d[1..] <= s.disk.bin.All()[1..];
    FoldExtends(graph, d[1..]);
  }

  datatype Failure = Busy | LogRefuses

  class Store {
    var sys: Sys

    ghost predicate Valid()
      reads this
    {
      Inv(sys) && !sys.refused
    }

    constructor (base: Graph)
      ensures Valid() && sys == Start(base)
    {
      sys := Start(base);
      new;
      StartHolds(base);
    }

    // Takes one step that the system allows.
    method Do(l: Label)
      requires Valid() && Can(sys, l) && !l.Kill? && !l.PowerCut?
      modifies this
      ensures Valid() && sys == After(old(sys), l)
    {
      hide Inv, Can;
      StepKeeps(sys, l);
      KeepsServing(sys, l);
      sys := After(sys, l);
    }

    static lemma {:induction false} KeepsServing(s: Sys, l: Label)
      requires !s.refused && !l.Kill? && !l.PowerCut?
      ensures !After(s, l).refused
    {
      hide NextEntries, LastReplace, Fold;
    }

    // What writers do while the checkpoint does not hold their locks. A log that
    // starts from a graph goes on doing so, and nothing acknowledged is lost.
    method LetWritersRun(ls: seq<Label>)
      requires Valid() && forall l <- ls :: ByWriter(l)
      requires IsCheckpoint(sys.actor) || sys.actor.Cleaning?
      modifies this
      ensures Valid() && sys.actor == old(sys.actor) && sys.base == old(sys.base)
      ensures forall graph :: StartsAt(old(sys), graph) ==> StartsAt(sys, graph)
      ensures sys.disk.graphs == old(sys.disk.graphs) && sys.disk.snapshot == old(sys.disk.snapshot)
    {
      hide Inv, StartsAt;
      var i := 0;
      while i < |ls|
        invariant 0 <= i <= |ls| && Valid()
        invariant sys.actor == old(sys.actor) && sys.base == old(sys.base)
        invariant forall graph :: StartsAt(old(sys), graph) ==> StartsAt(sys, graph)
        invariant sys.disk.graphs == old(sys.disk.graphs) && sys.disk.snapshot == old(sys.disk.snapshot)
      {
        if WriterCan(sys, ls[i]) {
          WriterKeepsStart(sys, ls[i]);
          Do(ls[i]);
        }
        i := i + 1;
      }
    }

    // Takes the graph under the lock and puts it in its file, on disk, while
    // writers go on. Only the actor's name for it and the file are its own.
    method WriteAside(encoding: seq<Label>, syncing: seq<Label>, renaming: seq<Label>)
      requires Valid() && sys.actor.Idle? && !sys.poisoned && sys.inflight.None?
      requires forall l <- encoding :: ByWriter(l)
      requires forall l <- syncing :: ByWriter(l)
      requires forall l <- renaming :: ByWriter(l)
      modifies this
      ensures Valid() && sys.actor.GraphDurable? && sys.actor.graph == old(sys.memory) && sys.base == old(sys.base)
    {
      hide Inv, Fold, NextEntries, Synced, Restart;
      Do(Encode);
      LetWritersRun(encoding);
      Do(WriteGraph);
      LetWritersRun(syncing);
      Do(SyncGraph);
      Do(RenameGraph);
      LetWritersRun(renaming);
      Do(SyncGraphs);
    }

    // The log starts over from the graph as it was when the lock was taken,
    // whatever writers do before the rotation and during the deletions after it.
    // A deletion that fails is left to the next open.
    method Checkpoint(
        encoding: seq<Label>, syncing: seq<Label>, renaming: seq<Label>,
        deleting: seq<seq<Label>>, stuck: set<Graph>, snapshotStays: bool) returns (r: Result<Graph, Failure>)
      requires Valid()
      requires forall l <- encoding + syncing + renaming :: ByWriter(l)
      requires forall ls <- deleting :: forall l <- ls :: ByWriter(l)
      modifies this
      ensures Valid()
      ensures r.Ok? ==>
        && r.value == old(sys.memory)
        && StartsAt(sys, r.value) && r.value <= sys.acked == Fold(sys.base, sys.disk.bin.durable)
        && (!sys.poisoned ==> sys.memory == Fold(sys.base, sys.disk.bin.All()))
        && (stuck == {} ==> sys.disk.graphs <= {r.value}) && (!snapshotStays ==> !sys.disk.snapshot)
        && sys.actor.Idle?
    {
      hide Inv, Fold, NextEntries, Synced, Restart, WithoutTmp, StartsAt;
      if !sys.actor.Idle? || sys.inflight.Some? {
        return Err(Busy);
      }
      if sys.poisoned {
        return Err(LogRefuses);
      }
      assert forall l <- encoding :: l in encoding + syncing + renaming;
      assert forall l <- syncing :: l in encoding + syncing + renaming;
      assert forall l <- renaming :: l in encoding + syncing + renaming;
      var graph := sys.memory;
      WriteAside(encoding, syncing, renaming);
      if sys.poisoned {
        Do(AbortCheckpoint(true));
        return Err(LogRefuses);
      }
      Rotate();
      RotatedStartsAt(sys, graph);
      Clean(deleting, stuck, snapshotStays);
      StartIsAcknowledged(sys, graph);
      r := Ok(graph);
    }

    static lemma {:induction false} RotatedStartsAt(s: Sys, graph: Graph)
      requires s.disk.bin.durable != [] && s.disk.bin.durable[0] == Replace(graph)
      requires NoReplacement(s.disk.bin.durable[1..]) && s.disk.bin.unsynced == [] && s.inflight.None?
      requires s.disk.former.None? && s.disk.tmp.None?
      ensures StartsAt(s, graph)
    {
      assert s.disk.bin.All() == s.disk.bin.durable;
    }

    // The rename of the next log over the log is the commit.
    method Rotate()
      requires Valid() && sys.actor.GraphDurable? && !sys.poisoned
      modifies this
      ensures Valid() && !sys.poisoned && sys.inflight.None?
      ensures sys.actor == Cleaning(old(sys.actor.graph))
      ensures sys.disk.bin.durable != [] && sys.disk.bin.durable[0] == Replace(old(sys.actor.graph))
      ensures NoReplacement(sys.disk.bin.durable[1..])
      ensures sys.disk.bin.unsynced == [] && sys.disk.former.None? && sys.disk.tmp.None?
      ensures sys.acked == sys.memory == Fold(sys.base, sys.disk.bin.durable)
    {
      hide LastReplace, Fold, FilesAreThere, TmpsAreSafe, NextEntries, HoldsLogUpTo, MayFind, Open, AfterKilled, Restart;
      Do(BeginRotate);
      Do(WriteNext);
      Do(SyncNext);
      Do(RenameLog);
      Do(SyncLog);
      assert sys.disk.bin.durable + [] == sys.disk.bin.durable;
    }

    // Deletes what nothing reads any more: every other graph, until a deletion
    // fails, and the snapshot. Writers run before each of the deletions.
    method Clean(deleting: seq<seq<Label>>, stuck: set<Graph>, snapshotStays: bool)
      requires Valid() && sys.actor.Cleaning?
      requires forall ls <- deleting :: forall l <- ls :: ByWriter(l)
      modifies this
      ensures Valid() && sys.actor.Idle? && sys.base == old(sys.base)
      ensures forall graph :: StartsAt(old(sys), graph) ==> StartsAt(sys, graph)
      ensures sys.disk.graphs <= old(sys.disk.graphs)
      ensures old(sys.actor.keep) in old(sys.disk.graphs) ==> old(sys.actor.keep) in sys.disk.graphs
      ensures stuck !! old(sys.disk.graphs) - {old(sys.actor.keep)} ==> sys.disk.graphs <= {old(sys.actor.keep)}
      ensures if snapshotStays then sys.disk.snapshot == old(sys.disk.snapshot) else !sys.disk.snapshot
    {
      hide Inv, StartsAt, After, Can;
      var keep := sys.actor.keep;
      var left := sys.disk.graphs - {keep};
      var n := 0;
      while left != {}
        invariant Valid() && sys.actor == Cleaning(keep) && sys.base == old(sys.base)
        invariant forall graph :: StartsAt(old(sys), graph) ==> StartsAt(sys, graph)
        invariant sys.disk.graphs <= old(sys.disk.graphs) && sys.disk.snapshot == old(sys.disk.snapshot)
        invariant keep in old(sys.disk.graphs) ==> keep in sys.disk.graphs
        invariant left == sys.disk.graphs - {keep}
        decreases left
      {
        if n < |deleting| {
          assert deleting[n] in deleting;
          LetWritersRun(deleting[n]);
          n := n + 1;
        }
        var g :| g in left;
        if g in stuck {
          break;
        }
        Delete(DeleteGraph(g));
        left := left - {g};
      }
      if n < |deleting| {
        assert deleting[n] in deleting;
        LetWritersRun(deleting[n]);
      }
      if !snapshotStays {
        Delete(DeleteSnapshot);
      }
      Delete(EndCleaning);
    }

    // One deletion, or the end of them.
    method Delete(l: Label)
      requires Valid() && sys.actor.Cleaning?
      requires (l.DeleteGraph? && l.graph != sys.actor.keep) || l.DeleteSnapshot? || l.EndCleaning?
      modifies this
      ensures Valid() && sys.base == old(sys.base)
      ensures sys.actor == if l.EndCleaning? then Idle else old(sys.actor)
      ensures forall graph :: StartsAt(old(sys), graph) ==> StartsAt(sys, graph)
      ensures sys.disk.graphs == old(sys.disk.graphs) - if l.DeleteGraph? then {l.graph} else {}
      ensures sys.disk.snapshot == (old(sys.disk.snapshot) && !l.DeleteSnapshot?)
    {
      hide Inv, StartsAt, MayFind, NextEntries, Synced, Restart, AfterKilled;
      DeletingKeepsStart(sys, l);
      Do(l);
    }

    static lemma {:induction false} DeletingKeepsStart(s: Sys, l: Label)
      requires l.DeleteGraph? || l.DeleteSnapshot? || l.EndCleaning?
      ensures forall graph :: StartsAt(s, graph) ==> StartsAt(After(s, l), graph)
    {
    }
  }
}
