/** Checkpoints, imports, writes and crashes of one database directory
    (zega/src/checkpoint.rs, the log of zega/src/wal/mod.rs and the open of
    zega/src/lib.rs) as a transition system.

    A graph is the sequence of writes it holds. A `.graph` file is named after
    its content, so a name is the graph it holds. Files and directory entries
    are what the process sees and, apart from that, what a power cut is sure to
    leave. */
module Checkpoints {
  import opened Wrappers

  type Graph = seq<nat>

  datatype Entry = Write(w: nat) | Replace(graph: Graph)

  function Apply(g: Graph, e: Entry): Graph {
    match e
    case Write(w) => g + [w]
    case Replace(graph) => graph
  }

  function Fold(g: Graph, es: seq<Entry>): Graph
    decreases |es|
  {
    if es == [] then g else Fold(Apply(g, es[0]), es[1..])
  }

  // ----- the directory -----

  // A log file: entries on disk for sure, then entries in the file that no
  // sync has covered yet.
  datatype Log = Log(durable: seq<Entry>, unsynced: seq<Entry>) {
    function All(): seq<Entry> {
      durable + unsynced
    }
  }

  // `wal.rotate.tmp`: a log whose every entry checks out, or not.
  datatype Next = Whole(entries: seq<Entry>, synced: bool) | Torn

  datatype Disk = Disk(
    bin: Log,
    // What `wal.bin` still durably names while a rename over it is not durable.
    former: Option<Log>,
    tmp: Option<Next>,
    // What a power cut can bring back as `wal.rotate.tmp`.
    stale: set<Next>,
    // The `.graph` files in `graphs/`: seen, and surely on disk.
    graphs: set<Graph>,
    durableGraphs: set<Graph>,
    // Whether `snapshot.bin` is there, seen and surely on disk.
    snapshot: bool,
    durableSnapshot: bool)

  // Who holds the import lock, and how far along it is.
  datatype Actor =
    | Idle
      // A checkpoint of `graph`, which is the log up to entry `from`.
    | Encoded(graph: Graph, from: nat)
    | GraphWritten(graph: Graph, from: nat)
    | GraphSynced(graph: Graph, from: nat)
    | GraphRenamed(graph: Graph, from: nat)
    | GraphDurable(graph: Graph, from: nat)
    | NextStarted(graph: Graph, from: nat)
    | NextWritten(graph: Graph, from: nat)
    | NextSynced(graph: Graph, from: nat)
    | LogRenamed(graph: Graph)
      // An import of `graph`.
    | ImportRenamed(graph: Graph)
    | ImportDurable(graph: Graph)
    | ImportAppending(graph: Graph)
      // Deleting what nothing reads any more.
    | Cleaning(keep: Graph)

  datatype Sys = Sys(
    // What the directory held before its first log entry, from `snapshot.bin`.
    base: Graph,
    disk: Disk,
    memory: Graph,
    // The entry a writer holding the graph lock has appended and waits for.
    inflight: Option<Entry>,
    actor: Actor,
    poisoned: bool,
    // Whether the last open refused the directory.
    refused: bool,
    // The graph as of the last acknowledged write, and the entries since that
    // a crash may or may not keep.
    acked: Graph,
    ahead: seq<Entry>)

  function Inflight(s: Sys): seq<Entry> {
    if s.inflight.Some? then [s.inflight.value] else []
  }

  // ----- opening -----

  // The directory as an open finds it. A missing log is one without entries.
  datatype Found = Found(bin: seq<Entry>, tmp: Option<Next>, graphs: set<Graph>, snapshot: bool)

  datatype Opening =
    | Refused
    | Opened(entries: seq<Entry>, promoted: bool, graph: Graph)

  // `settle_rotation`: the log to open, and whether it was the next one.
  function Settle(f: Found): Option<(seq<Entry>, bool)> {
    if f.tmp.None? || f.bin != [] then Some((f.bin, false))
    else
      match f.tmp.value
      case Torn => None
      case Whole(entries, _) => Some((entries, true))
  }

  // The index of the last replacement, or -1.
  function LastReplace(es: seq<Entry>): (i: int)
    ensures -1 <= i < |es| && (i >= 0 ==> es[i].Replace?)
    ensures forall j :: i < j < |es| ==> !es[j].Replace?
    decreases |es|
  {
    if es == [] then -1
    else if es[|es| - 1].Replace? then |es| - 1
    else LastReplace(es[..|es| - 1])
  }

  function OpenLog(es: seq<Entry>, promoted: bool, f: Found, base: Graph): Opening {
    var i := LastReplace(es);
    if es == [] && f.graphs != {} then Refused
    else if i >= 0 then
      if es[i].graph in f.graphs then Opened(es, promoted, Fold([], es[i..])) else Refused
    else Opened(es, promoted, Fold(if f.snapshot then base else [], es))
  }

  function Open(f: Found, base: Graph): Opening {
    match Settle(f)
    case None => Refused
    case Some((es, promoted)) => OpenLog(es, promoted, f, base)
  }

  // ----- what a crash leaves -----

  // Killing the process leaves what it saw, the entry in flight whole or not.
  function AfterKill(s: Sys, whole: bool): Found {
    Found(s.disk.bin.All() + (if whole then Inflight(s) else []), s.disk.tmp, s.disk.graphs, s.disk.snapshot)
  }

  // The synced entries of a file survive, and some of the others in order.
  ghost predicate Survives(es: seq<Entry>, durable: seq<Entry>, unsynced: seq<Entry>) {
    exists k :: 0 <= k <= |unsynced| && es == durable + unsynced[..k]
  }

  // What an unsynced next log can turn out to hold.
  ghost predicate NextAfterCut(x: Next, n: Next) {
    match n
    case Torn => x == Torn
    case Whole(entries, synced) =>
      if synced then x == n else x == Torn || (x.Whole? && x.entries <= entries)
  }

  ghost predicate NextMayBe(d: Disk, x: Next) {
    || (d.tmp.Some? && NextAfterCut(x, d.tmp.value))
    || (exists n <- d.stale :: NextAfterCut(x, n))
  }

  ghost predicate LogMayBe(s: Sys, es: seq<Entry>) {
    || Survives(es, s.disk.bin.durable, s.disk.bin.unsynced + Inflight(s))
    || (s.disk.former.Some? && Survives(es, s.disk.former.value.durable, s.disk.former.value.unsynced))
  }

  // A power cut: each change of a directory not yet synced happened or not.
  ghost predicate MayFind(s: Sys, f: Found) {
    var d := s.disk;
    && (LogMayBe(s, f.bin)
        // The rename took the old log away but has not put the new one there.
        || (d.former.Some? && f.bin == [] && f.tmp == Some(Whole(d.bin.durable, true))))
    && (f.tmp.Some? ==> NextMayBe(d, f.tmp.value))
    && d.graphs * d.durableGraphs <= f.graphs <= d.graphs + d.durableGraphs
    && (d.snapshot && d.durableSnapshot ==> f.snapshot)
    && (f.snapshot ==> d.snapshot || d.durableSnapshot)
  }

  // ----- the steps -----

  datatype Label =
    | BeginWrite(w: nat)
    | Ack
    | FailWrite(removed: bool, poisons: bool)
      // A checkpoint, in its order.
    | Encode
    | WriteGraph
    | SyncGraph
    | RenameGraph
    | SyncGraphs
    | BeginRotate
    | WriteNext
    | SyncNext
    | RenameLog
    | SyncLog
    | FailSyncLog
    | AbortCheckpoint(removed: bool)
      // An import, in its order.
    | RenameImport(graph: Graph)
    | SyncImport
    | AppendImport
    | AbortImport
      // Deleting, in any order and not always to the end.
    | DeleteGraph(graph: Graph)
    | DeleteSnapshot
    | EndCleaning
      // The process is killed, or the power is cut, and the directory opened again.
    | Kill(whole: bool)
    | PowerCut(found: Found)

  predicate LogIsFree(s: Sys) {
    !s.poisoned && s.inflight.None? && !s.actor.NextStarted? && !s.actor.NextWritten?
    && !s.actor.NextSynced? && !s.actor.LogRenamed?
  }

  ghost predicate Can(s: Sys, l: Label) {
    !s.refused &&
    match l
    case BeginWrite(_) => LogIsFree(s)
    case Ack => s.inflight.Some?
      // An entry that could not be taken out of the log again poisons it.
    case FailWrite(removed, poisons) => s.inflight.Some? && (removed || poisons)
    case Encode => s.actor.Idle? && !s.poisoned && s.inflight.None?
    case WriteGraph => s.actor.Encoded?
    case SyncGraph => s.actor.GraphWritten?
    case RenameGraph => s.actor.GraphSynced?
    case SyncGraphs => s.actor.GraphRenamed?
    case BeginRotate => s.actor.GraphDurable? && !s.poisoned
    case WriteNext => s.actor.NextStarted?
    case SyncNext => s.actor.NextWritten?
    case RenameLog => s.actor.NextSynced?
    case SyncLog => s.actor.LogRenamed?
    case FailSyncLog => s.actor.LogRenamed?
    case AbortCheckpoint(_) =>
      s.actor.Encoded? || s.actor.GraphWritten? || s.actor.GraphSynced? || s.actor.GraphRenamed?
      || s.actor.GraphDurable? || s.actor.NextStarted? || s.actor.NextWritten? || s.actor.NextSynced?
    case RenameImport(_) => s.actor.Idle?
    case SyncImport => s.actor.ImportRenamed?
    case AppendImport => s.actor.ImportDurable? && LogIsFree(s)
    case AbortImport => s.actor.ImportRenamed? || s.actor.ImportDurable?
    case DeleteGraph(graph) => s.actor.Cleaning? && graph != s.actor.keep
    case DeleteSnapshot => s.actor.Cleaning?
    case EndCleaning => s.actor.Cleaning?
    case Kill(_) => true
    case PowerCut(found) => MayFind(s, found)
  }

  // Every entry appended so far is on disk: the waiting writer is told so.
  function Synced(s: Sys): Sys {
    var graph := if s.inflight.Some? then Apply(s.memory, s.inflight.value) else s.memory;
    s.(disk := s.disk.(bin := Log(s.disk.bin.All() + Inflight(s), [])),
       memory := graph, inflight := None, acked := graph, ahead := [])
  }

  // The next log of a rotation: the graph file, then every entry since.
  function NextEntries(s: Sys, graph: Graph, from: nat): seq<Entry> {
    [Replace(graph)] + if from <= |s.disk.bin.All()| then s.disk.bin.All()[from..] else []
  }

  // The next log's file is gone from view, but not surely from disk.
  function WithoutTmp(d: Disk): Disk {
    d.(tmp := None, stale := d.stale + if d.tmp.Some? then {d.tmp.value} else {})
  }

  function Restart(s: Sys, d: Disk, acked: Graph, ahead: seq<Entry>): Sys {
    var es := d.bin.All();
    var i := LastReplace(es);
    Sys(s.base, d, Fold(acked, ahead), None, if i >= 0 then Cleaning(es[i].graph) else Idle, false, false, acked, ahead)
  }

  function AfterOpening(s: Sys, f: Found, o: Opening): Sys {
    match o
    case Refused => s.(refused := true)
    case Opened(entries, _, graph) =>
      Restart(
        s,
        Disk(Log(entries, []), None, None, if f.tmp.Some? && !o.promoted then {f.tmp.value} else {},
             f.graphs, f.graphs, f.snapshot, f.snapshot),
        graph, [])
  }

  function AfterKilled(s: Sys, whole: bool): Sys {
    match Open(AfterKill(s, whole), s.base)
    case Refused => s.(refused := true)
    case Opened(entries, promoted, graph) =>
      if promoted then
        // `settle_rotation` syncs the directory after its rename, not the file.
        var synced := s.disk.tmp.Some? && s.disk.tmp.value.Whole? && s.disk.tmp.value.synced;
        var bin := if synced then Log(entries, []) else Log([], entries);
        var d := s.disk.(bin := bin, former := None, tmp := None, stale := {});
        if synced then Restart(s, d, graph, []) else Restart(s, d, s.acked, entries)
      else
        var unsynced := s.disk.bin.unsynced + if whole then Inflight(s) else [];
        Restart(s, WithoutTmp(s.disk.(bin := s.disk.bin.(unsynced := unsynced))), s.acked, unsynced)
  }

  function After(s: Sys, l: Label): Sys {
    match l
    case BeginWrite(w) => s.(inflight := Some(Write(w)), ahead := s.ahead + [Write(w)])
    case Ack =>
      Synced(s).(actor := if s.actor.ImportAppending? then Cleaning(s.actor.graph) else s.actor)
    case FailWrite(removed, poisons) =>
      s.(disk := if removed then s.disk
                 else s.disk.(bin := s.disk.bin.(unsynced := s.disk.bin.unsynced + Inflight(s))),
         inflight := None, poisoned := s.poisoned || poisons,
         actor := if s.actor.ImportAppending? then Idle else s.actor,
         ahead := if removed && s.ahead != [] then s.ahead[..|s.ahead| - 1] else s.ahead)
    case Encode => s.(actor := Encoded(s.memory, |s.disk.bin.All()|))
    case WriteGraph => if s.actor.Encoded? then s.(actor := GraphWritten(s.actor.graph, s.actor.from)) else s
    case SyncGraph => if s.actor.GraphWritten? then s.(actor := GraphSynced(s.actor.graph, s.actor.from)) else s
    case RenameGraph =>
      if s.actor.GraphSynced? then
        s.(actor := GraphRenamed(s.actor.graph, s.actor.from),
           disk := s.disk.(graphs := s.disk.graphs + {s.actor.graph}))
      else s
    case SyncGraphs =>
      if s.actor.GraphRenamed? then
        s.(actor := GraphDurable(s.actor.graph, s.actor.from),
           disk := s.disk.(durableGraphs := s.disk.graphs))
      else s
    case BeginRotate =>
      if s.actor.GraphDurable? then
        var synced := if s.inflight.Some? then Synced(s) else s;
        synced.(actor := NextStarted(s.actor.graph, s.actor.from),
                disk := WithoutTmp(synced.disk).(tmp := Some(Torn)))
      else s
    case WriteNext =>
      if s.actor.NextStarted? then
        s.(actor := NextWritten(s.actor.graph, s.actor.from),
           disk := s.disk.(tmp := Some(Whole(NextEntries(s, s.actor.graph, s.actor.from), false))))
      else s
    case SyncNext =>
      if s.actor.NextWritten? && s.disk.tmp.Some? && s.disk.tmp.value.Whole? then
        s.(actor := NextSynced(s.actor.graph, s.actor.from),
           disk := s.disk.(tmp := Some(Whole(s.disk.tmp.value.entries, true))))
      else s
    case RenameLog =>
      if s.actor.NextSynced? && s.disk.tmp.Some? && s.disk.tmp.value.Whole? then
        s.(actor := LogRenamed(s.actor.graph),
           disk := WithoutTmp(s.disk).(bin := Log(s.disk.tmp.value.entries, []), former := Some(s.disk.bin)))
      else s
    case SyncLog =>
      if s.actor.LogRenamed? then
        s.(actor := Cleaning(s.actor.graph), disk := s.disk.(former := None, stale := {}),
           acked := Fold(s.acked, s.ahead), ahead := [])
      else s
    case FailSyncLog => s.(actor := Idle, poisoned := true)
    case AbortCheckpoint(removed) => s.(actor := Idle, disk := if removed then WithoutTmp(s.disk) else s.disk)
    case RenameImport(graph) => s.(actor := ImportRenamed(graph), disk := s.disk.(graphs := s.disk.graphs + {graph}))
    case SyncImport =>
      if s.actor.ImportRenamed?
      then s.(actor := ImportDurable(s.actor.graph), disk := s.disk.(durableGraphs := s.disk.graphs)) else s
    case AppendImport =>
      if s.actor.ImportDurable? then
        s.(actor := ImportAppending(s.actor.graph), inflight := Some(Replace(s.actor.graph)),
           ahead := s.ahead + [Replace(s.actor.graph)])
      else s
    case AbortImport => s.(actor := Idle)
    case DeleteGraph(graph) => s.(disk := s.disk.(graphs := s.disk.graphs - {graph}))
    case DeleteSnapshot => s.(disk := s.disk.(snapshot := false))
    case EndCleaning => s.(actor := Idle)
    case Kill(whole) => AfterKilled(s, whole)
    case PowerCut(found) => AfterOpening(s, found, Open(found, s.base))
  }
}
