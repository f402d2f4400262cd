/** What answering a write promises (`Wal::append` in zega/src/wal/mod.rs, the
    module comment of zega/src/checkpoint.rs), told from the steps alone: every
    write that was answered is in what any later power cut leaves, in order, and
    nothing is that was not begun. */
module CheckpointAnswers {
  import opened Checkpoints
  import opened CheckpointSafety
  import opened CheckpointSteps
  import opened Wrappers

  // ----- one write -----

  // An answered write is in memory, acknowledged, and the last entry of a log
  // that is on disk as a whole; nothing else changes.
  lemma {:induction false} AnsweredWriteIsOnDisk(s: Sys, w: nat)
    requires Inv(s) && Can(s, BeginWrite(w))
    ensures var t := After(After(s, BeginWrite(w)), Ack);
      && Can(After(s, BeginWrite(w)), Ack)
      && t.memory == s.memory + [w] && t.acked == s.memory + [w] && t.ahead == [] && t.inflight.None?
      && t.disk == s.disk.(bin := Log(s.disk.bin.All() + [Write(w)], []))
      && t.actor == s.actor && !t.poisoned && !t.refused
  {
  }

  // A write that fails and is taken out again leaves everything as it was.
  lemma {:induction false} FailedWriteLeavesNothing(s: Sys, w: nat, poisons: bool)
    requires Inv(s) && Can(s, BeginWrite(w))
    ensures After(After(s, BeginWrite(w)), FailWrite(true, poisons)) == s.(poisoned := s.poisoned || poisons)
  {
    assert (s.ahead + [Write(w)])[..|s.ahead|] == s.ahead;
  }

  // An import that is answered replaces the graph, by an entry that is on disk.
  lemma {:induction false} AnsweredImportReplaces(s: Sys, graph: Graph)
    requires Inv(s) && Can(s, RenameImport(graph)) && LogIsFree(s)
    ensures var three := After(After(After(s, RenameImport(graph)), SyncImport), AppendImport);
      var t := After(three, Ack);
      && Can(three, Ack)
      && t.memory == graph && t.acked == graph && t.ahead == []
      && t.disk.bin == Log(s.disk.bin.All() + [Replace(graph)], [])
      && graph in t.disk.graphs && graph in t.disk.durableGraphs
  {
  }

  // ----- histories -----

  // `a` can be made from `b` by leaving out some of it.
  predicate IsWithin(a: Graph, b: Graph)
    decreases |b|
  {
    a == [] || (b != [] &&
      ((a[|a| - 1] == b[|b| - 1] && IsWithin(a[..|a| - 1], b[..|b| - 1])) || IsWithin(a, b[..|b| - 1])))
  }

  lemma {:induction false} WithinItself(a: Graph)
    ensures IsWithin(a, a)
    decreases |a|
  {
    if a != [] {
      WithinItself(a[..|a| - 1]);
    }
  }

  lemma {:induction false} WithinMore(a: Graph, b: Graph, w: nat)
    requires IsWithin(a, b)
    ensures IsWithin(a, b + [w]) && IsWithin(a + [w], b + [w])
  {
    assert (b + [w])[..|b|] == b && (a + [w])[..|a|] == a;
  }

  lemma {:induction false} WithinIsNotLonger(a: Graph, b: Graph)
    requires IsWithin(a, b)
    ensures |a| <= |b|
    decreases |b|
  {
    if a != [] {
      if IsWithin(a, b[..|b| - 1]) {
        WithinIsNotLonger(a, b[..|b| - 1]);
      } else {
        WithinIsNotLonger(a[..|a| - 1], b[..|b| - 1]);
      }
    }
  }

  // What the database started from and the writes answered since, and the same
  // with those that failed and may be there all the same.
  datatype History = History(answered: Graph, begun: Graph)

  predicate Fits(h: History, g: Graph) {
    IsWithin(h.answered, g) && IsWithin(g, h.begun)
  }

  // What is known from the steps: the histories of which one holds (more than
  // one after an import that failed or was cut off), the entry a writer waits
  // for, and the graph that is imported.
  datatype Known = Known(histories: set<History>, waiting: Option<Entry>, importing: Option<Graph>)

  function Anew(g: Graph): History {
    History(g, g)
  }

  function Answered(hs: set<History>, e: Entry): set<History> {
    match e
    case Write(w) => set h | h in hs :: History(h.answered + [w], h.begun + [w])
    case Replace(g) => {Anew(g)}
  }

  // The entry may be in the log, and may not.
  function Unanswered(hs: set<History>, e: Entry): set<History> {
    match e
    case Write(w) => set h | h in hs :: History(h.answered, h.begun + [w])
    case Replace(g) => hs + {Anew(g)}
  }

  function Answer(k: Known): Known {
    if k.waiting.None? then k else k.(histories := Answered(k.histories, k.waiting.value), waiting := None)
  }

  function GiveUp(k: Known): Known {
    if k.waiting.None? then k else k.(histories := Unanswered(k.histories, k.waiting.value), waiting := None)
  }

  function Learn(k: Known, l: Label): Known {
    match l
    case BeginWrite(w) => k.(waiting := Some(Write(w)))
    case RenameImport(g) => k.(importing := Some(g))
    case AppendImport => if k.importing.Some? then k.(waiting := Some(Replace(k.importing.value))) else k
    case Ack => Answer(k)
      // A rotation syncs the log first, which answers a waiting writer.
    case BeginRotate => Answer(k)
    case FailWrite(removed, _) => if removed then k.(waiting := None) else GiveUp(k)
    case Kill(_) => GiveUp(k)
    case PowerCut(_) => GiveUp(k)
    case _ => k
  }

  function LearnAll(k: Known, ls: seq<Label>): Known
    decreases |ls|
  {
    if ls == [] then k else LearnAll(Learn(k, ls[0]), ls[1..])
  }

  function KnownAtStart(base: Graph): Known {
    Known({Anew(base)}, None, None)
  }

  ghost predicate FitsSome(hs: set<History>, g: Graph) {
    exists h <- hs :: Fits(h, g)
  }

  lemma {:induction false} AnsweredFits(hs: set<History>, g: Graph, e: Entry)
    requires FitsSome(hs, g)
    ensures FitsSome(Answered(hs, e), Apply(g, e))
  {
    match e
    case Write(w) =>
      var h :| h in hs && Fits(h, g);
      WithinMore(h.answered, g, w);
      WithinMore(g, h.begun, w);
      assert History(h.answered + [w], h.begun + [w]) in Answered(hs, e);
    case Replace(graph) =>
      WithinItself(graph);
      assert Fits(Anew(graph), graph);
  }

  lemma {:induction false} UnansweredFits(hs: set<History>, g: Graph, e: Entry)
    requires FitsSome(hs, g)
    ensures FitsSome(Unanswered(hs, e), g) && FitsSome(Unanswered(hs, e), Apply(g, e))
  {
    var h :| h in hs && Fits(h, g);
    match e
    case Write(w) =>
      WithinMore(h.answered, g, w);
      WithinMore(g, h.begun, w);
      assert History(h.answered, h.begun + [w]) in Unanswered(hs, e);
    case Replace(graph) =>
      WithinItself(graph);
      assert Fits(Anew(graph), graph);
  }

  // ----- what is known holds -----

  // The entries ahead that nobody waits for.
  function Left(s: Sys): seq<Entry> {
    if s.inflight.Some? && s.ahead != [] then s.ahead[..|s.ahead| - 1] else s.ahead
  }

  ghost predicate AllFit(hs: set<History>, g: Graph, es: seq<Entry>) {
    forall i | 0 <= i <= |es| :: FitsSome(hs, Fold(g, es[..i]))
  }

  ghost predicate Holds(k: Known, s: Sys) {
    && k.waiting == s.inflight
    && (s.actor.ImportRenamed? || s.actor.ImportDurable? || s.actor.ImportAppending? ==>
          k.importing == Some(s.actor.graph))
    && AllFit(k.histories, s.acked, Left(s))
  }

  lemma {:induction false} AheadIs(s: Sys)
    requires Inv(s) && !s.refused
    ensures s.ahead == Left(s) + Inflight(s)
  {
    hide FilesAreThere, TmpsAreSafe, CleaningIsSafe, Fold;
  }

  // One more entry, that is there or is not.
  lemma {:induction false} OneMoreFits(hs: set<History>, g: Graph, es: seq<Entry>, e: Entry)
    requires AllFit(hs, g, es)
    ensures AllFit(Unanswered(hs, e), g, es + [e])
    ensures FitsSome(Answered(hs, e), Fold(g, es + [e]))
  {
    hide FitsSome, Fold, Unanswered, Answered;
    assert es[..|es|] == es;
    FoldLast(g, es, e);
    AnsweredFits(hs, Fold(g, es), e);
    forall i | 0 <= i <= |es + [e]|
      ensures FitsSome(Unanswered(hs, e), Fold(g, (es + [e])[..i]))
    {
      if i <= |es| {
        assert (es + [e])[..i] == es[..i];
        UnansweredFits(hs, Fold(g, es[..i]), e);
      } else {
        assert (es + [e])[..i] == es + [e];
        UnansweredFits(hs, Fold(g, es), e);
      }
    }
  }

  // What a crash may leave fits what is known after it.
  lemma {:induction false} GivenUpFits(k: Known, s: Sys)
    requires Inv(s) && !s.refused && Holds(k, s)
    ensures AllFit(GiveUp(k).histories, s.acked, s.ahead)
  {
    hide Inv, AllFit, Unanswered;
    AheadIs(s);
    if s.inflight.Some? {
      OneMoreFits(k.histories, s.acked, Left(s), s.inflight.value);
    }
  }

  lemma {:induction false} AcceptedFits(k: Known, s: Sys, g: Graph)
    requires Inv(s) && !s.refused && Holds(k, s) && Accepts(s, g)
    ensures FitsSome(GiveUp(k).histories, g)
  {
    hide Inv, FitsSome, Fold;
    GivenUpFits(k, s);
    var i :| 0 <= i <= |s.ahead| && g == Fold(s.acked, s.ahead[..i]);
  }

  // Nothing ahead: the graph is the acknowledged one.
  lemma {:induction false} SettledFits(hs: set<History>, g: Graph)
    requires FitsSome(hs, g)
    ensures AllFit(hs, g, [])
  {
    hide FitsSome;
    var none: seq<Entry> := [];
    forall i | 0 <= i <= |none|
      ensures FitsSome(hs, Fold(g, none[..i]))
    {
      assert none[..i] == [] && Fold(g, []) == g;
    }
  }

  lemma {:induction false} AnsweredHolds(k: Known, s: Sys)
    requires Inv(s) && !s.refused && Holds(k, s) && s.inflight.Some?
    ensures FitsSome(Answer(k).histories, Synced(s).acked) && Synced(s).ahead == [] && Synced(s).inflight.None?
  {
    hide FilesAreThere, TmpsAreSafe, CleaningIsSafe, Fold, AllFit, FitsSome, Answered;
    AheadIs(s);
    var e := s.inflight.value;
    OneMoreFits(k.histories, s.acked, Left(s), e);
    var all := s.disk.bin.All();
    FoldConcat(s.base, s.disk.bin.durable, s.disk.bin.unsynced);
    FoldLast(s.acked, Left(s), e);
    assert Left(s) == s.disk.bin.unsynced;
  }

  lemma {:induction false} QuietHolds(k: Known, s: Sys, l: Label)
    requires Inv(s) && Can(s, l) && Holds(k, s)
    requires !l.BeginWrite? && !l.AppendImport? && !l.Ack? && !l.BeginRotate? && !l.FailWrite? && !l.SyncLog?
    requires !l.Kill? && !l.PowerCut?
    ensures Holds(Learn(k, l), After(s, l))
  {
    hide Inv, MayFind, AllFit, NextEntries, WithoutTmp;
  }

  lemma {:induction false} BeginHolds(k: Known, s: Sys, l: Label)
    requires Inv(s) && Can(s, l) && Holds(k, s) && (l.BeginWrite? || l.AppendImport?)
    ensures Holds(Learn(k, l), After(s, l))
  {
    hide Inv, AllFit;
    assert Left(s) == s.ahead;
    var t := After(s, l);
    assert t.ahead[..|s.ahead|] == s.ahead;
    assert Left(t) == Left(s);
  }

  lemma {:induction false} AnswerHolds(k: Known, s: Sys, l: Label)
    requires Inv(s) && Can(s, l) && Holds(k, s) && (l.Ack? || l.BeginRotate?)
    ensures Holds(Learn(k, l), After(s, l))
  {
    hide Inv, AllFit, Answered, FitsSome;
    if s.inflight.Some? {
      AnsweredHolds(k, s);
      SettledFits(Answer(k).histories, Synced(s).acked);
    }
  }

  lemma {:induction false} FailHolds(k: Known, s: Sys, removed: bool, poisons: bool)
    requires Inv(s) && Can(s, FailWrite(removed, poisons)) && Holds(k, s)
    ensures Holds(Learn(k, FailWrite(removed, poisons)), After(s, FailWrite(removed, poisons)))
  {
    hide Inv, AllFit, Unanswered;
    AheadIs(s);
    GivenUpFits(k, s);
  }

  lemma {:induction false} SyncLogHolds(k: Known, s: Sys)
    requires Inv(s) && Can(s, SyncLog) && Holds(k, s)
    ensures Holds(Learn(k, SyncLog), After(s, SyncLog))
  {
    hide FilesAreThere, TmpsAreSafe, CleaningIsSafe, Fold, FitsSome;
    assert Left(s) == s.ahead && s.ahead[..|s.ahead|] == s.ahead;
    SettledFits(k.histories, Fold(s.acked, s.ahead));
  }

  lemma {:induction false} CutHolds(k: Known, s: Sys, f: Found)
    requires Inv(s) && Can(s, PowerCut(f)) && Holds(k, s) && !After(s, PowerCut(f)).refused
    ensures Holds(Learn(k, PowerCut(f)), After(s, PowerCut(f)))
  {
    hide Inv, Open, MayFind, LastReplace, Accepts, FitsSome, Fold, AllFit;
    PowerCutKeepsEveryWrite(s, f);
    var g := Open(f, s.base).graph;
    AcceptedFits(k, s, g);
    SettledFits(GiveUp(k).histories, g);
  }

  lemma {:induction false} KillHolds(k: Known, s: Sys, whole: bool)
    requires Inv(s) && Can(s, Kill(whole)) && Holds(k, s) && Settled(s, whole) && !After(s, Kill(whole)).refused
    ensures Holds(Learn(k, Kill(whole)), After(s, Kill(whole)))
  {
    hide Inv, Settled, Open, LastReplace, FitsSome, Fold, AllFit, Accepts;
    var o := Open(AfterKill(s, whole), s.base);
    var hs := GiveUp(k).histories;
    GivenUpFits(k, s);
    KillFindsWhatACutMay(s, whole);
    PowerCutKeepsEveryWrite(s, AfterKill(s, whole));
    AcceptedFits(k, s, o.graph);
    SettledFits(hs, o.graph);
    if o.promoted {
      PromotedFits(k, s, whole);
    } else {
      KilledAhead(s, whole);
      FewerFit(hs, s.acked, s.ahead, LeftUnsynced(s, whole));
    }
  }

  lemma {:induction false} FewerFit(hs: set<History>, g: Graph, es: seq<Entry>, some: seq<Entry>)
    requires AllFit(hs, g, es) && some <= es
    ensures AllFit(hs, g, some)
  {
    hide FitsSome, Fold;
    forall i | 0 <= i <= |some|
      ensures FitsSome(hs, Fold(g, some[..i]))
    {
      assert some[..i] == es[..i];
    }
  }

  lemma {:induction false} KilledAhead(s: Sys, whole: bool)
    requires Inv(s) && !s.refused && Settled(s, whole)
    ensures LeftUnsynced(s, whole) <= s.ahead
  {
    hide FilesAreThere, TmpsAreSafe, CleaningIsSafe, ActorIsRight, Fold, LastReplace;
  }

  // A next log that was promoted unsynced starts from what the log came to.
  lemma {:induction false} PromotedFits(k: Known, s: Sys, whole: bool)
    requires Inv(s) && !s.refused && Holds(k, s) && Settled(s, whole)
    requires var o := Open(AfterKill(s, whole), s.base); o.Opened? && o.promoted
    ensures AllFit(GiveUp(k).histories, s.acked, Open(AfterKill(s, whole), s.base).entries)
  {
    hide LogsAgree, FilesAreThere, CleaningIsSafe, ActorIsRight, Fold, LastReplace, AllFit, FitsSome;
    var x := s.disk.tmp.value;
    var hs := GiveUp(k).histories;
    GivenUpFits(k, s);
    FitsBefore(hs, s.acked, s.ahead, 0);
    assert NextMayBe(s.disk, x);
    if x.entries == [] {
      SettledFits(hs, s.acked);
    } else {
      UnsyncedIsAhead(s);
      var i :| 0 <= i <= |s.disk.bin.unsynced| && x.entries == [Replace(Fold(s.acked, s.disk.bin.unsynced[..i]))];
      assert s.disk.bin.unsynced[..i] == s.ahead[..i];
      FitsBefore(hs, s.acked, s.ahead, i);
      ReplacedFits(hs, s.acked, Fold(s.acked, s.ahead[..i]));
    }
  }

  lemma {:induction false} UnsyncedIsAhead(s: Sys)
    requires Inv(s) && !s.refused && s.disk.former.None?
    ensures s.disk.bin.unsynced <= s.ahead
  {
    hide FilesAreThere, TmpsAreSafe, CleaningIsSafe, ActorIsRight, Fold;
  }

  lemma {:induction false} FitsBefore(hs: set<History>, g: Graph, es: seq<Entry>, i: nat)
    requires AllFit(hs, g, es) && i <= |es|
    ensures FitsSome(hs, Fold(g, es[..i])) && FitsSome(hs, g)
  {
    hide FitsSome;
    assert FitsSome(hs, Fold(g, es[..0]));
    assert Fold(g, es[..0]) == g;
  }

  lemma {:induction false} ReplacedFits(hs: set<History>, g: Graph, graph: Graph)
    requires FitsSome(hs, g) && FitsSome(hs, graph)
    ensures AllFit(hs, g, [Replace(graph)])
  {
    hide FitsSome;
    var es := [Replace(graph)];
    FoldOne(g, es[0]);
    forall i | 0 <= i <= |es|
      ensures FitsSome(hs, Fold(g, es[..i]))
    {
      assert es[..i] == if i == 0 then [] else es;
    }
  }

  lemma {:induction false} StepHolds(k: Known, s: Sys, l: Label)
    requires Inv(s) && Can(s, l) && (l.Kill? ==> Settled(s, l.whole)) && Holds(k, s) && !After(s, l).refused
    ensures Holds(Learn(k, l), After(s, l))
  {
    hide Inv, Can, Settled, Holds, After, Learn;
    match l
    case BeginWrite(_) => BeginHolds(k, s, l);
    case AppendImport => BeginHolds(k, s, l);
    case Ack => AnswerHolds(k, s, l);
    case BeginRotate => AnswerHolds(k, s, l);
    case FailWrite(removed, poisons) => FailHolds(k, s, removed, poisons);
    case SyncLog => SyncLogHolds(k, s);
    case Kill(whole) => KillHolds(k, s, whole);
    case PowerCut(f) => CutHolds(k, s, f);
    case _ => QuietHolds(k, s, l);
  }

  lemma {:induction false} RefusedStays(s: Sys, ls: seq<Label>)
    requires Runs(s, ls) && s.refused
    ensures Run(s, ls) == s
  {
  }

  lemma {:induction false} RunHolds(k: Known, s: Sys, ls: seq<Label>)
    requires Inv(s) && Runs(s, ls) && Holds(k, s) && !Run(s, ls).refused
    ensures Holds(LearnAll(k, ls), Run(s, ls))
    decreases |ls|
  {
    hide Inv, Settled, Holds, After, Learn;
    if ls != [] {
      var t := After(s, ls[0]);
      StepKeeps(s, ls[0]);
      if t.refused {
        RefusedStays(t, ls[1..]);
      }
      StepHolds(k, s, ls[0]);
      RunHolds(Learn(k, ls[0]), t, ls[1..]);
    }
  }

  lemma {:induction false} StartIsKnown(base: Graph)
    ensures Holds(KnownAtStart(base), Start(base))
  {
    hide FitsSome;
    WithinItself(base);
    assert Fits(Anew(base), base);
    FitsAtStart(base);
    SettledFits({Anew(base)}, base);
  }

  lemma {:induction false} FitsAtStart(base: Graph)
    requires Fits(Anew(base), base)
    ensures FitsSome({Anew(base)}, base)
  {
  }

  // After any run, whatever a power cut leaves opens to every write that was
  // answered, in their order, and to no write that was not begun.
  lemma {:induction false} EveryAnswerIsKept(base: Graph, ls: seq<Label>, f: Found)
    requires Runs(Start(base), ls)
    requires var s := Run(Start(base), ls); !s.refused && MayFind(s, f)
    ensures var histories := GiveUp(LearnAll(KnownAtStart(base), ls)).histories;
      match Open(f, base)
      case Opened(_, _, g) => exists h <- histories :: IsWithin(h.answered, g) && IsWithin(g, h.begun)
      case Refused => exists h <- histories :: IsWithin(h.answered, base)
  {
    hide Inv, MayFind, Runs, Run, Open, Holds, LearnAll, GiveUp;
    var s, k := Run(Start(base), ls), LearnAll(KnownAtStart(base), ls);
    StartHolds(base);
    StartIsKnown(base);
    RunKeeps(Start(base), ls);
    RunKeepsBase(Start(base), ls);
    RunHolds(KnownAtStart(base), Start(base), ls);
    PowerCutKeepsEveryWrite(s, f);
    if Open(f, base).Opened? {
      AcceptedFits(k, s, Open(f, base).graph);
    } else {
      NothingAcknowledged(s);
      AcceptedFits(k, s, base);
    }
  }

  lemma {:induction false} NothingAcknowledged(s: Sys)
    requires Inv(s) && !s.refused && Behind(s).durable == []
    ensures s.acked == s.base && Accepts(s, s.base)
  {
    hide FilesAreThere, TmpsAreSafe, CleaningIsSafe, ActorIsRight;
    assert Fold(s.acked, s.ahead[..0]) == s.acked;
  }

  // ----- runs without imports -----

  // The writes that were answered, and those that were begun.
  function AnsweredIn(ls: seq<Label>, waiting: Option<nat>): Graph
    decreases |ls|
  {
    if ls == [] then []
    else
      match ls[0]
      case BeginWrite(w) => AnsweredIn(ls[1..], Some(w))
      case Ack => (if waiting.Some? then [waiting.value] else []) + AnsweredIn(ls[1..], None)
      case BeginRotate => (if waiting.Some? then [waiting.value] else []) + AnsweredIn(ls[1..], None)
      case FailWrite(_, _) => AnsweredIn(ls[1..], None)
      case Kill(_) => AnsweredIn(ls[1..], None)
      case PowerCut(_) => AnsweredIn(ls[1..], None)
      case _ => AnsweredIn(ls[1..], waiting)
  }

  function WaitingFor(k: Known): Option<nat> {
    if k.waiting.Some? && k.waiting.value.Write? then Some(k.waiting.value.w) else None
  }

  lemma {:induction false} OneAnswered(h: History, w: nat)
    ensures Answered({h}, Write(w)) == {History(h.answered + [w], h.begun + [w])}
    ensures Unanswered({h}, Write(w)) == {History(h.answered, h.begun + [w])}
  {
  }

  lemma {:induction false} OneHistory(k: Known, ls: seq<Label>, h: History)
    requires forall l <- ls :: !l.AppendImport?
    requires k.histories == {h} && (k.waiting.Some? ==> k.waiting.value.Write?)
    ensures var after := GiveUp(LearnAll(k, ls));
      exists begun :: after.histories == {History(h.answered + AnsweredIn(ls, WaitingFor(k)), begun)}
    decreases |ls|
  {
    if ls == [] {
      OneGivenUp(k, h);
      assert h.answered + AnsweredIn(ls, WaitingFor(k)) == h.answered;
    } else {
      assert ls[0] in ls && forall x <- ls[1..] :: x in ls;
      var begun := OneLearned(k, ls[0], h);
      var next, told := Learn(k, ls[0]), Told(k, ls[0]);
      hide Learn, GiveUp, Told, WaitingFor;
      OneHistory(next, ls[1..], History(h.answered + told, begun));
      AnsweredFirst(k, ls);
      assert h.answered + told + AnsweredIn(ls[1..], WaitingFor(next)) == h.answered + AnsweredIn(ls, WaitingFor(k));
    }
  }

  // What a step answers.
  function Told(k: Known, l: Label): Graph {
    if (l.Ack? || l.BeginRotate?) && WaitingFor(k).Some? then [WaitingFor(k).value] else []
  }

  lemma {:induction false} AnsweredFirst(k: Known, ls: seq<Label>)
    requires ls != [] && !ls[0].AppendImport?
    ensures AnsweredIn(ls, WaitingFor(k)) == Told(k, ls[0]) + AnsweredIn(ls[1..], WaitingFor(Learn(k, ls[0])))
  {
    hide Answered, Unanswered;
    assert AnsweredIn(ls[1..], WaitingFor(Learn(k, ls[0]))) == [] + AnsweredIn(ls[1..], WaitingFor(Learn(k, ls[0])));
  }

  lemma {:induction false} OneGivenUp(k: Known, h: History)
    requires k.histories == {h} && (k.waiting.Some? ==> k.waiting.value.Write?)
    ensures exists begun :: GiveUp(k).histories == {History(h.answered, begun)}
  {
    if k.waiting.Some? {
      OneAnswered(h, k.waiting.value.w);
      assert GiveUp(k).histories == {History(h.answered, h.begun + [k.waiting.value.w])};
    } else {
      assert GiveUp(k).histories == {History(h.answered, h.begun)};
    }
  }

  lemma {:induction false} OneLearned(k: Known, l: Label, h: History) returns (begun: Graph)
    requires k.histories == {h} && (k.waiting.Some? ==> k.waiting.value.Write?) && !l.AppendImport?
    ensures var next := Learn(k, l);
      && next.histories == {History(h.answered + Told(k, l), begun)}
      && (next.waiting.Some? ==> next.waiting.value.Write?)
  {
    hide Answered, Unanswered;
    assert h.answered + [] == h.answered;
    if k.waiting.Some? {
      OneAnswered(h, k.waiting.value.w);
    }
    begun := if Learn(k, l).histories == k.histories then h.begun else h.begun + [k.waiting.value.w];
  }

  // Without imports: what the directory held at first and then each write whose
  // beginning was followed by its answer.
  lemma {:induction false} AnswersAreKept(base: Graph, ls: seq<Label>, f: Found)
    requires Runs(Start(base), ls) && forall l <- ls :: !l.AppendImport?
    requires var s := Run(Start(base), ls); !s.refused && MayFind(s, f)
    ensures match Open(f, base)
      case Opened(_, _, g) => IsWithin(base + AnsweredIn(ls, None), g)
      case Refused => AnsweredIn(ls, None) == []
  {
    hide Runs, Run, MayFind, Open, LearnAll, GiveUp, AnsweredIn;
    EveryAnswerIsKept(base, ls, f);
    OneHistory(KnownAtStart(base), ls, Anew(base));
    if Open(f, base).Refused? {
      WithinIsNotLonger(base + AnsweredIn(ls, None), base);
    }
  }
}
