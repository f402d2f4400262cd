/** The edges of the checkpoint guarantee: what it means for acknowledged
    writes over time, and when exactly an open refuses. */
module CheckpointGaps {
  import opened Checkpoints
  import opened CheckpointSafety
  import opened CheckpointSteps
  import opened Wrappers

  // ----- acknowledged writes stay -----

  lemma {:induction false} FoldExtends(g: Graph, es: seq<Entry>)
    requires NoReplacement(es)
    ensures g <= Fold(g, es)
    decreases |es|
  {
    if es != [] {
      assert es[0] in es;
      assert NoReplacement(es[1..]);
      FoldExtends(Apply(g, es[0]), es[1..]);
    }
  }

  lemma {:induction false} PrefixHasNone(es: seq<Entry>, k: nat)
    requires NoReplacement(es) && k <= |es|
    ensures NoReplacement(es[..k])
  {
  }

  lemma {:induction false} AcceptedExtends(s: Sys, g: Graph)
    requires Accepts(s, g) && NoReplacement(s.ahead)
    ensures s.acked <= g
  {
    hide Fold;
    var k :| 0 <= k <= |s.ahead| && g == Fold(s.acked, s.ahead[..k]);
    PrefixHasNone(s.ahead, k);
    FoldExtends(s.acked, s.ahead[..k]);
  }

  // With no import under way, a step only adds to what is acknowledged.
  lemma {:induction false} AcknowledgedStays(s: Sys, l: Label)
    requires Inv(s) && Can(s, l) && (l.Kill? ==> Settled(s, l.whole)) && NoReplacement(s.ahead)
    ensures s.acked <= After(s, l).acked
  {
    hide LastReplace, Fold, Open, MayFind, FilesAreThere, TmpsAreSafe, NextEntries;
    if l.PowerCut? {
      PowerCutKeepsEveryWrite(s, l.found);
      if Open(l.found, s.base).Opened? {
        AcceptedExtends(s, Open(l.found, s.base).graph);
      }
    } else if l.Kill? {
      KillFindsWhatACutMay(s, l.whole);
      PowerCutKeepsEveryWrite(s, AfterKill(s, l.whole));
      if Open(AfterKill(s, l.whole), s.base).Opened? {
        AcceptedExtends(s, Open(AfterKill(s, l.whole), s.base).graph);
      }
    } else if l.SyncLog? {
      FoldExtends(s.acked, s.ahead);
    } else if l.Ack? || l.BeginRotate? {
      SyncedExtends(s);
    }
  }

  lemma {:induction false} SyncedExtends(s: Sys)
    requires Inv(s) && !s.refused && NoReplacement(s.ahead)
    ensures s.inflight.Some? ==> s.acked <= Synced(s).acked
  {
    hide LastReplace, Fold, FilesAreThere, TmpsAreSafe;
    if s.inflight.Some? {
      var u, e := s.disk.bin.unsynced, s.inflight.value;
      assert s.ahead == u + [e] && e in s.ahead;
      FoldConcat(s.base, s.disk.bin.durable, u);
      FoldExtends(s.acked, u);
    }
  }

  // ----- refusing to open -----

  // An open refuses exactly when it finds no entry in the log and, instead of
  // a next log to go on with, a torn one or `.graph` files.
  lemma {:induction false} RefusedExactly(s: Sys, f: Found)
    requires Inv(s) && !s.refused && MayFind(s, f)
    ensures Open(f, s.base).Refused? <==>
      f.bin == [] && if f.tmp.Some? && f.tmp.value.Torn? then true
                     else (f.tmp.Some? ==> f.tmp.value.entries == []) && f.graphs != {}
  {
    hide LastReplace, Fold, Readable, ActorIsRight, Accepts, LogsAgree, FilesAreThere;
    if f.bin != [] || (f.tmp.None? && f.graphs == {}) {
      FoundOpens(s, f, f.bin);
    } else if f.tmp.Some? && f.tmp.value.Whole? && f.tmp.value.entries != [] {
      NextOpens(s, f);
    } else if f.tmp.Some? && f.tmp.value.Whole? && f.graphs == {} {
      assert LastReplace([]) == -1;
    }
  }

  lemma {:induction false} FoundOpens(s: Sys, f: Found, es: seq<Entry>)
    requires Inv(s) && !s.refused && MayFind(s, f) && es == f.bin && (es != [] || (f.graphs == {} && f.tmp.None?))
    ensures Open(f, s.base).Opened?
  {
    hide LastReplace, Fold, Readable, ActorIsRight, Accepts, LogsAgree, FilesAreThere, TmpsAreSafe, LogMayBe;
    if LogMayBe(s, f.bin) {
      SurvivorIsAccepted(s, f.bin);
      FoundIsReadable(s, f, f.bin);
      OpensTo(s, f.bin, false, f);
    }
  }

  lemma {:induction false} NextOpens(s: Sys, f: Found)
    requires Inv(s) && !s.refused && MayFind(s, f) && f.bin == []
    requires f.tmp.Some? && f.tmp.value.Whole? && f.tmp.value.entries != []
    ensures Open(f, s.base).Opened?
  {
    hide LastReplace, Fold, Readable, ActorIsRight, Accepts, LogsAgree, FilesAreThere, LogMayBe;
    var x := f.tmp.value;
    if LogMayBe(s, f.bin) {
      SurvivorIsAccepted(s, f.bin);
    }
    assert TmpIsSafe(s, x);
    PromotedIsAccepted(s, x);
    FoundIsReadable(s, f, x.entries);
    OpensTo(s, x.entries, true, f);
  }

  // A checkpoint of a log without entries leaves such a directory until its
  // next log is in place: nothing is lost, but the open refuses.
  lemma {:induction false} CheckpointOfAnEmptyLogMayBeRefused(base: Graph)
    ensures var s := Run(Start(base), [Encode, WriteGraph, SyncGraph, RenameGraph]);
      var f := Found([], None, {base}, base != []);
      && Runs(Start(base), [Encode, WriteGraph, SyncGraph, RenameGraph])
      && MayFind(s, f) && Open(f, base).Refused? && s.acked == base
  {
    var s0 := Start(base);
    var s1 := After(s0, Encode);
    var s2 := After(s1, WriteGraph);
    var s3 := After(s2, SyncGraph);
    var s4 := After(s3, RenameGraph);
    RunFour(s0, Encode, WriteGraph, SyncGraph, RenameGraph);
    assert [] == [] + ([] + Inflight(s4))[..0];
    assert Survives([], s4.disk.bin.durable, s4.disk.bin.unsynced + Inflight(s4));
  }

  lemma {:induction false} RunFour(s: Sys, a: Label, b: Label, c: Label, d: Label)
    requires Can(s, a) && Can(After(s, a), b) && Can(After(After(s, a), b), c) && Can(After(After(After(s, a), b), c), d)
    requires !a.Kill? && !b.Kill? && !c.Kill? && !d.Kill?
    ensures Runs(s, [a, b, c, d]) && Run(s, [a, b, c, d]) == After(After(After(After(s, a), b), c), d)
  {
    hide Can, After;
    var t := After(s, a);
    var u := After(t, b);
    var v := After(u, c);
    assert [a, b, c, d][1..] == [b, c, d] && [b, c, d][1..] == [c, d] && [c, d][1..] == [d] && [d][1..] == [];
    assert Runs(After(v, d), []) && Run(After(v, d), []) == After(v, d);
    assert Runs(v, [d]) && Run(v, [d]) == After(v, d);
    assert Runs(u, [c, d]) && Run(u, [c, d]) == After(v, d);
    assert Runs(t, [b, c, d]) && Run(t, [b, c, d]) == After(v, d);
  }
}
