/** When a checkpoint is taken (`Store::due` and `run` in
    zega/src/checkpoint.rs): once the log has outgrown the graph it starts from. */
module Triggers {
  import opened Machine
  import opened Wrappers

  // The length of a log that holds nothing.
  const HEADER := 6

  // How long the log is, how large the graph it replays onto, and how long the
  // log was when the last checkpoint finished.
  datatype Meter = Meter(end: nat, base: nat, walAfter: nat)

  function Larger(a: nat, b: nat): nat {
    if a < b then b else a
  }

  function Threshold(m: Meter, floor: nat): nat {
    Larger(floor, m.base)
  }

  function Grown(m: Meter): nat {
    if m.end >= m.walAfter then m.end - m.walAfter else 0
  }

  predicate Due(m: Meter, floor: nat) {
    Grown(m) >= Threshold(m, floor)
  }

  // A finished checkpoint: a graph file of `graph` bytes, and a log of its
  // entry and the `tail` bytes written while it ran.
  function Finished(graph: nat, head: nat, tail: nat): Meter {
    var end := HEADER + head + tail;
    Meter(end, graph, end)
  }

  // However long the tail it carries, nothing is due until as much again is
  // logged as the graph is long, or the floor.
  lemma {:induction false} NotDueBeforeTheGraphIsOutgrown(graph: nat, head: nat, tail: nat, more: nat, floor: nat)
    ensures var m := Finished(graph, head, tail);
      Due(m.(end := m.end + more), floor) <==> more >= floor && more >= graph
  {
  }

  // ----- a session -----

  datatype Attempt =
    | Succeeds(graph: nat, head: nat, during: nat)
    | Fails(during: nat)

  // A statement is logged, an import of a graph file of `bytes` bytes is
  // committed by its entry, or the checkpoint thread looks whether one is due
  // and, once it has the lock that imports hold too, takes it.
  datatype Event = Append(bytes: nat) | Import(bytes: nat, entry: nat) | Look | Take(attempt: Attempt)

  // What the thread saw when it found that a checkpoint is due.
  datatype Seen = Seen(end: nat, threshold: nat)

  // `retryAt` holds the thread back after a failure, and `waiting` is what it
  // saw while it waits for the lock; the rest counts: bytes logged, graph bytes
  // written, bytes logged since the last graph was taken or imported, and bytes
  // imported while the thread was waiting.
  datatype Session = Session(
    meter: Meter, retryAt: nat, waiting: Option<Seen>, logged: nat, written: nat, since: nat, late: nat)

  predicate Attempts(s: Session, floor: nat) {
    Due(s.meter, floor) && s.meter.end >= s.retryAt
  }

  function SaturatingSum(a: nat, b: nat): nat {
    if a + b > U64_MAX then U64_MAX else a + b
  }

  function After(s: Session, floor: nat, e: Event): Session {
    match e
    case Append(n) => s.(meter := s.meter.(end := s.meter.end + n), logged := s.logged + n, since := s.since + n)
    case Import(bytes, entry) =>
      s.(meter := Meter(s.meter.end + entry, bytes, s.meter.walAfter), logged := s.logged + entry, since := 0,
         late := if s.waiting.Some? then s.late + bytes else s.late)
    case Look =>
      if s.waiting.None? && Attempts(s, floor)
      then s.(waiting := Some(Seen(s.meter.end, Threshold(s.meter, floor)))) else s
    case Take(attempt) =>
      if s.waiting.None? then s
      else
        match attempt
        case Succeeds(graph, head, during) =>
          Session(Finished(graph, head, during), s.retryAt, None, s.logged + during, s.written + graph, during, s.late)
        case Fails(during) =>
          s.(meter := s.meter.(end := s.meter.end + during),
             retryAt := SaturatingSum(s.waiting.value.end, s.waiting.value.threshold), waiting := None,
             logged := s.logged + during, since := s.since + during)
  }

  function Run(s: Session, floor: nat, es: seq<Event>): Session
    decreases |es|
  {
    if es == [] then s else Run(After(s, floor, es[0]), floor, es[1..])
  }

  // What a database that was opened with a log of `end` bytes starts from.
  function Opened(end: nat, base: nat): Session {
    Session(Meter(end, base, 0), 0, None, 0, 0, end, 0)
  }

  // Each new graph exceeds the last, or the one imported since, by at most what
  // was logged in between.
  predicate GrowsByTheLog(s: Session, floor: nat, es: seq<Event>)
    decreases |es|
  {
    es != [] ==>
      && (es[0].Take? && s.waiting.Some? && es[0].attempt.Succeeds? ==> es[0].attempt.graph <= s.meter.base + s.since)
      && GrowsByTheLog(After(s, floor, es[0]), floor, es[1..])
  }

  // No import is committed between a look that found a checkpoint due and the
  // checkpoint.
  predicate NoImportWhileWaiting(s: Session, floor: nat, es: seq<Event>)
    decreases |es|
  {
    es != [] ==>
      && !(es[0].Import? && s.waiting.Some?)
      && NoImportWhileWaiting(After(s, floor, es[0]), floor, es[1..])
  }

  // What is left to write with: a graph is at most its base and what was logged
  // since, neither of which is more than the log has grown by when the thread
  // finds a checkpoint due.
  predicate Covered(s: Session, first: nat) {
    && s.written + 2 * Larger(Grown(s.meter), s.since) <= 2 * (first + s.logged) + s.late
    && (s.waiting.Some? ==> s.written + s.meter.base + s.since <= 2 * (first + s.logged) + s.late)
  }

  lemma {:induction false} WrittenIsBounded(s: Session, floor: nat, es: seq<Event>, first: nat)
    requires GrowsByTheLog(s, floor, es) && Covered(s, first)
    ensures Covered(Run(s, floor, es), first)
    decreases |es|
  {
    if es != [] {
      WrittenIsBounded(After(s, floor, es[0]), floor, es[1..], first);
    }
  }

  // Over any session, checkpoints write at most twice what was logged, counting
  // the log the session was opened with, and what was imported while one waited.
  lemma {:induction false} TwiceTheLogAndLateImports(end: nat, base: nat, floor: nat, es: seq<Event>)
    requires GrowsByTheLog(Opened(end, base), floor, es)
    ensures var s := Run(Opened(end, base), floor, es); s.written <= 2 * (end + s.logged) + s.late
  {
    WrittenIsBounded(Opened(end, base), floor, es, end);
  }

  lemma {:induction false} NothingIsLate(s: Session, floor: nat, es: seq<Event>)
    requires NoImportWhileWaiting(s, floor, es)
    ensures Run(s, floor, es).late == s.late
    decreases |es|
  {
    if es != [] {
      NothingIsLate(After(s, floor, es[0]), floor, es[1..]);
    }
  }

  // So never more than twice the log if no import comes while one waits.
  lemma {:induction false} TwiceTheLogAtMost(end: nat, base: nat, floor: nat, es: seq<Event>)
    requires GrowsByTheLog(Opened(end, base), floor, es) && NoImportWhileWaiting(Opened(end, base), floor, es)
    ensures var s := Run(Opened(end, base), floor, es); s.written <= 2 * (end + s.logged)
  {
    TwiceTheLogAndLateImports(end, base, floor, es);
    NothingIsLate(Opened(end, base), floor, es);
  }

  // But whenever one waits, an import can make it break the bound: the graph it
  // then writes is the imported one, however little was logged.
  lemma {:induction false} AnyWaitCanBreakTheBound(s: Session, floor: nat, first: nat, entry: nat)
    requires s.waiting.Some?
    ensures var bytes := 2 * (first + s.logged + entry) + 1;
      var es := [Import(bytes, entry), Take(Succeeds(bytes, 0, 0))];
      var t := Run(s, floor, es);
      GrowsByTheLog(s, floor, es) && t.written > 2 * (first + t.logged)
  {
    var bytes := 2 * (first + s.logged + entry) + 1;
    var late, take := Import(bytes, entry), Take(Succeeds(bytes, 0, 0));
    var t := After(s, floor, late);
    RunFirst(s, floor, late, [take]);
    RunFirst(t, floor, take, []);
    assert [late, take][1..] == [take] && [take][1..] == [];
    assert GrowsByTheLog(t, floor, [take]);
  }

  // A failure is not retried until another threshold's worth of bytes is logged,
  // counted from the look that began it.
  lemma {:induction false} FailureIsNotRetriedAtOnce(s: Session, floor: nat, before: nat, during: nat, more: nat)
    requires s.waiting.None? && Attempts(s, floor) && s.meter.end + Threshold(s.meter, floor) <= U64_MAX
    ensures var w := After(After(s, floor, Look), floor, Append(before));
      var t := After(After(w, floor, Take(Fails(during))), floor, Append(more));
      Attempts(t, floor) <==> before + during + more >= Threshold(s.meter, floor)
  {
  }

  // The delay is a position in the log, and outlives the log it was for: after
  // a failure and a success, a checkpoint that is due waits until the new,
  // short log has grown past where the failure was to be retried.
  lemma {:induction false} RetryOutlivesTheLog(s: Session, floor: nat, graph: nat, head: nat, during: nat, more: nat)
    requires s.waiting.Some?
    ensures var t := After(s, floor, Take(Succeeds(graph, head, during)));
      var u := After(t, floor, Append(more));
      && (Due(u.meter, floor) <==> more >= floor && more >= graph)
      && (Attempts(u, floor) <==> more >= floor && more >= graph && HEADER + head + during + more >= s.retryAt)
  {
  }

  // What was logged before an import counts towards outgrowing its file.
  lemma {:induction false} AnImportCountsWhatWasLoggedBefore(s: Session, floor: nat, bytes: nat, entry: nat, more: nat)
    requires s.meter.end >= s.meter.walAfter
    ensures var u := After(After(s, floor, Import(bytes, entry)), floor, Append(more));
      var grown := Grown(s.meter) + entry + more;
      Due(u.meter, floor) <==> grown >= floor && grown >= bytes
  {
  }

  // A session in which a checkpoint is due at once after an import, whose file
  // is longer than anything logged since.
  lemma {:induction false} AnImportCanBeDueAtOnce()
    ensures var s := Run(Opened(HEADER, 0), 100, [Append(100), Import(50, 10)]);
      Due(s.meter, 100) && Attempts(s, 100) && s.since == 0
  {
    var s0 := Opened(HEADER, 0);
    RunFirst(s0, 100, Append(100), [Import(50, 10)]);
    RunFirst(After(s0, 100, Append(100)), 100, Import(50, 10), []);
  }

  // A session of 150 bytes logged and a million written: the import comes
  // between the look and the checkpoint, which is no longer due.
  lemma {:induction false} ALateImportBreaksTheBound()
    ensures var es := [Append(100), Look, Import(1_000_000, 50), Take(Succeeds(1_000_000, 10, 0))];
      var s, t := Run(Opened(HEADER, 0), 100, es[..3]), Run(Opened(HEADER, 0), 100, es);
      && GrowsByTheLog(Opened(HEADER, 0), 100, es) && !Due(s.meter, 100)
      && t.logged == 150 && t.written == 1_000_000
  {
    var look, late, take := Look, Import(1_000_000, 50), Take(Succeeds(1_000_000, 10, 0));
    var es := [Append(100), look, late, take];
    var s0 := Opened(HEADER, 0);
    var s1 := After(s0, 100, Append(100));
    var s2 := After(s1, 100, look);
    var s3 := After(s2, 100, late);
    assert es[1..] == [look, late, take] && es[2..] == [late, take] && es[3..] == [take];
    assert es[..3] == [Append(100)] + ([look] + ([late] + []));
    RunFirst(s0, 100, Append(100), [look] + ([late] + []));
    RunFirst(s1, 100, look, [late] + []);
    RunFirst(s2, 100, late, []);
    assert es == [Append(100)] + ([look] + ([late] + ([take] + [])));
    RunFirst(s0, 100, Append(100), [look] + ([late] + ([take] + [])));
    RunFirst(s1, 100, look, [late] + ([take] + []));
    RunFirst(s2, 100, late, [take] + []);
    RunFirst(s3, 100, take, []);
    assert [look, late, take][1..] == [late, take] && [late, take][1..] == [take];
    assert GrowsByTheLog(s3, 100, [take]);
    assert GrowsByTheLog(s2, 100, [late, take]);
    assert GrowsByTheLog(s1, 100, [look, late, take]);
  }

  // A session in which a checkpoint that is due is held back: one fails, the
  // next succeeds, and its log has not come back to where the failure was.
  lemma {:induction false} ADueCheckpointIsHeldBack()
    ensures var es := [Append(100), Look, Take(Fails(0)), Append(100), Look, Take(Succeeds(1, 10, 0)), Append(100)];
      var s := Run(Opened(HEADER, 0), 100, es);
      Due(s.meter, 100) && !Attempts(s, 100)
  {
    var fail, succeed := Take(Fails(0)), Take(Succeeds(1, 10, 0));
    var s0 := Opened(HEADER, 0);
    RunFirst(s0, 100, Append(100), [Look, fail, Append(100), Look, succeed, Append(100)]);
    var s1 := After(s0, 100, Append(100));
    RunFirst(s1, 100, Look, [fail, Append(100), Look, succeed, Append(100)]);
    var s2 := After(s1, 100, Look);
    RunFirst(s2, 100, fail, [Append(100), Look, succeed, Append(100)]);
    var s3 := After(s2, 100, fail);
    RunFirst(s3, 100, Append(100), [Look, succeed, Append(100)]);
    var s4 := After(s3, 100, Append(100));
    RunFirst(s4, 100, Look, [succeed, Append(100)]);
    var s5 := After(s4, 100, Look);
    RunFirst(s5, 100, succeed, [Append(100)]);
    RunFirst(After(s5, 100, succeed), 100, Append(100), []);
  }

  lemma {:induction false} RunFirst(s: Session, floor: nat, e: Event, es: seq<Event>)
    ensures Run(s, floor, [e] + es) == Run(After(s, floor, e), floor, es)
  {
    assert ([e] + es)[1..] == es;
  }

  // ----- the thread's loop -----

  class Checkpointer {
    var end: nat
    var base: nat
    var walAfter: nat
    var retryAt: nat
    var waiting: Option<Seen>
    ghost var logged: nat
    ghost var written: nat
    ghost var since: nat
    ghost var late: nat

    ghost function Now(): Session
      reads this
    {
      Session(Meter(end, base, walAfter), retryAt, waiting, logged, written, since, late)
    }

    constructor (end: nat, base: nat)
      ensures Now() == Opened(end, base)
    {
      this.end, this.base, walAfter, retryAt, waiting := end, base, 0, 0, None;
      logged, written, since, late := 0, 0, end, 0;
    }

    method IsDue(floor: nat) returns (length: nat, due: bool, threshold: nat)
      ensures length == end && threshold == Threshold(Now().meter, floor) && due == Due(Now().meter, floor)
    {
      threshold := Larger(floor, base);
      var grown := if end >= walAfter then end - walAfter else 0;
      return end, grown >= threshold, threshold;
    }

    method Log(bytes: nat)
      modifies this`end, this`logged, this`since
      ensures Now() == After(old(Now()), 0, Append(bytes))
    {
      end, logged, since := end + bytes, logged + bytes, since + bytes;
    }

    // The imported file is what the log starts from now.
    method Import(bytes: nat, entry: nat)
      modifies this`end, this`base, this`logged, this`since, this`late
      ensures Now() == After(old(Now()), 0, Event.Import(bytes, entry))
    {
      end, logged, since := end + entry, logged + entry, 0;
      late := if waiting.Some? then late + bytes else late;
      base := bytes;
    }

    // Takes a checkpoint: its graph is written and the log starts over, or
    // nothing changes but what was logged meanwhile.
    method Checkpoint(attempt: Attempt) returns (taken: bool)
      modifies this`end, this`base, this`walAfter, this`logged, this`written, this`since
      ensures taken == attempt.Succeeds?
      ensures match attempt
        case Succeeds(graph, head, during) =>
          && Meter(end, base, walAfter) == Finished(graph, head, during)
          && logged == old(logged) + during && written == old(written) + graph && since == during
        case Fails(during) => Now() == After(old(Now()), 0, Append(during))
    {
      match attempt
      case Succeeds(graph, head, during) =>
        end := HEADER + head + during;
        base, walAfter := graph, end;
        logged, written, since := logged + during, written + graph, during;
        taken := true;
      case Fails(during) =>
        end, logged, since := end + during, logged + during, since + during;
        taken := false;
    }

    // Nothing looks again between finding a checkpoint due and taking it.
    method Loop(floor: nat, events: seq<Event>)
      modifies this
      ensures Now() == Run(old(Now()), floor, events)
    {
      var i := 0;
      while i < |events|
        invariant 0 <= i <= |events|
        invariant Run(Now(), floor, events[i..]) == Run(old(Now()), floor, events)
      {
        assert events[i..][1..] == events[i + 1..];
        match events[i] {
          case Append(n) => Log(n);
          case Import(bytes, entry) => Import(bytes, entry);
          case Look =>
            if waiting.None? {
              var length, due, threshold := IsDue(floor);
              if due && length >= retryAt {
                waiting := Some(Seen(length, threshold));
              }
            }
          case Take(attempt) =>
            if waiting.Some? {
              var seen := waiting.value;
              var taken := Checkpoint(attempt);
              if !taken {
                retryAt := SaturatingSum(seen.end, seen.threshold);
              }
              waiting := None;
            }
        }
        i := i + 1;
      }
    }
  }
}
