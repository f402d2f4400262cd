/** The seekable buffer a checkpoint encodes its graph into
    (`Spill` in zega/src/checkpoint.rs): in memory until it would pass a cap,
    then in the staging file.

    `Tape` is the meaning of both: bytes and a position. The buffer is proved to
    be a plain file, whatever the cap and whenever it moves, with one exception
    that is stated exactly: an empty write past the end. */
module Spill {
  import opened Machine
  import opened Wrappers

  datatype Tape = Tape(bytes: seq<byte>, position: nat)

  datatype SeekFrom = Start(to: nat) | End(offset: int) | Current(offset: int)

  datatype Call = Write(buf: seq<byte>) | Seek(from: SeekFrom)

  const Blank := Tape([], 0)

  function Zeros(n: nat): seq<byte> {
    seq(n, _ => 0)
  }

  // The bytes, with zeros up to the position when it is past their end.
  function Reach(t: Tape): seq<byte> {
    if t.position <= |t.bytes| then t.bytes else t.bytes + Zeros(t.position - |t.bytes|)
  }

  function Overwrite(t: Tape, buf: seq<byte>): Tape {
    var all := Reach(t);
    var end := t.position + |buf|;
    Tape(all[..t.position] + buf + (if end < |all| then all[end..] else []), end)
  }

  // A file ignores an empty write; an in-memory cursor still fills the gap.
  function FileWrite(t: Tape, buf: seq<byte>): Tape {
    if buf == [] then t else Overwrite(t, buf)
  }

  function CursorWrite(t: Tape, buf: seq<byte>): Tape {
    Overwrite(t, buf)
  }

  // A seek before the start is refused and moves nothing.
  function SeekTo(t: Tape, from: SeekFrom): (r: (Tape, bool)) {
    var to := match from
      case Start(to) => to
      case End(offset) => |t.bytes| + offset
      case Current(offset) => t.position + offset;
    if to < 0 then (t, false) else (t.(position := to), true)
  }

  // ----- the buffer as a value -----

  datatype State = State(memory: Option<Tape>, file: Tape, cap: nat)

  function View(s: State): Tape {
    if s.memory.Some? then s.memory.value else s.file
  }

  predicate Valid(s: State) {
    s.memory.Some? ==> s.file == Blank && |s.memory.value.bytes| <= s.cap
  }

  // The end of the contents once `buf` is written: what the cap is held against.
  function EndAfter(t: Tape, buf: seq<byte>): nat {
    if t.position + |buf| >= |t.bytes| then t.position + |buf| else |t.bytes|
  }

  function Spilled(s: State): State {
    match s.memory
    case None => s
    case Some(memory) =>
      s.(memory := None, file := FileWrite(s.file, memory.bytes).(position := memory.position))
  }

  function SpillWrite(s: State, buf: seq<byte>): State {
    if s.memory.Some? && EndAfter(s.memory.value, buf) <= s.cap then
      s.(memory := Some(CursorWrite(s.memory.value, buf)))
    else
      var moved := Spilled(s);
      moved.(file := FileWrite(moved.file, buf))
  }

  function SpillSeek(s: State, from: SeekFrom): (State, bool) {
    match s.memory
    case Some(memory) =>
      var (tape, ok) := SeekTo(memory, from);
      (s.(memory := Some(tape)), ok)
    case None =>
      var (tape, ok) := SeekTo(s.file, from);
      (s.(file := tape), ok)
  }

  // ----- what the source promises of it -----

  lemma {:induction false} SpillKeepsView(s: State)
    requires Valid(s)
    ensures Valid(Spilled(s)) && View(Spilled(s)) == View(s) && Spilled(s).memory == None
  {
  }

  // The one call that leaves other contents than a file would.
  predicate FillsGap(s: State, buf: seq<byte>) {
    && buf == [] && s.memory.Some?
    && |s.memory.value.bytes| < s.memory.value.position <= s.cap
  }

  lemma {:induction false} EmptyOverwrite(t: Tape)
    ensures Overwrite(t, []) == Tape(Reach(t), t.position)
  {
    var all := Reach(t);
    assert all[..t.position] + [] + (if t.position < |all| then all[t.position..] else []) == all;
  }

  // A write is a file's write exactly when it is not an empty one past the end in memory.
  lemma {:induction false} WriteIsFileWrite(s: State, buf: seq<byte>)
    requires Valid(s)
    ensures Valid(SpillWrite(s, buf))
    ensures View(SpillWrite(s, buf)) == FileWrite(View(s), buf) <==> !FillsGap(s, buf)
  {
    if s.memory.Some? && EndAfter(s.memory.value, buf) <= s.cap {
      if buf == [] {
        EmptyOverwrite(s.memory.value);
      }
    } else {
      SpillKeepsView(s);
    }
  }

  lemma {:induction false} SeekIsFileSeek(s: State, from: SeekFrom)
    requires Valid(s)
    ensures Valid(SpillSeek(s, from).0)
    ensures View(SpillSeek(s, from).0) == SeekTo(View(s), from).0
    ensures SpillSeek(s, from).1 == SeekTo(View(s), from).1
  {
  }

  function After(s: State, call: Call): State {
    match call
    case Write(buf) => SpillWrite(s, buf)
    case Seek(from) => SpillSeek(s, from).0
  }

  function FileAfter(t: Tape, call: Call): Tape {
    match call
    case Write(buf) => FileWrite(t, buf)
    case Seek(from) => SeekTo(t, from).0
  }

  function Run(s: State, calls: seq<Call>): State
    decreases |calls|
  {
    if calls == [] then s else Run(After(s, calls[0]), calls[1..])
  }

  function FileRun(t: Tape, calls: seq<Call>): Tape
    decreases |calls|
  {
    if calls == [] then t else FileRun(FileAfter(t, calls[0]), calls[1..])
  }

  // No call of the run is an empty write into a gap.
  predicate NoGapFilled(s: State, calls: seq<Call>)
    decreases |calls|
  {
    calls == [] ||
    (!(calls[0].Write? && FillsGap(s, calls[0].buf)) && NoGapFilled(After(s, calls[0]), calls[1..]))
  }

  // Any run, at any cap: the bytes and the position are a file's, and memory stays under the cap.
  lemma {:induction false} RunIsFileRun(s: State, calls: seq<Call>)
    requires Valid(s) && NoGapFilled(s, calls)
    ensures Valid(Run(s, calls)) && Run(s, calls).cap == s.cap
    ensures View(Run(s, calls)) == FileRun(View(s), calls)
    decreases |calls|
  {
    if calls != [] {
      match calls[0] {
        case Write(buf) => WriteIsFileWrite(s, buf);
        case Seek(from) => SeekIsFileSeek(s, from);
      }
      RunIsFileRun(After(s, calls[0]), calls[1..]);
    }
  }

  // Runs without empty writes, the ones the graph writer makes, are all of that kind.
  lemma {:induction false} NonEmptyWritesFillNoGap(s: State, calls: seq<Call>)
    requires forall i :: 0 <= i < |calls| && calls[i].Write? ==> calls[i].buf != []
    ensures NoGapFilled(s, calls)
    decreases |calls|
  {
    if calls != [] {
      NonEmptyWritesFillNoGap(After(s, calls[0]), calls[1..]);
    }
  }

  // What the checkpoint does: any encoding run, then `spill`, leaves the file as if written directly.
  lemma {:induction false} EncodingReachesTheFile(cap: nat, calls: seq<Call>)
    requires forall i :: 0 <= i < |calls| && calls[i].Write? ==> calls[i].buf != []
    ensures Spilled(Run(State(Some(Blank), Blank, cap), calls)).file == FileRun(Blank, calls)
  {
    var start := State(Some(Blank), Blank, cap);
    NonEmptyWritesFillNoGap(start, calls);
    RunIsFileRun(start, calls);
    SpillKeepsView(Run(start, calls));
  }

  // An empty write at byte 1 of an empty buffer: one byte in memory, none in a file.
  lemma {:induction false} AnEmptyWriteCanFillAGap()
    ensures View(Run(State(Some(Blank), Blank, 8), [Seek(Start(1)), Write([])])) !=
            FileRun(Blank, [Seek(Start(1)), Write([])])
  {
    var start := State(Some(Blank), Blank, 8);
    var at := After(start, Seek(Start(1)));
    assert [Seek(Start(1)), Write([])][1..] == [Write([])];
    assert Run(at, [Write([])]) == SpillWrite(at, []);
    assert FileRun(View(at), [Write([])]) == FileWrite(View(at), []);
    WriteIsFileWrite(at, []);
  }

  // ----- the buffer as the program holds it -----

  class File {
    var tape: Tape

    constructor ()
      ensures tape == Blank
    {
      tape := Blank;
    }

    method WriteAll(buf: seq<byte>)
      modifies this
      ensures tape == FileWrite(old(tape), buf)
    {
      tape := FileWrite(tape, buf);
    }

    method Seek(from: SeekFrom) returns (ok: bool)
      modifies this
      ensures (tape, ok) == SeekTo(old(tape), from)
    {
      var (next, moved) := SeekTo(tape, from);
      tape := next;
      ok := moved;
    }
  }

  class Buffer {
    var memory: Option<Tape>
    const file: File
    const cap: nat

    ghost function Now(): State
      reads this, file
    {
      State(memory, file.tape, cap)
    }

    constructor (file: File, cap: nat)
      requires file.tape == Blank
      ensures this.file == file && Now() == State(Some(Blank), Blank, cap) && Valid(Now())
    {
      this.file, this.cap := file, cap;
      memory := Some(Blank);
    }

    // From now on the file holds what was written, and writing goes on where it was.
    method Move()
      requires Valid(Now())
      modifies this, file
      ensures Now() == Spilled(old(Now())) && Valid(Now()) && View(Now()) == old(View(Now()))
    {
      SpillKeepsView(Now());
      if memory.Some? {
        var tape := memory.value;
        memory := None;
        file.WriteAll(tape.bytes);
        var ok := file.Seek(Start(tape.position));
      }
    }

    method Write(buf: seq<byte>) returns (written: nat)
      requires Valid(Now())
      modifies this, file
      ensures written == |buf| && Now() == SpillWrite(old(Now()), buf) && Valid(Now())
      ensures buf != [] ==> View(Now()) == FileWrite(old(View(Now())), buf)
    {
      WriteIsFileWrite(Now(), buf);
      if memory.Some? {
        var end := EndAfter(memory.value, buf);
        if end <= cap {
          memory := Some(CursorWrite(memory.value, buf));
          return |buf|;
        }
        Move();
      }
      file.WriteAll(buf);
      return |buf|;
    }

    method Seek(from: SeekFrom) returns (ok: bool)
      requires Valid(Now())
      modifies this, file
      ensures (Now(), ok) == SpillSeek(old(Now()), from) && Valid(Now())
      ensures View(Now()) == SeekTo(old(View(Now())), from).0
    {
      SeekIsFileSeek(Now(), from);
      if memory.Some? {
        var (tape, moved) := SeekTo(memory.value, from);
        memory := Some(tape);
        ok := moved;
      } else {
        ok := file.Seek(from);
      }
    }
  }
}
