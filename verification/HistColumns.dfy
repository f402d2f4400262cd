/** Columns of the HIST encoding: runs of items, each read and written in the
    light of a small running state (the previous time, the previous id, ...). */
module HistColumns {
  import opened HistBytes
  import opened Machine
  import opened Wrappers

  datatype Step<+S, +T> = Step(state: S, value: T, rest: seq<byte>)

  datatype Column<!S, !T> = Column(
    read: (S, seq<byte>) -> Result<Step<S, T>, Error>,
    write: (S, T) -> seq<byte>,
    next: (S, T) -> S,
    // Which values a writer may be given.
    allows: (S, T) -> bool)

  // Reads `n` more items, `done` being those read so far.
  function ReadMany<S, T>(c: Column<S, T>, s: S, n: nat, b: seq<byte>, done: seq<T>): Outcome<seq<T>>
    decreases n
  {
    if n == 0 then Ok(Parsed(done, b))
    else
      var step :- c.read(s, b);
      ReadMany(c, step.state, n - 1, step.rest, done + [step.value])
  }

  function WriteMany<S, T>(c: Column<S, T>, s: S, xs: seq<T>): seq<byte>
    decreases |xs|
  {
    if xs == [] then [] else c.write(s, xs[0]) + WriteMany(c, c.next(s, xs[0]), xs[1..])
  }

  predicate Allowed<S, T>(c: Column<S, T>, s: S, xs: seq<T>)
    decreases |xs|
  {
    xs == [] || (c.allows(s, xs[0]) && Allowed(c, c.next(s, xs[0]), xs[1..]))
  }

  ghost predicate ItemSurvives<S, T>(c: Column<S, T>, s: S, x: T, rest: seq<byte>) {
    c.allows(s, x) && |c.write(s, x)| < TWO_64 ==>
      c.write(s, x) != [] && c.read(s, c.write(s, x) + rest) == Ok(Step(c.next(s, x), x, rest))
  }

  // What a column writes, it reads back.
  ghost predicate Survives<S(!new), T(!new)>(c: Column<S, T>) {
    forall s, x, rest :: ItemSurvives(c, s, x, rest)
  }

  ghost predicate ItemIsHonest<S, T>(c: Column<S, T>, s: S, b: seq<byte>) {
    var r := c.read(s, b);
    r.Ok? ==> c.allows(s, r.value.value) && r.value.state == c.next(s, r.value.value)
  }

  // A column reads nothing it would not write.
  ghost predicate Honest<S(!new), T(!new)>(c: Column<S, T>) {
    forall s, b :: ItemIsHonest(c, s, b)
  }

  lemma {:induction false} ColumnSurvives<S(!new), T(!new)>(
      c: Column<S, T>, s: S, xs: seq<T>, rest: seq<byte>, done: seq<T>)
    requires Survives(c) && Allowed(c, s, xs) && |WriteMany(c, s, xs)| < TWO_64
    ensures ReadMany(c, s, |xs|, WriteMany(c, s, xs) + rest, done) == Ok(Parsed(done + xs, rest))
    ensures |WriteMany(c, s, xs)| >= |xs|
    decreases |xs|
  {
    if xs == [] {
      assert done + xs == done && [] + rest == rest;
    } else {
      var x, t := xs[0], c.next(s, xs[0]);
      var first, others := c.write(s, x), WriteMany(c, t, xs[1..]);
      assert ItemSurvives(c, s, x, others + rest);
      ColumnSurvives(c, t, xs[1..], rest, done + [x]);
      assert (first + others) + rest == first + (others + rest);
      assert done + [x] + xs[1..] == done + xs;
    }
  }

  // A column at the head of some bytes.
  lemma {:induction false} HeadSurvives<S(!new), T(!new)>(c: Column<S, T>, s: S, xs: seq<T>, rest: seq<byte>)
    requires Survives(c) && Allowed(c, s, xs) && |WriteMany(c, s, xs)| < TWO_64
    ensures ReadMany(c, s, |xs|, WriteMany(c, s, xs) + rest, []) == Ok(Parsed(xs, rest))
    ensures |WriteMany(c, s, xs)| >= |xs|
  {
    hide Survives, Allowed, ReadMany, WriteMany;
    ColumnSurvives(c, s, xs, rest, []);
    assert [] + xs == xs;
  }

  lemma {:induction false} WriteManyParts<S, T>(c: Column<S, T>, s: S, xs: seq<T>, rest: seq<byte>)
    requires xs != []
    ensures WriteMany(c, s, xs) == c.write(s, xs[0]) + WriteMany(c, c.next(s, xs[0]), xs[1..])
    ensures WriteMany(c, s, xs) + rest == c.write(s, xs[0]) + (WriteMany(c, c.next(s, xs[0]), xs[1..]) + rest)
  {
  }

  lemma {:induction false} NothingWritten<S, T>(c: Column<S, T>, s: S)
    ensures WriteMany(c, s, []) == []
  {
  }

  lemma {:induction false} ColumnIsHonest<S(!new), T(!new)>(
      c: Column<S, T>, s: S, n: nat, b: seq<byte>, done: seq<T>)
    requires Honest(c) && ReadMany(c, s, n, b, done).Ok?
    ensures var out := ReadMany(c, s, n, b, done).value.value;
      |out| == |done| + n && out[..|done|] == done && Allowed(c, s, out[|done|..])
    decreases n
  {
    if n > 0 {
      var step := c.read(s, b).value;
      assert ItemIsHonest(c, s, b);
      ColumnIsHonest(c, step.state, n - 1, step.rest, done + [step.value]);
      var out := ReadMany(c, s, n, b, done).value.value;
      assert out[..|done|] == out[..|done| + 1][..|done|];
      assert out[|done|..][1..] == out[|done| + 1..];
      assert out[|done|] == out[..|done| + 1][|done|];
    }
  }

  lemma {:induction false} CountRead<S, T>(c: Column<S, T>, s: S, n: nat, b: seq<byte>, done: seq<T>)
    requires ReadMany(c, s, n, b, done).Ok?
    ensures |ReadMany(c, s, n, b, done).value.value| == |done| + n
    decreases n
  {
    if n > 0 {
      var step := c.read(s, b).value;
      CountRead(c, step.state, n - 1, step.rest, done + [step.value]);
    }
  }

  lemma {:induction false} ReadNothing<S, T>(c: Column<S, T>, s: S, b: seq<byte>, done: seq<T>)
    ensures ReadMany(c, s, 0, b, done) == Ok(Parsed(done, b))
  {
  }

  lemma {:induction false} ReadNext<S, T>(c: Column<S, T>, s: S, n: nat, b: seq<byte>, done: seq<T>)
    requires n > 0
    ensures ReadMany(c, s, n, b, done) ==
      match c.read(s, b)
      case Err(e) => Err(e)
      case Ok(step) => ReadMany(c, step.state, n - 1, step.rest, done + [step.value])
  {
  }

  // One more item: how a loop over the items extends what it has written.
  lemma {:induction false} WriteNext<S, T>(c: Column<S, T>, s: S, xs: seq<T>, i: nat, pre: seq<byte>)
    requires i < |xs|
    ensures pre + WriteMany(c, s, xs[i..]) ==
            pre + c.write(s, xs[i]) + WriteMany(c, c.next(s, xs[i]), xs[i + 1..])
  {
    assert xs[i..][1..] == xs[i + 1..];
  }
}
