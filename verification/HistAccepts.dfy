/** What decoding accepts: only well-formed histories come out of it, whatever
    the bytes, so encoding them again loses nothing; and every byte is spent, so
    nothing accepted can be extended. */
module HistAccepts {
  import opened HistBytes
  import opened HistColumns
  import opened HistFormat
  import opened HistRoundTrip
  import opened Machine
  import opened ValidTime
  import opened Values
  import opened Wrappers
  import Utf8

  // ----- columns read only what they would write -----

  lemma {:induction false} TimesAreHonest(sorted: bool)
    ensures Honest(Times(sorted))
  {
    hide Var;
    forall s: Clock, b: seq<byte>
      ensures ItemIsHonest(Times(sorted), s, b)
    {
      var r := ReadTime(sorted, s, b);
      if r.Ok? {
        WrappingSum(s.t, r.value.state.delta);
      }
    }
  }

  lemma {:induction false} WrappingSum(t: i64, d: i64)
    ensures Wrap(Wrap(t + d) - t) == d
  {
  }

  lemma {:induction false} IdsAreHonest(again: Error, beyond: Error)
    ensures Honest(Ids(again, beyond))
  {
    hide Var;
    forall s: Previous, b: seq<byte>
      ensures ItemIsHonest(Ids(again, beyond), s, b)
    {
    }
  }

  lemma {:induction false} StopsAreHonest()
    ensures Honest(Stops())
  {
    hide Var, Head, Rest;
    forall s: seq<i64>, b: seq<byte>
      ensures ItemIsHonest(Stops(), s, b)
    {
    }
  }

  // ----- what is allowed is in order -----

  lemma {:induction false} AllowedTimesAscend(times: seq<i64>, s: Clock)
    requires Allowed(Times(true), s, times)
    ensures forall i, j :: 0 <= i < j < |times| ==> times[i] < times[j]
    ensures !s.start ==> forall i :: 0 <= i < |times| ==> s.t < times[i]
    decreases |times|
  {
    if times != [] {
      var t := times[0];
      AllowedTimesAscend(times[1..], Clock(false, t, Wrap(t - s.t)));
      assert forall i :: 1 <= i < |times| ==> times[1..][i - 1] == times[i];
    }
  }

  lemma {:induction false} AllowedIdsAscend(again: Error, beyond: Error, ids: seq<u64>, s: Previous)
    requires Allowed(Ids(again, beyond), s, ids)
    ensures IdsAscend(ids)
    ensures !s.start ==> forall i :: 0 <= i < |ids| ==> s.id < ids[i]
    decreases |ids|
  {
    if ids != [] {
      AllowedIdsAscend(again, beyond, ids[1..], Previous(false, ids[0]));
      assert forall i :: 1 <= i < |ids| ==> ids[1..][i - 1] == ids[i];
    }
  }

  lemma {:induction false} AllowedStopsAreOrdered(starts: seq<i64>, stops: seq<Option<i64>>)
    requires Allowed(Stops(), starts, stops) && |starts| == |stops|
    ensures forall i :: 0 <= i < |stops| && stops[i].Some? ==> starts[i] <= stops[i].value
    decreases |stops|
  {
    if stops != [] {
      AllowedStopsAreOrdered(starts[1..], stops[1..]);
      assert forall i :: 1 <= i < |stops| ==> stops[1..][i - 1] == stops[i] && starts[1..][i - 1] == starts[i];
    }
  }

  lemma {:induction false} ColumnRead<S(!new), T(!new)>(c: Column<S, T>, s: S, n: nat, b: seq<byte>)
    requires Honest(c) && ReadMany(c, s, n, b, []).Ok?
    ensures |ReadMany(c, s, n, b, []).value.value| == n
    ensures Allowed(c, s, ReadMany(c, s, n, b, []).value.value)
  {
    hide ReadMany, Honest, Allowed;
    ColumnIsHonest(c, s, n, b, []);
    var out := ReadMany(c, s, n, b, []).value.value;
    assert out[0..] == out;
  }

  // ----- fields -----

  lemma {:induction false} ReadHistoryIsWellFormed(dict: seq<string>, codec: Bincode, b: seq<byte>)
    requires ReadHistory(dict, codec, b).Ok?
    ensures WellFormed(ReadHistory(dict, codec, b).value.value)
  {
    hide Len, ReadMany, Honest, Allowed, Times, ValueColumn, Derived;
    var count := Len(b).value;
    TimesAreHonest(true);
    ColumnRead(Times(true), CLOCK, count.value, count.rest);
    var times := ReadMany(Times(true), CLOCK, count.value, count.rest, []).value;
    AllowedTimesAscend(times.value, CLOCK);
    CountRead(ValueColumn(dict, codec), RUNNING, count.value, times.rest, []);
    var values := ReadMany(ValueColumn(dict, codec), RUNNING, count.value, times.rest, []).value;
    DerivedIsWellFormed(ChangesOf(times.value, values.value));
  }

  lemma {:induction false} DerivedIsWellFormed(changes: seq<Change>)
    requires changes != [] && Ascending(changes)
    ensures WellFormed(Derived(changes))
  {
    hide BoundsOf;
  }

  lemma {:induction false} InsertKeepsFieldsAscending(fields: seq<Field>, f: Field)
    requires FieldsAscend(fields) && InsertField(fields, f).Some?
    ensures FieldsAscend(InsertField(fields, f).value)
    ensures forall g :: g in InsertField(fields, f).value <==> g == f || g in fields
    decreases |fields|
  {
    hide CompareKeys;
    if fields != [] {
      var first := fields[0];
      assert fields == [first] + fields[1..];
      KeyOrderLaws(f, first, f);
      KeyOrderLaws(first, f, f);
      if CompareKeys(f, first) == Less {
        FirstIsLeast(f, fields);
      } else {
        assert FieldsAscend(fields[1..]);
        InsertKeepsFieldsAscending(fields[1..], f);
        var rest := InsertField(fields[1..], f).value;
        forall i | 0 <= i < |rest|
          ensures CompareKeys(first, rest[i]) == Less
        {
          assert rest[i] in rest;
          if rest[i] != f {
            assert rest[i] in fields[1..];
          }
        }
        FirstJoins(first, rest);
      }
    }
  }

  lemma {:induction false} FirstIsLeast(f: Field, fields: seq<Field>)
    requires FieldsAscend(fields) && fields != [] && CompareKeys(f, fields[0]) == Less
    ensures FieldsAscend([f] + fields)
  {
    hide CompareKeys;
    forall i | 0 <= i < |fields|
      ensures CompareKeys(f, fields[i]) == Less
    {
      KeyOrderLaws(f, fields[0], fields[i]);
    }
    FirstJoins(f, fields);
  }

  lemma {:induction false} FirstJoins(f: Field, fields: seq<Field>)
    requires FieldsAscend(fields) && forall i :: 0 <= i < |fields| ==> CompareKeys(f, fields[i]) == Less
    ensures FieldsAscend([f] + fields)
  {
    hide CompareKeys;
  }

  lemma {:induction false} ReadFieldsAreWellFormed(
      dict: seq<string>, codec: Bincode, s: Cursor, n: nat, b: seq<byte>, done: seq<Field>)
    requires FieldsAscend(done) && forall f <- done :: WellFormed(f.history)
    requires ReadFields(dict, codec, s, n, b, done).Ok?
    ensures var fields := ReadFields(dict, codec, s, n, b, done).value.value;
      FieldsAscend(fields) && forall f <- fields :: WellFormed(f.history)
    decreases n
  {
    hide ReadField, InsertField, FieldsAscend, WellFormed;
    if n > 0 {
      var step := ReadField(dict, codec, s, b).value;
      ReadFieldIsWellFormed(dict, codec, s, b);
      InsertKeepsFieldsAscending(done, step.value);
      ReadFieldsAreWellFormed(dict, codec, step.state, n - 1, step.rest, InsertField(done, step.value).value);
    }
  }

  lemma {:induction false} ReadFieldIsWellFormed(dict: seq<string>, codec: Bincode, s: Cursor, b: seq<byte>)
    requires ReadField(dict, codec, s, b).Ok?
    ensures WellFormed(ReadField(dict, codec, s, b).value.value.history)
  {
    hide Var, ReadIndex, ReadHistory, WellFormed;
    var delta := Var(b).value;
    ReadHistoryIsWellFormed(dict, codec, ReadIndex(dict, DictionaryIndex, delta.rest).value.rest);
  }

  lemma {:induction false} DecodedFieldsAreWellFormed(b: seq<byte>, codec: Bincode)
    requires DecodeFields(b, codec).Ok?
    ensures var fields := DecodeFields(b, codec).value;
      FieldsAscend(fields) && forall f <- fields :: WellFormed(f.history)
  {
    hide Len, ReadMany, ReadFields, WellFormed, Texts;
    var texts := Len(b[1..]).value;
    var dict := ReadMany(Texts(), (), texts.value, texts.rest, []).value;
    var count := Len(dict.rest).value;
    ReadFieldsAreWellFormed(dict.value, codec, Cursor(0), count.value, count.rest, []);
  }

  // ----- relationships and lifetimes -----

  lemma {:induction false} ColumnsAreWellFormed(n: nat, kinds: seq<string>, codec: Bincode, b: seq<byte>)
    requires ReadColumns(n, kinds, codec, b).Ok?
    ensures var c := ReadColumns(n, kinds, codec, b).value.value;
      IdsAscend(c.ids) && forall i :: 0 <= i < n && c.stops[i].Some? ==> c.starts[i] <= c.stops[i].value
  {
    hide ReadMany, Ids, Indexes, Ends, Times, Stops, PropsColumn, Honest, Allowed, IdsAscend;
    var again, beyond := DuplicateRelationship, RelationshipOverflow;
    IdsAreHonest(again, beyond);
    ColumnRead(Ids(again, beyond), PREVIOUS, n, b);
    var ids := ReadMany(Ids(again, beyond), PREVIOUS, n, b, []).value;
    AllowedIdsAscend(again, beyond, ids.value, PREVIOUS);
    var names := ReadMany(Indexes(kinds, KindIndex), (), n, ids.rest, []).value;
    var froms := ReadMany(Ends(), Last(0), n, names.rest, []).value;
    var tos := ReadMany(Ends(), Last(0), n, froms.rest, []).value;
    CountRead(Times(false), CLOCK, n, tos.rest, []);
    var starts := ReadMany(Times(false), CLOCK, n, tos.rest, []).value;
    StopsAreHonest();
    ColumnRead(Stops(), starts.value, n, starts.rest);
    var stops := ReadMany(Stops(), starts.value, n, starts.rest, []).value;
    AllowedStopsAreOrdered(starts.value, stops.value);
  }

  lemma {:induction false} ReadRelationshipsAreWellFormed(b: seq<byte>, codec: Bincode)
    requires ReadRelationships(b, codec).Ok?
    ensures var rels := ReadRelationships(b, codec).value.value;
      IdsAscend(RelIds(rels)) && forall i :: 0 <= i < |rels| ==> InOrder(rels[i])
  {
    hide Len, ReadMany, ReadColumns, Texts;
    var count := Len(b).value;
    var n := count.value;
    var texts := Len(count.rest).value;
    var kinds := ReadMany(Texts(), (), texts.value, texts.rest, []).value;
    ColumnsAreWellFormed(n, kinds.value, codec, kinds.rest);
    var c := ReadColumns(n, kinds.value, codec, kinds.rest).value.value;
    assert RelIds(Assembled(c, n)) == c.ids;
  }

  lemma {:induction false} ReadLifetimesAreWellFormed(b: seq<byte>)
    requires ReadLifetimes(b).Ok?
    ensures IdsAscend(Nodes(ReadLifetimes(b).value.value))
  {
    hide Len, ReadMany, Ids, Times, Honest, Allowed, IdsAscend;
    var again, beyond := DuplicateLifetime, LifetimeOverflow;
    var count := Len(b).value;
    IdsAreHonest(again, beyond);
    ColumnRead(Ids(again, beyond), PREVIOUS, count.value, count.rest);
    var ids := ReadMany(Ids(again, beyond), PREVIOUS, count.value, count.rest, []).value;
    AllowedIdsAscend(again, beyond, ids.value, PREVIOUS);
    CountRead(Times(false), CLOCK, count.value, ids.rest, []);
    var dates := ReadMany(Times(false), CLOCK, count.value, ids.rest, []).value;
    assert Nodes(Paired(ids.value, dates.value)) == ids.value;
  }

  // ----- whole encodings -----

  lemma {:induction false} DecodedIsWellFormed(b: seq<byte>, codec: Bincode)
    requires Decode(b, codec).Ok?
    ensures WellFormedHistories(Decode(b, codec).value)
  {
    hide DecodeFields, ReadBlob, ReadRelationships, ReadLifetimes, WellFormed;
    if b[0] == 1 {
      DecodedFieldsAreWellFormed(b, codec);
    } else {
      var blob := ReadBlob(b[1..]).value;
      var rels := ReadRelationships(blob.rest, codec).value;
      var appears := ReadLifetimes(rels.rest).value;
      DecodedFieldsAreWellFormed(blob.value, codec);
      ReadRelationshipsAreWellFormed(blob.rest, codec);
      ReadLifetimesAreWellFormed(rels.rest);
      ReadLifetimesAreWellFormed(appears.rest);
    }
  }

  // Whatever was accepted, its own encoding means the same.
  lemma {:induction false} DecodedAgain(b: seq<byte>, codec: Bincode)
    requires Lawful(codec) && Decode(b, codec).Ok?
    requires |Encode(Decode(b, codec).value, codec)| < TWO_64
    ensures Decode(Encode(Decode(b, codec).value, codec), codec) == Decode(b, codec)
  {
    hide Decode, Encode, Lawful, WellFormedHistories;
    DecodedIsWellFormed(b, codec);
    RoundTrip(Decode(b, codec).value, codec);
  }

  // ----- nothing accepted can be extended -----

  // The outcome with `extra` bytes after the ones ahead.
  function Longer<T>(o: Outcome<T>, extra: seq<byte>): Outcome<T> {
    match o
    case Ok(p) => Ok(Parsed(p.value, p.rest + extra))
    case Err(e) => Err(e)
  }

  lemma {:induction false} LongerVar(b: seq<byte>, k: nat, n: nat, extra: seq<byte>)
    requires k <= 10 && (k < 10 ==> n < Pow128(k)) && VarFrom(b, k, n).Ok?
    ensures VarFrom(b + extra, k, n) == Longer(VarFrom(b, k, n), extra)
    decreases 10 - k
  {
    hide Joined, Pow128;
    assert (b + extra)[1..] == b[1..] + extra;
    if b[0] >= 128 {
      LongerVar(b[1..], k + 1, Joined(k, n, b[0]), extra);
    }
  }

  lemma {:induction false} LongerLen(b: seq<byte>, extra: seq<byte>)
    requires Len(b).Ok?
    ensures Len(b + extra) == Longer(Len(b), extra)
  {
    hide VarFrom;
    LongerVar(b, 0, 0, extra);
  }

  lemma {:induction false} LongerBlob(b: seq<byte>, extra: seq<byte>)
    requires ReadBlob(b).Ok?
    ensures ReadBlob(b + extra) == Longer(ReadBlob(b), extra)
  {
    hide Var;
    LongerLen(b, extra);
    var p := Len(b).value;
    assert (p.rest + extra)[..p.value] == p.rest[..p.value];
    assert (p.rest + extra)[p.value..] == p.rest[p.value..] + extra;
  }

  ghost predicate ItemIsLocal<S, T>(c: Column<S, T>, s: S, b: seq<byte>, extra: seq<byte>) {
    var r := c.read(s, b);
    r.Ok? ==> c.read(s, b + extra) == Ok(Step(r.value.state, r.value.value, r.value.rest + extra))
  }

  // A column looks only at the bytes it takes.
  ghost predicate Local<S(!new), T(!new)>(c: Column<S, T>) {
    forall s, b, extra :: ItemIsLocal(c, s, b, extra)
  }

  lemma {:induction false} LongerColumn<S(!new), T(!new)>(
      c: Column<S, T>, s: S, n: nat, b: seq<byte>, done: seq<T>, extra: seq<byte>)
    requires Local(c) && ReadMany(c, s, n, b, done).Ok?
    ensures ReadMany(c, s, n, b + extra, done) == Longer(ReadMany(c, s, n, b, done), extra)
    decreases n
  {
    if n > 0 {
      assert ItemIsLocal(c, s, b, extra);
      var step := c.read(s, b).value;
      LongerColumn(c, step.state, n - 1, step.rest, done + [step.value], extra);
    }
  }

  lemma {:induction false} TextsAreLocal()
    ensures Local(Texts())
  {
    hide ReadBlob, Utf8.Decode;
    forall s: (), b: seq<byte>, extra: seq<byte>
      ensures ItemIsLocal(Texts(), s, b, extra)
    {
      if ReadBlob(b).Ok? {
        LongerBlob(b, extra);
      }
    }
  }

  lemma {:induction false} LongerWord(b: seq<byte>, extra: seq<byte>)
    requires Var(b).Ok?
    ensures Var(b + extra) == Longer(Var(b), extra)
  {
    LongerVar(b, 0, 0, extra);
  }

  lemma {:induction false} TimesAreLocal(sorted: bool)
    ensures Local(Times(sorted))
  {
    hide Var, Wrap, Unzig;
    forall s: Clock, b: seq<byte>, extra: seq<byte>
      ensures ItemIsLocal(Times(sorted), s, b, extra)
    {
      if Var(b).Ok? {
        LongerWord(b, extra);
      }
    }
  }

  lemma {:induction false} IndexesAreLocal(dict: seq<string>, wrong: Error)
    ensures Local(Indexes(dict, wrong))
  {
    hide Var;
    forall s: (), b: seq<byte>, extra: seq<byte>
      ensures ItemIsLocal(Indexes(dict, wrong), s, b, extra)
    {
      if Var(b).Ok? {
        LongerWord(b, extra);
      }
    }
  }

  lemma {:induction false} ValueIsLocal(
      dict: seq<string>, codec: Bincode, s: Running, b: seq<byte>, extra: seq<byte>)
    requires ReadValue(dict, codec, s, b).Ok?
    ensures var step := ReadValue(dict, codec, s, b).value;
      ReadValue(dict, codec, s, b + extra) == Ok(Step(step.state, step.value, step.rest + extra))
  {
    hide Var, ReadBlob, Wrap, Unzig, Xor64;
    var rest := b[1..];
    assert (b + extra)[1..] == rest + extra;
    if b[0] == 6 {
      LongerBlob(rest, extra);
    } else if b[0] < 3 {
      LongerWord(rest, extra);
    }
  }

  lemma {:induction false} ValuesAreLocal(dict: seq<string>, codec: Bincode)
    ensures Local(ValueColumn(dict, codec))
  {
    hide ReadValue;
    forall s: Running, b: seq<byte>, extra: seq<byte>
      ensures ItemIsLocal(ValueColumn(dict, codec), s, b, extra)
    {
      if ReadValue(dict, codec, s, b).Ok? {
        ValueIsLocal(dict, codec, s, b, extra);
      }
    }
  }

  lemma {:induction false} IdsAreLocal(again: Error, beyond: Error)
    ensures Local(Ids(again, beyond))
  {
    hide Var;
    forall s: Previous, b: seq<byte>, extra: seq<byte>
      ensures ItemIsLocal(Ids(again, beyond), s, b, extra)
    {
      if Var(b).Ok? {
        LongerWord(b, extra);
      }
    }
  }

  lemma {:induction false} EndsAreLocal()
    ensures Local(Ends())
  {
    hide Var, Wrap, Unzig, Unsigned;
    forall s: Last, b: seq<byte>, extra: seq<byte>
      ensures ItemIsLocal(Ends(), s, b, extra)
    {
      if Var(b).Ok? {
        LongerWord(b, extra);
      }
    }
  }

  lemma {:induction false} StopsAreLocal()
    ensures Local(Stops())
  {
    hide Var, Wrap, Unzig, Head, Rest;
    forall s: seq<i64>, b: seq<byte>, extra: seq<byte>
      ensures ItemIsLocal(Stops(), s, b, extra)
    {
      if b != [] {
        assert (b + extra)[1..] == b[1..] + extra;
        if Var(b[1..]).Ok? {
          LongerWord(b[1..], extra);
        }
      }
    }
  }

  lemma {:induction false} PropsAreLocal(codec: Bincode)
    ensures Local(PropsColumn(codec))
  {
    hide ReadBlob;
    forall s: (), b: seq<byte>, extra: seq<byte>
      ensures ItemIsLocal(PropsColumn(codec), s, b, extra)
    {
      if ReadBlob(b).Ok? {
        LongerBlob(b, extra);
      }
    }
  }

  lemma {:induction false} LongerHistory(dict: seq<string>, codec: Bincode, b: seq<byte>, extra: seq<byte>)
    requires ReadHistory(dict, codec, b).Ok?
    ensures ReadHistory(dict, codec, b + extra) == Longer(ReadHistory(dict, codec, b), extra)
  {
    hide Len, ReadMany, Times, ValueColumn, Derived, Local, ChangesOf;
    var count := Len(b).value;
    LongerLen(b, extra);
    TimesAreLocal(true);
    LongerColumn(Times(true), CLOCK, count.value, count.rest, [], extra);
    var times := ReadMany(Times(true), CLOCK, count.value, count.rest, []).value;
    CountRead(Times(true), CLOCK, count.value, count.rest, []);
    ValuesAreLocal(dict, codec);
    LongerColumn(ValueColumn(dict, codec), RUNNING, count.value, times.rest, [], extra);
    CountRead(ValueColumn(dict, codec), RUNNING, count.value, times.rest, []);
  }

  lemma {:induction false} LongerField(
      dict: seq<string>, codec: Bincode, s: Cursor, b: seq<byte>, extra: seq<byte>)
    requires ReadField(dict, codec, s, b).Ok?
    ensures var step := ReadField(dict, codec, s, b).value;
      ReadField(dict, codec, s, b + extra) == Ok(Step(step.state, step.value, step.rest + extra))
  {
    hide Var, ReadHistory;
    LongerWord(b, extra);
    var delta := Var(b).value;
    LongerWord(delta.rest, extra);
    LongerHistory(dict, codec, ReadIndex(dict, DictionaryIndex, delta.rest).value.rest, extra);
  }

  lemma {:induction false} LongerFields(
      dict: seq<string>, codec: Bincode, s: Cursor, n: nat, b: seq<byte>, done: seq<Field>, extra: seq<byte>)
    requires ReadFields(dict, codec, s, n, b, done).Ok?
    ensures ReadFields(dict, codec, s, n, b + extra, done) == Longer(ReadFields(dict, codec, s, n, b, done), extra)
    decreases n
  {
    hide ReadField, InsertField;
    if n > 0 {
      var step := ReadField(dict, codec, s, b).value;
      LongerField(dict, codec, s, b, extra);
      LongerFields(dict, codec, step.state, n - 1, step.rest, InsertField(done, step.value).value, extra);
    }
  }

  lemma {:induction false} FieldsCannotBeExtended(b: seq<byte>, codec: Bincode, extra: seq<byte>)
    requires DecodeFields(b, codec).Ok? && extra != []
    ensures DecodeFields(b + extra, codec) == Err(TrailingBytes)
  {
    hide Len, ReadMany, ReadFields, Texts, Local;
    assert (b + extra)[..1] == b[..1] && (b + extra)[1..] == b[1..] + extra;
    LongerLen(b[1..], extra);
    var texts := Len(b[1..]).value;
    TextsAreLocal();
    LongerColumn(Texts(), (), texts.value, texts.rest, [], extra);
    var dict := ReadMany(Texts(), (), texts.value, texts.rest, []).value;
    LongerLen(dict.rest, extra);
    var count := Len(dict.rest).value;
    LongerFields(dict.value, codec, Cursor(0), count.value, count.rest, [], extra);
  }

  lemma {:induction false} LongerColumns(
      n: nat, kinds: seq<string>, codec: Bincode, b: seq<byte>, extra: seq<byte>)
    requires ReadColumns(n, kinds, codec, b).Ok?
    ensures ReadColumns(n, kinds, codec, b + extra) == Longer(ReadColumns(n, kinds, codec, b), extra)
  {
    hide ReadMany, Ids, Indexes, Ends, Times, Stops, PropsColumn, Local;
    var again, beyond := DuplicateRelationship, RelationshipOverflow;
    IdsAreLocal(again, beyond);
    LongerColumn(Ids(again, beyond), PREVIOUS, n, b, [], extra);
    var ids := ReadMany(Ids(again, beyond), PREVIOUS, n, b, []).value;
    IndexesAreLocal(kinds, KindIndex);
    LongerColumn(Indexes(kinds, KindIndex), (), n, ids.rest, [], extra);
    var names := ReadMany(Indexes(kinds, KindIndex), (), n, ids.rest, []).value;
    EndsAreLocal();
    LongerColumn(Ends(), Last(0), n, names.rest, [], extra);
    var froms := ReadMany(Ends(), Last(0), n, names.rest, []).value;
    LongerColumn(Ends(), Last(0), n, froms.rest, [], extra);
    var tos := ReadMany(Ends(), Last(0), n, froms.rest, []).value;
    TimesAreLocal(false);
    LongerColumn(Times(false), CLOCK, n, tos.rest, [], extra);
    var starts := ReadMany(Times(false), CLOCK, n, tos.rest, []).value;
    StopsAreLocal();
    LongerColumn(Stops(), starts.value, n, starts.rest, [], extra);
    var stops := ReadMany(Stops(), starts.value, n, starts.rest, []).value;
    PropsAreLocal(codec);
    LongerColumn(PropsColumn(codec), (), n, stops.rest, [], extra);
  }

  lemma {:induction false} LongerRelationships(b: seq<byte>, codec: Bincode, extra: seq<byte>)
    requires ReadRelationships(b, codec).Ok?
    ensures ReadRelationships(b + extra, codec) == Longer(ReadRelationships(b, codec), extra)
  {
    hide Len, ReadMany, ReadColumns, Texts, Local, Assembled;
    LongerLen(b, extra);
    var count := Len(b).value;
    LongerLen(count.rest, extra);
    var texts := Len(count.rest).value;
    TextsAreLocal();
    LongerColumn(Texts(), (), texts.value, texts.rest, [], extra);
    var kinds := ReadMany(Texts(), (), texts.value, texts.rest, []).value;
    LongerColumns(count.value, kinds.value, codec, kinds.rest, extra);
  }

  lemma {:induction false} LongerLifetimes(b: seq<byte>, extra: seq<byte>)
    requires ReadLifetimes(b).Ok?
    ensures ReadLifetimes(b + extra) == Longer(ReadLifetimes(b), extra)
  {
    hide Len, ReadMany, Ids, Times, Local, Paired;
    var again, beyond := DuplicateLifetime, LifetimeOverflow;
    LongerLen(b, extra);
    var count := Len(b).value;
    IdsAreLocal(again, beyond);
    LongerColumn(Ids(again, beyond), PREVIOUS, count.value, count.rest, [], extra);
    var ids := ReadMany(Ids(again, beyond), PREVIOUS, count.value, count.rest, []).value;
    CountRead(Ids(again, beyond), PREVIOUS, count.value, count.rest, []);
    TimesAreLocal(false);
    LongerColumn(Times(false), CLOCK, count.value, ids.rest, [], extra);
    CountRead(Times(false), CLOCK, count.value, ids.rest, []);
  }

  // Every byte is spent: no accepted encoding begins another.
  lemma {:induction false} NothingAcceptedCanBeExtended(b: seq<byte>, codec: Bincode, extra: seq<byte>)
    requires Decode(b, codec).Ok? && extra != []
    ensures Decode(b + extra, codec) == Err(TrailingBytes)
  {
    hide DecodeFields, ReadBlob, ReadRelationships, ReadLifetimes;
    if b[0] == 1 {
      FieldsCannotBeExtended(b, codec, extra);
    } else {
      assert (b + extra)[..1] == b[..1] && (b + extra)[1..] == b[1..] + extra;
      LongerBlob(b[1..], extra);
      var blob := ReadBlob(b[1..]).value;
      LongerRelationships(blob.rest, codec, extra);
      var rels := ReadRelationships(blob.rest, codec).value;
      LongerLifetimes(rels.rest, extra);
      var appears := ReadLifetimes(rels.rest).value;
      LongerLifetimes(appears.rest, extra);
    }
  }
}
