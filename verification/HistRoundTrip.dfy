/** Encoding and then decoding gives back the histories: column by column, then
    whole encodings of either version. */
module HistRoundTrip {
  import opened HistBytes
  import opened HistColumns
  import opened HistFormat
  import opened Machine
  import opened ValidTime
  import opened Values
  import opened Wrappers
  import Utf8

  // ----- every column survives -----

  lemma {:induction false} BlobIsLonger(b: seq<byte>)
    ensures |b| < |Blob(b)|
  {
  }

  lemma {:induction false} TextSurvives(x: string, rest: seq<byte>)
    requires |Blob(Utf8.Encode(x))| < TWO_64
    ensures ReadText(Blob(Utf8.Encode(x)) + rest) == Ok(Step((), x, rest))
  {
    hide ReadBlob, Blob, Utf8.Encode, Utf8.Decode;
    BlobIsLonger(Utf8.Encode(x));
    BlobSurvives(Utf8.Encode(x), rest);
    Utf8.TextSurvives(x);
  }

  lemma {:induction false} TextsSurvive()
    ensures Survives(Texts())
  {
    hide ReadText, Blob, Utf8.Encode;
    forall s: (), x: string, rest: seq<byte>
      ensures ItemSurvives(Texts(), s, x, rest)
    {
      if |Blob(Utf8.Encode(x))| < TWO_64 {
        TextSurvives(x, rest);
      }
    }
  }

  lemma {:induction false} TimeSurvives(sorted: bool, s: Clock, at: i64, rest: seq<byte>)
    requires !sorted || s.start || s.t < at
    ensures ReadTime(sorted, s, WriteTime(s, at) + rest) == Ok(Step(Clock(false, at, Wrap(at - s.t)), at, rest))
  {
    hide Var, Varint, Zig, Unzig, Wrap;
    var d := Wrap(at - s.t);
    VarSurvives(Zig(Wrap(d - s.delta)), rest);
    ZigSurvives(Wrap(d - s.delta));
    WrappingDifference(s.delta, d);
    WrappingDifference(s.t, at);
  }

  lemma {:induction false} TimesSurvive(sorted: bool)
    ensures Survives(Times(sorted))
  {
    hide ReadTime, Wrap, Varint;
    forall s: Clock, at: i64, rest: seq<byte>
      ensures ItemSurvives(Times(sorted), s, at, rest)
    {
      if !sorted || s.start || s.t < at {
        TimeSurvives(sorted, s, at, rest);
      }
    }
  }

  lemma {:induction false} IndexSurvives(dict: seq<string>, wrong: Error, x: string, rest: seq<byte>)
    requires |dict| < TWO_64 && x in dict
    ensures ReadIndex(dict, wrong, Varint(IndexOf(dict, x)) + rest) == Ok(Step((), x, rest))
  {
    hide Var, Varint, IndexOf;
    VarSurvives(IndexOf(dict, x), rest);
  }

  lemma {:induction false} IndexesSurvive(dict: seq<string>, wrong: Error)
    requires |dict| < TWO_64
    ensures Survives(Indexes(dict, wrong))
  {
    hide ReadIndex, Varint, IndexOf;
    forall s: (), x: string, rest: seq<byte>
      ensures ItemSurvives(Indexes(dict, wrong), s, x, rest)
    {
      if x in dict {
        IndexSurvives(dict, wrong, x, rest);
      }
    }
  }

  lemma {:induction false} NumberSurvives(dict: seq<string>, codec: Bincode, s: Running, v: Value, rest: seq<byte>)
    requires v.Int? || v.Float?
    ensures ReadValue(dict, codec, s, WriteValue(dict, codec, s, v) + rest) == Ok(Step(NextRunning(s, v), v, rest))
  {
    hide Var, Varint, Zig, Unzig, Xor, Wrap, ReadBlob, ReadIndex;
    var b := WriteValue(dict, codec, s, v) + rest;
    match v
    case Int(n) =>
      var z := Zig(Wrap(n - s.integer));
      VarSurvives(z, rest);
      ZigSurvives(Wrap(n - s.integer));
      WrappingDifference(s.integer, n);
      assert b[1..] == Varint(z) + rest;
    case Float(bits) =>
      VarSurvives(Xor64(bits, s.float), rest);
      XorCancels(bits, s.float);
      assert b[1..] == Varint(Xor64(bits, s.float)) + rest;
  }

  lemma {:induction false} OtherSurvives(dict: seq<string>, codec: Bincode, s: Running, v: Value, rest: seq<byte>)
    requires Lawful(codec) && |dict| < TWO_64 && KnownText(dict, v) && !v.Int? && !v.Float?
    requires |WriteValue(dict, codec, s, v)| < TWO_64
    ensures ReadValue(dict, codec, s, WriteValue(dict, codec, s, v) + rest) == Ok(Step(s, v, rest))
  {
    hide Var, Varint, ReadBlob, Blob, IndexOf, ReadIndex;
    var b := WriteValue(dict, codec, s, v) + rest;
    match v
    case Str(text) =>
      IndexSurvives(dict, DictionaryIndex, text, rest);
      assert b[1..] == Varint(IndexOf(dict, text)) + rest;
    case Other(_) =>
      var payload := codec.write(v);
      BlobIsLonger(payload);
      BlobSurvives(payload, rest);
      assert b[1..] == Blob(payload) + rest;
    case Null =>
      assert b[1..] == rest;
    case Bool(_) =>
      assert b[1..] == rest;
    case _ =>
  }

  lemma {:induction false} ValueSurvives(dict: seq<string>, codec: Bincode, s: Running, v: Value, rest: seq<byte>)
    requires Lawful(codec) && |dict| < TWO_64 && KnownText(dict, v)
    requires |WriteValue(dict, codec, s, v)| < TWO_64
    ensures ReadValue(dict, codec, s, WriteValue(dict, codec, s, v) + rest) == Ok(Step(NextRunning(s, v), v, rest))
  {
    hide ReadValue, WriteValue, Lawful;
    if v.Int? || v.Float? {
      NumberSurvives(dict, codec, s, v, rest);
    } else {
      OtherSurvives(dict, codec, s, v, rest);
    }
  }

  lemma {:induction false} ValuesSurvive(dict: seq<string>, codec: Bincode)
    requires Lawful(codec)
    ensures Survives(ValueColumn(dict, codec))
  {
    hide ReadValue;
    forall s: Running, v: Value, rest: seq<byte>
      ensures ItemSurvives(ValueColumn(dict, codec), s, v, rest)
    {
      assert WriteValue(dict, codec, s, v) != [];
      hide WriteValue, NextRunning, Lawful;
      if |dict| < TWO_64 && KnownText(dict, v) && |WriteValue(dict, codec, s, v)| < TWO_64 {
        ValueSurvives(dict, codec, s, v, rest);
      }
    }
  }

  lemma {:induction false} IdSurvives(again: Error, beyond: Error, s: Previous, id: u64, rest: seq<byte>)
    requires s.id < id || (s.start && s.id == id)
    ensures ReadId(again, beyond, s, Varint((id - s.id) % TWO_64) + rest) == Ok(Step(Previous(false, id), id, rest))
  {
    hide Var, Varint;
    VarSurvives(id - s.id, rest);
  }

  lemma {:induction false} IdsSurvive(again: Error, beyond: Error)
    ensures Survives(Ids(again, beyond))
  {
    hide ReadId, Varint;
    forall s: Previous, id: u64, rest: seq<byte>
      ensures ItemSurvives(Ids(again, beyond), s, id, rest)
    {
      if Ids(again, beyond).allows(s, id) {
        IdSurvives(again, beyond, s, id, rest);
      }
    }
  }

  lemma {:induction false} EndSurvives(s: Last, x: u64, rest: seq<byte>)
    ensures ReadEnd(s, Varint(Zig(Wrap(Signed(x) - s.word))) + rest) == Ok(Step(Last(Signed(x)), x, rest))
  {
    hide Var, Varint, Zig, Unzig;
    var d := Wrap(Signed(x) - s.word);
    VarSurvives(Zig(d), rest);
    ZigSurvives(d);
    WrappingDifference(s.word, Signed(x));
    CastsAreInverse(x);
  }

  lemma {:induction false} EndsSurvive()
    ensures Survives(Ends())
  {
    hide ReadEnd, Varint, Zig, Wrap, Signed;
    forall s: Last, x: u64, rest: seq<byte>
      ensures ItemSurvives(Ends(), s, x, rest)
    {
      EndSurvives(s, x, rest);
    }
  }

  lemma {:induction false} StopSurvives(s: seq<i64>, to: Option<i64>, rest: seq<byte>)
    requires to.Some? ==> Head(s) <= to.value
    ensures ReadStop(s, WriteStop(s, to) + rest) == Ok(Step(Rest(s), to, rest))
  {
    hide Var, Varint, Zig, Unzig, Head, Rest;
    var b := WriteStop(s, to) + rest;
    match to
    case None =>
      assert b[1..] == rest;
    case Some(t) =>
      var d := Wrap(t - Head(s));
      VarSurvives(Zig(d), rest);
      ZigSurvives(d);
      WrappingDifference(Head(s), t);
      assert b[1..] == Varint(Zig(d)) + rest;
  }

  lemma {:induction false} StopsSurvive()
    ensures Survives(Stops())
  {
    hide ReadStop, Head, Rest;
    forall s: seq<i64>, to: Option<i64>, rest: seq<byte>
      ensures ItemSurvives(Stops(), s, to, rest)
    {
      assert WriteStop(s, to) != [];
      hide WriteStop;
      if Stops().allows(s, to) {
        StopSurvives(s, to, rest);
      }
    }
  }

  lemma {:induction false} ItemOfPropsSurvives(codec: Bincode, props: map<string, Value>, rest: seq<byte>)
    requires Lawful(codec) && |WriteProps(codec, props)| < TWO_64
    ensures ReadProps(codec, WriteProps(codec, props) + rest) == Ok(Step((), props, rest))
  {
    hide ReadBlob, Blob;
    var b := if props == map[] then [] else codec.writeProps(props);
    BlobIsLonger(b);
    BlobSurvives(b, rest);
  }

  lemma {:induction false} PropsSurvive(codec: Bincode)
    requires Lawful(codec)
    ensures Survives(PropsColumn(codec))
  {
    hide ReadProps, Lawful;
    forall s: (), props: map<string, Value>, rest: seq<byte>
      ensures ItemSurvives(PropsColumn(codec), s, props, rest)
    {
      assert WriteProps(codec, props) != [];
      hide WriteProps;
      if |WriteProps(codec, props)| < TWO_64 {
        ItemOfPropsSurvives(codec, props, rest);
      }
    }
  }

  // ----- what the columns of a history are allowed -----

  lemma {:induction false} AscendingTimesAreAllowed(times: seq<i64>, s: Clock)
    requires forall i, j :: 0 <= i < j < |times| ==> times[i] < times[j]
    requires times != [] && !s.start ==> s.t < times[0]
    ensures Allowed(Times(true), s, times)
    decreases |times|
  {
    if times != [] {
      AscendingTimesAreAllowed(times[1..], Clock(false, times[0], Wrap(times[0] - s.t)));
    }
  }

  lemma {:induction false} AnyTimesAreAllowed(times: seq<i64>, s: Clock)
    ensures Allowed(Times(false), s, times)
    decreases |times|
  {
    if times != [] {
      AnyTimesAreAllowed(times[1..], Clock(false, times[0], Wrap(times[0] - s.t)));
    }
  }

  lemma {:induction false} KnownValuesAreAllowed(dict: seq<string>, codec: Bincode, s: Running, values: seq<Value>)
    requires |dict| < TWO_64
    requires forall i :: 0 <= i < |values| ==> KnownText(dict, values[i])
    ensures Allowed(ValueColumn(dict, codec), s, values)
    decreases |values|
  {
    if values != [] {
      assert KnownText(dict, values[0]);
      forall i | 0 <= i < |values[1..]|
        ensures KnownText(dict, values[1..][i])
      {
        assert values[1..][i] == values[i + 1];
      }
      KnownValuesAreAllowed(dict, codec, NextRunning(s, values[0]), values[1..]);
    }
  }

  lemma {:induction false} AscendingIdsAreAllowed(again: Error, beyond: Error, ids: seq<u64>, s: Previous)
    requires IdsAscend(ids)
    requires ids != [] ==> s.id < ids[0] || (s.start && s.id == ids[0])
    ensures Allowed(Ids(again, beyond), s, ids)
    decreases |ids|
  {
    if ids != [] {
      AscendingIdsAreAllowed(again, beyond, ids[1..], Previous(false, ids[0]));
    }
  }

  lemma {:induction false} KnownNamesAreAllowed(dict: seq<string>, wrong: Error, names: seq<string>)
    requires forall i :: 0 <= i < |names| ==> names[i] in dict
    ensures Allowed(Indexes(dict, wrong), (), names)
    decreases |names|
  {
    if names != [] {
      KnownNamesAreAllowed(dict, wrong, names[1..]);
    }
  }

  lemma {:induction false} TextsAreAllowed(dict: seq<string>)
    ensures Allowed(Texts(), (), dict)
    decreases |dict|
  {
    if dict != [] {
      TextsAreAllowed(dict[1..]);
    }
  }

  lemma {:induction false} EndsAreAllowed(ends: seq<u64>, s: Last)
    ensures Allowed(Ends(), s, ends)
    decreases |ends|
  {
    if ends != [] {
      EndsAreAllowed(ends[1..], Last(Signed(ends[0])));
    }
  }

  lemma {:induction false} OrderedStopsAreAllowed(starts: seq<i64>, stops: seq<Option<i64>>)
    requires |starts| == |stops|
    requires forall i :: 0 <= i < |stops| && stops[i].Some? ==> starts[i] <= stops[i].value
    ensures Allowed(Stops(), starts, stops)
    decreases |stops|
  {
    if stops != [] {
      OrderedStopsAreAllowed(starts[1..], stops[1..]);
    }
  }

  lemma {:induction false} PropsAreAllowed(codec: Bincode, props: seq<map<string, Value>>)
    ensures Allowed(PropsColumn(codec), (), props)
    decreases |props|
  {
    if props != [] {
      PropsAreAllowed(codec, props[1..]);
    }
  }

  // ----- histories -----

  lemma {:induction false} HistoryParts(dict: seq<string>, codec: Bincode, h: History, rest: seq<byte>)
    ensures var a := WriteMany(Times(true), CLOCK, TimesOf(h.changes));
      var v := WriteMany(ValueColumn(dict, codec), RUNNING, ValuesOf(h.changes));
      var b := WriteHistory(dict, codec, h);
      && b + rest == Varint(|h.changes|) + (a + (v + rest))
      && |a| < |b| && |v| < |b|
  {
    hide Varint, WriteMany, Times, ValueColumn, TimesOf, ValuesOf;
  }

  lemma {:induction false} HistoryIsAllowed(dict: seq<string>, codec: Bincode, h: History)
    requires WellFormed(h) && |dict| < TWO_64 && forall c <- h.changes :: KnownText(dict, c.value)
    ensures Allowed(Times(true), CLOCK, TimesOf(h.changes))
    ensures Allowed(ValueColumn(dict, codec), RUNNING, ValuesOf(h.changes))
  {
    hide Allowed, Times, ValueColumn, Derived;
    var values := ValuesOf(h.changes);
    AscendingTimesAreAllowed(TimesOf(h.changes), CLOCK);
    forall i | 0 <= i < |values|
      ensures KnownText(dict, values[i])
    {
      assert h.changes[i] in h.changes;
    }
    KnownValuesAreAllowed(dict, codec, RUNNING, values);
  }

  lemma {:induction false} ChangesAgain(changes: seq<Change>)
    ensures |TimesOf(changes)| == |ValuesOf(changes)| == |changes|
    ensures ChangesOf(TimesOf(changes), ValuesOf(changes)) == changes
  {
  }

  lemma {:induction false} HistorySurvives(dict: seq<string>, codec: Bincode, h: History, rest: seq<byte>)
    requires Lawful(codec) && WellFormed(h) && |dict| < TWO_64
    requires forall c <- h.changes :: KnownText(dict, c.value)
    requires |WriteHistory(dict, codec, h)| < TWO_64
    ensures ReadHistory(dict, codec, WriteHistory(dict, codec, h) + rest) == Ok(Parsed(h, rest))
  {
    hide Var, Varint, WriteMany, ReadMany, Times, ValueColumn, Survives, Allowed, TimesOf, ValuesOf, ChangesOf;
    hide Derived, Len, Lawful, WriteHistory, KnownText, Ascending;
    var n, times, values := |h.changes|, TimesOf(h.changes), ValuesOf(h.changes);
    var v := WriteMany(ValueColumn(dict, codec), RUNNING, values) + rest;
    HistoryParts(dict, codec, h, rest);
    HistoryIsAllowed(dict, codec, h);
    ChangesAgain(h.changes);
    TimesSurvive(true);
    HeadSurvives(Times(true), CLOCK, times, v);
    ValuesSurvive(dict, codec);
    HeadSurvives(ValueColumn(dict, codec), RUNNING, values, rest);
    LenSurvives(n, WriteMany(Times(true), CLOCK, times) + v);
  }

  lemma {:induction false} FieldParts(dict: seq<string>, codec: Bincode, s: Cursor, f: Field, rest: seq<byte>)
    ensures WriteField(dict, codec, s, f) + rest ==
            Varint((f.node - s.node) % TWO_64)
            + (Varint(IndexOf(dict, f.name)) + (WriteHistory(dict, codec, f.history) + rest))
    ensures |WriteHistory(dict, codec, f.history)| < |WriteField(dict, codec, s, f)|
    ensures WriteField(dict, codec, s, f) != []
  {
    hide Varint, WriteHistory, IndexOf;
  }

  lemma {:induction false} FieldSurvives(dict: seq<string>, codec: Bincode, s: Cursor, f: Field, rest: seq<byte>)
    requires Lawful(codec) && WellFormed(f.history) && KnowsField(dict, f) && |dict| < TWO_64 && s.node <= f.node
    requires |WriteField(dict, codec, s, f)| < TWO_64
    ensures ReadField(dict, codec, s, WriteField(dict, codec, s, f) + rest) == Ok(Step(Cursor(f.node), f, rest))
  {
    hide Var, Varint, ReadHistory, WriteField, WriteHistory, ReadIndex, IndexOf, WellFormed, Lawful;
    var history := WriteHistory(dict, codec, f.history);
    FieldParts(dict, codec, s, f, rest);
    VarSurvives(f.node - s.node, Varint(IndexOf(dict, f.name)) + (history + rest));
    IndexSurvives(dict, DictionaryIndex, f.name, history + rest);
    HistorySurvives(dict, codec, f.history, rest);
  }

  // ----- the dictionaries hold every text -----

  lemma {:induction false} InsertTextAdds(dict: seq<string>, s: string)
    ensures forall t :: t in InsertText(dict, s) <==> t == s || t in dict
    decreases |dict|
  {
    if dict != [] {
      TextOrderLaws(s, dict[0], s);
      hide CompareText;
      InsertTextAdds(dict[1..], s);
      assert dict == [dict[0]] + dict[1..];
    }
  }

  ghost predicate TextsAscend(dict: seq<string>) {
    forall i, j :: 0 <= i < j < |dict| ==> CompareText(dict[i], dict[j]) == Less
  }

  lemma {:induction false} InsertTextAscends(dict: seq<string>, s: string)
    requires TextsAscend(dict)
    ensures TextsAscend(InsertText(dict, s))
    decreases |dict|
  {
    if dict != [] {
      TextOrderLaws(s, dict[0], s);
      InsertTextAscends(dict[1..], s);
      InsertTextAdds(dict[1..], s);
      hide CompareText;
      var rest := InsertText(dict[1..], s);
      match CompareText(s, dict[0])
      case Less =>
        forall j | 0 < j < |dict|
          ensures CompareText(s, dict[j]) == Less
        {
          TextOrderLaws(s, dict[0], dict[j]);
        }
      case Equal =>
      case Greater =>
        forall j | 0 <= j < |rest|
          ensures CompareText(dict[0], rest[j]) == Less
        {
          assert rest[j] in rest;
          TextOrderLaws(dict[0], s, s);
        }
    }
  }

  predicate Changed(changes: seq<Change>, t: string) {
    exists c <- changes :: c.value == Str(t)
  }

  // The texts a field needs: its name and its string values.
  predicate Uses(f: Field, t: string) {
    t == f.name || Changed(f.history.changes, t)
  }

  predicate Needed(fields: seq<Field>, t: string) {
    exists f <- fields :: Uses(f, t)
  }

  lemma {:induction false} NeededByFirst(fields: seq<Field>, t: string)
    requires fields != []
    ensures Needed(fields, t) <==> Uses(fields[0], t) || Needed(fields[1..], t)
  {
    hide Uses;
    assert fields == [fields[0]] + fields[1..];
  }

  lemma {:induction false} AddTextsAdds(dict: seq<string>, changes: seq<Change>)
    ensures forall t :: t in AddTexts(dict, changes) <==> t in dict || Changed(changes, t)
    ensures TextsAscend(dict) ==> TextsAscend(AddTexts(dict, changes))
    decreases |changes|
  {
    if changes != [] {
      var v := changes[0].value;
      var next := if v.Str? then InsertText(dict, v.text) else dict;
      if v.Str? {
        InsertTextAdds(dict, v.text);
        if TextsAscend(dict) {
          InsertTextAscends(dict, v.text);
        }
      }
      hide InsertText, TextsAscend;
      AddTextsAdds(next, changes[1..]);
      assert changes == [changes[0]] + changes[1..];
    }
  }

  // The dictionary holds every text that is needed, once, in order, and no other.
  lemma {:induction false} AddFieldsAdds(dict: seq<string>, fields: seq<Field>)
    ensures forall t :: t in AddFields(dict, fields) <==> t in dict || Needed(fields, t)
    ensures TextsAscend(dict) ==> TextsAscend(AddFields(dict, fields))
    decreases |fields|
  {
    if fields != [] {
      var f := fields[0];
      var named := InsertText(dict, f.name);
      InsertTextAdds(dict, f.name);
      if TextsAscend(dict) {
        InsertTextAscends(dict, f.name);
      }
      AddTextsAdds(named, f.history.changes);
      var next := AddTexts(named, f.history.changes);
      hide InsertText, AddTexts, TextsAscend, Changed;
      AddFieldsAdds(next, fields[1..]);
      forall t
        ensures Needed(fields, t) <==> Uses(f, t) || Needed(fields[1..], t)
      {
        NeededByFirst(fields, t);
      }
    }
  }

  lemma {:induction false} DictionaryKnows(fields: seq<Field>)
    ensures forall f <- fields :: KnowsField(AddFields([], fields), f)
  {
    hide AddFields;
    AddFieldsAdds([], fields);
    forall f, c | f in fields && c in f.history.changes && c.value.Str?
      ensures c.value.text in AddFields([], fields)
    {
      assert Changed(f.history.changes, c.value.text);
      assert Uses(f, c.value.text);
    }
    forall f | f in fields
      ensures f.name in AddFields([], fields)
    {
      assert Uses(f, f.name);
    }
  }

  // The same of the kinds of relationships.
  lemma {:induction false} AddKindsAdds(dict: seq<string>, rels: seq<RelHistory>)
    ensures forall t :: t in AddKinds(dict, rels) <==> t in dict || exists r <- rels :: r.rel.kind == t
    ensures TextsAscend(dict) ==> TextsAscend(AddKinds(dict, rels))
    decreases |rels|
  {
    if rels != [] {
      InsertTextAdds(dict, rels[0].rel.kind);
      if TextsAscend(dict) {
        InsertTextAscends(dict, rels[0].rel.kind);
      }
      hide InsertText, TextsAscend;
      AddKindsAdds(InsertText(dict, rels[0].rel.kind), rels[1..]);
      assert rels == [rels[0]] + rels[1..];
    }
  }

  // ----- fields, inserted one by one -----

  lemma {:induction false} InsertLast(fields: seq<Field>, f: Field)
    requires forall i :: 0 <= i < |fields| ==> CompareKeys(fields[i], f) == Less
    ensures InsertField(fields, f) == Some(fields + [f])
    decreases |fields|
  {
    if fields == [] {
      assert fields + [f] == [f];
    } else {
      KeyOrderLaws(fields[0], f, f);
      hide CompareKeys;
      InsertLast(fields[1..], f);
      assert fields + [f] == [fields[0]] + (fields[1..] + [f]);
    }
  }

  lemma {:induction false} KeyOrderLaws(a: Field, b: Field, c: Field)
    ensures CompareKeys(a, b) == Equal <==> a.node == b.node && a.name == b.name
    ensures CompareKeys(a, b) == Less <==> CompareKeys(b, a) == Greater
    ensures CompareKeys(a, b) == Less && CompareKeys(b, c) == Less ==> CompareKeys(a, c) == Less
  {
    hide CompareText;
    TextOrderLaws(a.name, b.name, c.name);
  }

  lemma {:induction false} FieldsStep(
      dict: seq<string>, codec: Bincode, s: Cursor, fields: seq<Field>, rest: seq<byte>)
    requires fields != [] && Allowed(FieldColumn(dict, codec), s, fields)
    ensures var c, t := FieldColumn(dict, codec), Cursor(fields[0].node);
      && Allowed(c, t, fields[1..])
      && WellFormed(fields[0].history) && KnowsField(dict, fields[0]) && |dict| < TWO_64 && s.node <= t.node
      && WriteMany(c, s, fields) == WriteField(dict, codec, s, fields[0]) + WriteMany(c, t, fields[1..])
  {
    hide WriteField, ReadField, WellFormed;
    WriteManyParts(FieldColumn(dict, codec), s, fields, rest);
  }

  lemma {:induction false} InsertNext(done: seq<Field>, fields: seq<Field>)
    requires fields != [] && FieldsAscend(done + fields)
    ensures InsertField(done, fields[0]) == Some(done + [fields[0]])
    ensures done + [fields[0]] + fields[1..] == done + fields
  {
    hide InsertField, CompareKeys;
    forall i | 0 <= i < |done|
      ensures CompareKeys(done[i], fields[0]) == Less
    {
      assert (done + fields)[i] == done[i] && (done + fields)[|done|] == fields[0];
    }
    InsertLast(done, fields[0]);
  }

  lemma {:induction false} FieldsSurvive(
      dict: seq<string>, codec: Bincode, s: Cursor, fields: seq<Field>, rest: seq<byte>, done: seq<Field>)
    requires Lawful(codec) && Allowed(FieldColumn(dict, codec), s, fields)
    requires |WriteMany(FieldColumn(dict, codec), s, fields)| < TWO_64
    requires FieldsAscend(done + fields)
    ensures ReadFields(dict, codec, s, |fields|, WriteMany(FieldColumn(dict, codec), s, fields) + rest, done)
            == Ok(Parsed(done + fields, rest))
    ensures |WriteMany(FieldColumn(dict, codec), s, fields)| >= |fields|
    decreases |fields|
  {
    hide WriteField, ReadField, WriteMany, Allowed, FieldColumn, InsertField, FieldsAscend, WellFormed, Lawful, KnowsField;
    if fields == [] {
      NothingWritten(FieldColumn(dict, codec), s);
      assert done + fields == done && [] + rest == rest;
    } else {
      var f := fields[0];
      var t, first := Cursor(f.node), WriteField(dict, codec, s, f);
      var others := WriteMany(FieldColumn(dict, codec), t, fields[1..]);
      FieldsStep(dict, codec, s, fields, rest);
      FieldParts(dict, codec, s, f, rest);
      FieldSurvives(dict, codec, s, f, others + rest);
      assert first + others + rest == first + (others + rest);
      InsertNext(done, fields);
      FieldsSurvive(dict, codec, t, fields[1..], rest, done + [f]);
    }
  }

  lemma {:induction false} FieldsAreAllowed(dict: seq<string>, codec: Bincode, s: Cursor, fields: seq<Field>)
    requires FieldsAscend(fields) && |dict| < TWO_64
    requires forall i :: 0 <= i < |fields| ==> WellFormed(fields[i].history)
    requires forall f <- fields :: KnowsField(dict, f)
    requires fields != [] ==> s.node <= fields[0].node
    ensures Allowed(FieldColumn(dict, codec), s, fields)
    decreases |fields|
  {
    if fields != [] {
      hide WellFormed;
      assert KnowsField(dict, fields[0]);
      if |fields| > 1 {
        assert CompareKeys(fields[0], fields[1]) == Less;
      }
      FieldsAreAllowed(dict, codec, Cursor(fields[0].node), fields[1..]);
    }
  }

  lemma {:induction false} TextsRoundTrip(dict: seq<string>, rest: seq<byte>)
    requires |WriteMany(Texts(), (), dict)| < TWO_64
    ensures ReadMany(Texts(), (), |dict|, WriteMany(Texts(), (), dict) + rest, []) == Ok(Parsed(dict, rest))
    ensures |WriteMany(Texts(), (), dict)| >= |dict|
  {
    hide WriteMany, ReadMany, Allowed, Survives, Texts;
    TextsAreAllowed(dict);
    TextsSurvive();
    HeadSurvives(Texts(), (), dict, rest);
  }

  lemma {:induction false} EncodedFieldsParts(fields: seq<Field>, codec: Bincode)
    ensures var dict, b := AddFields([], fields), EncodeFields(fields, codec);
      var columns := WriteMany(FieldColumn(dict, codec), Cursor(0), fields);
      && b != [] && b[0] == 1 && b[..1] == [1]
      && b[1..] == Varint(|dict|) + (WriteMany(Texts(), (), dict) + (Varint(|fields|) + columns))
      && |WriteMany(Texts(), (), dict)| < |b| && |columns| < |b|
  {
    hide Varint, WriteMany, Texts, FieldColumn, AddFields;
  }

  lemma {:induction false} FieldsRoundTrip(fields: seq<Field>, codec: Bincode)
    requires Lawful(codec) && FieldsAscend(fields)
    requires forall i :: 0 <= i < |fields| ==> WellFormed(fields[i].history)
    requires |EncodeFields(fields, codec)| < TWO_64
    ensures DecodeFields(EncodeFields(fields, codec), codec) == Ok(fields)
  {
    hide EncodeFields, Varint, Var, Len, WriteMany, ReadMany, AddFields, Allowed, Texts, FieldColumn;
    hide ReadFields, WellFormed, Lawful, FieldsAscend, KnowsField;
    var dict := AddFields([], fields);
    var texts, columns := WriteMany(Texts(), (), dict), WriteMany(FieldColumn(dict, codec), Cursor(0), fields);
    EncodedFieldsParts(fields, codec);
    TextsRoundTrip(dict, Varint(|fields|) + columns);
    DictionaryKnows(fields);
    FieldsAreAllowed(dict, codec, Cursor(0), fields);
    assert [] + fields == fields && columns + [] == columns;
    FieldsSurvive(dict, codec, Cursor(0), fields, [], []);
    LenSurvives(|dict|, texts + (Varint(|fields|) + columns));
    LenSurvives(|fields|, columns);
  }

  // ----- relationships and lifetimes -----

  // What the columns of ordered relationships are allowed to hold.
  lemma {:induction false} ColumnsAreAllowed(rels: seq<RelHistory>, kinds: seq<string>, codec: Bincode)
    requires IdsAscend(RelIds(rels))
    requires forall i :: 0 <= i < |rels| ==> InOrder(rels[i]) && rels[i].rel.kind in kinds
    ensures var c := ColumnsOf(rels);
      && Allowed(Ids(DuplicateRelationship, RelationshipOverflow), PREVIOUS, c.ids)
      && Allowed(Indexes(kinds, KindIndex), (), c.kinds)
      && Allowed(Ends(), Last(0), c.froms) && Allowed(Ends(), Last(0), c.tos)
      && Allowed(Times(false), CLOCK, c.starts)
      && Allowed(Stops(), c.starts, c.stops)
      && Allowed(PropsColumn(codec), (), c.props)
  {
    hide Allowed, Ids, Indexes, Ends, Times, Stops, PropsColumn;
    var c := ColumnsOf(rels);
    AscendingIdsAreAllowed(DuplicateRelationship, RelationshipOverflow, c.ids, PREVIOUS);
    KnownNamesAreAllowed(kinds, KindIndex, c.kinds);
    EndsAreAllowed(c.froms, Last(0));
    EndsAreAllowed(c.tos, Last(0));
    AnyTimesAreAllowed(c.starts, CLOCK);
    OrderedStopsAreAllowed(c.starts, c.stops);
    PropsAreAllowed(codec, c.props);
  }

  lemma {:induction false} ColumnsParts(rels: seq<RelHistory>, kinds: seq<string>, codec: Bincode, rest: seq<byte>)
    ensures var c, all := ColumnsOf(rels), |WriteColumns(rels, kinds, codec)|;
      var g := WriteMany(PropsColumn(codec), (), c.props);
      var f := WriteMany(Stops(), c.starts, c.stops);
      var e := WriteMany(Times(false), CLOCK, c.starts);
      var d := WriteMany(Ends(), Last(0), c.tos);
      var k := WriteMany(Ends(), Last(0), c.froms);
      var n := WriteMany(Indexes(kinds, KindIndex), (), c.kinds);
      var i := WriteMany(Ids(DuplicateRelationship, RelationshipOverflow), PREVIOUS, c.ids);
      && WriteColumns(rels, kinds, codec) + rest == i + (n + (k + (d + (e + (f + (g + rest))))))
      && |i| <= all && |n| <= all && |k| <= all && |d| <= all && |e| <= all && |f| <= all && |g| <= all
  {
    hide WriteMany, ColumnsOf, Ids, Indexes, Ends, Times, Stops, PropsColumn;
  }

  lemma {:induction false} ColumnsSurvive(rels: seq<RelHistory>, kinds: seq<string>, codec: Bincode, rest: seq<byte>)
    requires Lawful(codec) && |kinds| < TWO_64
    requires IdsAscend(RelIds(rels))
    requires forall i :: 0 <= i < |rels| ==> InOrder(rels[i]) && rels[i].rel.kind in kinds
    requires |WriteColumns(rels, kinds, codec)| < TWO_64
    ensures ReadColumns(|rels|, kinds, codec, WriteColumns(rels, kinds, codec) + rest)
            == Ok(Parsed(ColumnsOf(rels), rest))
    ensures |WriteColumns(rels, kinds, codec)| >= |rels|
  {
    hide Allowed, Survives, Ids, Indexes, Ends, Times, Stops, PropsColumn, ColumnsOf, WriteColumns, WriteMany, ReadMany;
    hide Lawful, InOrder, IdsAscend, RelIds;
    var c := ColumnsOf(rels);
    ColumnsParts(rels, kinds, codec, rest);
    ColumnsAreAllowed(rels, kinds, codec);
    var g := WriteMany(PropsColumn(codec), (), c.props) + rest;
    var f := WriteMany(Stops(), c.starts, c.stops) + g;
    var e := WriteMany(Times(false), CLOCK, c.starts) + f;
    var d := WriteMany(Ends(), Last(0), c.tos) + e;
    var k := WriteMany(Ends(), Last(0), c.froms) + d;
    IdsSurvive(DuplicateRelationship, RelationshipOverflow);
    HeadSurvives(Ids(DuplicateRelationship, RelationshipOverflow), PREVIOUS, c.ids,
                 WriteMany(Indexes(kinds, KindIndex), (), c.kinds) + k);
    IndexesSurvive(kinds, KindIndex);
    HeadSurvives(Indexes(kinds, KindIndex), (), c.kinds, k);
    EndsSurvive();
    HeadSurvives(Ends(), Last(0), c.froms, d);
    HeadSurvives(Ends(), Last(0), c.tos, e);
    TimesSurvive(false);
    HeadSurvives(Times(false), CLOCK, c.starts, f);
    StopsSurvive();
    HeadSurvives(Stops(), c.starts, c.stops, g);
    PropsSurvive(codec);
    HeadSurvives(PropsColumn(codec), (), c.props, rest);
  }

  lemma {:induction false} RelationshipsParts(rels: seq<RelHistory>, codec: Bincode, rest: seq<byte>)
    ensures var kinds, b := AddKinds([], rels), WriteRelationships(rels, codec);
      var texts, columns := WriteMany(Texts(), (), kinds), WriteColumns(rels, kinds, codec);
      && b + rest == Varint(|rels|) + (Varint(|kinds|) + (texts + (columns + rest)))
      && |texts| <= |b| && |columns| <= |b|
  {
    hide WriteMany, Texts, WriteColumns, Varint, AddKinds;
  }

  lemma {:induction false} AssembledAgain(rels: seq<RelHistory>)
    ensures Assembled(ColumnsOf(rels), |rels|) == rels
  {
  }

  lemma {:induction false} RelationshipsRoundTrip(rels: seq<RelHistory>, codec: Bincode, rest: seq<byte>)
    requires Lawful(codec) && IdsAscend(RelIds(rels))
    requires forall i :: 0 <= i < |rels| ==> InOrder(rels[i])
    requires |WriteRelationships(rels, codec)| < TWO_64
    ensures ReadRelationships(WriteRelationships(rels, codec) + rest, codec) == Ok(Parsed(rels, rest))
  {
    hide AddKinds, Texts, WriteColumns, ReadColumns, WriteMany, ReadMany, Varint, Var, Len, ColumnsOf, Assembled;
    hide Lawful, InOrder, IdsAscend, RelIds, WriteRelationships;
    var kinds := AddKinds([], rels);
    var texts, columns := WriteMany(Texts(), (), kinds), WriteColumns(rels, kinds, codec);
    RelationshipsParts(rels, codec, rest);
    AddKindsAdds([], rels);
    AssembledAgain(rels);
    TextsRoundTrip(kinds, columns + rest);
    ColumnsSurvive(rels, kinds, codec, rest);
    LenSurvives(|rels|, Varint(|kinds|) + (texts + (columns + rest)));
    LenSurvives(|kinds|, texts + (columns + rest));
  }

  lemma {:induction false} LifetimesParts(dates: seq<Lifetime>, rest: seq<byte>)
    ensures var b := WriteLifetimes(dates);
      var a := WriteMany(Ids(DuplicateLifetime, LifetimeOverflow), PREVIOUS, Nodes(dates));
      var t := WriteMany(Times(false), CLOCK, Dates(dates));
      && b + rest == Varint(|dates|) + (a + (t + rest))
      && |a| <= |b| && |t| <= |b|
  {
    hide WriteMany, Ids, Times, Nodes, Dates, Varint;
  }

  lemma {:induction false} LifetimesAgain(dates: seq<Lifetime>)
    ensures |Nodes(dates)| == |Dates(dates)| == |dates|
    ensures Paired(Nodes(dates), Dates(dates)) == dates
  {
  }

  lemma {:induction false} LifetimesRoundTrip(dates: seq<Lifetime>, rest: seq<byte>)
    requires IdsAscend(Nodes(dates)) && |WriteLifetimes(dates)| < TWO_64
    ensures ReadLifetimes(WriteLifetimes(dates) + rest) == Ok(Parsed(dates, rest))
  {
    hide Allowed, Survives, Ids, Times, WriteMany, ReadMany, Varint, Var, Len, Nodes, Dates, WriteLifetimes, Paired;
    var idColumn := Ids(DuplicateLifetime, LifetimeOverflow);
    var ids, times := Nodes(dates), Dates(dates);
    var t := WriteMany(Times(false), CLOCK, times) + rest;
    LifetimesParts(dates, rest);
    LifetimesAgain(dates);
    IdsSurvive(DuplicateLifetime, LifetimeOverflow);
    AscendingIdsAreAllowed(DuplicateLifetime, LifetimeOverflow, ids, PREVIOUS);
    HeadSurvives(idColumn, PREVIOUS, ids, t);
    TimesSurvive(false);
    AnyTimesAreAllowed(times, CLOCK);
    HeadSurvives(Times(false), CLOCK, times, rest);
    LenSurvives(|dates|, WriteMany(idColumn, PREVIOUS, ids) + t);
  }

  // ----- both versions -----

  lemma {:induction false} EncodedParts(h: Histories, codec: Bincode)
    requires h.relationships != [] || h.appears != [] || h.ends != []
    ensures var b, fields := Encode(h, codec), EncodeFields(h.fields, codec);
      var r, a, e := WriteRelationships(h.relationships, codec), WriteLifetimes(h.appears), WriteLifetimes(h.ends);
      && b != [] && b[0] == 2 && b[..1] == [2] && b[1..] == Blob(fields) + (r + (a + (e + [])))
      && |fields| < |b| && |r| < |b| && |a| < |b| && |e| < |b|
  {
    hide EncodeFields, WriteRelationships, WriteLifetimes, Blob;
    BlobIsLonger(EncodeFields(h.fields, codec));
  }

  // Version 1 is what histories of fields alone are written in, version 2 the
  // rest; either way decoding gives the same histories back.
  lemma {:induction false} RoundTrip(h: Histories, codec: Bincode)
    requires Lawful(codec) && WellFormedHistories(h)
    requires |Encode(h, codec)| < TWO_64
    ensures Decode(Encode(h, codec), codec) == Ok(h)
    ensures Encode(h, codec)[..1] ==
            [if h.relationships == [] && h.appears == [] && h.ends == [] then 1 else 2]
  {
    if h.relationships == [] && h.appears == [] && h.ends == [] {
      RoundTripOfFields(h, codec);
    } else {
      RoundTripOfAll(h, codec);
    }
  }

  lemma {:induction false} RoundTripOfFields(h: Histories, codec: Bincode)
    requires Lawful(codec) && WellFormedHistories(h)
    requires h.relationships == [] && h.appears == [] && h.ends == []
    requires |Encode(h, codec)| < TWO_64
    ensures Decode(Encode(h, codec), codec) == Ok(h) && Encode(h, codec)[..1] == [1]
  {
    hide EncodeFields, DecodeFields, WellFormed, Lawful;
    EncodedFieldsParts(h.fields, codec);
    FieldsRoundTrip(h.fields, codec);
  }

  lemma {:induction false} RoundTripOfAll(h: Histories, codec: Bincode)
    requires Lawful(codec) && WellFormedHistories(h)
    requires h.relationships != [] || h.appears != [] || h.ends != []
    requires |Encode(h, codec)| < TWO_64
    ensures Decode(Encode(h, codec), codec) == Ok(h) && Encode(h, codec)[..1] == [2]
  {
    hide Encode, EncodeFields, DecodeFields, WriteRelationships, ReadRelationships, WriteLifetimes, ReadLifetimes;
    hide Blob, ReadBlob, WellFormed, Lawful, FieldsAscend, IdsAscend, InOrder;
    var r, a, e := WriteRelationships(h.relationships, codec), WriteLifetimes(h.appears), WriteLifetimes(h.ends);
    EncodedParts(h, codec);
    BlobSurvives(EncodeFields(h.fields, codec), r + (a + (e + [])));
    FieldsRoundTrip(h.fields, codec);
    RelationshipsRoundTrip(h.relationships, codec, a + (e + []));
    LifetimesRoundTrip(h.appears, e + []);
    LifetimesRoundTrip(h.ends, []);
  }
}
