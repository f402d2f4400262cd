/** The HIST encoder and decoder as the program runs them, loop by loop, proved
    to compute `Encode` and `Decode`. */
module HistCodec {
  import opened HistAccepts
  import opened HistBytes
  import opened HistColumns
  import opened HistFormat
  import opened HistRoundTrip
  import opened Machine
  import opened ValidTime
  import opened Values
  import opened Wrappers
  import Utf8

  // ----- writing -----

  lemma {:induction false} NothingAscends()
    ensures TextsAscend([])
  {
  }

  method BuildDictionary(fields: seq<Field>) returns (dict: seq<string>)
    ensures dict == AddFields([], fields)
    ensures TextsAscend(dict) && forall t :: t in dict <==> Needed(fields, t)
  {
    AddFieldsAdds([], fields);
    NothingAscends();
    hide InsertText, TextsAscend, Needed;
    dict := [];
    var i := 0;
    while i < |fields|
      invariant 0 <= i <= |fields|
      invariant AddFields(dict, fields[i..]) == AddFields([], fields)
    {
      assert fields[i..][1..] == fields[i + 1..];
      dict := InsertText(dict, fields[i].name);
      var changes := fields[i].history.changes;
      var j := 0;
      while j < |changes|
        invariant 0 <= j <= |changes|
        invariant AddFields(AddTexts(dict, changes[j..]), fields[i + 1..]) == AddFields([], fields)
      {
        assert changes[j..][1..] == changes[j + 1..];
        var v := changes[j].value;
        if v.Str? {
          dict := InsertText(dict, v.text);
        }
        j := j + 1;
      }
      i := i + 1;
    }
  }

  method PutTexts(out: Output, dict: seq<string>)
    modifies out
    ensures out.bytes == old(out.bytes) + WriteMany(Texts(), (), dict)
  {
    hide Blob, Utf8.Encode;
    var i := 0;
    while i < |dict|
      invariant 0 <= i <= |dict|
      invariant out.bytes + WriteMany(Texts(), (), dict[i..]) == old(out.bytes) + WriteMany(Texts(), (), dict)
    {
      WriteNext(Texts(), (), dict, i, out.bytes);
      out.PutBlob(Utf8.Encode(dict[i]));
      i := i + 1;
    }
  }

  method PutTimes(sorted: bool, out: Output, times: seq<i64>)
    modifies out
    ensures out.bytes == old(out.bytes) + WriteMany(Times(sorted), CLOCK, times)
  {
    hide Varint, Zig, Wrap;
    var c := Times(sorted);
    var t, delta := 0, 0;
    var i := 0;
    while i < |times|
      invariant 0 <= i <= |times| && -TWO_63 <= t < TWO_63 && -TWO_63 <= delta < TWO_63
      invariant out.bytes + WriteMany(c, Clock(i == 0, t, delta), times[i..])
             == old(out.bytes) + WriteMany(c, CLOCK, times)
    {
      var at := times[i];
      WriteNext(c, Clock(i == 0, t, delta), times, i, out.bytes);
      var d := Wrap(at - t);
      out.Put(Zig(Wrap(d - delta)));
      t, delta := at, d;
      i := i + 1;
    }
  }

  method PutValue(out: Output, dict: seq<string>, codec: Bincode, s: Running, v: Value) returns (next: Running)
    modifies out
    ensures out.bytes == old(out.bytes) + WriteValue(dict, codec, s, v) && next == NextRunning(s, v)
  {
    hide Varint, Zig, Wrap, Blob, Xor64, IndexOf;
    next := s;
    match v
    case Int(n) =>
      out.Push(0);
      out.Put(Zig(Wrap(n - s.integer)));
      next := s.(integer := n);
    case Float(n) =>
      out.Push(1);
      out.Put(Xor64(n, s.float));
      next := s.(float := n);
    case Str(text) =>
      out.Push(2);
      out.Put(IndexOf(dict, text));
    case Null => out.Push(3);
    case Bool(b) => out.Push(if b then 5 else 4);
    case Other(_) =>
      out.Push(6);
      out.PutBlob(codec.write(v));
  }

  method PutValues(out: Output, dict: seq<string>, codec: Bincode, values: seq<Value>)
    modifies out
    ensures out.bytes == old(out.bytes) + WriteMany(ValueColumn(dict, codec), RUNNING, values)
  {
    hide WriteValue, NextRunning;
    var c := ValueColumn(dict, codec);
    var running := RUNNING;
    var i := 0;
    while i < |values|
      invariant 0 <= i <= |values|
      invariant out.bytes + WriteMany(c, running, values[i..]) == old(out.bytes) + WriteMany(c, RUNNING, values)
    {
      WriteNext(c, running, values, i, out.bytes);
      running := PutValue(out, dict, codec, running, values[i]);
      i := i + 1;
    }
  }

  method EncodeFieldsOut(fields: seq<Field>, codec: Bincode) returns (bytes: seq<byte>)
    ensures bytes == EncodeFields(fields, codec)
  {
    hide WriteMany, Varint, AddFields, Texts, FieldColumn;
    var out := new Output();
    out.Push(1);
    var dict := BuildDictionary(fields);
    out.Put(|dict|);
    PutTexts(out, dict);
    out.Put(|fields|);
    PutFields(out, dict, codec, fields);
    bytes := out.bytes;
  }

  method PutFields(out: Output, dict: seq<string>, codec: Bincode, fields: seq<Field>)
    modifies out
    ensures out.bytes == old(out.bytes) + WriteMany(FieldColumn(dict, codec), Cursor(0), fields)
  {
    hide WriteField;
    var c := FieldColumn(dict, codec);
    var node: u64 := 0;
    var i := 0;
    while i < |fields|
      invariant 0 <= i <= |fields|
      invariant out.bytes + WriteMany(c, Cursor(node), fields[i..]) == old(out.bytes) + WriteMany(c, Cursor(0), fields)
    {
      WriteNext(c, Cursor(node), fields, i, out.bytes);
      PutField(out, dict, codec, node, fields[i]);
      node := fields[i].node;
      i := i + 1;
    }
  }

  method PutField(out: Output, dict: seq<string>, codec: Bincode, node: u64, f: Field)
    modifies out
    ensures out.bytes == old(out.bytes) + WriteField(dict, codec, Cursor(node), f)
  {
    hide Varint, WriteMany, IndexOf, TimesOf, ValuesOf, Times, ValueColumn;
    out.Put((f.node - node) % TWO_64);
    out.Put(IndexOf(dict, f.name));
    out.Put(|f.history.changes|);
    PutTimes(true, out, TimesOf(f.history.changes));
    PutValues(out, dict, codec, ValuesOf(f.history.changes));
  }

  method PutIds(again: Error, beyond: Error, out: Output, ids: seq<u64>)
    modifies out
    ensures out.bytes == old(out.bytes) + WriteMany(Ids(again, beyond), PREVIOUS, ids)
  {
    hide Varint;
    var c := Ids(again, beyond);
    var id: u64 := 0;
    var i := 0;
    while i < |ids|
      invariant 0 <= i <= |ids|
      invariant out.bytes + WriteMany(c, Previous(i == 0, id), ids[i..]) == old(out.bytes) + WriteMany(c, PREVIOUS, ids)
    {
      WriteNext(c, Previous(i == 0, id), ids, i, out.bytes);
      out.Put((ids[i] - id) % TWO_64);
      id := ids[i];
      i := i + 1;
    }
  }

  method PutIndexes(out: Output, kinds: seq<string>, names: seq<string>)
    modifies out
    ensures out.bytes == old(out.bytes) + WriteMany(Indexes(kinds, KindIndex), (), names)
  {
    hide Varint, IndexOf;
    var c := Indexes(kinds, KindIndex);
    var i := 0;
    while i < |names|
      invariant 0 <= i <= |names|
      invariant out.bytes + WriteMany(c, (), names[i..]) == old(out.bytes) + WriteMany(c, (), names)
    {
      WriteNext(c, (), names, i, out.bytes);
      out.Put(IndexOf(kinds, names[i]));
      i := i + 1;
    }
  }

  method PutEnds(out: Output, ends: seq<u64>)
    modifies out
    ensures out.bytes == old(out.bytes) + WriteMany(Ends(), Last(0), ends)
  {
    hide Varint, Zig, Wrap, Signed;
    var previous: i64 := 0;
    var i := 0;
    while i < |ends|
      invariant 0 <= i <= |ends|
      invariant out.bytes + WriteMany(Ends(), Last(previous), ends[i..])
             == old(out.bytes) + WriteMany(Ends(), Last(0), ends)
    {
      WriteNext(Ends(), Last(previous), ends, i, out.bytes);
      var value := Signed(ends[i]);
      out.Put(Zig(Wrap(value - previous)));
      previous := value;
      i := i + 1;
    }
  }

  method PutStops(out: Output, starts: seq<i64>, stops: seq<Option<i64>>)
    requires |starts| == |stops|
    modifies out
    ensures out.bytes == old(out.bytes) + WriteMany(Stops(), starts, stops)
  {
    hide Varint, Zig, Wrap;
    var i := 0;
    while i < |stops|
      invariant 0 <= i <= |stops|
      invariant out.bytes + WriteMany(Stops(), starts[i..], stops[i..])
             == old(out.bytes) + WriteMany(Stops(), starts, stops)
    {
      ghost var before := out.bytes;
      WriteNext(Stops(), starts[i..], stops, i, before);
      assert Rest(starts[i..]) == starts[i + 1..] && Head(starts[i..]) == starts[i];
      out.Push(if stops[i].Some? then 1 else 0);
      if stops[i].Some? {
        var to: int, from: int := stops[i].value, starts[i];
        out.Put(Zig(Wrap(to - from)));
      }
      assert out.bytes == before + WriteStop(starts[i..], stops[i]);
      i := i + 1;
    }
  }

  method PutProps(out: Output, codec: Bincode, props: seq<map<string, Value>>)
    modifies out
    ensures out.bytes == old(out.bytes) + WriteMany(PropsColumn(codec), (), props)
  {
    hide Blob;
    var c := PropsColumn(codec);
    var i := 0;
    while i < |props|
      invariant 0 <= i <= |props|
      invariant out.bytes + WriteMany(c, (), props[i..]) == old(out.bytes) + WriteMany(c, (), props)
    {
      WriteNext(c, (), props, i, out.bytes);
      if props[i] == map[] {
        out.PutBlob([]);
      } else {
        out.PutBlob(codec.writeProps(props[i]));
      }
      i := i + 1;
    }
  }

  method PutColumns(out: Output, rels: seq<RelHistory>, kinds: seq<string>, codec: Bincode)
    modifies out
    ensures out.bytes == old(out.bytes) + WriteColumns(rels, kinds, codec)
  {
    hide WriteMany, ColumnsOf, Ids, Indexes, Ends, Times, Stops, PropsColumn;
    var c := ColumnsOf(rels);
    PutIds(DuplicateRelationship, RelationshipOverflow, out, c.ids);
    PutIndexes(out, kinds, c.kinds);
    PutEnds(out, c.froms);
    PutEnds(out, c.tos);
    PutTimes(false, out, c.starts);
    PutStops(out, c.starts, c.stops);
    PutProps(out, codec, c.props);
  }

  method PutRelationships(out: Output, rels: seq<RelHistory>, codec: Bincode)
    modifies out
    ensures out.bytes == old(out.bytes) + WriteRelationships(rels, codec)
  {
    hide WriteMany, Varint, AddKinds, Texts, WriteColumns;
    out.Put(|rels|);
    var kinds := BuildKinds(rels);
    out.Put(|kinds|);
    PutTexts(out, kinds);
    PutColumns(out, rels, kinds, codec);
  }

  method BuildKinds(rels: seq<RelHistory>) returns (kinds: seq<string>)
    ensures kinds == AddKinds([], rels)
    ensures TextsAscend(kinds) && forall t :: t in kinds <==> exists r <- rels :: r.rel.kind == t
  {
    AddKindsAdds([], rels);
    NothingAscends();
    hide InsertText, TextsAscend;
    kinds := [];
    var i := 0;
    while i < |rels|
      invariant 0 <= i <= |rels|
      invariant AddKinds(kinds, rels[i..]) == AddKinds([], rels)
    {
      assert rels[i..][1..] == rels[i + 1..];
      kinds := InsertText(kinds, rels[i].rel.kind);
      i := i + 1;
    }
  }

  method PutLifetimes(out: Output, dates: seq<Lifetime>)
    modifies out
    ensures out.bytes == old(out.bytes) + WriteLifetimes(dates)
  {
    hide WriteMany, Varint, Ids, Times, Nodes, Dates;
    out.Put(|dates|);
    PutIds(DuplicateLifetime, LifetimeOverflow, out, Nodes(dates));
    PutTimes(false, out, Dates(dates));
  }

  method EncodeOut(h: Histories, codec: Bincode) returns (bytes: seq<byte>)
    ensures bytes == Encode(h, codec)
  {
    hide EncodeFields, WriteRelationships, WriteLifetimes, Blob;
    var fields := EncodeFieldsOut(h.fields, codec);
    if h.relationships == [] && h.appears == [] && h.ends == [] {
      return fields;
    }
    var out := new Output();
    out.Push(2);
    out.PutBlob(fields);
    PutRelationships(out, h.relationships, codec);
    PutLifetimes(out, h.appears);
    PutLifetimes(out, h.ends);
    bytes := out.bytes;
  }

  // ----- reading -----

  method GetText(input: Input) returns (r: Result<string, Error>)
    modifies input
    ensures r == match ReadText(old(input.rest)) case Ok(s) => Ok(s.value) case Err(e) => Err(e)
    ensures r.Ok? ==> input.rest == ReadText(old(input.rest)).value.rest
  {
    hide ReadBlob, Utf8.Decode;
    var b :- input.TakeBlob();
    match Utf8.Decode(b)
    case None => r := Err(NotText);
    case Some(s) => r := Ok(s);
  }

  lemma {:induction false} NextText(n: nat, b: seq<byte>, texts: seq<string>)
    requires n > 0
    ensures ReadMany(Texts(), (), n, b, texts) ==
      match ReadText(b)
      case Err(e) => Err(e)
      case Ok(step) => ReadMany(Texts(), (), n - 1, step.rest, texts + [step.value])
  {
    hide ReadText, ReadMany;
    ReadNext(Texts(), (), n, b, texts);
    if ReadText(b).Ok? {
      assert ReadText(b).value.state == ();
    }
  }

  method GetTexts(input: Input, n: nat) returns (r: Result<seq<string>, Error>)
    modifies input
    ensures r == Seen(ReadMany(Texts(), (), n, old(input.rest), []))
    ensures r.Ok? ==> input.rest == ReadMany(Texts(), (), n, old(input.rest), []).value.rest
  {
    hide ReadText, ReadMany, Texts;
    var texts: seq<string> := [];
    var i := 0;
    while i < n
      invariant 0 <= i <= n
      invariant ReadMany(Texts(), (), n - i, input.rest, texts) == ReadMany(Texts(), (), n, old(input.rest), [])
    {
      NextText(n - i, input.rest, texts);
      var s :- GetText(input);
      texts := texts + [s];
      i := i + 1;
    }
    ReadNothing(Texts(), (), input.rest, texts);
    r := Ok(texts);
  }

  method GetTimes(sorted: bool, input: Input, n: nat) returns (r: Result<seq<i64>, Error>)
    modifies input
    ensures r == Seen(ReadMany(Times(sorted), CLOCK, n, old(input.rest), []))
    ensures r.Ok? ==> input.rest == ReadMany(Times(sorted), CLOCK, n, old(input.rest), []).value.rest
  {
    hide Var, Unzig, Wrap;
    var c := Times(sorted);
    var t: i64, delta: i64 := 0, 0;
    var times: seq<i64> := [];
    var i := 0;
    while i < n
      invariant 0 <= i <= n
      invariant ReadMany(c, Clock(i == 0, t, delta), n - i, input.rest, times)
             == ReadMany(c, CLOCK, n, old(input.rest), [])
    {
      var v :- input.ReadVar();
      delta := Wrap(delta + Unzig(v));
      var next := Wrap(t + delta);
      if sorted && i > 0 && next <= t {
        return Err(UnsortedTimes);
      }
      t := next;
      times := times + [t];
      i := i + 1;
    }
    r := Ok(times);
  }

  method GetIndex(input: Input, dict: seq<string>, wrong: Error) returns (r: Result<string, Error>)
    modifies input
    ensures r == match ReadIndex(dict, wrong, old(input.rest)) case Ok(s) => Ok(s.value) case Err(e) => Err(e)
    ensures r.Ok? ==> input.rest == ReadIndex(dict, wrong, old(input.rest)).value.rest
  {
    hide Var;
    var i :- input.ReadVar();
    if i < |dict| {
      return Ok(dict[i]);
    }
    r := Err(wrong);
  }

  method GetValue(input: Input, dict: seq<string>, codec: Bincode, s: Running)
    returns (r: Result<(Value, Running), Error>)
    modifies input
    ensures r == match ReadValue(dict, codec, s, old(input.rest))
                 case Ok(step) => Ok((step.value, step.state))
                 case Err(e) => Err(e)
    ensures r.Ok? ==> input.rest == ReadValue(dict, codec, s, old(input.rest)).value.rest
  {
    hide Var, ReadBlob, Wrap, Unzig, Xor64, ReadIndex;
    var tag :- input.Byte();
    match tag
    case 0 =>
      var v :- input.ReadVar();
      var n := Wrap(s.integer + Unzig(v));
      r := Ok((Int(n), s.(integer := n)));
    case 1 =>
      var v :- input.ReadVar();
      var n := Xor64(s.float, v);
      r := Ok((Float(n), s.(float := n)));
    case 2 =>
      var text :- GetIndex(input, dict, DictionaryIndex);
      r := Ok((Str(text), s));
    case 3 => r := Ok((Null, s));
    case 4 => r := Ok((Bool(false), s));
    case 5 => r := Ok((Bool(true), s));
    case 6 =>
      var b :- input.TakeBlob();
      match codec.read(b) {
        case None => r := Err(Undecodable);
        case Some(v) => r := Ok((v, s));
      }
    case _ => r := Err(InvalidValueTag);
  }

  // A later change goes to the end.
  lemma {:induction false} InsertAtEnd(changes: seq<Change>, at: i64, v: Value)
    requires forall i :: 0 <= i < |changes| ==> changes[i].time < at
    ensures InsertChange(changes, at, v) == changes + [Change(at, v)]
  {
    AllBelow(changes, at);
  }

  lemma {:induction false} AllBelow(changes: seq<Change>, at: i64)
    requires forall i :: 0 <= i < |changes| ==> changes[i].time < at
    ensures Below(changes, at) == |changes|
    decreases |changes|
  {
    if changes != [] {
      AllBelow(changes[..|changes| - 1], at);
    }
  }

  lemma {:induction false} ChangesGrow(times: seq<i64>, i: nat, values: seq<Value>, v: Value)
    requires 0 < i < |times| && |values| == i
    requires forall j, k :: 0 <= j < k < |times| ==> times[j] < times[k]
    ensures Inserted(Derived(ChangesOf(times[..i], values)), times[i], v)
            == Derived(ChangesOf(times[..i + 1], values + [v]))
  {
    hide BoundsOf;
    var changes := ChangesOf(times[..i], values);
    assert changes + [Change(times[i], v)] == ChangesOf(times[..i + 1], values + [v]);
    InsertAtEnd(changes, times[i], v);
  }

  lemma {:induction false} FirstChange(times: seq<i64>, v: Value)
    requires times != []
    ensures NewHistory(times[0], v) == Derived(ChangesOf(times[..1], [v]))
  {
    assert ChangesOf(times[..1], [v]) == [Change(times[0], v)];
    NewIsWellFormed(times[0], v);
  }

  // The times that come before the values, in order.
  lemma {:induction false} TimesReadAscend(n: nat, b: seq<byte>)
    requires ReadMany(Times(true), CLOCK, n, b, []).Ok?
    ensures var times := ReadMany(Times(true), CLOCK, n, b, []).value.value;
      |times| == n && forall j, k :: 0 <= j < k < |times| ==> times[j] < times[k]
  {
    hide ReadMany, Times, Honest, Allowed;
    TimesAreHonest(true);
    ColumnRead(Times(true), CLOCK, n, b);
    AllowedTimesAscend(ReadMany(Times(true), CLOCK, n, b, []).value.value, CLOCK);
  }

  method GetValues(input: Input, dict: seq<string>, codec: Bincode, times: seq<i64>)
    returns (r: Result<History, Error>)
    requires times != [] && forall j, k :: 0 <= j < k < |times| ==> times[j] < times[k]
    modifies input
    ensures var values := ReadMany(ValueColumn(dict, codec), RUNNING, |times|, old(input.rest), []);
      && (values.Err? ==> r == Err(values.error))
      && (values.Ok? ==> |values.value.value| == |times| && input.rest == values.value.rest
                         && r == Ok(Derived(ChangesOf(times, values.value.value))))
  {
    hide ReadValue, ChangesOf, Derived, Inserted, WellFormed;
    var c := ValueColumn(dict, codec);
    var running := RUNNING;
    var i, n := 0, |times|;
    ghost var values: seq<Value> := [];
    var history: Option<Track> := None;
    while i < n
      invariant 0 <= i <= n && |values| == i && (i == 0 <==> history.None?)
      invariant ReadMany(c, running, n - i, input.rest, values) == ReadMany(c, RUNNING, n, old(input.rest), [])
      invariant history.Some? ==> fresh(history.value) && history.value.Now() == Derived(ChangesOf(times[..i], values))
                                  && WellFormed(history.value.Now())
    {
      var read :- GetValue(input, dict, codec, running);
      var (v, next) := read;
      running := next;
      match history {
        case None =>
          FirstChange(times, v);
          assert values + [v] == [v];
          var track := new Track(times[i], v);
          history := Some(track);
        case Some(track) =>
          ChangesGrow(times, i, values, v);
          track.Insert(times[i], v);
      }
      values := values + [v];
      i := i + 1;
    }
    assert times[..n] == times;
    var h := history.value.Read();
    r := Ok(h);
  }

  method GetHistory(input: Input, dict: seq<string>, codec: Bincode) returns (r: Result<History, Error>)
    modifies input
    ensures r == Seen(ReadHistory(dict, codec, old(input.rest)))
    ensures r.Ok? ==> input.rest == ReadHistory(dict, codec, old(input.rest)).value.rest
  {
    hide ReadMany, Times, ValueColumn, Derived, ChangesOf, Len;
    var count :- input.ReadLen();
    if count == 0 {
      return Err(EmptyHistory);
    }
    ghost var before := input.rest;
    var times :- GetTimes(true, input, count);
    TimesReadAscend(count, before);
    r := GetValues(input, dict, codec, times);
  }

  method GetField(input: Input, dict: seq<string>, codec: Bincode, node: u64) returns (r: Result<Field, Error>)
    modifies input
    ensures var o := ReadField(dict, codec, Cursor(node), old(input.rest));
      && (o.Err? ==> r == Err(o.error))
      && (o.Ok? ==> r == Ok(o.value.value) && input.rest == o.value.rest && o.value.state == Cursor(o.value.value.node))
  {
    hide Var, ReadIndex, ReadHistory;
    var delta :- input.ReadVar();
    if node + delta >= TWO_64 {
      return Err(NodeOverflow);
    }
    var name :- GetIndex(input, dict, DictionaryIndex);
    var history :- GetHistory(input, dict, codec);
    r := Ok(Field(node + delta, name, history));
  }

  method GetFields(input: Input, dict: seq<string>, codec: Bincode, n: nat) returns (r: Result<seq<Field>, Error>)
    modifies input
    ensures r == Seen(ReadFields(dict, codec, Cursor(0), n, old(input.rest), []))
    ensures r.Ok? ==> input.rest == ReadFields(dict, codec, Cursor(0), n, old(input.rest), []).value.rest
  {
    hide ReadField, InsertField;
    var out: seq<Field> := [];
    var node: u64 := 0;
    var i := 0;
    while i < n
      invariant 0 <= i <= n
      invariant ReadFields(dict, codec, Cursor(node), n - i, input.rest, out)
             == ReadFields(dict, codec, Cursor(0), n, old(input.rest), [])
    {
      var f :- GetField(input, dict, codec, node);
      node := f.node;
      match InsertField(out, f)
      case None => return Err(DuplicateKey);
      case Some(fields) => out := fields;
      i := i + 1;
    }
    r := Ok(out);
  }

  method DecodeFieldsIn(bytes: seq<byte>, codec: Bincode) returns (r: Result<seq<Field>, Error>)
    ensures r == DecodeFields(bytes, codec)
  {
    hide ReadMany, Texts, ReadFields, Len;
    var input := new Input(bytes);
    var version :- input.TakeBytes(1);
    if version != [1] {
      return Err(UnsupportedVersion);
    }
    var n :- input.ReadLen();
    var dict :- GetTexts(input, n);
    n :- input.ReadLen();
    var out :- GetFields(input, dict, codec, n);
    if input.rest != [] {
      return Err(TrailingBytes);
    }
    r := Ok(out);
  }

  // The next id read, in a column that has read up to `id`.
  lemma {:induction false} NextId(
      again: Error, beyond: Error, start: bool, id: u64, n: nat, b: seq<byte>, ids: seq<u64>)
    requires n > 0
    ensures var c := Ids(again, beyond);
      ReadMany(c, Previous(start, id), n, b, ids) ==
      match Var(b)
      case Err(e) => Err(e)
      case Ok(p) =>
        if !start && p.value == 0 then Err(again)
        else if id + p.value >= TWO_64 then Err(beyond)
        else ReadMany(c, Previous(false, id + p.value), n - 1, p.rest, ids + [id + p.value])
  {
    hide Var, ReadMany;
    ReadNext(Ids(again, beyond), Previous(start, id), n, b, ids);
  }

  method GetIds(again: Error, beyond: Error, input: Input, n: nat) returns (r: Result<seq<u64>, Error>)
    modifies input
    ensures r == Seen(ReadMany(Ids(again, beyond), PREVIOUS, n, old(input.rest), []))
    ensures r.Ok? ==> input.rest == ReadMany(Ids(again, beyond), PREVIOUS, n, old(input.rest), []).value.rest
  {
    hide Var, ReadMany, Ids;
    var c := Ids(again, beyond);
    ghost var whole := ReadMany(c, PREVIOUS, n, input.rest, []);
    var ids: seq<u64> := [];
    var id: u64 := 0;
    var i := 0;
    while i < n
      invariant 0 <= i <= n
      invariant ReadMany(c, Previous(i == 0, id), n - i, input.rest, ids) == whole
    {
      NextId(again, beyond, i == 0, id, n - i, input.rest, ids);
      var delta :- input.ReadVar();
      if i > 0 && delta == 0 {
        return Err(again);
      }
      if id + delta >= TWO_64 {
        return Err(beyond);
      }
      id := id + delta;
      ids := ids + [id];
      i := i + 1;
    }
    ReadNothing(c, Previous(i == 0, id), input.rest, ids);
    r := Ok(ids);
  }

  method GetIndexes(input: Input, kinds: seq<string>, n: nat) returns (r: Result<seq<string>, Error>)
    modifies input
    ensures r == Seen(ReadMany(Indexes(kinds, KindIndex), (), n, old(input.rest), []))
    ensures r.Ok? ==> input.rest == ReadMany(Indexes(kinds, KindIndex), (), n, old(input.rest), []).value.rest
  {
    hide ReadIndex;
    var c := Indexes(kinds, KindIndex);
    var names: seq<string> := [];
    var i := 0;
    while i < n
      invariant 0 <= i <= n
      invariant ReadMany(c, (), n - i, input.rest, names) == ReadMany(c, (), n, old(input.rest), [])
    {
      var name :- GetIndex(input, kinds, KindIndex);
      names := names + [name];
      i := i + 1;
    }
    r := Ok(names);
  }

  method GetEnds(input: Input, n: nat) returns (r: Result<seq<u64>, Error>)
    modifies input
    ensures r == Seen(ReadMany(Ends(), Last(0), n, old(input.rest), []))
    ensures r.Ok? ==> input.rest == ReadMany(Ends(), Last(0), n, old(input.rest), []).value.rest
  {
    hide Var, Wrap, Unzig, Unsigned;
    var ends: seq<u64> := [];
    var previous: i64 := 0;
    var i := 0;
    while i < n
      invariant 0 <= i <= n
      invariant ReadMany(Ends(), Last(previous), n - i, input.rest, ends)
             == ReadMany(Ends(), Last(0), n, old(input.rest), [])
    {
      var v :- input.ReadVar();
      previous := Wrap(previous + Unzig(v));
      ends := ends + [Unsigned(previous)];
      i := i + 1;
    }
    r := Ok(ends);
  }

  method GetStop(input: Input, from: i64) returns (r: Result<Option<i64>, Error>)
    modifies input
    ensures forall starts: seq<i64> | starts != [] && starts[0] == from ::
      var o := ReadStop(starts, old(input.rest));
      && (o.Err? ==> r == Err(o.error))
      && (o.Ok? ==> r == Ok(o.value.value) && input.rest == o.value.rest && o.value.state == starts[1..])
  {
    hide Var, Wrap, Unzig;
    var tag :- input.Byte();
    match tag
    case 0 => r := Ok(None);
    case 1 =>
      var v :- input.ReadVar();
      var to := Wrap(from + Unzig(v));
      if to < from {
        return Err(ReversedInterval);
      }
      r := Ok(Some(to));
    case _ => r := Err(InvalidIntervalTag);
  }

  method GetStops(input: Input, starts: seq<i64>) returns (r: Result<seq<Option<i64>>, Error>)
    modifies input
    ensures r == Seen(ReadMany(Stops(), starts, |starts|, old(input.rest), []))
    ensures r.Ok? ==> input.rest == ReadMany(Stops(), starts, |starts|, old(input.rest), []).value.rest
  {
    hide ReadStop;
    var n := |starts|;
    var stops: seq<Option<i64>> := [];
    var i := 0;
    while i < n
      invariant 0 <= i <= n
      invariant ReadMany(Stops(), starts[i..], n - i, input.rest, stops)
             == ReadMany(Stops(), starts, n, old(input.rest), [])
    {
      assert starts[i..] != [] && starts[i..][0] == starts[i] && starts[i..][1..] == starts[i + 1..];
      var stop :- GetStop(input, starts[i]);
      stops := stops + [stop];
      i := i + 1;
    }
    r := Ok(stops);
  }

  method GetProps(input: Input, codec: Bincode, n: nat) returns (r: Result<seq<map<string, Value>>, Error>)
    modifies input
    ensures r == Seen(ReadMany(PropsColumn(codec), (), n, old(input.rest), []))
    ensures r.Ok? ==> input.rest == ReadMany(PropsColumn(codec), (), n, old(input.rest), []).value.rest
  {
    hide ReadBlob;
    var c := PropsColumn(codec);
    var all: seq<map<string, Value>> := [];
    var i := 0;
    while i < n
      invariant 0 <= i <= n
      invariant ReadMany(c, (), n - i, input.rest, all) == ReadMany(c, (), n, old(input.rest), [])
    {
      var b :- input.TakeBlob();
      var props: map<string, Value> := map[];
      if b != [] {
        match codec.readProps(b)
        case None => return Err(Undecodable);
        case Some(read) => props := read;
      }
      all := all + [props];
      i := i + 1;
    }
    r := Ok(all);
  }

  method GetColumns(input: Input, n: nat, kinds: seq<string>, codec: Bincode) returns (r: Result<Columns, Error>)
    modifies input
    ensures r == Seen(ReadColumns(n, kinds, codec, old(input.rest)))
    ensures r.Ok? ==> input.rest == ReadColumns(n, kinds, codec, old(input.rest)).value.rest && r.value.Even(n)
  {
    hide ReadMany, Ids, Indexes, Ends, Times, Stops, PropsColumn;
    var ids :- GetIds(DuplicateRelationship, RelationshipOverflow, input, n);
    var names :- GetIndexes(input, kinds, n);
    var froms :- GetEnds(input, n);
    var tos :- GetEnds(input, n);
    ghost var before := input.rest;
    var starts :- GetTimes(false, input, n);
    CountRead(Times(false), CLOCK, n, before, []);
    var stops :- GetStops(input, starts);
    var props :- GetProps(input, codec, n);
    r := Ok(Columns(ids, names, froms, tos, starts, stops, props));
  }

  method GetRelationships(input: Input, codec: Bincode) returns (r: Result<seq<RelHistory>, Error>)
    modifies input
    ensures r == Seen(ReadRelationships(old(input.rest), codec))
    ensures r.Ok? ==> input.rest == ReadRelationships(old(input.rest), codec).value.rest
  {
    hide Len, ReadMany, Texts, ReadColumns, Assembled;
    var n :- input.ReadLen();
    var count :- input.ReadLen();
    var kinds :- GetTexts(input, count);
    var c :- GetColumns(input, n, kinds, codec);
    r := Ok(Assembled(c, n));
  }

  method GetLifetimes(input: Input) returns (r: Result<seq<Lifetime>, Error>)
    modifies input
    ensures r == Seen(ReadLifetimes(old(input.rest)))
    ensures r.Ok? ==> input.rest == ReadLifetimes(old(input.rest)).value.rest
  {
    hide Len, ReadMany, Ids, Times, Paired;
    var n :- input.ReadLen();
    ghost var before := input.rest;
    var ids :- GetIds(DuplicateLifetime, LifetimeOverflow, input, n);
    CountRead(Ids(DuplicateLifetime, LifetimeOverflow), PREVIOUS, n, before, []);
    before := input.rest;
    var dates :- GetTimes(false, input, n);
    CountRead(Times(false), CLOCK, n, before, []);
    r := Ok(Paired(ids, dates));
  }

  method DecodeIn(bytes: seq<byte>, codec: Bincode) returns (r: Result<Histories, Error>)
    ensures r == Decode(bytes, codec)
  {
    hide DecodeFields, ReadBlob, ReadRelationships, ReadLifetimes;
    if bytes != [] && bytes[0] == 1 {
      var fields :- DecodeFieldsIn(bytes, codec);
      return Ok(Histories(fields, [], [], []));
    }
    var input := new Input(bytes);
    var version :- input.TakeBytes(1);
    if version != [2] {
      return Err(UnsupportedVersion);
    }
    var blob :- input.TakeBlob();
    var fields :- DecodeFieldsIn(blob, codec);
    var rels :- GetRelationships(input, codec);
    var appears :- GetLifetimes(input);
    var ends :- GetLifetimes(input);
    if input.rest != [] {
      return Err(TrailingBytes);
    }
    r := Ok(Histories(fields, rels, appears, ends));
  }
}
