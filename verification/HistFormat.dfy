/** What the HIST encoding of a graph's histories is (`encode_fields`,
    `decode_fields`, `encode` and `decode` in zega/src/history.rs).

    The program's ordered maps are their listings in key order, which is all
    that equality and iteration see of them. */
module HistFormat {
  import opened HistBytes
  import opened HistColumns
  import opened Machine
  import opened ValidTime
  import opened Values
  import opened Wrappers
  import Utf8

  // ----- what is stored -----

  datatype Field = Field(node: u64, name: string, history: History)

  datatype Relationship = Relationship(id: u64, kind: string, from: u64, to: u64, props: map<string, Value>)

  datatype RelHistory = RelHistory(rel: Relationship, from: i64, to: Option<i64>)

  datatype Lifetime = Lifetime(node: u64, at: i64)

  datatype Histories = Histories(
    fields: seq<Field>,
    relationships: seq<RelHistory>,
    appears: seq<Lifetime>,
    ends: seq<Lifetime>)

  function CompareKeys(a: Field, b: Field): Ordering {
    if a.node != b.node then CompareInts(a.node, b.node) else CompareText(a.name, b.name)
  }

  ghost predicate FieldsAscend(fields: seq<Field>) {
    forall i, j :: 0 <= i < j < |fields| ==> CompareKeys(fields[i], fields[j]) == Less
  }

  ghost predicate IdsAscend(ids: seq<u64>) {
    forall i, j :: 0 <= i < j < |ids| ==> ids[i] < ids[j]
  }

  function RelIds(rels: seq<RelHistory>): (ids: seq<u64>)
    ensures |ids| == |rels|
  {
    seq(|rels|, i requires 0 <= i < |rels| => rels[i].rel.id)
  }

  function Nodes(dates: seq<Lifetime>): (ids: seq<u64>)
    ensures |ids| == |dates|
  {
    seq(|dates|, i requires 0 <= i < |dates| => dates[i].node)
  }

  predicate InOrder(r: RelHistory) {
    r.to.Some? ==> r.from <= r.to.value
  }

  // What the engine keeps of the histories it holds.
  ghost predicate WellFormedHistories(h: Histories) {
    && FieldsAscend(h.fields)
    && (forall i :: 0 <= i < |h.fields| ==> WellFormed(h.fields[i].history))
    && IdsAscend(RelIds(h.relationships))
    && (forall i :: 0 <= i < |h.relationships| ==> InOrder(h.relationships[i]))
    && IdsAscend(Nodes(h.appears))
    && IdsAscend(Nodes(h.ends))
  }

  // ----- bincode, which this model does not open -----

  datatype Bincode = Bincode(
    write: Value -> seq<byte>,
    read: seq<byte> -> Option<Value>,
    writeProps: map<string, Value> -> seq<byte>,
    readProps: seq<byte> -> Option<map<string, Value>>)

  ghost predicate Lawful(codec: Bincode) {
    && (forall v: Value :: v.Other? ==> codec.read(codec.write(v)) == Some(v))
    && (forall props :: codec.writeProps(props) != [] && codec.readProps(codec.writeProps(props)) == Some(props))
  }

  // ----- the columns -----

  function ReadText(b: seq<byte>): Result<Step<(), string>, Error> {
    var p :- ReadBlob(b);
    match Utf8.Decode(p.value)
    case None => Err(NotText)
    case Some(s) => Ok(Step((), s, p.rest))
  }

  function Texts(): Column<(), string> {
    Column((s, b) => ReadText(b), (s, x) => Blob(Utf8.Encode(x)), (s, x) => (), (s, x) => true)
  }

  // Times, as differences of differences.
  datatype Clock = Clock(start: bool, t: i64, delta: i64)

  const CLOCK := Clock(true, 0, 0)

  function ReadTime(sorted: bool, s: Clock, b: seq<byte>): Result<Step<Clock, i64>, Error> {
    var p :- Var(b);
    var delta := Wrap(s.delta + Unzig(p.value));
    var next := Wrap(s.t + delta);
    if sorted && !s.start && next <= s.t then Err(UnsortedTimes)
    else Ok(Step(Clock(false, next, delta), next, p.rest))
  }

  function WriteTime(s: Clock, at: i64): seq<byte> {
    Varint(Zig(Wrap(Wrap(at - s.t) - s.delta)))
  }

  function Times(sorted: bool): Column<Clock, i64> {
    Column(
      (s, b) => ReadTime(sorted, s, b),
      (s, at) => WriteTime(s, at),
      (s: Clock, at: i64) => Clock(false, at, Wrap(at - s.t)),
      (s: Clock, at: i64) => !sorted || s.start || s.t < at)
  }

  function IndexOf(dict: seq<string>, s: string): (i: nat)
    ensures s in dict ==> i < |dict| && dict[i] == s
    ensures i <= |dict|
  {
    if dict == [] || dict[0] == s then 0 else 1 + IndexOf(dict[1..], s)
  }

  function ReadIndex(dict: seq<string>, wrong: Error, b: seq<byte>): Result<Step<(), string>, Error> {
    var p :- Var(b);
    if p.value < |dict| then Ok(Step((), dict[p.value], p.rest)) else Err(wrong)
  }

  function Indexes(dict: seq<string>, wrong: Error): Column<(), string> {
    Column((s, b) => ReadIndex(dict, wrong, b), (s, x) => Varint(IndexOf(dict, x)), (s, x) => (), (s, x) => x in dict)
  }

  // Values: a tag, then what the tag needs.
  datatype Running = Running(integer: i64, float: u64)

  const RUNNING := Running(0, 0)

  function ReadValue(dict: seq<string>, codec: Bincode, s: Running, b: seq<byte>): Result<Step<Running, Value>, Error> {
    if b == [] then Err(Truncated)
    else
      var rest := b[1..];
      match b[0]
      case 0 =>
        var p :- Var(rest);
        var n := Wrap(s.integer + Unzig(p.value));
        Ok(Step(s.(integer := n), Int(n), p.rest))
      case 1 =>
        var p :- Var(rest);
        var n := Xor64(s.float, p.value);
        Ok(Step(s.(float := n), Float(n), p.rest))
      case 2 =>
        var step :- ReadIndex(dict, DictionaryIndex, rest);
        Ok(Step(s, Str(step.value), step.rest))
      case 3 => Ok(Step(s, Null, rest))
      case 4 => Ok(Step(s, Bool(false), rest))
      case 5 => Ok(Step(s, Bool(true), rest))
      case 6 =>
        var p :- ReadBlob(rest);
        (match codec.read(p.value)
         case None => Err(Undecodable)
         case Some(v) => Ok(Step(s, v, p.rest)))
      case _ => Err(InvalidValueTag)
  }

  function WriteValue(dict: seq<string>, codec: Bincode, s: Running, v: Value): seq<byte> {
    match v
    case Int(n) => [0] + Varint(Zig(Wrap(n - s.integer)))
    case Float(bits) => [1] + Varint(Xor64(bits, s.float))
    case Str(text) => [2] + Varint(IndexOf(dict, text))
    case Null => [3]
    case Bool(b) => [if b then 5 else 4]
    case Other(_) => [6] + Blob(codec.write(v))
  }

  function NextRunning(s: Running, v: Value): Running {
    match v
    case Int(n) => s.(integer := n)
    case Float(bits) => s.(float := bits)
    case _ => s
  }

  function ValueColumn(dict: seq<string>, codec: Bincode): Column<Running, Value> {
    Column(
      (s, b) => ReadValue(dict, codec, s, b),
      (s, v) => WriteValue(dict, codec, s, v),
      (s, v) => NextRunning(s, v),
      (s: Running, v: Value) => |dict| < TWO_64 && (v.Str? ==> v.text in dict))
  }

  // Ids in ascending order, as differences.
  datatype Previous = Previous(start: bool, id: u64)

  const PREVIOUS := Previous(true, 0)

  function ReadId(again: Error, beyond: Error, s: Previous, b: seq<byte>): Result<Step<Previous, u64>, Error> {
    var p :- Var(b);
    if !s.start && p.value == 0 then Err(again)
    else if s.id + p.value >= TWO_64 then Err(beyond)
    else Ok(Step(Previous(false, s.id + p.value), s.id + p.value, p.rest))
  }

  function Ids(again: Error, beyond: Error): Column<Previous, u64> {
    Column(
      (s, b) => ReadId(again, beyond, s, b),
      (s: Previous, id: u64) => Varint((id - s.id) % TWO_64),
      (s: Previous, id: u64) => Previous(false, id),
      (s: Previous, id: u64) => s.id < id || (s.start && s.id == id))
  }

  // Relationship ends, as signed differences of the words they are.
  datatype Last = Last(word: i64)

  function ReadEnd(s: Last, b: seq<byte>): Result<Step<Last, u64>, Error> {
    var p :- Var(b);
    var n := Wrap(s.word + Unzig(p.value));
    Ok(Step(Last(n), Unsigned(n), p.rest))
  }

  function Ends(): Column<Last, u64> {
    Column(
      (s, b) => ReadEnd(s, b),
      (s: Last, x: u64) => Varint(Zig(Wrap(Signed(x) - s.word))),
      (s: Last, x: u64) => Last(Signed(x)),
      (s, x) => true)
  }

  // Where intervals stop, after where they start; the state is the starts left.
  function Head(starts: seq<i64>): i64 {
    if starts == [] then 0 else starts[0]
  }

  function Rest(starts: seq<i64>): seq<i64> {
    if starts == [] then [] else starts[1..]
  }

  function ReadStop(starts: seq<i64>, b: seq<byte>): Result<Step<seq<i64>, Option<i64>>, Error> {
    if b == [] then Err(Truncated)
    else if b[0] == 0 then Ok(Step(Rest(starts), None, b[1..]))
    else if b[0] == 1 then
      var p :- Var(b[1..]);
      var to := Wrap(Head(starts) + Unzig(p.value));
      if to < Head(starts) then Err(ReversedInterval) else Ok(Step(Rest(starts), Some(to), p.rest))
    else Err(InvalidIntervalTag)
  }

  function WriteStop(starts: seq<i64>, to: Option<i64>): seq<byte> {
    match to
    case None => [0]
    case Some(t) => [1] + Varint(Zig(Wrap(t - Head(starts))))
  }

  function Stops(): Column<seq<i64>, Option<i64>> {
    Column((s, b) => ReadStop(s, b), (s, to) => WriteStop(s, to), (s, to) => Rest(s),
      (s: seq<i64>, to: Option<i64>) => to.Some? ==> Head(s) <= to.value)
  }

  function ReadProps(codec: Bincode, b: seq<byte>): Result<Step<(), map<string, Value>>, Error> {
    var p :- ReadBlob(b);
    if p.value == [] then Ok(Step((), map[], p.rest))
    else
      match codec.readProps(p.value)
      case None => Err(Undecodable)
      case Some(props) => Ok(Step((), props, p.rest))
  }

  function WriteProps(codec: Bincode, props: map<string, Value>): seq<byte> {
    Blob(if props == map[] then [] else codec.writeProps(props))
  }

  function PropsColumn(codec: Bincode): Column<(), map<string, Value>> {
    Column(
      (s, b) => ReadProps(codec, b),
      (s, props) => WriteProps(codec, props),
      (s, props) => (),
      (s, props) => true)
  }

  // ----- one field's history, and all of them -----

  function ChangesOf(times: seq<i64>, values: seq<Value>): (changes: seq<Change>)
    requires |times| == |values|
    ensures |changes| == |times|
  {
    seq(|times|, i requires 0 <= i < |times| => Change(times[i], values[i]))
  }

  function TimesOf(changes: seq<Change>): seq<i64> {
    seq(|changes|, i requires 0 <= i < |changes| => changes[i].time)
  }

  function ValuesOf(changes: seq<Change>): seq<Value> {
    seq(|changes|, i requires 0 <= i < |changes| => changes[i].value)
  }

  function ReadHistory(dict: seq<string>, codec: Bincode, b: seq<byte>): Outcome<History> {
    var count :- Len(b);
    if count.value == 0 then Err(EmptyHistory)
    else
      var times :- ReadMany(Times(true), CLOCK, count.value, count.rest, []);
      var values :- ReadMany(ValueColumn(dict, codec), RUNNING, count.value, times.rest, []);
      CountRead(Times(true), CLOCK, count.value, count.rest, []);
      CountRead(ValueColumn(dict, codec), RUNNING, count.value, times.rest, []);
      Ok(Parsed(Derived(ChangesOf(times.value, values.value)), values.rest))
  }

  function WriteHistory(dict: seq<string>, codec: Bincode, h: History): seq<byte> {
    Varint(|h.changes|)
    + WriteMany(Times(true), CLOCK, TimesOf(h.changes))
    + WriteMany(ValueColumn(dict, codec), RUNNING, ValuesOf(h.changes))
  }

  predicate KnownText(dict: seq<string>, v: Value) {
    v.Str? ==> v.text in dict
  }

  predicate KnowsField(dict: seq<string>, f: Field) {
    f.name in dict && forall c <- f.history.changes :: KnownText(dict, c.value)
  }

  datatype Cursor = Cursor(node: u64)

  function ReadField(dict: seq<string>, codec: Bincode, s: Cursor, b: seq<byte>): Result<Step<Cursor, Field>, Error> {
    var delta :- Var(b);
    var node := s.node + delta.value;
    if node >= TWO_64 then Err(NodeOverflow)
    else
      var name :- ReadIndex(dict, DictionaryIndex, delta.rest);
      var history :- ReadHistory(dict, codec, name.rest);
      Ok(Step(Cursor(node), Field(node, name.value, history.value), history.rest))
  }

  function WriteField(dict: seq<string>, codec: Bincode, s: Cursor, f: Field): seq<byte> {
    Varint((f.node - s.node) % TWO_64) + Varint(IndexOf(dict, f.name)) + WriteHistory(dict, codec, f.history)
  }

  function FieldColumn(dict: seq<string>, codec: Bincode): Column<Cursor, Field> {
    Column(
      (s, b) => ReadField(dict, codec, s, b),
      (s, f) => WriteField(dict, codec, s, f),
      (s: Cursor, f: Field) => Cursor(f.node),
      (s: Cursor, f: Field) =>
        s.node <= f.node && |dict| < TWO_64 && WellFormed(f.history) && KnowsField(dict, f))
  }

  // A map insertion that reports an entry it would replace.
  function InsertField(fields: seq<Field>, f: Field): Option<seq<Field>> {
    if fields == [] then Some([f])
    else
      match CompareKeys(f, fields[0])
      case Less => Some([f] + fields)
      case Equal => None
      case Greater =>
        (match InsertField(fields[1..], f)
         case None => None
         case Some(rest) => Some([fields[0]] + rest))
  }

  function ReadFields(dict: seq<string>, codec: Bincode, s: Cursor, n: nat, b: seq<byte>, done: seq<Field>)
      : Outcome<seq<Field>>
    decreases n
  {
    if n == 0 then Ok(Parsed(done, b))
    else
      var step :- ReadField(dict, codec, s, b);
      match InsertField(done, step.value)
      case None => Err(DuplicateKey)
      case Some(fields) => ReadFields(dict, codec, step.state, n - 1, step.rest, fields)
  }

  // ----- the dictionary: every name and every string value, in order -----

  function InsertText(dict: seq<string>, s: string): seq<string> {
    if dict == [] then [s]
    else
      match CompareText(s, dict[0])
      case Less => [s] + dict
      case Equal => dict
      case Greater => [dict[0]] + InsertText(dict[1..], s)
  }

  function AddTexts(dict: seq<string>, changes: seq<Change>): seq<string>
    decreases |changes|
  {
    if changes == [] then dict
    else
      var v := changes[0].value;
      AddTexts(if v.Str? then InsertText(dict, v.text) else dict, changes[1..])
  }

  function AddFields(dict: seq<string>, fields: seq<Field>): seq<string>
    decreases |fields|
  {
    if fields == [] then dict
    else AddFields(AddTexts(InsertText(dict, fields[0].name), fields[0].history.changes), fields[1..])
  }

  function AddKinds(dict: seq<string>, rels: seq<RelHistory>): seq<string>
    decreases |rels|
  {
    if rels == [] then dict else AddKinds(InsertText(dict, rels[0].rel.kind), rels[1..])
  }

  // ----- version 1: fields only -----

  function EncodeFields(fields: seq<Field>, codec: Bincode): seq<byte> {
    var dict := AddFields([], fields);
    [1] + Varint(|dict|) + WriteMany(Texts(), (), dict)
    + Varint(|fields|) + WriteMany(FieldColumn(dict, codec), Cursor(0), fields)
  }

  function DecodeFields(b: seq<byte>, codec: Bincode): Result<seq<Field>, Error> {
    var version :- Take(b, 1);
    if version.value != [1] then Err(UnsupportedVersion)
    else
      var texts :- Len(version.rest);
      var dict :- ReadMany(Texts(), (), texts.value, texts.rest, []);
      var count :- Len(dict.rest);
      var fields :- ReadFields(dict.value, codec, Cursor(0), count.value, count.rest, []);
      if fields.rest != [] then Err(TrailingBytes) else Ok(fields.value)
  }

  // ----- version 2: fields, relationships and lifetimes -----

  // The columns of a list of relationships, all of one length.
  datatype Columns = Columns(
    ids: seq<u64>,
    kinds: seq<string>,
    froms: seq<u64>,
    tos: seq<u64>,
    starts: seq<i64>,
    stops: seq<Option<i64>>,
    props: seq<map<string, Value>>)
  {
    predicate Even(n: nat) {
      && |ids| == n && |kinds| == n && |froms| == n && |tos| == n
      && |starts| == n && |stops| == n && |props| == n
    }
  }

  function ColumnsOf(rels: seq<RelHistory>): (c: Columns)
    ensures c.Even(|rels|)
  {
    var n := |rels|;
    Columns(
      RelIds(rels),
      seq(n, i requires 0 <= i < n => rels[i].rel.kind),
      seq(n, i requires 0 <= i < n => rels[i].rel.from),
      seq(n, i requires 0 <= i < n => rels[i].rel.to),
      seq(n, i requires 0 <= i < n => rels[i].from),
      seq(n, i requires 0 <= i < n => rels[i].to),
      seq(n, i requires 0 <= i < n => rels[i].rel.props))
  }

  function WriteColumns(rels: seq<RelHistory>, kinds: seq<string>, codec: Bincode): seq<byte> {
    var c := ColumnsOf(rels);
    WriteMany(Ids(DuplicateRelationship, RelationshipOverflow), PREVIOUS, c.ids)
    + WriteMany(Indexes(kinds, KindIndex), (), c.kinds)
    + WriteMany(Ends(), Last(0), c.froms) + WriteMany(Ends(), Last(0), c.tos)
    + WriteMany(Times(false), CLOCK, c.starts)
    + WriteMany(Stops(), c.starts, c.stops)
    + WriteMany(PropsColumn(codec), (), c.props)
  }

  function WriteRelationships(rels: seq<RelHistory>, codec: Bincode): seq<byte> {
    var kinds := AddKinds([], rels);
    Varint(|rels|) + Varint(|kinds|) + WriteMany(Texts(), (), kinds) + WriteColumns(rels, kinds, codec)
  }

  function Assembled(c: Columns, n: nat): seq<RelHistory>
    requires c.Even(n)
  {
    seq(n, i requires 0 <= i < n =>
      RelHistory(Relationship(c.ids[i], c.kinds[i], c.froms[i], c.tos[i], c.props[i]), c.starts[i], c.stops[i]))
  }

  function ReadRelationships(b: seq<byte>, codec: Bincode): Outcome<seq<RelHistory>> {
    var count :- Len(b);
    var n := count.value;
    var texts :- Len(count.rest);
    var kinds :- ReadMany(Texts(), (), texts.value, texts.rest, []);
    var c :- ReadColumns(n, kinds.value, codec, kinds.rest);
    Ok(Parsed(Assembled(c.value, n), c.rest))
  }

  function ReadColumns(n: nat, kinds: seq<string>, codec: Bincode, b: seq<byte>): (r: Outcome<Columns>)
    ensures r.Ok? ==> r.value.value.Even(n)
  {
    var idColumn := Ids(DuplicateRelationship, RelationshipOverflow);
    var ids :- ReadMany(idColumn, PREVIOUS, n, b, []);
    CountRead(idColumn, PREVIOUS, n, b, []);
    var names :- ReadMany(Indexes(kinds, KindIndex), (), n, ids.rest, []);
    CountRead(Indexes(kinds, KindIndex), (), n, ids.rest, []);
    var froms :- ReadMany(Ends(), Last(0), n, names.rest, []);
    CountRead(Ends(), Last(0), n, names.rest, []);
    var tos :- ReadMany(Ends(), Last(0), n, froms.rest, []);
    CountRead(Ends(), Last(0), n, froms.rest, []);
    var starts :- ReadMany(Times(false), CLOCK, n, tos.rest, []);
    CountRead(Times(false), CLOCK, n, tos.rest, []);
    var stops :- ReadMany(Stops(), starts.value, n, starts.rest, []);
    CountRead(Stops(), starts.value, n, starts.rest, []);
    var props :- ReadMany(PropsColumn(codec), (), n, stops.rest, []);
    CountRead(PropsColumn(codec), (), n, stops.rest, []);
    Ok(Parsed(
      Columns(ids.value, names.value, froms.value, tos.value, starts.value, stops.value, props.value),
      props.rest))
  }

  function Dates(lifetimes: seq<Lifetime>): seq<i64> {
    seq(|lifetimes|, i requires 0 <= i < |lifetimes| => lifetimes[i].at)
  }

  function WriteLifetimes(dates: seq<Lifetime>): seq<byte> {
    Varint(|dates|) + WriteMany(Ids(DuplicateLifetime, LifetimeOverflow), PREVIOUS, Nodes(dates))
    + WriteMany(Times(false), CLOCK, Dates(dates))
  }

  function Paired(ids: seq<u64>, dates: seq<i64>): (lifetimes: seq<Lifetime>)
    requires |ids| == |dates|
    ensures |lifetimes| == |ids|
  {
    seq(|ids|, i requires 0 <= i < |ids| => Lifetime(ids[i], dates[i]))
  }

  function ReadLifetimes(b: seq<byte>): Outcome<seq<Lifetime>> {
    var count :- Len(b);
    var n := count.value;
    var ids :- ReadMany(Ids(DuplicateLifetime, LifetimeOverflow), PREVIOUS, n, count.rest, []);
    CountRead(Ids(DuplicateLifetime, LifetimeOverflow), PREVIOUS, n, count.rest, []);
    var dates :- ReadMany(Times(false), CLOCK, n, ids.rest, []);
    CountRead(Times(false), CLOCK, n, ids.rest, []);
    Ok(Parsed(Paired(ids.value, dates.value), dates.rest))
  }

  function Encode(h: Histories, codec: Bincode): seq<byte> {
    var fields := EncodeFields(h.fields, codec);
    if h.relationships == [] && h.appears == [] && h.ends == [] then fields
    else
      [2] + Blob(fields) + WriteRelationships(h.relationships, codec)
      + WriteLifetimes(h.appears) + WriteLifetimes(h.ends)
  }

  function Decode(b: seq<byte>, codec: Bincode): Result<Histories, Error> {
    if b != [] && b[0] == 1 then
      var fields :- DecodeFields(b, codec);
      Ok(Histories(fields, [], [], []))
    else
      var version :- Take(b, 1);
      if version.value != [2] then Err(UnsupportedVersion)
      else
        var blob :- ReadBlob(version.rest);
        var fields :- DecodeFields(blob.value, codec);
        var rels :- ReadRelationships(blob.rest, codec);
        var appears :- ReadLifetimes(rels.rest);
        var ends :- ReadLifetimes(appears.rest);
        if ends.rest != [] then Err(TrailingBytes)
        else Ok(Histories(fields, rels.value, appears.value, ends.value))
  }
}
