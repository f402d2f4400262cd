/** The bytes of the HIST encoding, spelled out for histories with every kind of
    value, a relationship and a lifetime (`encode` in zega/src/history.rs): what
    files that were written before have to look like. */
module HistForm {
  import opened HistBytes
  import opened HistColumns
  import opened HistFormat
  import opened Machine
  import opened ValidTime
  import opened Values
  import opened Wrappers
  import Utf8

  lemma {:induction false} ManyOfFirst<S, T>(c: Column<S, T>, s: S, x: T, xs: seq<T>)
    ensures WriteMany(c, s, [x] + xs) == c.write(s, x) + WriteMany(c, c.next(s, x), xs)
  {
    assert ([x] + xs)[1..] == xs;
  }

  lemma {:induction false} NoneOfMany<S, T>(c: Column<S, T>, s: S)
    ensures WriteMany(c, s, []) == []
  {
  }

  // ----- times: differences of differences, zigzag -----

  lemma {:induction false} TimesOfThree(sorted: bool)
    ensures WriteMany(Times(sorted), CLOCK, [10, 25, 20]) == [20] + ([10] + [39])
  {
    hide WriteMany, WriteTime;
    var c := Times(sorted);
    var all: seq<i64>, two: seq<i64>, one: seq<i64> := [10, 25, 20], [25, 20], [20];
    var first, second := Clock(false, 10, 10), Clock(false, 25, 15);
    TimeForms();
    OneItem(c, second, 20, one);
    ManyOfFirst(c, first, 25, one);
    ManyOfFirst(c, CLOCK, 10, two);
    assert two == [25] + one && all == [10] + two;
    assert Wrap(10) == 10 && Wrap(15) == 15;
    assert c.next(CLOCK, 10) == first && c.next(first, 25) == second;
    assert WriteMany(c, second, one) == [39];
    assert WriteMany(c, first, two) == [10] + [39];
  }

  lemma {:induction false} TimeForms()
    ensures WriteTime(CLOCK, 10) == [20]
    ensures WriteTime(Clock(false, 10, 10), 25) == [10]
    ensures WriteTime(Clock(false, 25, 15), 20) == [39]
  {
    hide Varint;
    SmallVarint(20);
    SmallVarint(10);
    SmallVarint(39);
  }

  lemma {:induction false} SmallVarint(n: nat)
    requires n < 128
    ensures Varint(n) == [n]
  {
  }

  // ----- values: a tag each -----

  lemma {:induction false} ValueForms(dict: seq<string>, codec: Bincode, s: Running, payload: seq<byte>)
    requires dict == ["a", "f"] && |codec.write(Other(payload))| < 128
    ensures WriteValue(dict, codec, Running(0, 0), Int(3)) == [0, 6]
    ensures WriteValue(dict, codec, Running(3, 0), Int(1)) == [0, 3]
    ensures WriteValue(dict, codec, Running(0, 0), Float(5)) == [1, 5]
    ensures WriteValue(dict, codec, Running(0, 5), Float(6)) == [1, 3]
    ensures WriteValue(dict, codec, s, Str("a")) == [2, 0] && WriteValue(dict, codec, s, Str("f")) == [2, 1]
    ensures WriteValue(dict, codec, s, Null) == [3]
    ensures WriteValue(dict, codec, s, Bool(false)) == [4] && WriteValue(dict, codec, s, Bool(true)) == [5]
    ensures var b := codec.write(Other(payload)); WriteValue(dict, codec, s, Other(payload)) == [6, |b|] + b
  {
    SmallXors();
    hide Xor;
    assert dict[0] == "a" && dict[1..] == ["f"];
    assert IndexOf(["f"], "f") == 0;
  }

  lemma {:induction false} SmallXors()
    ensures Xor(5, 0) == 5 && Xor(6, 5) == 3
  {
    assert Xor(0, 0) == 0;
    assert Xor(1, 0) == 1 && Xor(1, 1) == 0;
    assert Xor(2, 0) == 2 && Xor(3, 2) == 1;
  }

  // ----- version 1 -----

  lemma {:induction false} TextForms()
    ensures Utf8.Encode("a") == [97] && Utf8.Encode("f") == [102] && Utf8.Encode("k") == [107]
    ensures Blob([97]) == [1, 97] && Blob([102]) == [1, 102] && Blob([107]) == [1, 107]
  {
    assert "a"[1..] == "" && "f"[1..] == "" && "k"[1..] == "";
    assert Utf8.Encode("") == [];
  }

  lemma {:induction false} DictionaryForm()
    ensures WriteMany(Texts(), (), ["a", "f"]) == [1, 97, 1, 102]
  {
    TextForms();
    hide Utf8.Encode, Blob;
    assert ["a", "f"] == ["a"] + (["f"] + []);
    ManyOfFirst(Texts(), (), "a", ["f"] + []);
    ManyOfFirst(Texts(), (), "f", []);
    NoneOfMany(Texts(), ());
  }

  function OneField(at: i64, v: Value): Field {
    Field(5, "f", NewHistory(at, v))
  }

  lemma {:induction false} OneFieldDictionary()
    ensures AddFields([], [OneField(10, Str("a"))]) == ["a", "f"]
  {
    var f := OneField(10, Str("a"));
    assert InsertText([], "f") == ["f"];
    assert CompareText("a", "f") == Less;
    assert InsertText(["f"], "a") == ["a", "f"];
    assert f.history.changes == [Change(10, Str("a"))] && f.history.changes[1..] == [];
    assert AddTexts(["a", "f"], []) == ["a", "f"];
    assert AddTexts(["f"], f.history.changes) == ["a", "f"];
    assert [f][1..] == [] && AddFields(["a", "f"], []) == ["a", "f"];
  }

  lemma {:induction false} OneHistoryForm(codec: Bincode)
    ensures WriteHistory(["a", "f"], codec, NewHistory(10, Str("a"))) == [1, 20, 2, 0]
  {
    var h := NewHistory(10, Str("a"));
    assert TimesOf(h.changes) == [10] + [] && ValuesOf(h.changes) == [Str("a")] + [];
    ManyOfFirst(Times(true), CLOCK, 10, []);
    NoneOfMany(Times(true), Clock(false, 10, 10));
    var c := ValueColumn(["a", "f"], codec);
    ManyOfFirst(c, RUNNING, Str("a"), []);
    NoneOfMany(c, RUNNING);
    assert WriteTime(CLOCK, 10) == [20];
    assert IndexOf(["a", "f"], "a") == 0;
  }

  // The value "a" of field `f` of node 5, from time 10 on: the version, the
  // dictionary, the number of fields, the node, the field, its changes.
  lemma {:induction false} VersionOneForm(codec: Bincode)
    ensures Encode(Histories([OneField(10, Str("a"))], [], [], []), codec) ==
      [1] + [2] + [1, 97, 1, 102] + [1] + ([5] + [1] + [1, 20, 2, 0])
  {
    hide AddFields, WriteHistory, WriteMany, Varint, OneField;
    var f := OneField(10, Str("a"));
    OneFieldDictionary();
    DictionaryForm();
    FieldForm(codec);
    SmallVarint(2);
    SmallVarint(1);
    OneFieldIsOne(f);
    assert EncodeFields([f], codec) == [1] + [2] + [1, 97, 1, 102] + [1] + ([5] + [1] + [1, 20, 2, 0]);
  }

  lemma {:induction false} OneFieldIsOne(f: Field)
    ensures |[f]| == 1 && |["a", "f"]| == 2
  {
  }

  lemma {:induction false} FieldForm(codec: Bincode)
    ensures WriteMany(FieldColumn(["a", "f"], codec), Cursor(0), [OneField(10, Str("a"))]) == [5] + [1] + [1, 20, 2, 0]
  {
    hide WriteField, WriteMany, OneField;
    var f, dict := OneField(10, Str("a")), ["a", "f"];
    OneItem(FieldColumn(dict, codec), Cursor(0), f, [f]);
    WrittenField(codec);
    assert FieldColumn(dict, codec).write(Cursor(0), f) == WriteField(dict, codec, Cursor(0), f);
  }

  lemma {:induction false} WrittenField(codec: Bincode)
    ensures WriteField(["a", "f"], codec, Cursor(0), OneField(10, Str("a"))) == [5] + [1] + [1, 20, 2, 0]
  {
    hide WriteHistory, Varint, IndexOf;
    OneHistoryForm(codec);
    SmallVarint(5);
    SmallVarint(1);
    IndexOfTheSecond();
  }

  lemma {:induction false} IndexOfTheSecond()
    ensures IndexOf(["a", "f"], "f") == 1
  {
    assert IndexOf(["f"], "f") == 0 && ["a", "f"][1..] == ["f"];
  }

  // ----- version 2 -----

  const ENDED := RelHistory(Relationship(7, "k", 2, 3, map[]), 10, Some(15))

  lemma {:induction false} RelationshipForm(codec: Bincode)
    ensures WriteRelationships([ENDED], codec) ==
      [1] + [1] + [1, 107] + ([7] + [0] + [4] + [6] + [20] + [1, 10] + [0])
  {
    hide AddKinds, WriteMany, WriteColumns, Varint;
    OneKind();
    KindForm();
    ColumnForms(codec);
    SmallVarint(1);
    assert |[ENDED]| == 1 && |["k"]| == 1;
  }

  lemma {:induction false} OneKind()
    ensures AddKinds([], [ENDED]) == ["k"]
  {
    assert InsertText([], "k") == ["k"];
    assert [ENDED][1..] == [] && AddKinds(["k"], []) == ["k"];
  }

  lemma {:induction false} KindForm()
    ensures WriteMany(Texts(), (), ["k"]) == [1, 107]
  {
    hide Utf8.Encode, WriteMany, Blob;
    TextForms();
    OneItem(Texts(), (), "k", ["k"]);
  }

  lemma {:induction false} SmallEnd(x: u64)
    requires x < 64
    ensures Ends().write(Last(0), x) == [2 * x]
  {
    hide Varint;
    assert Signed(x) == x;
    assert Wrap(x) == x;
    assert Zig(x) == 2 * x;
    SmallVarint(2 * x);
  }

  lemma {:induction false} StopForm()
    ensures Stops().write([10], Some(15)) == [1, 10]
  {
    hide Varint;
    assert Wrap(15 - Head([10])) == 5;
    SmallVarint(10);
    assert [1] + [10] == [1, 10];
  }

  lemma {:induction false} ItemForms(codec: Bincode)
    ensures Ids(DuplicateRelationship, RelationshipOverflow).write(PREVIOUS, 7) == [7]
    ensures Indexes(["k"], KindIndex).write((), "k") == [0]
    ensures Times(false).write(CLOCK, 10) == [20]
    ensures PropsColumn(codec).write((), map[]) == [0]
  {
    hide Varint, WriteTime;
    assert IndexOf(["k"], "k") == 0;
    SmallVarint(7);
    SmallVarint(0);
    TimeForms();
    assert Varint(0) + [] == [0];
  }

  lemma {:induction false} ColumnForms(codec: Bincode)
    ensures WriteColumns([ENDED], ["k"], codec) == [7] + [0] + [4] + [6] + [20] + [1, 10] + [0]
  {
    hide WriteMany, Ids, Indexes, Ends, Times, Stops, PropsColumn;
    var c := ColumnsOf([ENDED]);
    assert c.ids == [7] && c.kinds == ["k"] && c.froms == [2] && c.tos == [3];
    assert c.starts == [10] && c.stops == [Some(15)] && c.props == [map[]];
    OneItem(Ids(DuplicateRelationship, RelationshipOverflow), PREVIOUS, 7, c.ids);
    OneItem(Indexes(["k"], KindIndex), (), "k", c.kinds);
    OneItem(Ends(), Last(0), 2, c.froms);
    OneItem(Ends(), Last(0), 3, c.tos);
    OneItem(Times(false), CLOCK, 10, c.starts);
    OneItem(Stops(), c.starts, Some(15), c.stops);
    OneItem(PropsColumn(codec), (), map[], c.props);
    SmallEnd(2);
    SmallEnd(3);
    StopForm();
    ItemForms(codec);
  }

  lemma {:induction false} OneItem<S, T>(c: Column<S, T>, s: S, x: T, xs: seq<T>)
    requires xs == [x]
    ensures WriteMany(c, s, xs) == c.write(s, x)
  {
    assert xs == [x] + [];
    ManyOfFirst(c, s, x, []);
    NoneOfMany(c, c.next(s, x));
  }

  lemma {:induction false} OneLifetimeForm()
    ensures WriteLifetimes([Lifetime(4, 9)]) == [1] + [4] + [18]
  {
    hide WriteMany, Varint;
    var dates := [Lifetime(4, 9)];
    assert Nodes(dates) == [4] && Dates(dates) == [9];
    OneItem(Ids(DuplicateLifetime, LifetimeOverflow), PREVIOUS, 4, Nodes(dates));
    OneItem(Times(false), CLOCK, 9, Dates(dates));
    SmallVarint(1);
    SmallVarint(4);
    SmallVarint(18);
  }

  lemma {:induction false} NoLifetimeForm()
    ensures WriteLifetimes([]) == [0]
  {
    hide WriteMany, Varint;
    var none: seq<Lifetime> := [];
    assert Nodes(none) == [] && Dates(none) == [];
    NoneOfMany(Ids(DuplicateLifetime, LifetimeOverflow), PREVIOUS);
    NoneOfMany(Times(false), CLOCK);
    SmallVarint(0);
    assert [0] + [] + [] == [0];
  }

  lemma {:induction false} NoFieldsForm(codec: Bincode)
    ensures EncodeFields([], codec) == [1, 0, 0]
  {
    hide WriteMany, Varint;
    var none: seq<Field> := [];
    assert AddFields([], none) == [];
    NoneOfMany(Texts(), ());
    NoneOfMany(FieldColumn([], codec), Cursor(0));
    SmallVarint(0);
    assert [1] + [0] + [] + [0] + [] == [1, 0, 0];
  }

  // A `k` from node 2 to node 3 under id 7, there from 10 to 15, and the
  // appearance of node 4 at 9: the version, the fields as a blob of version 1,
  // the relationship's columns, the appearances, the ends.
  lemma {:induction false} VersionTwoForm(codec: Bincode)
    ensures Encode(Histories([], [ENDED], [Lifetime(4, 9)], []), codec) ==
      [2] + ([3] + [1, 0, 0]) + ([1] + [1] + [1, 107] + ([7] + [0] + [4] + [6] + [20] + [1, 10] + [0]))
      + ([1] + [4] + [18]) + [0]
  {
    hide WriteRelationships, WriteLifetimes, EncodeFields, Varint;
    RelationshipForm(codec);
    OneLifetimeForm();
    NoLifetimeForm();
    NoFieldsForm(codec);
    SmallVarint(3);
    assert |[1, 0, 0]| == 3;
  }
}
