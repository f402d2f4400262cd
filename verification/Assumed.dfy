/** What the other files assume of bincode, rounding, casts and the rest of the
    query engine can be met.

    bincode is the hard one: an encoding of property maps that can be read back.
    Here is one, in numbers that are written as so many ones and a zero. */
module Assumed {
  import opened HistFormat
  import opened Machine
  import opened Values
  import opened Wrappers
  import F = Filters
  import L = Locations
  import R = Ranges

  // ----- numbers as bytes -----

  function Marks(ns: seq<nat>): seq<byte> {
    if ns == [] then [] else seq(ns[0], i => 1) + [0] + Marks(ns[1..])
  }

  function Counts(b: seq<byte>, n: nat): seq<nat>
    decreases |b|
  {
    if b == [] then [] else if b[0] == 0 then [n] + Counts(b[1..], 0) else Counts(b[1..], n + 1)
  }

  lemma {:induction false} CountsOnes(m: nat, b: seq<byte>, n: nat)
    ensures Counts(seq(m, i => 1) + [0] + b, n) == [n + m] + Counts(b, 0)
    decreases m
  {
    var all: seq<byte> := seq(m, i => 1) + [0] + b;
    if m == 0 {
      assert all == [0] + b;
    } else {
      CountsOnes(m - 1, b, n + 1);
      assert all[1..] == seq(m - 1, i => 1) + [0] + b;
    }
  }

  lemma {:induction false} CountsMarks(ns: seq<nat>)
    ensures Counts(Marks(ns), 0) == ns
    decreases |ns|
  {
    if ns != [] {
      CountsOnes(ns[0], Marks(ns[1..]), 0);
      CountsMarks(ns[1..]);
    }
  }

  // ----- texts, values and property maps as numbers -----

  datatype Taken<T> = Taken(value: T, rest: seq<nat>)

  function OfChars(s: string): seq<nat> {
    if s == "" then [] else [s[0] as nat] + OfChars(s[1..])
  }

  function TakeChars(n: nat, ns: seq<nat>): Option<Taken<string>> {
    if n == 0 then Some(Taken("", ns))
    else if ns == [] || !(ns[0] < 0xD800 || 0xE000 <= ns[0] < 0x11_0000) then None
    else
      match TakeChars(n - 1, ns[1..])
      case None => None
      case Some(t) => Some(Taken([ns[0] as char] + t.value, t.rest))
  }

  lemma {:induction false} CharsReadBack(s: string, rest: seq<nat>)
    ensures TakeChars(|s|, OfChars(s) + rest) == Some(Taken(s, rest))
    decreases |s|
  {
    if s == "" {
      assert OfChars(s) + rest == rest;
    } else {
      CharsReadBack(s[1..], rest);
      assert s == [s[0]] + s[1..];
      assert (OfChars(s) + rest)[1..] == OfChars(s[1..]) + rest;
    }
  }

  function OfText(s: string): (ns: seq<nat>)
    ensures ns != []
  {
    [|s|] + OfChars(s)
  }

  function TakeText(ns: seq<nat>): Option<Taken<string>> {
    if ns == [] then None else TakeChars(ns[0], ns[1..])
  }

  lemma {:induction false} TextReadsBack(s: string, rest: seq<nat>)
    ensures TakeText(OfText(s) + rest) == Some(Taken(s, rest))
  {
    CharsReadBack(s, rest);
    assert (OfText(s) + rest)[1..] == OfChars(s) + rest;
  }

  function OfBytes(b: seq<byte>): seq<nat> {
    seq(|b|, i requires 0 <= i < |b| => b[i] as nat)
  }

  function OfInt(n: i64): nat {
    if n >= 0 then 2 * n else -2 * n - 1
  }

  function ToInt(n: nat): int {
    if n % 2 == 0 then n / 2 else -((n + 1) / 2)
  }

  function OfValue(v: Value): seq<nat> {
    match v
    case Int(n) => [0, OfInt(n)]
    case Float(bits) => [1, bits]
    case Str(s) => [2] + OfText(s)
    case Bool(b) => [3, if b then 1 else 0]
    case Null => [4, 0]
    case Other(payload) => [5, |payload|] + OfBytes(payload)
  }

  function TakeBytes(n: nat, ns: seq<nat>): Option<Taken<Value>> {
    if n <= |ns| && forall i | 0 <= i < n :: ns[i] < 256
    then Some(Taken(Other(seq(n, i requires 0 <= i < n => ns[i] as byte)), ns[n..])) else None
  }

  function TakeValue(ns: seq<nat>): Option<Taken<Value>> {
    if |ns| < 2 then None
    else if ns[0] == 0 && -TWO_63 <= ToInt(ns[1]) < TWO_63 then Some(Taken(Int(ToInt(ns[1])), ns[2..]))
    else if ns[0] == 1 && ns[1] < TWO_64 then Some(Taken(Float(ns[1]), ns[2..]))
    else if ns[0] == 2 then
      (match TakeText(ns[1..])
       case None => None
       case Some(t) => Some(Taken(Str(t.value), t.rest)))
    else if ns[0] == 3 then Some(Taken(Bool(ns[1] == 1), ns[2..]))
    else if ns[0] == 4 then Some(Taken(Null, ns[2..]))
    else TakeBytes(ns[1], ns[2..])
  }

  lemma {:induction false} TextValueReadsBack(s: string, rest: seq<nat>)
    ensures TakeValue(OfValue(Str(s)) + rest) == Some(Taken(Str(s), rest))
  {
    hide TakeText, OfText;
    TextReadsBack(s, rest);
    var ns := OfValue(Str(s)) + rest;
    assert ns == [2] + (OfText(s) + rest);
    assert ns[0] == 2 && ns[1..] == OfText(s) + rest;
  }

  lemma {:induction false} BytesReadBack(b: seq<byte>, rest: seq<nat>)
    ensures TakeBytes(|b|, OfBytes(b) + rest) == Some(Taken(Other(b), rest))
  {
    var n, ns := |b|, OfBytes(b) + rest;
    assert ns[n..] == rest;
    assert forall i | 0 <= i < n :: ns[i] == b[i];
    assert TakeBytes(n, ns).value.value.payload == b;
  }

  lemma {:induction false} PayloadReadsBack(payload: seq<byte>, rest: seq<nat>)
    ensures TakeValue(OfValue(Other(payload)) + rest) == Some(Taken(Other(payload), rest))
  {
    hide TakeBytes, OfBytes, TakeText;
    BytesReadBack(payload, rest);
    var ns := OfValue(Other(payload)) + rest;
    assert ns == [5, |payload|] + (OfBytes(payload) + rest);
    assert ns[0] == 5 && ns[1] == |payload| && ns[2..] == OfBytes(payload) + rest;
  }

  lemma {:induction false} ValueReadsBack(v: Value, rest: seq<nat>)
    ensures TakeValue(OfValue(v) + rest) == Some(Taken(v, rest))
  {
    hide TakeText, TakeBytes, OfText, OfBytes;
    match v
    case Str(s) => TextValueReadsBack(s, rest);
    case Other(payload) => PayloadReadsBack(payload, rest);
    case _ =>
      var ns := OfValue(v) + rest;
      assert |OfValue(v)| == 2 && ns[0] == OfValue(v)[0] && ns[1] == OfValue(v)[1] && ns[2..] == rest;
  }

  // In any order of the names: reading does not depend on it.
  ghost function OfProps(props: map<string, Value>): seq<nat>
    decreases |props|
  {
    if props == map[] then [0]
    else
      var k :| k in props;
      [1] + (OfText(k) + (OfValue(props[k]) + OfProps(props - {k})))
  }

  function TakeProps(ns: seq<nat>): Option<map<string, Value>>
    decreases |ns|
  {
    if ns == [] then None
    else if ns[0] == 0 then Some(map[])
    else
      match TakeText(ns[1..])
      case None => None
      case Some(k) =>
        match TakeValue(k.rest)
        case None => None
        case Some(v) =>
          if |v.rest| >= |ns| then None
          else
            match TakeProps(v.rest)
            case None => None
            case Some(m) => Some(m[k.value := v.value])
  }

  lemma {:induction false} PropsReadBack(props: map<string, Value>)
    ensures TakeProps(OfProps(props)) == Some(props)
    decreases |props|
  {
    hide TakeText, OfText, TakeValue, OfValue;
    if props != map[] {
      var k :| k in props && OfProps(props) == [1] + (OfText(k) + (OfValue(props[k]) + OfProps(props - {k})));
      var tail := OfProps(props - {k});
      PropsReadBack(props - {k});
      TextReadsBack(k, OfValue(props[k]) + tail);
      ValueReadsBack(props[k], tail);
      assert OfProps(props)[1..] == OfText(k) + (OfValue(props[k]) + tail);
      assert (props - {k})[k := props[k]] == props;
    }
  }

  // ----- what is assumed -----

  lemma {:induction false} SomeBincodeIsLawful()
    ensures exists codec :: Lawful(codec)
  {
    var read := (b: seq<byte>) =>
      var t := TakeValue(Counts(b, 0)); if t.Some? then Some(t.value.value) else None;
    var codec := Bincode(v => Marks(OfValue(v)), read, props => Marks(OfProps(props)), b => TakeProps(Counts(b, 0)));
    forall v: Value
      ensures codec.read(codec.write(v)) == Some(v)
    {
      CountsMarks(OfValue(v));
      ValueReadsBack(v, []);
      assert OfValue(v) + [] == OfValue(v);
    }
    forall props: map<string, Value>
      ensures codec.writeProps(props) != [] && codec.readProps(codec.writeProps(props)) == Some(props)
    {
      CountsMarks(OfProps(props));
      PropsReadBack(props);
      assert TakeProps([]).None?;
      assert codec.writeProps(props) == Marks(OfProps(props));
    }
    assert Lawful(codec);
  }

  lemma {:induction false} SomeRoundingIsMonotone()
    ensures exists fl :: L.Monotone(fl) && forall width :: L.KeepsLines(fl, width)
  {
    var fl: L.Rounding := x => x;
    assert L.Monotone(fl) && forall width :: L.KeepsLines(fl, width);
  }

  lemma {:induction false} SomeCastIsMonotone()
    ensures exists near :: R.MonotoneCast(near)
  {
    var near: R.Nearest := n => 0;
    assert R.MonotoneCast(near);
  }

  lemma {:induction false} SomeEngineIsLawful()
    ensures exists g :: F.Lawful(g)
  {
    var g := F.Engine(n => 0, x => x, v => None, (t, id) => false, (t, id) => false, (t, id) => false,
                      (ts, id) => false, t => None, t => {});
    assert F.Lawful(g);
  }
}
