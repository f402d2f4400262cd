/** Keys of a range index, intervals of them, and the comparisons they stand
    for (`Key`, `number` and `Interval` in zega/src/index.rs; `cmp_value`,
    `value_to_json` and `range_interval` in zega/src/v2.rs). */
module Ranges {
  import opened Machine
  import opened Values
  import opened Wrappers

  // ----- numbers -----

  // The cast of an integer to the nearest float.
  type Nearest = int -> u64

  ghost predicate MonotoneCast(near: Nearest) {
    && (forall n :: !IsNaN(near(n)))
    && (forall m, n :: m <= n ==> FloatRank(near(m)) <= FloatRank(near(n)))
  }

  const MINUS_INFINITY: u64 := TWO_63 + INFINITY_BITS
  const INFINITY: u64 := INFINITY_BITS

  predicate IsFinite(bits: u64) {
    Magnitude(bits) < INFINITY_BITS
  }

  // NaN is in no index, and both zeros are one key.
  function Number(bits: u64): Option<u64> {
    if IsNaN(bits) then None else if FloatRank(bits) == 0 then Some(0) else Some(bits)
  }

  predicate IsNumber(bits: u64) {
    Number(bits) == Some(bits)
  }

  // `f64::total_cmp`: as the bits order, negative numbers backwards.
  function TotalRank(bits: u64): int {
    if bits < TWO_63 then bits else -(Magnitude(bits) as int) - 1
  }

  datatype Key = Num(bits: u64) | Text(s: string)

  predicate IsKey(k: Key) {
    k.Num? ==> IsNumber(k.bits)
  }

  // Numbers before strings.
  function CompareKeys(a: Key, b: Key): Ordering {
    match (a, b)
    case (Num(x), Num(y)) => CompareInts(TotalRank(x), TotalRank(y))
    case (Num(_), Text(_)) => Less
    case (Text(_), Num(_)) => Greater
    case (Text(x), Text(y)) => CompareText(x, y)
  }

  // Keys compare as the numbers and strings they are, and only equal keys tie.
  lemma {:induction false} KeyOrderLaws(a: Key, b: Key, c: Key)
    requires IsKey(a) && IsKey(b) && IsKey(c)
    ensures CompareKeys(a, b) == Equal <==> a == b
    ensures CompareKeys(a, b) == Less <==> CompareKeys(b, a) == Greater
    ensures CompareKeys(a, b) == Less && CompareKeys(b, c) == Less ==> CompareKeys(a, c) == Less
    ensures a.Num? && b.Num? ==> CompareKeys(a, b) == CompareInts(FloatRank(a.bits), FloatRank(b.bits))
  {
    if a.Text? && b.Text? {
      TextOrderLaws(a.s, b.s, if c.Text? then c.s else "");
    }
  }

  function KeyOf(near: Nearest, v: Value): Option<Key> {
    match v
    case Int(n) =>
      (match Number(near(n))
       case None => None
       case Some(bits) => Some(Num(bits)))
    case Float(bits) =>
      (match Number(bits)
       case None => None
       case Some(b) => Some(Num(b)))
    case Str(s) => Some(Text(s))
    case _ => None
  }

  lemma {:induction false} NumberIsNumber(bits: u64)
    ensures match Number(bits)
      case None => IsNaN(bits)
      case Some(b) => IsNumber(b) && FloatRank(b) == FloatRank(bits)
  {
  }

  // ----- values as the executor compares them -----

  datatype Json =
    | JNull
    | JBool(b: bool)
      // An integer of i64 or u64, or a finite float.
    | Whole(n: int)
    | Real(bits: u64)
    | JText(s: string)
    | JOther(payload: seq<byte>)

  // No float that is not finite is ever a JSON number.
  function ToJson(v: Value): Json {
    match v
    case Int(n) => Whole(n)
    case Float(bits) => if IsFinite(bits) then Real(bits) else JNull
    case Str(s) => JText(s)
    case Bool(b) => JBool(b)
    case Null => JNull
    case Other(payload) => JOther(payload)
  }

  predicate IsJson(j: Json) {
    && (j.Whole? ==> -TWO_63 <= j.n < TWO_64)
    && (j.Real? ==> IsFinite(j.bits))
  }

  // Numbers are equal as integers or as floats, never one as the other.
  predicate JsonEqual(a: Json, b: Json) {
    if a.Real? && b.Real? then FloatRank(a.bits) == FloatRank(b.bits) else a == b
  }

  function AsInt(j: Json): Option<int> {
    if j.Whole? && j.n < TWO_63 then Some(j.n) else None
  }

  function AsFloat(near: Nearest, j: Json): Option<u64> {
    match j
    case Whole(n) => Some(near(n))
    case Real(bits) => Some(bits)
    case _ => None
  }

  function CompareJson(near: Nearest, a: Json, b: Json): Option<Ordering> {
    if AsInt(a).Some? && AsInt(b).Some? then Some(CompareInts(AsInt(a).value, AsInt(b).value))
    else if AsFloat(near, a).Some? && AsFloat(near, b).Some? then
      Some(CompareInts(FloatRank(AsFloat(near, a).value), FloatRank(AsFloat(near, b).value)))
    else if a.JText? && b.JText? then Some(CompareText(a.s, b.s))
    else None
  }

  datatype Pred = Eq(value: Json) | Gt(value: Json) | Gte(value: Json) | Lt(value: Json) | Lte(value: Json)

  function Read(prop: Option<Value>): Json {
    match prop
    case None => JNull
    case Some(v) => ToJson(v)
  }

  predicate Satisfies(near: Nearest, prop: Option<Value>, pred: Pred) {
    Meets(near, Read(prop), pred)
  }

  predicate Meets(near: Nearest, j: Json, pred: Pred) {
    var order := CompareJson(near, j, pred.value);
    match pred
    case Eq(value) => JsonEqual(j, value)
    case Gt(_) => order == Some(Greater)
    case Gte(_) => order == Some(Greater) || order == Some(Equal)
    case Lt(_) => order == Some(Less)
    case Lte(_) => order == Some(Less) || order == Some(Equal)
  }

  // ----- intervals -----

  datatype Interval =
    | Empty
    | Nums(low: Option<u64>, high: Option<u64>)
    | Texts(from: Option<string>, to: Option<string>)

  function NumberOf(near: Nearest, j: Json): Option<u64> {
    if AsInt(j).Some? then Number(near(AsInt(j).value))
    else if AsFloat(near, j).Some? then Number(AsFloat(near, j).value)
    else None
  }

  function Exactly(near: Nearest, j: Json): Option<Interval> {
    if NumberOf(near, j).Some? then Some(Nums(NumberOf(near, j), NumberOf(near, j)))
    else if j.JText? then Some(Texts(Some(j.s), Some(j.s)))
    else None
  }

  function AtLeast(near: Nearest, j: Json): Option<Interval> {
    if NumberOf(near, j).Some? then Some(Nums(NumberOf(near, j), None))
    else if j.JText? then Some(Texts(Some(j.s), None))
    else None
  }

  function AtMostOf(near: Nearest, j: Json): Option<Interval> {
    if NumberOf(near, j).Some? then Some(Nums(None, NumberOf(near, j)))
    else if j.JText? then Some(Texts(None, Some(j.s)))
    else None
  }

  function IntervalOf(near: Nearest, pred: Pred): Option<Interval> {
    match pred
    case Eq(j) => Exactly(near, j)
    case Gt(j) => AtLeast(near, j)
    case Gte(j) => AtLeast(near, j)
    case Lt(j) => AtMostOf(near, j)
    case Lte(j) => AtMostOf(near, j)
  }

  predicate AtMostText(a: string, b: string) {
    CompareText(a, b) != Greater
  }

  // What an interval means.
  predicate In(i: Interval, k: Key) {
    match i
    case Empty => false
    case Nums(low, high) =>
      && k.Num?
      && (low.Some? ==> FloatRank(low.value) <= FloatRank(k.bits))
      && (high.Some? ==> FloatRank(k.bits) <= FloatRank(high.value))
    case Texts(from, to) =>
      && k.Text?
      && (from.Some? ==> AtMostText(from.value, k.s))
      && (to.Some? ==> AtMostText(k.s, to.value))
  }

  predicate IsInterval(i: Interval) {
    i.Nums? ==> (i.low.Some? ==> IsNumber(i.low.value)) && (i.high.Some? ==> IsNumber(i.high.value))
  }

  function Higher(a: Option<u64>, b: Option<u64>): Option<u64> {
    if a.Some? && b.Some? then (if FloatRank(a.value) >= FloatRank(b.value) then a else b)
    else if a.Some? then a else b
  }

  function Lower(a: Option<u64>, b: Option<u64>): Option<u64> {
    if a.Some? && b.Some? then (if FloatRank(a.value) <= FloatRank(b.value) then a else b)
    else if a.Some? then a else b
  }

  function Later(a: Option<string>, b: Option<string>): Option<string> {
    if a.Some? && b.Some? then (if CompareText(a.value, b.value) != Less then a else b)
    else if a.Some? then a else b
  }

  function Earlier(a: Option<string>, b: Option<string>): Option<string> {
    if a.Some? && b.Some? then (if CompareText(a.value, b.value) != Greater then a else b)
    else if a.Some? then a else b
  }

  function Intersect(a: Interval, b: Interval): Interval {
    match (a, b)
    case (Nums(low, high), Nums(l, h)) => Nums(Higher(low, l), Lower(high, h))
    case (Texts(from, to), Texts(f, t)) => Texts(Later(from, f), Earlier(to, t))
    case _ => Empty
  }

  lemma {:induction false} TextIsTransitive(a: string, b: string, c: string)
    ensures AtMostText(a, b) && AtMostText(b, c) ==> AtMostText(a, c)
    ensures AtMostText(a, b) || AtMostText(b, a)
  {
    hide CompareText;
    TextOrderLaws(a, b, c);
    TextOrderLaws(b, c, a);
    TextOrderLaws(c, a, b);
    TextOrderLaws(a, c, b);
    TextOrderLaws(b, a, c);
    TextOrderLaws(c, b, a);
  }

  // An intersection holds exactly what both hold; a number and a string bound
  // together hold nothing.
  lemma {:induction false} IntersectionIsExact(a: Interval, b: Interval, k: Key)
    ensures In(Intersect(a, b), k) <==> In(a, k) && In(b, k)
  {
    hide CompareText, AtMostText;
    if a.Texts? && b.Texts? && k.Text? {
      LaterIsBoth(a.from, b.from, k.s);
      EarlierIsBoth(a.to, b.to, k.s);
    }
  }

  lemma {:induction false} LaterIsBoth(a: Option<string>, b: Option<string>, s: string)
    ensures (Later(a, b).Some? ==> AtMostText(Later(a, b).value, s)) <==>
      (a.Some? ==> AtMostText(a.value, s)) && (b.Some? ==> AtMostText(b.value, s))
  {
    hide CompareText;
    if a.Some? && b.Some? {
      TextOrderLaws(a.value, b.value, s);
      TextIsTransitive(a.value, b.value, s);
      TextIsTransitive(b.value, a.value, s);
    }
  }

  lemma {:induction false} EarlierIsBoth(a: Option<string>, b: Option<string>, s: string)
    ensures (Earlier(a, b).Some? ==> AtMostText(s, Earlier(a, b).value)) <==>
      (a.Some? ==> AtMostText(s, a.value)) && (b.Some? ==> AtMostText(s, b.value))
  {
    hide CompareText;
    if a.Some? && b.Some? {
      TextOrderLaws(b.value, a.value, s);
      TextOrderLaws(a.value, b.value, s);
      TextIsTransitive(s, a.value, b.value);
      TextIsTransitive(s, b.value, a.value);
    }
  }

  // ----- the bounds a tree is searched with -----

  datatype KeyRange = KeyRange(low: Key, high: Option<Key>)

  // None when nothing can lie between: a tree must not be asked for that.
  function BoundsOf(i: Interval): Option<KeyRange> {
    match i
    case Empty => None
    case Nums(low, high) =>
      var r := KeyRange(Num(if low.Some? then low.value else MINUS_INFINITY),
                        Some(Num(if high.Some? then high.value else INFINITY)));
      if CompareKeys(r.low, r.high.value) == Greater then None else Some(r)
    case Texts(from, to) =>
      var low := Text(if from.Some? then from.value else "");
      if to.Some? && CompareKeys(low, Text(to.value)) == Greater then None
      else Some(KeyRange(low, if to.Some? then Some(Text(to.value)) else None))
  }

  predicate Between(r: KeyRange, k: Key) {
    CompareKeys(r.low, k) != Greater && (r.high.Some? ==> CompareKeys(k, r.high.value) != Greater)
  }

  lemma {:induction false} EmptyTextIsFirst(s: string)
    ensures AtMostText("", s)
  {
  }

  // The bounds select exactly the keys of the interval.
  lemma {:induction false} BoundsAreExact(i: Interval, k: Key)
    requires IsInterval(i) && IsKey(k)
    ensures In(i, k) <==> BoundsOf(i).Some? && Between(BoundsOf(i).value, k)
  {
    hide CompareText;
    if i.Texts? && k.Text? {
      EmptyTextIsFirst(k.s);
      var from := if i.from.Some? then i.from.value else "";
      var to := if i.to.Some? then i.to.value else k.s;
      TextIsTransitive(from, k.s, to);
      TextOrderLaws(from, to, k.s);
    }
  }

  // ----- an index answers what a scan would -----

  lemma {:induction false} SatisfiedTextIsIn(near: Nearest, prop: Option<Value>, pred: Pred)
    requires pred.value.JText? && Satisfies(near, prop, pred)
    ensures prop.Some? && prop.value.Str? && In(IntervalOf(near, pred).value, Text(prop.value.text))
  {
    hide CompareText;
    var s, r := pred.value.s, Read(prop);
    if r.JText? {
      TextOrderLaws(s, r.s, s);
      TextOrderLaws(r.s, s, r.s);
    }
  }

  lemma {:induction false} SatisfiedNumberIsIn(near: Nearest, prop: Option<Value>, pred: Pred)
    requires MonotoneCast(near) && IsJson(pred.value) && !pred.value.JText? && IntervalOf(near, pred).Some?
    requires Satisfies(near, prop, pred)
    ensures prop.Some? && KeyOf(near, prop.value).Some?
    ensures In(IntervalOf(near, pred).value, KeyOf(near, prop.value).value)
  {
    hide CompareText, Number;
    NumberIsNumber(AsFloat(near, pred.value).value);
    if prop.Some? && prop.value.Int? {
      NumberIsNumber(near(prop.value.n));
    } else if prop.Some? && prop.value.Float? {
      NumberIsNumber(prop.value.bits);
    }
  }

  // A field that satisfies a condition has a key in the condition's interval,
  // although an integer is keyed by the float nearest to it.
  lemma {:induction false} SatisfiedIsIn(near: Nearest, prop: Option<Value>, pred: Pred)
    requires MonotoneCast(near) && IsJson(pred.value) && IntervalOf(near, pred).Some?
    requires Satisfies(near, prop, pred)
    ensures prop.Some? && KeyOf(near, prop.value).Some?
    ensures In(IntervalOf(near, pred).value, KeyOf(near, prop.value).value)
  {
    hide IntervalOf, In, Satisfies;
    if pred.value.JText? {
      SatisfiedTextIsIn(near, prop, pred);
    } else {
      SatisfiedNumberIsIn(near, prop, pred);
    }
  }

  lemma {:induction false} IntervalsAreIntervals(near: Nearest, pred: Pred)
    requires IntervalOf(near, pred).Some?
    ensures IsInterval(IntervalOf(near, pred).value)
  {
  }

  lemma {:induction false} IntersectionIsAnInterval(a: Interval, b: Interval)
    requires IsInterval(a) && IsInterval(b)
    ensures IsInterval(Intersect(a, b))
  {
  }

  lemma {:induction false} KeysAreKeys(near: Nearest, v: Value)
    ensures KeyOf(near, v).Some? ==> IsKey(KeyOf(near, v).value)
  {
  }

  // The interval of several conditions on one field.
  function Joined(near: Nearest, preds: seq<Pred>): Interval
    requires preds != [] && forall p <- preds :: IntervalOf(near, p).Some?
    decreases |preds|
  {
    var last := preds[|preds| - 1];
    if |preds| == 1 then IntervalOf(near, last).value
    else Intersect(Joined(near, preds[..|preds| - 1]), IntervalOf(near, last).value)
  }

  lemma {:induction false} SatisfiedIsInJoined(near: Nearest, prop: Option<Value>, preds: seq<Pred>)
    requires MonotoneCast(near) && preds != []
    requires forall p <- preds :: IntervalOf(near, p).Some? && IsJson(p.value) && Satisfies(near, prop, p)
    ensures prop.Some? && KeyOf(near, prop.value).Some?
    ensures In(Joined(near, preds), KeyOf(near, prop.value).value) && IsInterval(Joined(near, preds))
    decreases |preds|
  {
    hide Intersect, In, IntervalOf, Satisfies, KeyOf, IsInterval;
    var last := preds[|preds| - 1];
    SatisfiedIsIn(near, prop, last);
    IntervalsAreIntervals(near, last);
    if |preds| > 1 {
      var others := preds[..|preds| - 1];
      SatisfiedIsInJoined(near, prop, others);
      IntersectionIsExact(Joined(near, others), IntervalOf(near, last).value, KeyOf(near, prop.value).value);
      IntersectionIsAnInterval(Joined(near, others), IntervalOf(near, last).value);
    }
  }
}
