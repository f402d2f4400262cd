/** Property values and how the engine compares them (`Value` in
    zega/src/value.rs, `compare` in zega/src/history.rs).

    A float is its 64 bits, as the program stores it; the order below is the one
    IEEE 754 gives those bits, with NaN apart and both zeros equal. */
module Values {
  import opened Machine
  import opened Wrappers

  datatype Value =
    | Int(n: i64)
    | Float(bits: u64)
    | Str(text: string)
    | Bool(b: bool)
    | Null
      // A list, a map, a point or a vector: compared only for equality here.
    | Other(payload: seq<byte>)

  datatype Ordering = Less | Equal | Greater

  const INFINITY_BITS := 0x7FF0_0000_0000_0000

  function Magnitude(bits: u64): nat {
    if bits < TWO_63 then bits else bits - TWO_63
  }

  predicate IsNaN(bits: u64) {
    Magnitude(bits) > INFINITY_BITS
  }

  // Floats other than NaN are ordered as these integers; -0.0 and 0.0 are both 0.
  function FloatRank(bits: u64): int {
    if bits < TWO_63 then bits else -(Magnitude(bits) as int)
  }

  function CompareInts(a: int, b: int): Ordering {
    if a < b then Less else if a == b then Equal else Greater
  }

  // Strings compare by code point, which is how their UTF-8 bytes compare.
  function CompareText(a: string, b: string): Ordering
    decreases |a|
  {
    if a == [] then (if b == [] then Equal else Less)
    else if b == [] then Greater
    else if a[0] != b[0] then (if a[0] < b[0] then Less else Greater)
    else CompareText(a[1..], b[1..])
  }

  function Compare(a: Value, b: Value): Option<Ordering> {
    match (a, b)
    case (Int(x), Int(y)) => Some(CompareInts(x, y))
    case (Float(x), Float(y)) =>
      if IsNaN(x) || IsNaN(y) then None else Some(CompareInts(FloatRank(x), FloatRank(y)))
    case (Str(x), Str(y)) => Some(CompareText(x, y))
    case (Bool(x), Bool(y)) => Some(CompareInts(if x then 1 else 0, if y then 1 else 0))
    case _ => None
  }

  predicate Comparable(a: Value, b: Value) {
    Compare(a, b).Some?
  }

  predicate AtMost(a: Value, b: Value) {
    Comparable(a, b) && Compare(a, b).value != Greater
  }

  // ----- the order laws -----

  lemma {:induction false} TextOrderLaws(a: string, b: string, c: string)
    ensures CompareText(a, b) == Equal <==> a == b
    ensures CompareText(a, b) == Less <==> CompareText(b, a) == Greater
    ensures CompareText(a, b) == Less && CompareText(b, c) == Less ==> CompareText(a, c) == Less
    decreases |a|
  {
    if a != [] && b != [] {
      assert a == [a[0]] + a[1..] && b == [b[0]] + b[1..];
      if c != [] {
        TextOrderLaws(a[1..], b[1..], c[1..]);
      } else {
        TextOrderLaws(a[1..], b[1..], c);
      }
    }
  }

  lemma {:induction false} CompareLaws(a: Value, b: Value, c: Value)
    ensures Comparable(a, b) <==> Comparable(b, a)
    ensures Comparable(a, b) && Comparable(b, c) ==> Comparable(a, c)
    ensures Comparable(a, b) ==> Comparable(a, a)
    ensures Comparable(a, b) ==> (Compare(a, b) == Some(Less) <==> Compare(b, a) == Some(Greater))
    ensures AtMost(a, b) && AtMost(b, c) ==> AtMost(a, c)
    ensures Comparable(a, b) ==> AtMost(a, b) || AtMost(b, a)
  {
    if a.Str? && b.Str? && c.Str? {
      TextOrderLaws(a.text, b.text, c.text);
      TextOrderLaws(b.text, c.text, a.text);
      TextOrderLaws(b.text, a.text, c.text);
    } else if a.Str? && b.Str? {
      TextOrderLaws(a.text, b.text, a.text);
      TextOrderLaws(b.text, a.text, b.text);
    }
  }
}
