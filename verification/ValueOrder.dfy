/** What the order of values is (`compare` in zega/src/history.rs, `cmp_value`
    in zega/src/v2.rs): numbers as numbers, strings by their first difference,
    and the comparisons of a condition by that order. */
module ValueOrder {
  import opened Machine
  import opened Ranges
  import opened Values
  import opened Wrappers
  import Utf8

  // ----- strings -----

  predicate ProperPrefix<T(==)>(a: seq<T>, b: seq<T>) {
    |a| < |b| && b[..|a|] == a
  }

  predicate LessAt(a: string, b: string, k: nat) {
    k < |a| && k < |b| && a[..k] == b[..k] && a[k] < b[k]
  }

  // `a` comes first in a dictionary.
  predicate TextBefore(a: string, b: string) {
    ProperPrefix(a, b) || exists k: nat | k < |a| :: LessAt(a, b, k)
  }

  lemma {:induction false} TextIsLexicographic(a: string, b: string)
    ensures CompareText(a, b) == Less <==> TextBefore(a, b)
    ensures CompareText(a, b) == Equal <==> a == b
    ensures CompareText(a, b) == Greater <==> TextBefore(b, a)
  {
    TextOrderLaws(a, b, a);
    TextOrderLaws(b, a, b);
    LessIsBefore(a, b);
    LessIsBefore(b, a);
  }

  lemma {:induction false} LessIsBefore(a: string, b: string)
    ensures CompareText(a, b) == Less <==> TextBefore(a, b)
    decreases |a|
  {
    if a != [] && b != [] {
      if a[0] == b[0] {
        LessIsBefore(a[1..], b[1..]);
        RestBefore(a, b);
      } else {
        if a[0] < b[0] {
          assert LessAt(a, b, 0);
        }
        forall k: nat | 0 < k <= |a| && k <= |b|
          ensures a[..k] != b[..k]
        {
          DifferAtOnce(a, b, k);
        }
        assert a[..|a|] == a;
      }
    }
  }

  lemma {:induction false} DifferAtOnce(a: string, b: string, k: nat)
    requires 0 < k <= |a| && k <= |b| && a[0] != b[0]
    ensures a[..k] != b[..k]
  {
    assert a[..k][0] == a[0] && b[..k][0] == b[0];
  }

  lemma {:induction false} RestLessAt(a: string, b: string, k: nat)
    requires a != [] && b != [] && a[0] == b[0]
    ensures LessAt(a[1..], b[1..], k) <==> LessAt(a, b, k + 1)
  {
    if k + 1 < |a| && k + 1 < |b| {
      assert a[..k + 1] == [a[0]] + a[1..][..k] && b[..k + 1] == [b[0]] + b[1..][..k];
      assert a[1..][..k] == a[..k + 1][1..] && b[1..][..k] == b[..k + 1][1..];
    }
  }

  lemma {:induction false} RestBefore(a: string, b: string)
    requires a != [] && b != [] && a[0] == b[0]
    ensures TextBefore(a[1..], b[1..]) <==> TextBefore(a, b)
  {
    var x, y := a[1..], b[1..];
    assert a == [a[0]] + x && b == [b[0]] + y;
    assert ProperPrefix(a, b) <==> ProperPrefix(x, y) by {
      if |a| < |b| {
        assert b[..|a|] == [b[0]] + y[..|x|];
      }
    }
    forall k: nat | k < |x|
      ensures LessAt(x, y, k) <==> LessAt(a, b, k + 1)
    {
      RestLessAt(a, b, k);
    }
    if TextBefore(a, b) && !ProperPrefix(a, b) {
      var k: nat :| k < |a| && LessAt(a, b, k);
      assert LessAt(x, y, k - 1);
    }
  }

  predicate ByteLessAt(a: seq<byte>, b: seq<byte>, k: nat) {
    k < |a| && k < |b| && a[..k] == b[..k] && a[k] < b[k]
  }

  predicate BytesBefore(a: seq<byte>, b: seq<byte>) {
    ProperPrefix(a, b) || exists k: nat | k < |a| :: ByteLessAt(a, b, k)
  }

  // A smaller number has a smaller digit where its digits first differ.
  lemma {:induction false} DigitsAscend(m: nat, n: nat)
    requires m < n
    ensures m / 64 < n / 64 || (m / 64 == n / 64 && m % 64 < n % 64)
  {
  }

  lemma {:induction false} TwoBytesAscend(c: char, d: char) returns (k: nat)
    requires c < d && |Utf8.EncodeChar(c)| == |Utf8.EncodeChar(d)| == 2
    ensures ByteLessAt(Utf8.EncodeChar(c), Utf8.EncodeChar(d), k)
  {
    var m, n := c as int, d as int;
    DigitsAscend(m, n);
    k := if m / 64 == n / 64 then 1 else 0;
  }

  lemma {:induction false} ThreeBytesAscend(c: char, d: char) returns (k: nat)
    requires c < d && |Utf8.EncodeChar(c)| == |Utf8.EncodeChar(d)| == 3
    ensures ByteLessAt(Utf8.EncodeChar(c), Utf8.EncodeChar(d), k)
  {
    var m, n := c as int, d as int;
    DigitsAscend(m, n);
    if m / 64 == n / 64 {
      k := 2;
    } else {
      DigitsAscend(m / 64, n / 64);
      k := if m / 64 / 64 == n / 64 / 64 then 1 else 0;
    }
  }

  lemma {:induction false} FourBytesAscend(c: char, d: char) returns (k: nat)
    requires c < d && |Utf8.EncodeChar(c)| == |Utf8.EncodeChar(d)| == 4
    ensures ByteLessAt(Utf8.EncodeChar(c), Utf8.EncodeChar(d), k)
  {
    var m, n := c as int, d as int;
    DigitsAscend(m, n);
    if m / 64 == n / 64 {
      k := 3;
    } else {
      DigitsAscend(m / 64, n / 64);
      if m / 64 / 64 == n / 64 / 64 {
        k := 2;
      } else {
        DigitsAscend(m / 64 / 64, n / 64 / 64);
        k := if m / 64 / 64 / 64 == n / 64 / 64 / 64 then 1 else 0;
      }
    }
  }

  // A smaller character has a smaller byte where its bytes first differ.
  lemma {:induction false} CharBytesAscend(c: char, d: char) returns (k: nat)
    requires c < d
    ensures ByteLessAt(Utf8.EncodeChar(c), Utf8.EncodeChar(d), k)
  {
    hide Utf8.Tail;
    var x, y := Utf8.EncodeChar(c), Utf8.EncodeChar(d);
    if |x| < |y| || |x| == 1 {
      k := 0;
    } else {
      assert |x| == |y|;
      hide Utf8.EncodeChar, ByteLessAt;
      if |x| == 2 {
        k := TwoBytesAscend(c, d);
      } else if |x| == 3 {
        k := ThreeBytesAscend(c, d);
      } else {
        k := FourBytesAscend(c, d);
      }
    }
  }

  lemma {:induction false} SharedHead(head: seq<byte>, x: seq<byte>, y: seq<byte>)
    requires BytesBefore(x, y)
    ensures BytesBefore(head + x, head + y)
  {
    var a, b := head + x, head + y;
    if ProperPrefix(x, y) {
      assert b[..|a|] == head + y[..|x|];
    } else {
      var k: nat :| k < |x| && ByteLessAt(x, y, k);
      assert a[..|head| + k] == head + x[..k] && b[..|head| + k] == head + y[..k];
      assert ByteLessAt(a, b, |head| + k);
    }
  }

  // So texts compare as their UTF-8 bytes.
  lemma {:induction false} TextComparesAsItsBytes(a: string, b: string)
    ensures CompareText(a, b) == Less ==> BytesBefore(Utf8.Encode(a), Utf8.Encode(b))
    ensures CompareText(a, b) == Greater ==> BytesBefore(Utf8.Encode(b), Utf8.Encode(a))
    decreases |a|
  {
    hide Utf8.EncodeChar, BytesBefore;
    if a == [] || b == [] {
      EmptyIsBefore(Utf8.Encode(a), Utf8.Encode(b));
    } else if a[0] == b[0] {
      TextComparesAsItsBytes(a[1..], b[1..]);
      var x, y := Utf8.Encode(a[1..]), Utf8.Encode(b[1..]);
      if CompareText(a, b) == Less {
        SharedHead(Utf8.EncodeChar(a[0]), x, y);
      } else if CompareText(a, b) == Greater {
        SharedHead(Utf8.EncodeChar(a[0]), y, x);
      }
    } else if a[0] < b[0] {
      DifferentHead(a, b);
    } else {
      DifferentHead(b, a);
    }
  }

  lemma {:induction false} EmptyIsBefore(x: seq<byte>, y: seq<byte>)
    ensures x == [] && y != [] ==> BytesBefore(x, y)
    ensures y == [] && x != [] ==> BytesBefore(y, x)
  {
  }

  lemma {:induction false} DifferentHead(a: string, b: string)
    requires a != [] && b != [] && a[0] < b[0]
    ensures BytesBefore(Utf8.Encode(a), Utf8.Encode(b))
  {
    var k := CharBytesAscend(a[0], b[0]);
    hide Utf8.EncodeChar;
    var x, y := Utf8.Encode(a), Utf8.Encode(b);
    var p, q := Utf8.EncodeChar(a[0]), Utf8.EncodeChar(b[0]);
    assert x[..k] == p[..k] && y[..k] == q[..k] && x[k] == p[k] && y[k] == q[k];
    assert ByteLessAt(x, y, k);
  }

  // ----- floats -----

  const FRACTION := 0x10_0000_0000_0000

  function Pow2(k: nat): (p: nat)
    ensures p > 0
  {
    if k == 0 then 1 else 2 * Pow2(k - 1)
  }

  // The number that 63 bits of magnitude stand for, in units of the least one
  // above zero, 2 to the -1074; infinity is where the next number would be.
  function Scaled(magnitude: nat): nat {
    var exponent, fraction := magnitude / FRACTION, magnitude % FRACTION;
    if exponent == 0 then fraction else (FRACTION + fraction) * Pow2(exponent - 1)
  }

  function FloatNumber(bits: u64): int {
    if bits < TWO_63 then Scaled(Magnitude(bits)) else -(Scaled(Magnitude(bits)) as int)
  }

  lemma {:induction false} NextIsMore(m: nat)
    ensures Scaled(m) < Scaled(m + 1)
  {
    var e, f := m / FRACTION, m % FRACTION;
    if f == FRACTION - 1 {
      assert (m + 1) / FRACTION == e + 1 && (m + 1) % FRACTION == 0;
      if e > 0 {
        var p := Pow2(e - 1);
        assert Pow2(e) == 2 * p;
        LessTimes(FRACTION + f, 2 * FRACTION, p);
        assert 2 * FRACTION * p == FRACTION * (2 * p);
      } else {
        assert Pow2(0) == 1;
      }
    } else {
      assert (m + 1) / FRACTION == e && (m + 1) % FRACTION == f + 1;
      if e > 0 {
        LessTimes(FRACTION + f, FRACTION + f + 1, Pow2(e - 1));
      }
    }
  }

  lemma {:induction false} LessTimes(a: nat, b: nat, p: nat)
    requires a < b && p > 0
    ensures a * p < b * p
  {
  }

  lemma {:induction false} ScaledGrows(a: nat, b: nat)
    requires a < b
    ensures Scaled(a) < Scaled(b)
    decreases b - a
  {
    hide Scaled;
    NextIsMore(a);
    if a + 1 < b {
      ScaledGrows(a + 1, b);
    }
  }

  // Floats are ranked as the numbers they are.
  lemma {:induction false} FloatsAreNumbers(a: u64, b: u64)
    ensures FloatRank(a) < FloatRank(b) <==> FloatNumber(a) < FloatNumber(b)
    ensures FloatRank(a) == FloatRank(b) <==> FloatNumber(a) == FloatNumber(b)
  {
    var m, n := Magnitude(a), Magnitude(b);
    assert Scaled(0) == 0;
    hide Scaled;
    if m > 0 { ScaledGrows(0, m); }
    if n > 0 { ScaledGrows(0, n); }
    if m < n { ScaledGrows(m, n); }
    if n < m { ScaledGrows(n, m); }
  }

  // ----- values -----

  // Which values compare, and how: integers and floats as numbers, false before
  // true, strings as in a dictionary.
  lemma {:induction false} CompareIsTheOrder(a: Value, b: Value)
    ensures Comparable(a, b) <==>
      || (a.Int? && b.Int?) || (a.Str? && b.Str?) || (a.Bool? && b.Bool?)
      || (a.Float? && b.Float? && !IsNaN(a.bits) && !IsNaN(b.bits))
    ensures a.Int? && b.Int? ==>
      (Compare(a, b) == Some(Less) <==> a.n < b.n) && (Compare(a, b) == Some(Equal) <==> a.n == b.n)
    ensures a.Float? && b.Float? && Comparable(a, b) ==>
      && (Compare(a, b) == Some(Less) <==> FloatNumber(a.bits) < FloatNumber(b.bits))
      && (Compare(a, b) == Some(Equal) <==> FloatNumber(a.bits) == FloatNumber(b.bits))
    ensures a.Str? && b.Str? ==>
      && (Compare(a, b) == Some(Less) <==> TextBefore(a.text, b.text))
      && (Compare(a, b) == Some(Equal) <==> a.text == b.text)
    ensures a.Bool? && b.Bool? ==>
      (Compare(a, b) == Some(Less) <==> !a.b && b.b) && (Compare(a, b) == Some(Equal) <==> a.b == b.b)
  {
    hide CompareText, TextBefore, FloatNumber;
    if a.Str? && b.Str? {
      TextIsLexicographic(a.text, b.text);
    } else if a.Float? && b.Float? {
      FloatsAreNumbers(a.bits, b.bits);
    }
  }

  // ----- conditions -----

  // Whether a test holds of two numbers, and of two strings.
  predicate HoldsOf(pred: Pred, a: int, b: int) {
    match pred
    case Eq(_) => a == b
    case Gt(_) => a > b
    case Gte(_) => a >= b
    case Lt(_) => a < b
    case Lte(_) => a <= b
  }

  predicate HoldsOfTexts(pred: Pred, a: string, b: string) {
    match pred
    case Eq(_) => a == b
    case Gt(_) => TextBefore(b, a)
    case Gte(_) => TextBefore(b, a) || a == b
    case Lt(_) => TextBefore(a, b)
    case Lte(_) => TextBefore(a, b) || a == b
  }

  predicate IsNumeric(j: Json) {
    j.Whole? || j.Real?
  }

  // A condition on two strings asks for their order, on two integers of 64 bits
  // for theirs, and on other numbers for that of the floats nearest to them;
  // nothing else is ordered, and a number equals only one of its own form.
  lemma {:induction false} MeetsIsTheComparison(near: Nearest, a: Json, pred: Pred)
    ensures var b := pred.value;
      && (a.JText? && b.JText? ==> (Meets(near, a, pred) <==> HoldsOfTexts(pred, a.s, b.s)))
      && (a.Whole? && b.Whole? && a.n < TWO_63 && b.n < TWO_63 ==> (Meets(near, a, pred) <==> HoldsOf(pred, a.n, b.n)))
      && (a.Real? && b.Real? ==> (Meets(near, a, pred) <==> HoldsOf(pred, FloatNumber(a.bits), FloatNumber(b.bits))))
      && (IsNumeric(a) && IsNumeric(b) && !pred.Eq? && !(a.Whole? && b.Whole? && a.n < TWO_63 && b.n < TWO_63) ==>
            (Meets(near, a, pred) <==>
               HoldsOf(pred, FloatNumber(AsFloat(near, a).value), FloatNumber(AsFloat(near, b).value))))
      && (pred.Eq? && !(a.Real? && b.Real?) ==> (Meets(near, a, pred) <==> a == b))
      && (!pred.Eq? && !(a.JText? && b.JText?) && !(IsNumeric(a) && IsNumeric(b)) ==> !Meets(near, a, pred))
  {
    hide CompareText, TextBefore, FloatNumber, FloatRank;
    var b := pred.value;
    if a.JText? && b.JText? {
      TextIsLexicographic(a.s, b.s);
    } else if IsNumeric(a) && IsNumeric(b) {
      FloatsAreNumbers(AsFloat(near, a).value, AsFloat(near, b).value);
    }
  }

  // ----- intervals -----

  // The interval of a test is exactly its closed form: it leaves out all that
  // lies on the other side of the bound.
  lemma {:induction false} IntervalIsTheClosedTest(near: Nearest, pred: Pred, k: Key)
    requires IntervalOf(near, pred).Some?
    ensures pred.value.JText? ==>
      (In(IntervalOf(near, pred).value, k) <==>
         k.Text? && match pred
                    case Eq(b) => k.s == b.s
                    case Gt(b) => k.s == b.s || TextBefore(b.s, k.s)
                    case Gte(b) => k.s == b.s || TextBefore(b.s, k.s)
                    case Lt(b) => k.s == b.s || TextBefore(k.s, b.s)
                    case Lte(b) => k.s == b.s || TextBefore(k.s, b.s))
    ensures !pred.value.JText? ==> AsFloat(near, pred.value).Some?
    ensures !pred.value.JText? ==>
      (In(IntervalOf(near, pred).value, k) <==>
         k.Num? && var x, y := FloatNumber(k.bits), FloatNumber(AsFloat(near, pred.value).value);
                   match pred
                   case Eq(_) => x == y
                   case Gt(_) => x >= y
                   case Gte(_) => x >= y
                   case Lt(_) => x <= y
                   case Lte(_) => x <= y)
  {
    hide CompareText, TextBefore, FloatNumber, Number;
    var b := pred.value;
    if b.JText? {
      if k.Text? {
        TextIsLexicographic(k.s, b.s);
        TextIsLexicographic(b.s, k.s);
      }
    } else {
      NumberIsNumber(AsFloat(near, b).value);
      if k.Num? {
        FloatsAreNumbers(k.bits, AsFloat(near, b).value);
      }
    }
  }
}
