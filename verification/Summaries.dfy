/** Answering a test of a history from its bounds alone (`summary` in
    zega/src/v2/time.rs). */
module Summaries {
  import opened Machine
  import opened Ranges
  import opened ValidTime
  import opened Values
  import opened Wrappers

  predicate Passes(near: Nearest, v: Value, pred: Pred) {
    Meets(near, ToJson(v), pred)
  }

  // Whether every change passes, or none, when the bounds tell.
  function Summary(near: Nearest, h: History, pred: Pred): Option<bool> {
    if pred.Eq? || !h.ordered then None
    else
      var low, high := Passes(near, h.min, pred), Passes(near, h.max, pred);
      if low == high then Some(low) else None
  }

  // A float that is no JSON number, so that no ordered test holds of it.
  predicate IsInfinite(v: Value) {
    v.Float? && !IsFinite(v.bits)
  }

  // Whatever lies between two values passes when both do, and fails when both do.
  lemma {:induction false} BetweenPasses(near: Nearest, a: Value, v: Value, b: Value, pred: Pred)
    requires MonotoneCast(near) && !pred.Eq? && AtMost(a, v) && AtMost(v, b)
    requires !IsInfinite(a) && !IsInfinite(v) && !IsInfinite(b)
    requires Passes(near, a, pred) == Passes(near, b, pred)
    ensures Passes(near, v, pred) == Passes(near, a, pred)
  {
    if v.Str? {
      TextBetween(near, a.text, v.text, b.text, pred);
    } else if v.Int? {
      hide FloatRank;
      assert FloatRank(near(a.n)) <= FloatRank(near(v.n)) <= FloatRank(near(b.n));
    } else if v.Float? {
      hide FloatRank;
    }
  }

  lemma {:induction false} TextBetween(near: Nearest, a: string, v: string, b: string, pred: Pred)
    requires !pred.Eq? && AtMostText(a, v) && AtMostText(v, b)
    requires Meets(near, JText(a), pred) == Meets(near, JText(b), pred)
    ensures Meets(near, JText(v), pred) == Meets(near, JText(a), pred)
  {
    if pred.value.JText? {
      var p := pred.value.s;
      TextMeets(near, a, pred);
      TextMeets(near, v, pred);
      TextMeets(near, b, pred);
      hide AtMostText, Meets;
      TextIsTransitive(a, v, p);
      TextIsTransitive(v, b, p);
      TextIsTransitive(p, a, v);
      TextIsTransitive(p, v, b);
    }
  }

  lemma {:induction false} TextMeets(near: Nearest, x: string, pred: Pred)
    requires !pred.Eq? && pred.value.JText?
    ensures var p := pred.value.s;
      Meets(near, JText(x), pred) <==>
      match pred
      case Gt(_) => !AtMostText(x, p)
      case Gte(_) => AtMostText(p, x)
      case Lt(_) => !AtMostText(p, x)
      case Lte(_) => AtMostText(x, p)
  {
    hide CompareText;
    TextOrderLaws(x, pred.value.s, x);
    TextOrderLaws(pred.value.s, x, x);
  }

  lemma {:induction false} InfiniteFails(near: Nearest, v: Value, pred: Pred)
    requires IsInfinite(v) && !pred.Eq?
    ensures !Passes(near, v, pred)
  {
  }

  lemma {:induction false} SameRankPasses(near: Nearest, v: Value, w: Value, pred: Pred)
    requires v.Float? && w.Float? && FloatRank(v.bits) == FloatRank(w.bits) && IsFinite(v.bits) && IsFinite(w.bits)
    requires !pred.Eq?
    ensures Passes(near, v, pred) == Passes(near, w, pred)
  {
    hide FloatRank;
  }

  // Strictly between the bounds lies a number although a bound is none.
  predicate HidesANumber(h: History, v: Value) {
    && (IsInfinite(h.min) || IsInfinite(h.max))
    && v.Float? && IsFinite(v.bits) && h.min.Float? && h.max.Float?
    && FloatRank(h.min.bits) < FloatRank(v.bits) < FloatRank(h.max.bits)
  }

  ghost predicate IsRight(near: Nearest, h: History, pred: Pred) {
    Summary(near, h, pred).Some? ==>
      forall c <- h.changes :: Passes(near, c.value, pred) == Summary(near, h, pred).value
  }

  lemma {:induction false} ChangeIsBetween(h: History, c: Change)
    requires WellFormed(h) && h.ordered && c in h.changes
    ensures AtMost(h.min, c.value) && AtMost(c.value, h.max)
  {
    hide ValidTime.BoundsOf, Compare;
    DerivedFieldsAreRight(h);
    var i :| 0 <= i < |h.changes| && h.changes[i] == c;
  }

  lemma {:induction false} ChangePasses(near: Nearest, h: History, pred: Pred, c: Change)
    requires MonotoneCast(near) && WellFormed(h) && c in h.changes && Summary(near, h, pred).Some?
    requires !HidesANumber(h, c.value)
    ensures Passes(near, c.value, pred) == Summary(near, h, pred).value
  {
    ChangeIsBetween(h, c);
    var v := c.value;
    hide Passes, WellFormed;
    if IsInfinite(h.min) {
      InfiniteFails(near, h.min, pred);
    }
    if IsInfinite(h.max) {
      InfiniteFails(near, h.max, pred);
    }
    if IsInfinite(v) {
      InfiniteFails(near, v, pred);
      InfiniteIsABound(h, v);
    } else if !IsInfinite(h.min) && !IsInfinite(h.max) {
      BetweenPasses(near, h.min, v, h.max, pred);
    } else if FloatRank(v.bits) == FloatRank(h.min.bits) {
      SameRankPasses(near, v, h.min, pred);
    } else {
      SameRankPasses(near, v, h.max, pred);
    }
  }

  // Infinities lie outside all numbers.
  lemma {:induction false} InfiniteIsABound(h: History, v: Value)
    requires IsInfinite(v) && AtMost(h.min, v) && AtMost(v, h.max)
    ensures IsInfinite(h.min) || IsInfinite(h.max)
  {
  }

  lemma {:induction false} HiddenIsMissed(near: Nearest, h: History, c: Change)
    requires WellFormed(h) && h.ordered && c in h.changes && HidesANumber(h, c.value)
    ensures exists pred: Pred :: IsJson(pred.value) && !IsRight(near, h, pred)
  {
    hide WellFormed, FloatRank;
    var v := c.value.bits;
    var pred := if IsInfinite(h.min) && IsInfinite(h.max) then Lte(Real(v))
                else if IsInfinite(h.min) then Lt(Real(h.max.bits)) else Gt(Real(h.min.bits));
    assert Passes(near, c.value, pred);
    assert Summary(near, h, pred) == Some(false);
  }

  // The bounds answer every ordered test rightly if and only if no number of
  // the history lies strictly between bounds of which one is infinite.
  lemma {:induction false} SummariesAreRightExactly(near: Nearest, h: History)
    requires MonotoneCast(near) && WellFormed(h) && h.ordered
    ensures (forall pred: Pred | IsJson(pred.value) :: IsRight(near, h, pred)) <==>
      forall c <- h.changes :: !HidesANumber(h, c.value)
  {
    hide WellFormed, HidesANumber, Summary, Passes, MonotoneCast;
    if c :| c in h.changes && HidesANumber(h, c.value) {
      HiddenIsMissed(near, h, c);
    } else {
      forall pred: Pred | IsJson(pred.value)
        ensures IsRight(near, h, pred)
      {
        if Summary(near, h, pred).Some? {
          forall c | c in h.changes
            ensures Passes(near, c.value, pred) == Summary(near, h, pred).value
          {
            ChangePasses(near, h, pred, c);
          }
        }
      }
    }
  }

  // So the test holds at some change, or at every one, exactly when the bounds
  // say so, first at the first change and last at the last.
  lemma {:induction false} SummaryIsTheScan(near: Nearest, h: History, pred: Pred)
    requires WellFormed(h) && Summary(near, h, pred).Some? && IsRight(near, h, pred)
    ensures var b := Summary(near, h, pred).value;
      && (b <==> exists c <- h.changes :: Passes(near, c.value, pred))
      && (b <==> forall c <- h.changes :: Passes(near, c.value, pred))
      && (b ==>
            && (exists c <- h.changes :: Passes(near, c.value, pred) && c.time == h.first)
            && (exists c <- h.changes :: Passes(near, c.value, pred) && c.time == h.last)
            && forall c <- h.changes :: Passes(near, c.value, pred) ==> h.first <= c.time <= h.last)
  {
    hide Passes, Summary;
    EndsAreRight(h);
    hide WellFormed;
    assert h.changes[0] in h.changes;
  }
}
