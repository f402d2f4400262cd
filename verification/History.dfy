/** One field's valid-time history (`History` in zega/src/history.rs): changes
    in time order, with bounds and flags derived from them.

    `History` is the value other structures copy and store. `Track` is the
    struct the program updates in place; its `Insert` is proved against the
    function `Inserted`. */
module ValidTime {
  import opened Machine
  import opened Values
  import opened Wrappers

  datatype Change = Change(time: i64, value: Value)

  datatype History = History(
    changes: seq<Change>,
    min: Value,
    max: Value,
    first: i64,
    last: i64,
    ordered: bool)

  predicate Ascending(changes: seq<Change>) {
    forall i, j :: 0 <= i < j < |changes| ==> changes[i].time < changes[j].time
  }

  // How many changes come before `t`; `partition_point` and the searches agree on it.
  function Below(changes: seq<Change>, t: int): (n: nat)
    ensures n <= |changes|
    ensures Ascending(changes) ==> forall i :: 0 <= i < |changes| ==> (changes[i].time < t <==> i < n)
  {
    if changes == [] then 0
    else
      var n := Below(changes[..|changes| - 1], t);
      assert Ascending(changes) ==> Ascending(changes[..|changes| - 1]);
      if changes[|changes| - 1].time < t then n + 1 else n
  }

  function Splice(changes: seq<Change>, i: nat, c: Change): seq<Change>
    requires i <= |changes|
  {
    changes[..i] + [c] + changes[i..]
  }

  function InsertChange(changes: seq<Change>, at: i64, value: Value): seq<Change> {
    var i := Below(changes, at);
    if i < |changes| && changes[i].time == at
    then changes[i := Change(at, value)]
    else Splice(changes, i, Change(at, value))
  }

  lemma {:induction false} SpliceAt(changes: seq<Change>, i: nat, c: Change, k: nat)
    requires i <= |changes| && k <= |changes|
    ensures |Splice(changes, i, c)| == |changes| + 1
    ensures Splice(changes, i, c)[k] == if k < i then changes[k] else if k == i then c else changes[k - 1]
  {
  }

  // The value at `t`: the last change at or before it.
  function At(changes: seq<Change>, t: int): Option<Value> {
    var n := Below(changes, t + 1);
    if n == 0 then None else Some(changes[n - 1].value)
  }

  // ----- the derived fields -----

  datatype Bounds = Bounds(min: Value, max: Value, ordered: bool)

  function Widen(b: Bounds, v: Value): Bounds {
    Bounds(
      if Compare(v, b.min) == Some(Less) then v else b.min,
      if Compare(v, b.max) == Some(Greater) then v else b.max,
      b.ordered && Comparable(v, b.min))
  }

  function BoundsOf(changes: seq<Change>, n: nat): Bounds
    requires changes != [] && n <= |changes|
  {
    if n == 0 then Bounds(changes[0].value, changes[0].value, true)
    else Widen(BoundsOf(changes, n - 1), changes[n - 1].value)
  }

  function Derived(changes: seq<Change>): History
    requires changes != []
  {
    var b := BoundsOf(changes, |changes|);
    History(changes, b.min, b.max, changes[0].time, changes[|changes| - 1].time, b.ordered)
  }

  // What the engine keeps of every history it holds.
  predicate WellFormed(h: History) {
    h.changes != [] && Ascending(h.changes) && h == Derived(h.changes)
  }

  function NewHistory(at: i64, value: Value): History {
    History([Change(at, value)], value, value, at, at, Comparable(value, value))
  }

  function Inserted(h: History, at: i64, value: Value): History {
    Derived(InsertChange(h.changes, at, value))
  }

  lemma {:induction false} NewIsWellFormed(at: i64, value: Value)
    ensures WellFormed(NewHistory(at, value))
  {
    var changes := [Change(at, value)];
    assert BoundsOf(changes, 0) == Bounds(value, value, true);
    CompareLaws(value, value, value);
    assert BoundsOf(changes, 1) == Widen(BoundsOf(changes, 0), value);
  }

  // ----- insertion -----

  lemma {:induction false} InsertedTimes(changes: seq<Change>, at: i64, value: Value)
    requires Ascending(changes)
    ensures Ascending(InsertChange(changes, at, value)) && InsertChange(changes, at, value) != []
  {
  }

  lemma {:induction false} InsertKeepsWellFormed(h: History, at: i64, value: Value)
    requires WellFormed(h)
    ensures WellFormed(Inserted(h, at, value))
  {
    InsertedTimes(h.changes, at, value);
  }

  // The first change after `at`, if there is one.
  ghost predicate BeforeNext(changes: seq<Change>, at: int, t: int) {
    forall i :: 0 <= i < |changes| && changes[i].time > at ==> t < changes[i].time
  }

  lemma {:induction false} BelowIs(changes: seq<Change>, t: int, n: nat)
    requires Ascending(changes) && n <= |changes|
    requires forall k :: 0 <= k < |changes| ==> (changes[k].time < t <==> k < n)
    ensures Below(changes, t) == n
  {
    var m := Below(changes, t);
    hide Below;
    assert m < |changes| ==> (changes[m].time < t <==> m < n);
    assert n < |changes| ==> (changes[n].time < t <==> n < m);
  }

  lemma {:induction false} BelowAt(changes: seq<Change>, t: int, k: nat)
    requires Ascending(changes) && k < |changes|
    ensures changes[k].time < t <==> k < Below(changes, t)
  {
    var n := Below(changes, t);
    hide Below;
    assert changes[k].time < t <==> k < n;
  }

  lemma {:induction false} SameTimesSameBelow(a: seq<Change>, b: seq<Change>, t: int)
    requires Ascending(a) && |a| == |b| && forall k :: 0 <= k < |a| ==> a[k].time == b[k].time
    ensures Below(a, t) == Below(b, t)
  {
    hide Below;
    forall k: nat | k < |b|
      ensures b[k].time < t <==> k < Below(a, t)
    {
      BelowAt(a, t, k);
    }
    BelowIs(b, t, Below(a, t));
  }

  // Whether the last change not after `t` is the one at index `i`.
  lemma {:induction false} LastSeen(changes: seq<Change>, i: nat, t: int)
    requires Ascending(changes) && i < |changes|
    ensures Below(changes, t + 1) == i + 1 <==> changes[i].time <= t && BeforeNext(changes, changes[i].time, t)
  {
    hide Below;
    BelowAt(changes, t + 1, i);
    var n := Below(changes, t + 1);
    if n > i + 1 {
      BelowAt(changes, t + 1, i + 1);
      assert changes[i].time < changes[i + 1].time;
    } else if n == i + 1 {
      forall k: nat | k < |changes| && changes[k].time > changes[i].time
        ensures t < changes[k].time
      {
        BelowAt(changes, t + 1, k);
      }
    }
  }

  lemma {:induction false} AfterReplacing(changes: seq<Change>, at: i64, value: Value, t: int)
    requires Ascending(changes)
    requires var i := Below(changes, at); i < |changes| && changes[i].time == at
    ensures At(InsertChange(changes, at, value), t) ==
            if at <= t && BeforeNext(changes, at, t) then Some(value) else At(changes, t)
  {
    hide Below;
    var i := Below(changes, at);
    SameTimesSameBelow(changes, changes[i := Change(at, value)], t + 1);
    LastSeen(changes, i, t);
  }

  lemma {:induction false} SplicedBelow(changes: seq<Change>, i: nat, c: Change, t: int)
    requires Ascending(changes) && i <= |changes|
    requires Ascending(Splice(changes, i, c))
    ensures Below(Splice(changes, i, c), t) == Below(changes, t) + (if c.time < t then 1 else 0)
  {
    hide Splice, Below;
    SpliceAt(changes, i, c, i);
    var after := Splice(changes, i, c);
    var m := Below(changes, t) + if c.time < t then 1 else 0;
    if i > 0 {
      BelowAt(changes, t, i - 1);
      SpliceAt(changes, i, c, i - 1);
    }
    if i < |changes| {
      BelowAt(changes, t, i);
      SpliceAt(changes, i, c, i + 1);
    }
    forall k: nat | k < |after|
      ensures after[k].time < t <==> k < m
    {
      SpliceAt(changes, i, c, k);
      if k < i {
        BelowAt(changes, t, k);
      } else if k > i {
        BelowAt(changes, t, k - 1);
      }
    }
    BelowIs(after, t, m);
  }

  lemma {:induction false} NextIsKept(changes: seq<Change>, i: nat, c: Change, t: int)
    requires i <= |changes|
    ensures BeforeNext(Splice(changes, i, c), c.time, t) <==> BeforeNext(changes, c.time, t)
  {
    SpliceAt(changes, i, c, i);
    var after := Splice(changes, i, c);
    hide Splice;
    forall k: nat | k < |changes|
      ensures after[if k < i then k else k + 1] == changes[k]
    {
      SpliceAt(changes, i, c, if k < i then k else k + 1);
    }
    forall k: nat | k < |after|
      ensures after[k] == c || after[k] == changes[if k < i then k else k - 1]
    {
      SpliceAt(changes, i, c, k);
    }
  }

  lemma {:induction false} AfterInserting(changes: seq<Change>, at: i64, value: Value, t: int)
    requires Ascending(changes)
    requires var i := Below(changes, at); i == |changes| || changes[i].time != at
    ensures At(InsertChange(changes, at, value), t) ==
            if at <= t && BeforeNext(changes, at, t) then Some(value) else At(changes, t)
  {
    hide Splice, Below, Ascending, BeforeNext, At;
    InsertedTimes(changes, at, value);
    var i, c := Below(changes, at), Change(at, value);
    assert InsertChange(changes, at, value) == Splice(changes, i, c);
    BelowSplit(changes, at, t, i);
    SplicedBelow(changes, i, c, t + 1);
    if at <= t {
      SplicedAndSeen(changes, i, c, t);
    } else {
      SplicedButLater(changes, i, c, t);
    }
  }

  // The value at `t` with a change spliced in after it, and before it.
  lemma {:induction false} SplicedButLater(changes: seq<Change>, i: nat, c: Change, t: int)
    requires i <= |changes| && Below(changes, t + 1) <= i
    requires Below(Splice(changes, i, c), t + 1) == Below(changes, t + 1)
    ensures At(Splice(changes, i, c), t) == At(changes, t)
  {
    hide Splice, Below;
    var n := Below(changes, t + 1);
    if n > 0 {
      SpliceAt(changes, i, c, n - 1);
    }
  }

  lemma {:induction false} SplicedAndSeen(changes: seq<Change>, i: nat, c: Change, t: int)
    requires i <= |changes| && c.time <= t && Ascending(Splice(changes, i, c)) && Below(changes, t + 1) >= i
    requires Below(Splice(changes, i, c), t + 1) == Below(changes, t + 1) + 1
    ensures At(Splice(changes, i, c), t) ==
      if BeforeNext(changes, c.time, t) then Some(c.value) else At(changes, t)
  {
    hide Splice, Below, Ascending, BeforeNext;
    var n := Below(changes, t + 1);
    SpliceAt(changes, i, c, i);
    LastSeen(Splice(changes, i, c), i, t);
    NextIsKept(changes, i, c, t);
    SpliceAt(changes, i, c, n);
  }

  // Either every change up to `t` comes before `i`, or `t` is past `at`.
  lemma {:induction false} BelowSplit(changes: seq<Change>, at: i64, t: int, i: nat)
    requires Ascending(changes) && i == Below(changes, at) && (i == |changes| || changes[i].time != at)
    ensures at <= t ==> Below(changes, t + 1) >= i
    ensures t < at ==> Below(changes, t + 1) <= i
  {
    hide Below;
    if i > 0 {
      BelowAt(changes, at, i - 1);
      BelowAt(changes, t + 1, i - 1);
    }
    if i < |changes| {
      BelowAt(changes, at, i);
      BelowAt(changes, t + 1, i);
    }
  }

  // An insertion is seen from `at` up to the next later change, and nowhere else.
  lemma {:induction false} InsertChangesOnlyItsInterval(changes: seq<Change>, at: i64, value: Value, t: int)
    requires Ascending(changes)
    ensures At(InsertChange(changes, at, value), t) ==
            if at <= t && BeforeNext(changes, at, t) then Some(value) else At(changes, t)
  {
    var i := Below(changes, at);
    if i < |changes| && changes[i].time == at {
      AfterReplacing(changes, at, value, t);
    } else {
      AfterInserting(changes, at, value, t);
    }
  }

  // An ascending list is determined by the changes in it.
  lemma {:induction false} ElementsDetermineChanges(a: seq<Change>, b: seq<Change>)
    requires Ascending(a) && Ascending(b)
    requires forall c :: c in a <==> c in b
    ensures a == b
  {
    assert a != [] ==> a[0] in b;
    assert b != [] ==> b[0] in a;
    if a != [] && b != [] {
      var x, y := a[|a| - 1], b[|b| - 1];
      assert x in a && y in b;
      var i :| 0 <= i < |b| && b[i] == x;
      var j :| 0 <= j < |a| && a[j] == y;
      assert x == y;
      var a', b' := a[..|a| - 1], b[..|b| - 1];
      forall c
        ensures c in a' <==> c in b'
      {
        assert c in a' <==> c in a && c != x;
        assert c in b' <==> c in b && c != y;
      }
      ElementsDetermineChanges(a', b');
    }
  }

  lemma {:induction false} InsertedElements(changes: seq<Change>, at: i64, value: Value)
    requires Ascending(changes)
    ensures forall c :: c in InsertChange(changes, at, value) <==>
      (c == Change(at, value) || (c in changes && c.time != at))
  {
    var i := Below(changes, at);
    var after := InsertChange(changes, at, value);
    forall c
      ensures c in after <==> (c == Change(at, value) || (c in changes && c.time != at))
    {
      if c in changes && c.time != at {
        var k :| 0 <= k < |changes| && changes[k] == c;
        assert k != i || changes[i].time != at;
        assert c == if i < |changes| && changes[i].time == at then after[k] else after[if k < i then k else k + 1];
      }
      assert after[i] == Change(at, value);
    }
  }

  // Insertions at different times may be made in either order.
  lemma {:induction false} InsertionsCommute(changes: seq<Change>, s: i64, v: Value, t: i64, w: Value)
    requires Ascending(changes) && s != t
    ensures InsertChange(InsertChange(changes, s, v), t, w) == InsertChange(InsertChange(changes, t, w), s, v)
  {
    hide InsertChange;
    InsertedTimes(changes, s, v);
    InsertedTimes(changes, t, w);
    var one, two := InsertChange(changes, s, v), InsertChange(changes, t, w);
    InsertedTimes(one, t, w);
    InsertedTimes(two, s, v);
    InsertedElements(changes, s, v);
    InsertedElements(changes, t, w);
    InsertedElements(one, t, w);
    InsertedElements(two, s, v);
    ElementsDetermineChanges(InsertChange(one, t, w), InsertChange(two, s, v));
  }

  // ----- what the derived fields mean -----

  ghost predicate AllComparable(changes: seq<Change>, n: nat)
    requires n <= |changes|
  {
    forall i, j :: 0 <= i < n && 0 <= j < n ==> Comparable(changes[i].value, changes[j].value)
  }

  // `v` is one of the first `n` values and no other is below it.
  ghost predicate IsLeast(changes: seq<Change>, n: nat, v: Value)
    requires n <= |changes|
  {
    && (exists i :: 0 <= i < n && changes[i].value == v)
    && (forall i :: 0 <= i < n ==> AtMost(v, changes[i].value))
  }

  ghost predicate IsGreatest(changes: seq<Change>, n: nat, v: Value)
    requires n <= |changes|
  {
    && (exists i :: 0 <= i < n && changes[i].value == v)
    && (forall i :: 0 <= i < n ==> AtMost(changes[i].value, v))
  }

  lemma {:induction false} FirstBounds(changes: seq<Change>)
    requires changes != []
    ensures BoundsOf(changes, 1) == Bounds(changes[0].value, changes[0].value,
                                           Comparable(changes[0].value, changes[0].value))
  {
    CompareLaws(changes[0].value, changes[0].value, changes[0].value);
    assert BoundsOf(changes, 1) == Widen(BoundsOf(changes, 0), changes[0].value);
  }

  lemma {:induction false} ComparableToOneIsComparableToAll(changes: seq<Change>, n: nat, m: Value)
    requires n < |changes| && AllComparable(changes, n)
    requires exists i :: 0 <= i < n && changes[i].value == m
    ensures Comparable(changes[n].value, m) <==> AllComparable(changes, n + 1)
  {
    var i :| 0 <= i < n && changes[i].value == m;
    var v := changes[n].value;
    hide Compare;
    if Comparable(v, m) {
      CompareLaws(v, m, v);
      CompareLaws(m, v, m);
      CompareLaws(v, m, m);
      forall k | 0 <= k < n
        ensures Comparable(v, changes[k].value) && Comparable(changes[k].value, v)
      {
        CompareLaws(v, m, changes[k].value);
        CompareLaws(v, changes[k].value, v);
      }
    }
  }

  lemma {:induction false} WidenedMin(changes: seq<Change>, n: nat, b: Bounds)
    requires 1 <= n < |changes| && IsLeast(changes, n, b.min) && Comparable(changes[n].value, b.min)
    ensures IsLeast(changes, n + 1, Widen(b, changes[n].value).min)
  {
    var v := changes[n].value;
    var i :| 0 <= i < n && changes[i].value == b.min;
    hide Compare;
    CompareLaws(v, b.min, v);
    CompareLaws(b.min, v, v);
    CompareLaws(v, v, v);
    forall k | 0 <= k < n
      ensures AtMost(v, b.min) ==> AtMost(v, changes[k].value)
    {
      CompareLaws(v, b.min, changes[k].value);
    }
    assert changes[if Widen(b, v).min == v then n else i].value == Widen(b, v).min;
  }

  lemma {:induction false} WidenedMax(changes: seq<Change>, n: nat, b: Bounds)
    requires 1 <= n < |changes| && IsGreatest(changes, n, b.max) && Comparable(changes[n].value, b.max)
    ensures IsGreatest(changes, n + 1, Widen(b, changes[n].value).max)
  {
    var v := changes[n].value;
    var i :| 0 <= i < n && changes[i].value == b.max;
    hide Compare;
    CompareLaws(v, b.max, v);
    CompareLaws(b.max, v, v);
    CompareLaws(v, v, v);
    forall k | 0 <= k < n
      ensures AtMost(b.max, v) ==> AtMost(changes[k].value, v)
    {
      CompareLaws(changes[k].value, b.max, v);
    }
    assert changes[if Widen(b, v).max == v then n else i].value == Widen(b, v).max;
  }

  lemma {:induction false} WidenedBounds(changes: seq<Change>, n: nat, b: Bounds)
    requires 1 <= n < |changes| && b.ordered
    requires AllComparable(changes, n) && IsLeast(changes, n, b.min) && IsGreatest(changes, n, b.max)
    ensures var w := Widen(b, changes[n].value);
      && (w.ordered <==> AllComparable(changes, n + 1))
      && (w.ordered ==> IsLeast(changes, n + 1, w.min) && IsGreatest(changes, n + 1, w.max))
  {
    hide Compare;
    ComparableToOneIsComparableToAll(changes, n, b.min);
    ComparableToOneIsComparableToAll(changes, n, b.max);
    if Comparable(changes[n].value, b.min) {
      WidenedMin(changes, n, b);
      WidenedMax(changes, n, b);
    }
  }

  lemma {:induction false} BoundsAreRight(changes: seq<Change>, n: nat)
    requires 1 <= n <= |changes|
    ensures BoundsOf(changes, n).ordered <==> AllComparable(changes, n)
    ensures BoundsOf(changes, n).ordered ==>
              IsLeast(changes, n, BoundsOf(changes, n).min) && IsGreatest(changes, n, BoundsOf(changes, n).max)
    decreases n
  {
    if n == 1 {
      FirstBounds(changes);
      CompareLaws(changes[0].value, changes[0].value, changes[0].value);
    } else {
      BoundsAreRight(changes, n - 1);
      if BoundsOf(changes, n - 1).ordered {
        WidenedBounds(changes, n - 1, BoundsOf(changes, n - 1));
      }
    }
  }

  // `first` and `last` are the times the changes lie between. `ordered` holds
  // exactly when every two values compare; then `min` and `max` are values of
  // the history that bound all of them.
  lemma {:induction false} DerivedFieldsAreRight(h: History)
    requires WellFormed(h)
    ensures (exists c <- h.changes :: c.time == h.first) && (exists c <- h.changes :: c.time == h.last)
    ensures forall c <- h.changes :: h.first <= c.time <= h.last
    ensures h.ordered <==> AllComparable(h.changes, |h.changes|)
    ensures h.ordered ==> IsLeast(h.changes, |h.changes|, h.min) && IsGreatest(h.changes, |h.changes|, h.max)
  {
    BoundsAreRight(h.changes, |h.changes|);
    EndsAreRight(h);
  }

  lemma {:induction false} EndsAreRight(h: History)
    requires WellFormed(h)
    ensures (exists c <- h.changes :: c.time == h.first) && (exists c <- h.changes :: c.time == h.last)
    ensures forall c <- h.changes :: h.first <= c.time <= h.last
  {
    hide BoundsOf;
    var n := |h.changes|;
    assert h.changes[0] in h.changes && h.changes[n - 1] in h.changes;
  }

  // ----- the struct, updated in place -----

  class Track {
    var changes: seq<Change>
    var min: Value
    var max: Value
    var first: i64
    var last: i64
    var ordered: bool

    ghost function Now(): History
      reads this
    {
      History(changes, min, max, first, last, ordered)
    }

    method Read() returns (h: History)
      ensures h == Now()
    {
      h := History(changes, min, max, first, last, ordered);
    }

    constructor (at: i64, value: Value)
      ensures Now() == NewHistory(at, value) && WellFormed(Now())
    {
      changes := [Change(at, value)];
      min, max, first, last := value, value, at, at;
      ordered := Compare(value, value).Some?;
      new;
      NewIsWellFormed(at, value);
    }

    method Insert(at: i64, value: Value)
      requires WellFormed(Now())
      modifies this
      ensures Now() == Inserted(old(Now()), at, value) && WellFormed(Now())
    {
      InsertKeepsWellFormed(Now(), at, value);
      var i := Below(changes, at);
      if i < |changes| && changes[i].time == at {
        changes := changes[i := Change(at, value)];
      } else {
        changes := Splice(changes, i, Change(at, value));
      }
      assert changes == InsertChange(old(changes), at, value) && changes != [];
      hide InsertChange, BoundsOf, Below, Splice, Compare;
      Refresh();
    }

    // Recomputes the fields that follow from `changes`.
    method Refresh()
      requires changes != []
      modifies this`min, this`max, this`first, this`last, this`ordered
      ensures Now() == Derived(changes)
    {
      hide Compare;
      first, last := changes[0].time, changes[|changes| - 1].time;
      min := changes[0].value;
      max := min;
      ordered := true;
      var k := 0;
      while k < |changes|
        invariant 0 <= k <= |changes|
        invariant first == changes[0].time && last == changes[|changes| - 1].time
        invariant Bounds(min, max, ordered) == BoundsOf(changes, k)
      {
        var v := changes[k].value;
        ordered := ordered && Compare(v, min).Some?;
        var lower, higher := Compare(v, min) == Some(Less), Compare(v, max) == Some(Greater);
        if lower {
          min := v;
        }
        if higher {
          max := v;
        }
        k := k + 1;
      }
    }
  }
}
