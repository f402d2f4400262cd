/** Points, boxes and the spatial index over them (zega/src/location.rs). */
module Locations {
  import opened Machine
  import opened Morton
  import opened Wrappers

  // ----- degrees -----

  // Floating point, as far as this file needs it: real numbers, each result
  // rounded by a monotone function that keeps zero.
  type Rounding = real -> real

  ghost predicate Monotone(fl: Rounding) {
    fl(0.0) == 0.0 && forall a, b :: a <= b ==> fl(a) <= fl(b)
  }

  datatype Point = Point(lat: real, lon: real)

  datatype Invalid = BadLatitude | BadLongitude | SouthAboveNorth

  function NewPoint(lat: real, lon: real): Result<Point, Invalid> {
    if !(-90.0 <= lat <= 90.0) then Err(BadLatitude)
    else if !(-180.0 <= lon <= 180.0) then Err(BadLongitude)
    else Ok(Point(lat, lon))
  }

  // A box; with `west` beyond `east` it crosses the antimeridian.
  datatype Bounds = Bounds(south: real, west: real, north: real, east: real)

  function NewBounds(southwest: Point, northeast: Point): Result<Bounds, Invalid> {
    if southwest.lat > northeast.lat then Err(SouthAboveNorth)
    else Ok(Bounds(southwest.lat, southwest.lon, northeast.lat, northeast.lon))
  }

  predicate Contains(b: Bounds, p: Point) {
    && b.south <= p.lat <= b.north
    && if b.west <= b.east then b.west <= p.lon <= b.east else p.lon >= b.west || p.lon <= b.east
  }

  // ----- the grid -----

  // A cast to u32 saturates.
  function Grid(fl: Rounding, value: real, low: real, width: real): (n: nat)
    requires width > 0.0
    ensures n < 65536
  {
    var n := fl(fl(fl(value - low) / width) * 65536.0).Floor;
    if n < 0 then 0 else if n > 65535 then 65535 else n
  }

  lemma {:induction false} GridIsMonotone(fl: Rounding, a: real, b: real, low: real, width: real)
    requires Monotone(fl) && a <= b && width > 0.0
    ensures Grid(fl, a, low, width) <= Grid(fl, b, low, width)
  {
    var x, y := fl(a - low), fl(b - low);
    assert x <= y;
    QuotientGrows(x, y, width);
    var u, v := fl(x / width), fl(y / width);
    assert u <= v;
    assert u * 65536.0 <= v * 65536.0;
    assert fl(u * 65536.0) <= fl(v * 65536.0);
  }

  lemma {:induction false} QuotientGrows(x: real, y: real, width: real)
    requires x <= y && width > 0.0
    ensures x / width <= y / width
  {
    var q, r := x / width, y / width;
    assert q * width == x && r * width == y;
    ScaledGrows(q, r, width);
  }

  lemma {:induction false} ScaledGrows(q: real, r: real, width: real)
    requires width > 0.0
    ensures q > r ==> q * width > r * width
  {
  }

  function Column(fl: Rounding, lon: real): nat {
    Grid(fl, lon, -180.0, 360.0)
  }

  function Row(fl: Rounding, lat: real): nat {
    Grid(fl, lat, -90.0, 180.0)
  }

  function KeyOf(fl: Rounding, p: Point): nat {
    Interleave(Column(fl, p.lon), Row(fl, p.lat))
  }

  // How far east of `from` a meridian is, going around.
  function Eastward(from: real, lon: real): real {
    if lon >= from then lon - from else lon - from + 360.0
  }

  // A box holds the latitudes from its south to its north, and the meridians
  // met going east from its west to its east. Only the meridian opposite
  // Greenwich has two names, and is in a box that ends there by the name 180.
  lemma {:induction false} ContainsIsTheBox(b: Bounds, p: Point)
    requires IsBox(b) && -180.0 <= p.lon <= 180.0
    ensures Contains(b, p) <==>
      && b.south <= p.lat <= b.north
      && Eastward(b.west, p.lon) <= Eastward(b.west, b.east)
      && !(p.lon == -180.0 && b.east == 180.0 && b.west > -180.0)
  {
  }

  // The columns and rows are the 65536 equal parts of their range: between two
  // neighbouring lines a coordinate is of the one part or, when it is rounded
  // up to the line, of the next.
  lemma {:induction false} GridIsTheParts(fl: Rounding, value: real, low: real, width: real, i: nat)
    requires Monotone(fl) && KeepsLines(fl, width) && width > 0.0 && i < 65536
    requires Line(width, i) <= value - low <= Line(width, i + 1)
    ensures i <= Grid(fl, value, low, width) <= (if i < 65535 then i + 1 else i)
    ensures value - low == Line(width, i) ==> Grid(fl, value, low, width) == i
  {
    LineIsExact(fl, value - low, width, i);
    LineAt(fl, width, i);
  }

  // The `i`th of the lines that part `width` in 65536.
  function Line(width: real, i: nat): real {
    width * (i as real) / 65536.0
  }

  // Lines are floating-point numbers, and so are the fractions they stand for.
  ghost predicate KeepsLines(fl: Rounding, width: real) {
    forall i: nat | i <= 65536 ::
      fl(Line(width, i)) == Line(width, i) && fl(i as real / 65536.0) == i as real / 65536.0 && fl(i as real) == i as real
  }

  lemma {:induction false} LineIsExact(fl: Rounding, offset: real, width: real, i: nat)
    requires Monotone(fl) && KeepsLines(fl, width) && width > 0.0 && i < 65536
    requires Line(width, i) <= offset <= Line(width, i + 1)
    ensures i as real <= fl(fl(fl(offset) / width) * 65536.0) <= (i + 1) as real
  {
    LineAt(fl, width, i);
    LineAt(fl, width, i + 1);
    var x := fl(offset);
    assert Line(width, i) <= x <= Line(width, i + 1);
    QuotientGrows(Line(width, i), x, width);
    QuotientGrows(x, Line(width, i + 1), width);
    var y := fl(x / width);
    assert i as real / 65536.0 <= y <= (i + 1) as real / 65536.0;
    assert i as real <= y * 65536.0 <= (i + 1) as real;
  }

  lemma {:induction false} LineAt(fl: Rounding, width: real, i: nat)
    requires Monotone(fl) && KeepsLines(fl, width) && width > 0.0 && i <= 65536
    ensures fl(Line(width, i)) == Line(width, i) && Line(width, i) / width == i as real / 65536.0
    ensures fl(i as real / 65536.0) == i as real / 65536.0 && fl(i as real) == i as real
  {
    var q := i as real / 65536.0;
    assert Line(width, i) == q * width;
    assert q * width / width == q;
  }

  // ----- what a box covers -----

  function RectOf(fl: Rounding, b: Bounds, west: real, east: real): Rect {
    Rect(Column(fl, west), Row(fl, b.south), Column(fl, east), Row(fl, b.north))
  }

  // The rectangles of a box: two when it crosses the antimeridian.
  function RectsOf(fl: Rounding, b: Bounds): seq<Rect> {
    if b.west <= b.east then [RectOf(fl, b, b.west, b.east)]
    else [RectOf(fl, b, b.west, 180.0), RectOf(fl, b, -180.0, b.east)]
  }

  function CoverAll(rects: seq<Rect>): seq<Run>
    decreases |rects|
  {
    if rects == [] then []
    else CoverAll(rects[..|rects| - 1]) + Cover(rects[|rects| - 1], 0, 0, 16)
  }

  predicate IsBox(b: Bounds) {
    b.south <= b.north && -180.0 <= b.west <= 180.0 && -180.0 <= b.east <= 180.0
  }

  // A box made of two valid corners is one the index can be asked for.
  lemma {:induction false} CheckedCornersMakeABox(lat0: real, lon0: real, lat1: real, lon1: real)
    requires NewPoint(lat0, lon0).Ok? && NewPoint(lat1, lon1).Ok?
    ensures var b := NewBounds(NewPoint(lat0, lon0).value, NewPoint(lat1, lon1).value);
      (b.Ok? <==> lat0 <= lat1) && (b.Ok? ==> IsBox(b.value))
  {
  }

  predicate AnyBlockMeets(rects: seq<Rect>, x: nat, y: nat) {
    exists i :: 0 <= i < |rects| && BlockMeets(rects[i], x, y)
  }

  lemma {:induction false} RectsAreOrdered(fl: Rounding, b: Bounds)
    requires Monotone(fl) && IsBox(b)
    ensures forall i :: 0 <= i < |RectsOf(fl, b)| ==> RectsOf(fl, b)[i].Ordered()
  {
    hide Grid;
    GridIsMonotone(fl, b.south, b.north, -90.0, 180.0);
    if b.west <= b.east {
      GridIsMonotone(fl, b.west, b.east, -180.0, 360.0);
    } else {
      GridIsMonotone(fl, b.west, 180.0, -180.0, 360.0);
      GridIsMonotone(fl, -180.0, b.east, -180.0, 360.0);
    }
  }

  lemma {:induction false} CoverAllIsExact(rects: seq<Rect>, x: nat, y: nat)
    requires x < 65536 && y < 65536 && forall i :: 0 <= i < |rects| ==> rects[i].Ordered()
    ensures Covered(CoverAll(rects), Interleave(x, y)) <==> AnyBlockMeets(rects, x, y)
    decreases |rects|
  {
    hide Interleave, BlockMeets, Cover, Covered;
    if rects == [] {
      NothingCovered(Interleave(x, y));
    } else {
      var n := |rects| - 1;
      CoverAllIsExact(rects[..n], x, y);
      GridCoverIsExact(rects[n], x, y);
      CoveredByEither(CoverAll(rects[..n]), Cover(rects[n], 0, 0, 16), Interleave(x, y));
      if AnyBlockMeets(rects[..n], x, y) {
        var i :| 0 <= i < n && BlockMeets(rects[..n][i], x, y);
        assert BlockMeets(rects[i], x, y);
      }
      if AnyBlockMeets(rects, x, y) && !BlockMeets(rects[n], x, y) {
        var i :| 0 <= i < |rects| && BlockMeets(rects[i], x, y);
        assert BlockMeets(rects[..n][i], x, y);
      }
    }
  }

  lemma {:induction false} NothingCovered(m: nat)
    ensures !Covered([], m)
  {
  }

  lemma {:induction false} PointIsInItsBlock(r: Rect, x: nat, y: nat)
    requires r.west <= x <= r.east && r.south <= y <= r.north
    ensures BlockMeets(r, x, y)
  {
    hide Shift, Pow2;
    ShiftIsRange(x, FINEST, Shift(x, FINEST));
    ShiftIsRange(y, FINEST, Shift(y, FINEST));
  }

  // The block of a point in a box meets one of the box's rectangles, also when
  // the box crosses the antimeridian.
  lemma {:induction false} ContainedPointsAreCovered(fl: Rounding, b: Bounds, p: Point)
    requires Monotone(fl) && IsBox(b) && Contains(b, p) && -180.0 <= p.lon <= 180.0
    ensures AnyBlockMeets(RectsOf(fl, b), Column(fl, p.lon), Row(fl, p.lat))
  {
    hide Grid, BlockMeets;
    GridIsMonotone(fl, b.south, p.lat, -90.0, 180.0);
    GridIsMonotone(fl, p.lat, b.north, -90.0, 180.0);
    var x, y, rects := Column(fl, p.lon), Row(fl, p.lat), RectsOf(fl, b);
    if b.west <= b.east {
      GridIsMonotone(fl, b.west, p.lon, -180.0, 360.0);
      GridIsMonotone(fl, p.lon, b.east, -180.0, 360.0);
      PointIsInItsBlock(rects[0], x, y);
    } else if p.lon >= b.west {
      GridIsMonotone(fl, b.west, p.lon, -180.0, 360.0);
      GridIsMonotone(fl, p.lon, 180.0, -180.0, 360.0);
      PointIsInItsBlock(rects[0], x, y);
    } else {
      GridIsMonotone(fl, -180.0, p.lon, -180.0, 360.0);
      GridIsMonotone(fl, p.lon, b.east, -180.0, 360.0);
      PointIsInItsBlock(rects[1], x, y);
    }
  }

  // ----- the index -----

  type Buckets = map<nat, set<u64>>

  // Every field, point and id that was inserted and not taken out again.
  type Placed = set<(string, Point, u64)>

  predicate IsAt(fl: Rounding, placed: Placed, f: string, key: nat, id: u64) {
    exists t <- placed :: t.0 == f && t.2 == id && KeyOf(fl, t.1) == key
  }

  // A removal takes an id out of a whole bucket.
  function Without(fl: Rounding, placed: Placed, f: string, key: nat, id: u64): Placed {
    set t <- placed | !(t.0 == f && t.2 == id && KeyOf(fl, t.1) == key)
  }

  predicate Holds(fields: map<string, Buckets>, f: string, key: nat, id: u64) {
    f in fields && key in fields[f] && id in fields[f][key]
  }

  // Exactly the placed ids are in the buckets of their keys.
  ghost predicate Agrees(fl: Rounding, fields: map<string, Buckets>, placed: Placed) {
    forall f: string, key: nat, id: u64 :: Holds(fields, f, key, id) <==> IsAt(fl, placed, f, key, id)
  }

  lemma {:induction false} PlacedIsAt(fl: Rounding, placed: Placed, f: string, p: Point, id: u64)
    ensures forall g: string, k: nat, i: u64 :: IsAt(fl, placed + {(f, p, id)}, g, k, i) <==>
      IsAt(fl, placed, g, k, i) || (g == f && k == KeyOf(fl, p) && i == id)
  {
    hide KeyOf;
    forall g: string, k: nat, i: u64
      ensures IsAt(fl, placed + {(f, p, id)}, g, k, i) <==>
        IsAt(fl, placed, g, k, i) || (g == f && k == KeyOf(fl, p) && i == id)
    {
      var after := placed + {(f, p, id)};
      assert (f, p, id) in after;
      if IsAt(fl, placed, g, k, i) {
        var t :| t in placed && t.0 == g && t.2 == i && KeyOf(fl, t.1) == k;
        assert t in after;
      }
    }
  }

  lemma {:induction false} WithoutIsAt(fl: Rounding, placed: Placed, f: string, key: nat, id: u64)
    ensures forall g: string, k: nat, i: u64 :: IsAt(fl, Without(fl, placed, f, key, id), g, k, i) <==>
      IsAt(fl, placed, g, k, i) && !(g == f && k == key && i == id)
  {
    hide KeyOf;
    forall g: string, k: nat, i: u64
      ensures IsAt(fl, Without(fl, placed, f, key, id), g, k, i) <==>
        IsAt(fl, placed, g, k, i) && !(g == f && k == key && i == id)
    {
      if IsAt(fl, placed, g, k, i) && !(g == f && k == key && i == id) {
        var t :| t in placed && t.0 == g && t.2 == i && KeyOf(fl, t.1) == k;
        assert t in Without(fl, placed, f, key, id);
      }
    }
  }

  // While an id has one point in a field, taking it out there takes that point
  // out and nothing else.
  lemma {:induction false} WithoutTheOnlyPoint(fl: Rounding, placed: Placed, f: string, p: Point, id: u64)
    requires forall t <- placed :: t.0 == f && t.2 == id ==> t.1 == p
    ensures Without(fl, placed, f, KeyOf(fl, p), id) == placed - {(f, p, id)}
  {
    hide KeyOf;
  }

  // No field and no bucket is kept empty.
  predicate NoneEmpty(fields: map<string, Buckets>) {
    forall f | f in fields :: fields[f] != map[] && forall key | key in fields[f] :: fields[f][key] != {}
  }

  function WithId(fields: map<string, Buckets>, f: string, key: nat, id: u64): map<string, Buckets> {
    var tree: Buckets := if f in fields then fields[f] else map[];
    fields[f := tree[key := (if key in tree then tree[key] else {}) + {id}]]
  }

  // A bucket, and then a field, goes with the last id in it.
  function WithoutId(fields: map<string, Buckets>, f: string, key: nat, id: u64): map<string, Buckets> {
    if f !in fields then fields
    else
      var tree := fields[f];
      var left: Buckets := if key !in tree then tree
                  else if tree[key] - {id} == {} then tree - {key}
                  else tree[key := tree[key] - {id}];
      if left == map[] then fields - {f} else fields[f := left]
  }

  lemma {:induction false} WithIdHolds(fields: map<string, Buckets>, f: string, key: nat, id: u64)
    requires NoneEmpty(fields)
    ensures NoneEmpty(WithId(fields, f, key, id))
    ensures forall g: string, k: nat, i: u64 ::
      Holds(WithId(fields, f, key, id), g, k, i) <==> Holds(fields, g, k, i) || (g == f && k == key && i == id)
  {
    assert id in WithId(fields, f, key, id)[f][key];
  }

  lemma {:induction false} WithoutIdHolds(fields: map<string, Buckets>, f: string, key: nat, id: u64)
    requires NoneEmpty(fields)
    ensures NoneEmpty(WithoutId(fields, f, key, id))
    ensures forall g: string, k: nat, i: u64 ::
      Holds(WithoutId(fields, f, key, id), g, k, i) <==> Holds(fields, g, k, i) && !(g == f && k == key && i == id)
  {
    if f in fields && key in fields[f] {
      var tree: Buckets := fields[f];
      var left: Buckets := if tree[key] - {id} == {} then tree - {key} else tree[key := tree[key] - {id}];
      forall k: nat, i: u64 | k in tree && i in tree[k] && !(k == key && i == id)
        ensures k in left && i in left[k]
      {
        if k == key {
          assert i in tree[key] - {id};
        }
      }
      if left == map[] {
        assert forall k: nat :: k !in left;
      }
    }
  }

  class SpatialIndex {
    var fields: map<string, Buckets>
    const fl: Rounding
    ghost var placed: Placed

    ghost predicate Valid()
      reads this
    {
      Monotone(fl) && Agrees(fl, fields, placed) && NoneEmpty(fields)
    }

    constructor (fl: Rounding)
      requires Monotone(fl)
      ensures Valid() && placed == {} && this.fl == fl
    {
      this.fl := fl;
      fields, placed := map[], {};
    }

    method KeyFor(p: Point) returns (key: nat)
      ensures key == KeyOf(fl, p)
    {
      key := Key(Column(fl, p.lon), Row(fl, p.lat));
    }

    method Insert(field: string, point: Point, id: u64)
      requires Valid()
      modifies this
      ensures Valid() && placed == old(placed) + {(field, point, id)}
    {
      hide KeyOf, Holds, NoneEmpty, IsAt;
      PlacedIsAt(fl, placed, field, point, id);
      var key := KeyFor(point);
      WithIdHolds(fields, field, key, id);
      var tree: Buckets := if field in fields then fields[field] else map[];
      var ids := if key in tree then tree[key] else {};
      fields := fields[field := tree[key := ids + {id}]];
      placed := placed + {(field, point, id)};
    }

    method Remove(field: string, point: Point, id: u64)
      requires Valid()
      modifies this
      ensures Valid() && placed == Without(fl, old(placed), field, KeyOf(fl, point), id)
    {
      hide KeyOf, Holds, NoneEmpty, IsAt, Without;
      WithoutIsAt(fl, placed, field, KeyOf(fl, point), id);
      var key := KeyFor(point);
      WithoutIdHolds(fields, field, key, id);
      if field in fields {
        var tree: Buckets := fields[field];
        if key in tree {
          var ids := tree[key] - {id};
          tree := if ids == {} then tree - {key} else tree[key := ids];
        }
        fields := if tree == map[] then fields - {field} else fields[field := tree];
      }
      placed := Without(fl, placed, field, key, id);
    }

    // Every id whose point is in the box, and no id whose block is apart from it.
    method Candidates(field: string, b: Bounds) returns (ids: set<u64>)
      requires Valid() && IsBox(b)
      ensures forall id: u64 :: id in ids <==> exists t <- placed ::
        t.0 == field && t.2 == id && AnyBlockMeets(RectsOf(fl, b), Column(fl, t.1.lon), Row(fl, t.1.lat))
      ensures forall t <- placed :: t.0 == field && Contains(b, t.1) && -180.0 <= t.1.lon <= 180.0 ==> t.2 in ids
    {
      hide Grid, Interleave, BlockMeets, RectsOf, Contains, IsBox, AnyBlockMeets;
      RectsAreOrdered(fl, b);
      var rects := RectsOf(fl, b);
      if field in fields {
        var intervals := CoverRects(rects);
        ids := Collect(fields[field], intervals);
      } else {
        ids := {};
      }
      forall t | t in placed && t.0 == field
        ensures AnyBlockMeets(rects, Column(fl, t.1.lon), Row(fl, t.1.lat)) ==> t.2 in ids
        ensures Contains(b, t.1) && -180.0 <= t.1.lon <= 180.0 ==> t.2 in ids
      {
        assert IsAt(fl, placed, field, KeyOf(fl, t.1), t.2);
        assert Holds(fields, field, KeyOf(fl, t.1), t.2);
        CoverAllIsExact(rects, Column(fl, t.1.lon), Row(fl, t.1.lat));
        if Contains(b, t.1) && -180.0 <= t.1.lon <= 180.0 {
          ContainedPointsAreCovered(fl, b, t.1);
        }
      }
      forall id: u64 | id in ids
        ensures exists t <- placed ::
          t.0 == field && t.2 == id && AnyBlockMeets(rects, Column(fl, t.1.lon), Row(fl, t.1.lat))
      {
        var key: nat :| key in fields[field] && id in fields[field][key] && Covered(CoverAll(rects), key);
        assert Holds(fields, field, key, id);
        var t :| t in placed && t.0 == field && t.2 == id && KeyOf(fl, t.1) == key;
        CoverAllIsExact(rects, Column(fl, t.1.lon), Row(fl, t.1.lat));
      }
    }
  }

  method CoverRects(rects: seq<Rect>) returns (intervals: seq<Run>)
    ensures intervals == CoverAll(rects)
  {
    hide Cover, Interleave;
    NoBits();
    assert Pow2(16) == 65536 by {
      assert Pow2(8) == 256;
    }
    intervals := [];
    var i := 0;
    while i < |rects|
      invariant 0 <= i <= |rects| && intervals == CoverAll(rects[..i])
    {
      intervals := CoverCell(rects[i], 0, 0, 65536, 0, 0, intervals, 0, 0);
      assert rects[..i + 1][..i] == rects[..i];
      i := i + 1;
    }
    assert rects[..i] == rects;
  }

  // What the buckets hold whose keys lie in one of the intervals.
  method Collect(tree: Buckets, intervals: seq<Run>) returns (ids: set<u64>)
    ensures forall id: u64 :: id in ids <==> exists key: nat :: key in tree && id in tree[key] && Covered(intervals, key)
  {
    ids := {};
    var i := 0;
    while i < |intervals|
      invariant 0 <= i <= |intervals|
      invariant forall id: u64 :: id in ids <==> exists key: nat :: key in tree && id in tree[key] && Covered(intervals[..i], key)
    {
      var run := intervals[i];
      var found := CollectRange(tree, run);
      forall id: u64
        ensures id in ids + found <==>
          exists key: nat :: key in tree && id in tree[key] && Covered(intervals[..i + 1], key)
      {
        forall key: nat
          ensures Covered(intervals[..i + 1], key) <==> Covered(intervals[..i], key) || run.low <= key <= run.high
        {
          assert intervals[..i + 1] == intervals[..i] + [run];
          CoveredByEither(intervals[..i], [run], key);
          assert [run][0] == run;
        }
      }
      ids := ids + found;
      i := i + 1;
    }
    assert intervals[..i] == intervals;
  }

  // `tree.range(low..=high)`, every bucket in turn.
  method CollectRange(tree: Buckets, run: Run) returns (ids: set<u64>)
    ensures forall id: u64 :: id in ids <==> exists key: nat :: key in tree && id in tree[key] && run.low <= key <= run.high
  {
    ids := {};
    var left := set key | key in tree && run.low <= key <= run.high;
    ghost var all := left;
    while left != {}
      invariant left <= all
      invariant forall id: u64 :: id in ids <==> exists key: nat :: key in all - left && id in tree[key]
      decreases left
    {
      var key :| key in left;
      ghost var done := all - left;
      ids := ids + tree[key];
      left := left - {key};
      assert all - left == done + {key};
    }
    assert all - left == all;
  }
}
