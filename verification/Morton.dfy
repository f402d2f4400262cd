/** Morton keys of a 65536 x 65536 grid and the quadtree cover of a rectangle
    (`key` and `cover_cell` in zega/src/location.rs). */
module Morton {

  // ----- shifts -----

  function Pow2(k: nat): (p: nat)
    ensures p > 0
  {
    if k == 0 then 1 else 2 * Pow2(k - 1)
  }

  function Pow4(k: nat): (p: nat)
    ensures p > 0
  {
    if k == 0 then 1 else 4 * Pow4(k - 1)
  }

  // `x >> k`.
  function Shift(x: nat, k: nat): nat
    decreases k
  {
    if k == 0 then x else Shift(x / 2, k - 1)
  }

  // `m >> 2 * k`.
  function ShiftPairs(m: nat, k: nat): nat
    decreases k
  {
    if k == 0 then m else ShiftPairs(m / 4, k - 1)
  }

  lemma {:induction false} HalfInRange(a: nat, w: nat, p: nat)
    ensures w <= a / 2 < w + p <==> 2 * w <= a < 2 * w + 2 * p
    ensures w <= a / 4 < w + p <==> 4 * w <= a < 4 * w + 4 * p
  {
  }

  lemma {:induction false} TimesTwice(x: nat, p: nat)
    ensures x * (2 * p) == 2 * (x * p) && x * (4 * p) == 4 * (x * p)
    ensures (2 * x) * p == 2 * (x * p)
  {
  }

  lemma {:induction false} ShiftIsRange(a: nat, k: nat, x: nat)
    ensures Shift(a, k) == x <==> x * Pow2(k) <= a < x * Pow2(k) + Pow2(k)
    decreases k
  {
    if k == 0 {
      assert x * Pow2(0) == x;
    } else {
      ShiftIsRange(a / 2, k - 1, x);
      UnfoldShift(a, k);
      hide Shift, Pow2;
      TimesTwice(x, Pow2(k - 1));
      HalfInRange(a, x * Pow2(k - 1), Pow2(k - 1));
    }
  }

  lemma {:induction false} UnfoldShift(a: nat, k: nat)
    requires k > 0
    ensures Shift(a, k) == Shift(a / 2, k - 1) && Pow2(k) == 2 * Pow2(k - 1)
    ensures ShiftPairs(a, k) == ShiftPairs(a / 4, k - 1) && Pow4(k) == 4 * Pow4(k - 1)
  {
  }

  lemma {:induction false} ShiftPairsIsRange(m: nat, k: nat, p: nat)
    ensures ShiftPairs(m, k) == p <==> p * Pow4(k) <= m < p * Pow4(k) + Pow4(k)
    decreases k
  {
    if k == 0 {
      assert p * Pow4(0) == p;
    } else {
      ShiftPairsIsRange(m / 4, k - 1, p);
      UnfoldShift(m, k);
      hide ShiftPairs, Pow4;
      TimesTwice(p, Pow4(k - 1));
      HalfInRange(m, p * Pow4(k - 1), Pow4(k - 1));
    }
  }

  lemma {:induction false} ShiftAgain(x: nat, j: nat, k: nat)
    ensures Shift(Shift(x, j), k) == Shift(x, j + k)
    decreases j
  {
    if j > 0 {
      ShiftAgain(x / 2, j - 1, k);
    }
  }

  lemma {:induction false} ShiftOneMore(x: nat, k: nat)
    ensures Shift(x, k + 1) == Shift(x, k) / 2
  {
    ShiftAgain(x, k, 1);
    assert Shift(Shift(x, k), 1) == Shift(Shift(x, k) / 2, 0);
  }

  // ----- interleaving -----

  // The bits of `x` and `y` in turn, those of `x` first.
  function Interleave(x: nat, y: nat): nat
    decreases x + y
  {
    if x == 0 && y == 0 then 0 else x % 2 + 2 * (y % 2) + 4 * Interleave(x / 2, y / 2)
  }

  lemma {:induction false} InterleaveDigits(x: nat, y: nat)
    ensures Interleave(x, y) % 4 == x % 2 + 2 * (y % 2)
    ensures Interleave(x, y) / 4 == Interleave(x / 2, y / 2)
  {
  }

  // Bit `2 * k` of a key is bit `k` of `x`, and the next is bit `k` of `y`.
  lemma {:induction false} InterleaveIsTheBits(x: nat, y: nat, k: nat)
    ensures ShiftPairs(Interleave(x, y), k) % 2 == Shift(x, k) % 2
    ensures ShiftPairs(Interleave(x, y), k) / 2 % 2 == Shift(y, k) % 2
  {
    hide Interleave;
    InterleaveShifts(x, y, k);
    InterleaveDigits(Shift(x, k), Shift(y, k));
    var m := Interleave(Shift(x, k), Shift(y, k));
    assert m % 4 == Shift(x, k) % 2 + 2 * (Shift(y, k) % 2);
    assert m % 2 == m % 4 % 2 && m / 2 % 2 == m % 4 / 2;
  }

  // Different cells have different keys.
  lemma {:induction false} InterleaveIsInjective(x: nat, y: nat, u: nat, v: nat)
    requires Interleave(x, y) == Interleave(u, v)
    ensures x == u && y == v
    decreases x + y + u + v
  {
    InterleaveDigits(x, y);
    InterleaveDigits(u, v);
    if x + y + u + v > 0 {
      InterleaveIsInjective(x / 2, y / 2, u / 2, v / 2);
    }
  }

  // Dropping the low bits of a key drops those of both coordinates.
  lemma {:induction false} InterleaveShifts(x: nat, y: nat, k: nat)
    ensures ShiftPairs(Interleave(x, y), k) == Interleave(Shift(x, k), Shift(y, k))
    decreases k
  {
    hide Interleave;
    if k > 0 {
      InterleaveDigits(x, y);
      InterleaveShifts(x / 2, y / 2, k - 1);
    }
  }

  // Whether a grid point lies in the cell (x, y) of side `Pow2(k)`.
  predicate InCell(a: nat, b: nat, x: nat, y: nat, k: nat) {
    Shift(a, k) == x && Shift(b, k) == y
  }

  // A cell's keys are exactly a run of `Pow4(k)` keys from its prefix on.
  lemma {:induction false} CellIsARun(a: nat, b: nat, x: nat, y: nat, k: nat)
    ensures var p, m := Interleave(x, y), Interleave(a, b);
      InCell(a, b, x, y, k) <==> p * Pow4(k) <= m < p * Pow4(k) + Pow4(k)
  {
    hide Interleave, Shift, ShiftPairs, Pow4;
    InterleaveShifts(a, b, k);
    ShiftPairsIsRange(Interleave(a, b), k, Interleave(x, y));
    if Interleave(Shift(a, k), Shift(b, k)) == Interleave(x, y) {
      InterleaveIsInjective(Shift(a, k), Shift(b, k), x, y);
    }
  }

  // ----- the key loop -----

  lemma {:induction false} NextBits(u: nat, v: nat, p: nat)
    ensures Interleave(u, v) * p == (u % 2) * p + (v % 2) * (2 * p) + Interleave(u / 2, v / 2) * (4 * p)
  {
    hide Interleave;
    InterleaveDigits(u, v);
    var m, h := Interleave(u, v), Interleave(u / 2, v / 2);
    assert m == u % 2 + 2 * (v % 2) + 4 * h;
    Distribute(u % 2, v % 2, h, p);
  }

  lemma {:induction false} Distribute(a: nat, b: nat, h: nat, p: nat)
    ensures (a + 2 * b + 4 * h) * p == a * p + b * (2 * p) + h * (4 * p)
  {
  }

  lemma {:induction false} SixteenBits(x: nat)
    requires x < 65536
    ensures Shift(x, 16) == 0
  {
    assert Pow2(8) == 256;
    assert Pow2(16) == 65536;
    ShiftIsRange(x, 16, 0);
  }

  lemma {:induction false} NoBits()
    ensures Interleave(0, 0) == 0 && Pow4(0) == 1
  {
  }

  method Key(x: nat, y: nat) returns (key: nat)
    requires x < 65536 && y < 65536
    ensures key == Interleave(x, y)
  {
    hide Interleave, Shift;
    NoBits();
    key := 0;
    var bit := 0;
    var u, v := x, y;
    StartOfShift(x, y);
    while bit < 16
      invariant 0 <= bit <= 16 && u == Shift(x, bit) && v == Shift(y, bit)
      invariant key + Interleave(u, v) * Pow4(bit) == Interleave(x, y)
    {
      var place := Pow4(bit);
      assert Pow4(bit + 1) == 4 * place;
      NextBits(u, v, place);
      ShiftOneMore(x, bit);
      ShiftOneMore(y, bit);
      key := key + (u % 2) * place;
      key := key + (v % 2) * (2 * place);
      u, v := u / 2, v / 2;
      bit := bit + 1;
    }
    SixteenBits(x);
    SixteenBits(y);
  }

  lemma {:induction false} StartOfShift(x: nat, y: nat)
    ensures Shift(x, 0) == x && Shift(y, 0) == y
  {
  }

  // ----- covering a rectangle -----

  // Corners of a rectangle of grid points, all included.
  datatype Rect = Rect(west: nat, south: nat, east: nat, north: nat) {
    predicate Ordered() {
      west <= east && south <= north
    }
  }

  // The square of side `size` at (x, y) has no point in the rectangle.
  predicate Apart(r: Rect, x: nat, y: nat, size: nat) {
    x > r.east || y > r.north || x + size - 1 < r.west || y + size - 1 < r.south
  }

  // All its points are in the rectangle.
  predicate Within(r: Rect, x: nat, y: nat, size: nat) {
    x >= r.west && y >= r.south && x + size - 1 <= r.east && y + size - 1 <= r.north
  }

  datatype Run = Run(low: nat, high: nat)

  // All keys that start with `prefix`, `k` pairs of bits being left.
  function PrefixRun(prefix: nat, k: nat): Run {
    Run(prefix * Pow4(k), (prefix + 1) * Pow4(k) - 1)
  }

  // Blocks this fine are not split further.
  const FINEST: nat := 8

  function Cover(r: Rect, x: nat, y: nat, k: nat): seq<Run>
    requires k >= FINEST
    decreases k
  {
    var size := Pow2(k);
    if Apart(r, x * size, y * size, size) then []
    else if k == FINEST || Within(r, x * size, y * size, size) then [PrefixRun(Interleave(x, y), k)]
    else
      Cover(r, 2 * x, 2 * y, k - 1) + Cover(r, 2 * x + 1, 2 * y, k - 1)
      + Cover(r, 2 * x, 2 * y + 1, k - 1) + Cover(r, 2 * x + 1, 2 * y + 1, k - 1)
  }

  predicate Ascending(runs: seq<Run>) {
    && (forall i :: 0 <= i < |runs| ==> runs[i].low <= runs[i].high)
    && (forall i, j :: 0 <= i < j < |runs| ==> runs[i].high < runs[j].low)
  }

  predicate Inside(runs: seq<Run>, low: nat, end: nat) {
    forall i :: 0 <= i < |runs| ==> low <= runs[i].low && runs[i].high < end
  }

  ghost predicate IsAligned(run: Run) {
    exists prefix, k :: k >= FINEST && run == PrefixRun(prefix, k)
  }

  lemma {:induction false} JoinRuns(a: seq<Run>, b: seq<Run>, low: nat, mid: nat, end: nat)
    requires Ascending(a) && Ascending(b) && Inside(a, low, mid) && Inside(b, mid, end) && low <= mid <= end
    ensures Ascending(a + b) && Inside(a + b, low, end)
  {
  }

  lemma {:induction false} ChildDigits(x: nat, y: nat, i: nat, j: nat)
    requires i < 2 && j < 2
    ensures Interleave(2 * x + i, 2 * y + j) == 4 * Interleave(x, y) + i + 2 * j
  {
    hide Interleave;
    InterleaveDigits(2 * x + i, 2 * y + j);
    assert (2 * x + i) / 2 == x && (2 * y + j) / 2 == y;
    assert (2 * x + i) % 2 == i && (2 * y + j) % 2 == j;
  }

  lemma {:induction false} ChildPrefixes(x: nat, y: nat)
    ensures Interleave(2 * x, 2 * y) == 4 * Interleave(x, y)
    ensures Interleave(2 * x + 1, 2 * y) == 4 * Interleave(x, y) + 1
    ensures Interleave(2 * x, 2 * y + 1) == 4 * Interleave(x, y) + 2
    ensures Interleave(2 * x + 1, 2 * y + 1) == 4 * Interleave(x, y) + 3
  {
    hide Interleave;
    ChildDigits(x, y, 0, 0);
    ChildDigits(x, y, 1, 0);
    ChildDigits(x, y, 0, 1);
    ChildDigits(x, y, 1, 1);
  }

  lemma {:induction false} FourRuns(a: seq<Run>, b: seq<Run>, c: seq<Run>, d: seq<Run>, p: nat, q: nat)
    requires Ascending(a) && Inside(a, 4 * p * q, (4 * p + 1) * q)
    requires Ascending(b) && Inside(b, (4 * p + 1) * q, (4 * p + 2) * q)
    requires Ascending(c) && Inside(c, (4 * p + 2) * q, (4 * p + 3) * q)
    requires Ascending(d) && Inside(d, (4 * p + 3) * q, (4 * p + 4) * q)
    ensures Ascending(a + b + c + d) && Inside(a + b + c + d, p * (4 * q), (p + 1) * (4 * q))
  {
    hide Ascending, Inside;
    Quarters(p, q);
    JoinRuns(a, b, 4 * p * q, (4 * p + 1) * q, (4 * p + 2) * q);
    JoinRuns(a + b, c, 4 * p * q, (4 * p + 2) * q, (4 * p + 3) * q);
    JoinRuns(a + b + c, d, 4 * p * q, (4 * p + 3) * q, (4 * p + 4) * q);
  }

  lemma {:induction false} Quarters(p: nat, q: nat)
    ensures p * (4 * q) == 4 * p * q && (p + 1) * (4 * q) == (4 * p + 4) * q
    ensures 4 * p * q <= (4 * p + 1) * q <= (4 * p + 2) * q <= (4 * p + 3) * q <= (4 * p + 4) * q
  {
  }

  lemma {:induction false} OneRun(prefix: nat, k: nat)
    ensures Ascending([PrefixRun(prefix, k)])
    ensures Inside([PrefixRun(prefix, k)], prefix * Pow4(k), (prefix + 1) * Pow4(k))
  {
    assert (prefix + 1) * Pow4(k) == prefix * Pow4(k) + Pow4(k);
  }

  // The runs come in order, apart, and within the cell's own run.
  lemma {:induction false} CoverAscends(r: Rect, x: nat, y: nat, k: nat)
    requires k >= FINEST
    ensures Ascending(Cover(r, x, y, k))
    ensures Inside(Cover(r, x, y, k), Interleave(x, y) * Pow4(k), (Interleave(x, y) + 1) * Pow4(k))
    decreases k
  {
    hide Interleave, Cover, Ascending, Inside;
    CoverUnfolds(r, x, y, k);
    var p := Interleave(x, y);
    if Split(r, x, y, k) {
      ChildPrefixes(x, y);
      CoverAscends(r, 2 * x, 2 * y, k - 1);
      CoverAscends(r, 2 * x + 1, 2 * y, k - 1);
      CoverAscends(r, 2 * x, 2 * y + 1, k - 1);
      CoverAscends(r, 2 * x + 1, 2 * y + 1, k - 1);
      FourRuns(Cover(r, 2 * x, 2 * y, k - 1), Cover(r, 2 * x + 1, 2 * y, k - 1),
               Cover(r, 2 * x, 2 * y + 1, k - 1), Cover(r, 2 * x + 1, 2 * y + 1, k - 1), p, Pow4(k - 1));
    } else {
      OneRun(p, k);
      NoRuns(p * Pow4(k), (p + 1) * Pow4(k));
    }
  }

  lemma {:induction false} NoRuns(low: nat, end: nat)
    ensures Ascending([]) && Inside([], low, end)
  {
  }

  // Whether a cell is covered by its four children's covers.
  predicate Split(r: Rect, x: nat, y: nat, k: nat) {
    var size := Pow2(k);
    k > FINEST && !Apart(r, x * size, y * size, size) && !Within(r, x * size, y * size, size)
  }

  lemma {:induction false} CoverUnfolds(r: Rect, x: nat, y: nat, k: nat)
    requires k >= FINEST
    ensures var size := Pow2(k);
      Cover(r, x, y, k) ==
      if Split(r, x, y, k) then
        Cover(r, 2 * x, 2 * y, k - 1) + Cover(r, 2 * x + 1, 2 * y, k - 1)
        + Cover(r, 2 * x, 2 * y + 1, k - 1) + Cover(r, 2 * x + 1, 2 * y + 1, k - 1)
      else if Apart(r, x * size, y * size, size) then []
      else [PrefixRun(Interleave(x, y), k)]
  {
    hide Interleave, Pow2, Pow4, Apart, Within;
  }

  lemma {:induction false} CoverIsAligned(r: Rect, x: nat, y: nat, k: nat)
    requires k >= FINEST
    ensures forall run <- Cover(r, x, y, k) :: IsAligned(run)
    decreases k
  {
    hide Interleave, Cover, PrefixRun, Split, Apart, Within;
    CoverUnfolds(r, x, y, k);
    if Split(r, x, y, k) {
      assert k > FINEST by {
        SplitIsCoarse(r, x, y, k);
      }
      CoverIsAligned(r, 2 * x, 2 * y, k - 1);
      CoverIsAligned(r, 2 * x + 1, 2 * y, k - 1);
      CoverIsAligned(r, 2 * x, 2 * y + 1, k - 1);
      CoverIsAligned(r, 2 * x + 1, 2 * y + 1, k - 1);
    } else {
      assert IsAligned(PrefixRun(Interleave(x, y), k));
    }
  }

  lemma {:induction false} SplitIsCoarse(r: Rect, x: nat, y: nat, k: nat)
    requires Split(r, x, y, k)
    ensures k > FINEST
  {
  }

  predicate Covered(runs: seq<Run>, m: nat) {
    exists i :: 0 <= i < |runs| && runs[i].low <= m <= runs[i].high
  }

  lemma {:induction false} CoveredByEither(a: seq<Run>, b: seq<Run>, m: nat)
    ensures Covered(a + b, m) <==> Covered(a, m) || Covered(b, m)
  {
    if Covered(a, m) {
      var i :| 0 <= i < |a| && a[i].low <= m <= a[i].high;
      assert (a + b)[i] == a[i];
    }
    if Covered(b, m) {
      var i :| 0 <= i < |b| && b[i].low <= m <= b[i].high;
      assert (a + b)[|a| + i] == b[i];
    }
  }

  lemma {:induction false} CoveredByOne(prefix: nat, k: nat, m: nat)
    ensures Covered([PrefixRun(prefix, k)], m) <==> prefix * Pow4(k) <= m < prefix * Pow4(k) + Pow4(k)
  {
    var run := PrefixRun(prefix, k);
    assert (prefix + 1) * Pow4(k) == prefix * Pow4(k) + Pow4(k);
    assert [run][0] == run;
  }

  // The aligned block of 256 x 256 grid points around one of them.
  predicate BlockMeets(r: Rect, a: nat, b: nat) {
    var size := Pow2(FINEST);
    !Apart(r, Shift(a, FINEST) * size, Shift(b, FINEST) * size, size)
  }

  lemma {:induction false} BlockInCell(a: nat, x: nat, k: nat)
    requires Shift(a, k) == x && k >= FINEST
    ensures x * Pow2(k) <= Shift(a, FINEST) * Pow2(FINEST)
    ensures Shift(a, FINEST) * Pow2(FINEST) + Pow2(FINEST) <= x * Pow2(k) + Pow2(k)
  {
    hide Shift, Pow2;
    var q, n := Shift(a, FINEST), Pow2(k - FINEST);
    ShiftAgain(a, FINEST, k - FINEST);
    ShiftIsRange(q, k - FINEST, x);
    Pow2Splits(k - FINEST, FINEST);
    BlockWithin(x * n, q, x, n, Pow2(FINEST));
  }

  // `n` blocks make a cell, and block `q` is one of those from block `low` on.
  lemma {:induction false} BlockWithin(low: nat, q: nat, x: nat, n: nat, block: nat)
    requires low == x * n && low <= q < low + n
    ensures x * (n * block) <= q * block && q * block + block <= x * (n * block) + n * block
  {
    Grouped(x, n, block);
    Scaled(low, q, block);
    Scaled(q + 1, low + n, block);
    Distributes(q, 1, block);
    Distributes(low, n, block);
  }

  lemma {:induction false} Grouped(a: nat, b: nat, c: nat)
    ensures (a * b) * c == a * (b * c)
  {
  }

  lemma {:induction false} Distributes(a: nat, b: nat, c: nat)
    ensures (a + b) * c == a * c + b * c
  {
  }

  lemma {:induction false} Scaled(a: nat, b: nat, c: nat)
    requires a <= b
    ensures a * c <= b * c
  {
  }

  lemma {:induction false} Pow2Splits(j: nat, k: nat)
    ensures Pow2(j + k) == Pow2(j) * Pow2(k)
    decreases j
  {
    if j == 0 {
      assert Pow2(0) * Pow2(k) == Pow2(k);
    } else {
      Pow2Splits(j - 1, k);
      Halves(j);
      Halves(j + k);
      hide Pow2;
      TimesTwice(Pow2(j - 1), Pow2(k));
    }
  }

  // Within a cell, a key is covered exactly when its block meets the rectangle.
  lemma {:induction false} CoverIsExact(r: Rect, x: nat, y: nat, k: nat, a: nat, b: nat)
    requires r.Ordered() && k >= FINEST
    ensures Covered(Cover(r, x, y, k), Interleave(a, b)) <==> InCell(a, b, x, y, k) && BlockMeets(r, a, b)
    decreases k
  {
    hide Interleave, Cover, Covered, InCell, Shift, Pow4;
    CoverUnfolds(r, x, y, k);
    if Split(r, x, y, k) {
      CoverIsExact(r, 2 * x, 2 * y, k - 1, a, b);
      CoverIsExact(r, 2 * x + 1, 2 * y, k - 1, a, b);
      CoverIsExact(r, 2 * x, 2 * y + 1, k - 1, a, b);
      CoverIsExact(r, 2 * x + 1, 2 * y + 1, k - 1, a, b);
      ChildCells(a, b, x, y, k);
      var p, q := Cover(r, 2 * x, 2 * y, k - 1), Cover(r, 2 * x + 1, 2 * y, k - 1);
      var s, t := Cover(r, 2 * x, 2 * y + 1, k - 1), Cover(r, 2 * x + 1, 2 * y + 1, k - 1);
      CoveredByEither(p, q, Interleave(a, b));
      CoveredByEither(p + q, s, Interleave(a, b));
      CoveredByEither(p + q + s, t, Interleave(a, b));
    } else {
      WholeCell(r, x, y, k, a, b);
    }
  }

  lemma {:induction false} WholeCell(r: Rect, x: nat, y: nat, k: nat, a: nat, b: nat)
    requires r.Ordered() && k >= FINEST && !Split(r, x, y, k)
    ensures var size := Pow2(k);
      Covered(if Apart(r, x * size, y * size, size) then [] else [PrefixRun(Interleave(x, y), k)], Interleave(a, b))
      <==> InCell(a, b, x, y, k) && BlockMeets(r, a, b)
  {
    hide Interleave, Shift, Pow2, Pow4, PrefixRun;
    var size := Pow2(k);
    CellIsARun(a, b, x, y, k);
    CoveredByOne(Interleave(x, y), k, Interleave(a, b));
    if InCell(a, b, x, y, k) {
      BlockInCell(a, x, k);
      BlockInCell(b, y, k);
    }
  }

  lemma {:induction false} HalfShift(a: nat, x: nat, k: nat)
    requires k > 0
    ensures Shift(a, k) == x <==> Shift(a, k - 1) == 2 * x || Shift(a, k - 1) == 2 * x + 1
  {
    ShiftOneMore(a, k - 1);
  }

  lemma {:induction false} ChildCells(a: nat, b: nat, x: nat, y: nat, k: nat)
    requires k > 0
    ensures InCell(a, b, x, y, k) <==>
      || InCell(a, b, 2 * x, 2 * y, k - 1) || InCell(a, b, 2 * x + 1, 2 * y, k - 1)
      || InCell(a, b, 2 * x, 2 * y + 1, k - 1) || InCell(a, b, 2 * x + 1, 2 * y + 1, k - 1)
  {
    hide Shift;
    HalfShift(a, x, k);
    HalfShift(b, y, k);
  }

  // The whole grid: a key is covered exactly when its block meets the rectangle.
  lemma {:induction false} GridCoverIsExact(r: Rect, a: nat, b: nat)
    requires r.Ordered() && a < 65536 && b < 65536
    ensures Covered(Cover(r, 0, 0, 16), Interleave(a, b)) <==> BlockMeets(r, a, b)
  {
    hide Interleave, Shift, Cover, Covered, BlockMeets;
    SixteenBits(a);
    SixteenBits(b);
    CoverIsExact(r, 0, 0, 16, a, b);
  }

  // ----- the recursion that pushes the runs -----

  // The cell (cx, cy) starts at the grid point (x, y).
  method CoverCell(r: Rect, x: nat, y: nat, size: nat, prefix: nat, depth: nat, out: seq<Run>, ghost cx: nat, ghost cy: nat)
    returns (pushed: seq<Run>)
    requires depth <= 8 && size == Pow2(16 - depth) && x == cx * size && y == cy * size
    requires prefix == Interleave(cx, cy)
    ensures pushed == out + Cover(r, cx, cy, 16 - depth)
    decreases 16 - depth
  {
    hide Interleave, Pow2, Pow4, Cover;
    CoverUnfolds(r, cx, cy, 16 - depth);
    if x > r.east || y > r.north || x + size - 1 < r.west || y + size - 1 < r.south {
      return out;
    }
    if depth == 8
       || (x >= r.west && y >= r.south && x + size - 1 <= r.east && y + size - 1 <= r.north)
    {
      return out + [PrefixRun(prefix, 16 - depth)];
    }
    var half := size / 2;
    Halves(16 - depth);
    Doubled(cx, half);
    Doubled(cy, half);
    ChildPrefixes(cx, cy);
    pushed := CoverCell(r, x, y, half, prefix * 4, depth + 1, out, 2 * cx, 2 * cy);
    pushed := CoverCell(r, x + half, y, half, prefix * 4 + 1, depth + 1, pushed, 2 * cx + 1, 2 * cy);
    pushed := CoverCell(r, x, y + half, half, prefix * 4 + 2, depth + 1, pushed, 2 * cx, 2 * cy + 1);
    pushed := CoverCell(r, x + half, y + half, half, prefix * 4 + 3, depth + 1, pushed, 2 * cx + 1, 2 * cy + 1);
  }

  lemma {:induction false} Halves(k: nat)
    requires k > 0
    ensures Pow2(k) == 2 * Pow2(k - 1)
  {
  }

  lemma {:induction false} Doubled(c: nat, half: nat)
    ensures c * (2 * half) == (2 * c) * half && c * (2 * half) + half == (2 * c + 1) * half
  {
  }
}
