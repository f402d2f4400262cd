/** Civil dates and day numbers (`date` and `format_date` in zega/src/history.rs).

    The closed forms the program evaluates are `DayNumber` and `CivilOf`. They are
    proved against counting: `Walk` takes one calendar day at a time from
    1970-01-01, with the month lengths and the leap rule of section 5.7 of
    RFC 3339. */
module Calendar {
  datatype Civil = Civil(y: int, m: int, d: int)

  predicate Leap(y: int) {
    y % 4 == 0 && (y % 100 != 0 || y % 400 == 0)
  }

  function DaysIn(y: int, m: int): int {
    if m == 2 then (if Leap(y) then 29 else 28)
    else if m == 4 || m == 6 || m == 9 || m == 11 then 30
    else 31
  }

  predicate Real(c: Civil) {
    1 <= c.m <= 12 && 1 <= c.d <= DaysIn(c.y, c.m)
  }

  // ----- counting, one day at a time -----

  function Next(c: Civil): Civil {
    if c.d < DaysIn(c.y, c.m) then Civil(c.y, c.m, c.d + 1)
    else if c.m < 12 then Civil(c.y, c.m + 1, 1)
    else Civil(c.y + 1, 1, 1)
  }

  function Previous(c: Civil): Civil {
    if c.d > 1 then Civil(c.y, c.m, c.d - 1)
    else if c.m > 1 then Civil(c.y, c.m - 1, DaysIn(c.y, c.m - 1))
    else Civil(c.y - 1, 12, 31)
  }

  const EPOCH := Civil(1970, 1, 1)

  // The civil date `n` days after the epoch (before it, when `n` is negative).
  function Walk(n: int): (c: Civil)
    ensures Real(c)
    decreases if n < 0 then -n else n
  {
    if n == 0 then EPOCH
    else if n > 0 then Next(Walk(n - 1))
    else Previous(Walk(n + 1))
  }

  predicate Before(a: Civil, b: Civil) {
    a.y < b.y || (a.y == b.y && (a.m < b.m || (a.m == b.m && a.d < b.d)))
  }

  // ----- the closed forms -----

  // Days of the first `yoe` March-based years of a 400-year era.
  function EraDays(yoe: int): int {
    yoe * 365 + yoe / 4 - yoe / 100
  }

  // Days from a first of March of year 0 to the first of March of `year`.
  function YearStart(year: int): int {
    var era := year / 400;
    era * 146097 + EraDays(year - era * 400)
  }

  // Days from the first of March to the first of the month `mp` months later.
  function MonthStart(mp: int): int {
    (153 * mp + 2) / 5
  }

  // The months of the March-based year a date is in: March is 0, February is 11.
  function MonthIndex(m: int): int {
    m + (if m > 2 then -3 else 9)
  }

  function MarchYear(c: Civil): int {
    c.y - (if c.m <= 2 then 1 else 0)
  }

  function DayNumber(c: Civil): int {
    YearStart(MarchYear(c)) + MonthStart(MonthIndex(c.m)) + c.d - 1 - 719468
  }

  function YearOfEra(doe: int): int {
    (doe - doe / 1460 + doe / 36524 - doe / 146096) / 365
  }

  function CivilOf(day: int): Civil {
    var z := day + 719468;
    var era := z / 146097;
    var doe := z - era * 146097;
    var yoe := YearOfEra(doe);
    var doy := doe - EraDays(yoe);
    var mp := (5 * doy + 2) / 153;
    var d := doy - (153 * mp + 2) / 5 + 1;
    var m := mp + (if mp < 10 then 3 else -9);
    Civil(yoe + era * 400 + (if m <= 2 then 1 else 0), m, d)
  }

  // ----- the closed form counts -----

  lemma {:induction false} EraDaysStep(yoe: int)
    requires 0 <= yoe < 400
    ensures EraDays(yoe + 1) - EraDays(yoe) == if Leap(yoe + 1) && yoe != 399 then 366 else 365
  {
    var q, c := yoe / 4, yoe / 100;
    assert (yoe + 1) / 4 == if (yoe + 1) % 4 == 0 then q + 1 else q;
    assert (yoe + 1) / 100 == if (yoe + 1) % 100 == 0 then c + 1 else c;
    assert (yoe + 1) % 100 == 0 ==> (yoe + 1) % 4 == 0;
    assert (yoe + 1) % 400 == 0 <==> yoe == 399;
  }

  lemma {:induction false} LeapInEra(year: int, era: int, yoe: int)
    requires year == 400 * era + yoe
    ensures Leap(year + 1) == Leap(yoe + 1)
  {
    assert (year + 1) / 4 == 100 * era + (yoe + 1) / 4;
    assert (year + 1) / 100 == 4 * era + (yoe + 1) / 100;
    assert (year + 1) / 400 == era + (yoe + 1) / 400;
  }

  lemma {:induction false} YearLength(year: int)
    ensures YearStart(year + 1) - YearStart(year) == if Leap(year + 1) then 366 else 365
  {
    var era, yoe := year / 400, year % 400;
    LeapInEra(year, era, yoe);
    EraDaysStep(yoe);
    assert EraDays(0) == 0 && EraDays(400) == 146096 && Leap(400);
    hide EraDays, Leap;
    if yoe == 399 {
      assert (year + 1) / 400 == era + 1;
    } else {
      assert (year + 1) / 400 == era;
    }
  }

  lemma {:induction false} MonthLength(mp: int)
    requires 0 <= mp < 11
    ensures MonthStart(mp + 1) - MonthStart(mp) == if mp == 1 || mp == 3 || mp == 6 || mp == 8 then 30 else 31
    ensures MonthStart(0) == 0 && MonthStart(11) == 337
  {
  }

  lemma {:induction false} NextIsOneMore(c: Civil)
    requires Real(c)
    ensures DayNumber(Next(c)) == DayNumber(c) + 1
  {
    if c.d == DaysIn(c.y, c.m) {
      if c.m == 2 {
        YearLength(c.y - 1);
        MonthLength(0);
      } else {
        MonthLength(MonthIndex(c.m));
      }
      hide YearStart, MonthStart, Leap;
      assert DaysIn(c.y, c.m) == c.d;
    }
  }

  lemma {:induction false} PreviousThenNext(c: Civil)
    requires Real(c)
    ensures Real(Previous(c)) && Next(Previous(c)) == c
  {
  }

  lemma {:induction false} WalkSteps(n: int)
    ensures Walk(n + 1) == Next(Walk(n))
  {
    if n < 0 {
      PreviousThenNext(Walk(n + 1));
    }
  }

  lemma {:induction false} WalkStepCounts(n: int)
    ensures DayNumber(Walk(n + 1)) == DayNumber(Walk(n)) + 1
  {
    WalkSteps(n);
    NextIsOneMore(Walk(n));
  }

  lemma {:induction false} EpochIsDayZero()
    ensures DayNumber(EPOCH) == 0
  {
  }

  lemma {:induction false} WalkCounts(n: int)
    ensures DayNumber(Walk(n)) == n
    decreases if n < 0 then -n else n
  {
    EpochIsDayZero();
    hide DayNumber;
    if n == 0 {
    } else if n > 0 {
      WalkCounts(n - 1);
      WalkStepCounts(n - 1);
    } else {
      WalkCounts(n + 1);
      WalkStepCounts(n);
    }
  }

  // ----- the inverse -----

  // A day of a March-based year `yoe` of the era, `doy` days in.
  predicate InEra(yoe: int, doy: int) {
    && 0 <= yoe < 400
    && 0 <= doy < (if Leap(yoe + 1) then 366 else 365)
  }

  lemma {:induction false} YearOfEraIsExact(yoe: int, doy: int)
    requires InEra(yoe, doy)
    ensures 0 <= EraDays(yoe) + doy < 146097
    ensures YearOfEra(EraDays(yoe) + doy) == yoe
  {
    var c, q, r := yoe / 100, yoe % 100 / 4, yoe % 4;
    assert yoe == 100 * c + 4 * q + r && 0 <= c < 4 && 0 <= q < 25;
    assert yoe / 4 == 25 * c + q;
    LeapDayIsLast(c, q, r, doy);
    hide Leap;
    QuotientsOfDay(c, q, r, doy);
  }

  // Day 366 of a year closes a group of four years, and not a century but the fourth.
  lemma {:induction false} LeapDayIsLast(c: int, q: int, r: int, doy: int)
    requires 0 <= c < 4 && 0 <= q < 25 && 0 <= r < 4
    requires InEra(100 * c + 4 * q + r, doy)
    ensures doy == 365 ==> r == 3 && (q == 24 ==> c == 3)
  {
  }

  lemma {:induction false} QuotientsOfDay(c: int, q: int, r: int, doy: int)
    requires 0 <= c < 4 && 0 <= q < 25 && 0 <= r < 4 && 0 <= doy <= 365
    requires doy == 365 ==> r == 3 && (q == 24 ==> c == 3)
    ensures var doe := 36524 * c + 1461 * q + 365 * r + doy;
      0 <= doe < 146097 && YearOfEra(doe) == 100 * c + 4 * q + r
  {
    var doe := 36524 * c + 1461 * q + 365 * r + doy;
    var over := 24 * c + q + 365 * r + doy;
    var e := if over >= 1460 then 1 else 0;
    assert doe == 1460 * (25 * c + q) + over;
    assert doe / 1460 == 25 * c + q + e;
    var f := if doe == 146096 then 1 else 0;
    assert doe / 36524 == c + f && doe / 146096 == f;
    assert doe - doe / 1460 + doe / 36524 - doe / 146096 == 365 * (100 * c + 4 * q + r) + (doy - e);
  }

  lemma {:induction false} MonthOfDay(mp: int, d: int)
    requires 0 <= mp < 12 && 1 <= d <= 31
    requires mp == 1 || mp == 3 || mp == 6 || mp == 8 ==> d <= 30
    requires mp == 11 ==> d <= 29
    ensures var doy := MonthStart(mp) + d - 1; (5 * doy + 2) / 153 == mp && 0 <= doy <= 365 && (mp < 11 ==> doy < 337)
  {
  }

  // A date as a day of its era.
  lemma {:induction false} DayOfEra(c: Civil) returns (era: int, yoe: int, doy: int)
    requires Real(c)
    ensures InEra(yoe, doy)
    ensures DayNumber(c) + 719468 == era * 146097 + EraDays(yoe) + doy
    ensures doy == MonthStart(MonthIndex(c.m)) + c.d - 1 && (5 * doy + 2) / 153 == MonthIndex(c.m)
    ensures MarchYear(c) == yoe + era * 400
  {
    var year := MarchYear(c);
    era, yoe := year / 400, year % 400;
    doy := MonthStart(MonthIndex(c.m)) + c.d - 1;
    MonthOfDay(MonthIndex(c.m), c.d);
    LeapInEra(year, era, yoe);
    MonthLength(0);
    hide Leap, EraDays, MonthStart;
    if MonthIndex(c.m) < 11 {
      assert doy < 365;
    }
  }

  // The closed form, once the day of the era is known.
  lemma {:induction false} CivilOfDayOfEra(day: int, era: int, yoe: int, doy: int, mp: int)
    requires day + 719468 == era * 146097 + EraDays(yoe) + doy
    requires 0 <= EraDays(yoe) + doy < 146097 && YearOfEra(EraDays(yoe) + doy) == yoe
    requires (5 * doy + 2) / 153 == mp && 0 <= mp < 12
    ensures var m := mp + (if mp < 10 then 3 else -9);
      CivilOf(day) == Civil(yoe + era * 400 + (if m <= 2 then 1 else 0), m, doy - MonthStart(mp) + 1)
  {
    hide YearOfEra, EraDays;
    var z, doe := day + 719468, EraDays(yoe) + doy;
    assert z / 146097 == era && z - era * 146097 == doe;
  }

  lemma {:induction false} CivilOfDayNumber(c: Civil)
    requires Real(c)
    ensures CivilOf(DayNumber(c)) == c
  {
    var era, yoe, doy := DayOfEra(c);
    YearOfEraIsExact(yoe, doy);
    hide DayNumber, YearOfEra, EraDays, InEra, CivilOf, MonthStart;
    CivilOfDayOfEra(DayNumber(c), era, yoe, doy, MonthIndex(c.m));
  }

  // ----- both directions -----

  // Every real date is reached by walking, and only at its own day number.
  lemma {:induction false} EveryDateIsWalked(c: Civil)
    requires Real(c)
    ensures Walk(DayNumber(c)) == c
  {
    var w := Walk(DayNumber(c));
    WalkCounts(DayNumber(c));
    CivilOfDayNumber(c);
    CivilOfDayNumber(w);
  }

  lemma {:induction false} CivilOfIsWalk(day: int)
    ensures CivilOf(day) == Walk(day) && Real(CivilOf(day)) && DayNumber(CivilOf(day)) == day
  {
    WalkCounts(day);
    CivilOfDayNumber(Walk(day));
  }

  lemma {:induction false} WalkIsOrdered(a: int, b: int)
    requires a < b
    ensures Before(Walk(a), Walk(b))
    decreases b - a
  {
    WalkSteps(b - 1);
    if a < b - 1 {
      WalkIsOrdered(a, b - 1);
    }
  }

  // Earlier dates have smaller day numbers, and only they do.
  lemma {:induction false} DayNumberIsOrdered(a: Civil, b: Civil)
    requires Real(a) && Real(b)
    ensures Before(a, b) <==> DayNumber(a) < DayNumber(b)
  {
    EveryDateIsWalked(a);
    EveryDateIsWalked(b);
    if DayNumber(a) < DayNumber(b) {
      WalkIsOrdered(DayNumber(a), DayNumber(b));
    } else if DayNumber(b) < DayNumber(a) {
      WalkIsOrdered(DayNumber(b), DayNumber(a));
    }
  }
}
