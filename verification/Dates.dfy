/** Dates as text (`date` and `format_date` in zega/src/history.rs): the strict
    parser, the printer, and what they undo of each other. Text is one `char`
    per byte. */
module Dates {
  import opened Calendar
  import opened Wrappers

  // ----- instants and their spellings -----

  datatype Instant = Instant(date: Civil, h: int, n: int, s: int)

  predicate Possible(i: Instant) {
    Real(i.date) && 0 <= i.h <= 23 && 0 <= i.n <= 59 && 0 <= i.s <= 59
  }

  function Seconds(i: Instant): int {
    DayNumber(i.date) * 86400 + i.h * 3600 + i.n * 60 + i.s
  }

  predicate Earlier(a: Instant, b: Instant) {
    || Before(a.date, b.date)
    || (a.date == b.date && (a.h < b.h || (a.h == b.h && (a.n < b.n || (a.n == b.n && a.s < b.s)))))
  }

  predicate Digit(c: char) {
    '0' <= c <= '9'
  }

  function DigitValue(c: char): (v: nat)
    requires Digit(c)
    ensures v < 10
  {
    c as int - '0' as int
  }

  function DigitChar(n: nat): (c: char)
    requires n < 10
    ensures Digit(c) && DigitValue(c) == n
  {
    (n + '0' as int) as char
  }

  function Number(text: string): nat
    requires forall c :: c in text ==> Digit(c)
  {
    if text == [] then 0 else 10 * Number(text[..|text| - 1]) + DigitValue(text[|text| - 1])
  }

  predicate Separator(i: int) {
    i == 4 || i == 7 || i == 10 || i == 13 || i == 16
  }

  predicate Shaped(text: string) {
    && (|text| == 10 || |text| == 16 || |text| == 19)
    && text[4] == '-' && text[7] == '-'
    && (|text| >= 16 ==> text[10] == 'T' && text[13] == ':')
    && (|text| == 19 ==> text[16] == ':')
    && (forall i :: 0 <= i < |text| && !Separator(i) ==> Digit(text[i]))
  }

  function Fields(text: string): Instant
    requires Shaped(text)
  {
    Instant(
      Civil(Number(text[..4]), Number(text[5..7]), Number(text[8..10])),
      if |text| >= 16 then Number(text[11..13]) else 0,
      if |text| >= 16 then Number(text[14..16]) else 0,
      if |text| == 19 then Number(text[17..19]) else 0)
  }

  datatype BadDate = BadDate

  // Strict: exactly these three lengths, and only days that exist.
  function Date(text: string): Result<int, BadDate> {
    if !Shaped(text) then Err(BadDate)
    else
      var i := Fields(text);
      if !(1 <= i.date.m <= 12) || i.date.d < 1 || i.date.d > DaysIn(i.date.y, i.date.m)
         || i.h > 23 || i.n > 59 || i.s > 59
      then Err(BadDate)
      else Ok(Seconds(i))
  }

  function Decimal(n: nat): string {
    if n < 10 then [DigitChar(n)] else Decimal(n / 10) + [DigitChar(n % 10)]
  }

  // `{:0width}`: zeros go between the sign and the digits.
  function Padded(n: int, width: nat): string
    decreases width
  {
    var digits := if n < 0 then Decimal(-n) else Decimal(n);
    var room := if n < 0 then width - 1 else width;
    (if n < 0 then "-" else "") + Zeros(room - |digits|) + digits
  }

  function Zeros(n: int): string {
    if n <= 0 then "" else "0" + Zeros(n - 1)
  }

  function InstantOf(t: int): Instant {
    var seconds := t % 86400;
    Instant(CivilOf(t / 86400), seconds / 3600, seconds % 3600 / 60, seconds % 60)
  }

  function Spell(i: Instant): string {
    var minute := Padded(i.date.y, 4) + "-" + Padded(i.date.m, 2) + "-" + Padded(i.date.d, 2) +
      "T" + Padded(i.h, 2) + ":" + Padded(i.n, 2);
    if i.s == 0 then minute else minute + ":" + Padded(i.s, 2)
  }

  function FormatDate(t: int): string {
    Spell(InstantOf(t))
  }

  lemma {:induction false} ClockSplits(seconds: int)
    requires 0 <= seconds < 86400
    ensures var h, n, s := seconds / 3600, seconds % 3600 / 60, seconds % 60;
      0 <= h < 24 && 0 <= n < 60 && 0 <= s < 60 && h * 3600 + n * 60 + s == seconds
  {
  }

  lemma {:induction false} ClockIsUnique(h: int, n: int, s: int)
    requires 0 <= h < 24 && 0 <= n < 60 && 0 <= s < 60
    ensures var seconds := h * 3600 + n * 60 + s;
      0 <= seconds < 86400 && seconds / 3600 == h && seconds % 3600 / 60 == n && seconds % 60 == s
  {
  }

  lemma {:induction false} InstantOfIsExact(t: int)
    ensures Possible(InstantOf(t)) && Seconds(InstantOf(t)) == t
  {
    hide CivilOf, DayNumber, Real;
    CivilOfIsWalk(t / 86400);
    ClockSplits(t % 86400);
  }

  lemma {:induction false} SecondsDetermineInstant(a: Instant, b: Instant)
    requires Possible(a) && Possible(b)
    ensures Earlier(a, b) <==> Seconds(a) < Seconds(b)
  {
    DayNumberIsOrdered(a.date, b.date);
    DayNumberIsOrdered(b.date, a.date);
    if DayNumber(a.date) == DayNumber(b.date) {
      EveryDateIsWalked(a.date);
      EveryDateIsWalked(b.date);
    }
  }

  // Two accepted texts name instants in the order of their fields.
  lemma {:induction false} DateIsMonotone(a: string, b: string)
    requires Date(a).Ok? && Date(b).Ok?
    ensures Date(a).value < Date(b).value <==> Earlier(Fields(a), Fields(b))
  {
    SecondsDetermineInstant(Fields(a), Fields(b));
  }

  lemma {:induction false} InstantIsUnique(i: Instant)
    requires Possible(i)
    ensures InstantOf(Seconds(i)) == i
  {
    CivilOfDayNumber(i.date);
    hide CivilOf, DayNumber, Real;
    ClockIsUnique(i.h, i.n, i.s);
    var seconds := i.h * 3600 + i.n * 60 + i.s;
    var day := DayNumber(i.date);
    assert Seconds(i) == day * 86400 + seconds;
    assert Seconds(i) / 86400 == day && Seconds(i) % 86400 == seconds;
  }

  // ----- spelling and reading back -----

  lemma {:induction false} NumberOfTwo(a: nat, b: nat)
    requires a < 10 && b < 10
    ensures Number([DigitChar(a), DigitChar(b)]) == 10 * a + b
  {
    var one, two := [DigitChar(a)], [DigitChar(a), DigitChar(b)];
    assert one[..0] == [] && two[..1] == one;
    assert Number(one) == a;
  }

  lemma {:induction false} NumberOfFour(a: nat, b: nat, c: nat, d: nat)
    requires a < 10 && b < 10 && c < 10 && d < 10
    ensures Number([DigitChar(a), DigitChar(b), DigitChar(c), DigitChar(d)]) == 1000 * a + 100 * b + 10 * c + d
  {
    var two := [DigitChar(a), DigitChar(b)];
    var three := [DigitChar(a), DigitChar(b), DigitChar(c)];
    var four := [DigitChar(a), DigitChar(b), DigitChar(c), DigitChar(d)];
    assert three[..2] == two && four[..3] == three;
    NumberOfTwo(a, b);
    assert Number(three) == 10 * Number(two) + c;
  }

  lemma {:induction false} FewZeros()
    ensures Zeros(0) == "" && Zeros(1) == "0" && Zeros(2) == "00" && Zeros(3) == "000"
  {
    assert Zeros(1) == "0" + Zeros(0);
    assert Zeros(2) == "0" + Zeros(1);
    assert Zeros(3) == "0" + Zeros(2);
  }

  lemma {:induction false} DecimalAppends(k: nat, d: nat)
    requires d < 10
    ensures Decimal(10 * k + d) == (if k == 0 then "" else Decimal(k)) + [DigitChar(d)]
  {
    assert (10 * k + d) / 10 == k;
  }

  lemma {:induction false} TwoDigits(n: int)
    requires 0 <= n < 100
    ensures Padded(n, 2) == [DigitChar(n / 10), DigitChar(n % 10)]
    ensures Number(Padded(n, 2)) == n
  {
    DecimalAppends(n / 10, n % 10);
    DecimalAppends(0, n / 10);
    FewZeros();
    NumberOfTwo(n / 10, n % 10);
    hide Decimal, Zeros, Number;
    assert Padded(n, 2) == [DigitChar(n / 10), DigitChar(n % 10)];
  }

  lemma {:induction false} DecimalOfFour(a: nat, b: nat, c: nat, d: nat)
    requires a < 10 && b < 10 && c < 10 && d < 10
    ensures var n, text := 1000 * a + 100 * b + 10 * c + d, [DigitChar(a), DigitChar(b), DigitChar(c), DigitChar(d)];
      Decimal(n) == if a > 0 then text else if b > 0 then text[1..] else if c > 0 then text[2..] else text[3..]
  {
    hide Decimal, DigitChar;
    DecimalAppends(100 * a + 10 * b + c, d);
    DecimalAppends(10 * a + b, c);
    DecimalAppends(a, b);
    DecimalAppends(0, a);
  }

  lemma {:induction false} PaddedToFour(a: nat, b: nat, c: nat, d: nat)
    requires a < 10 && b < 10 && c < 10 && d < 10
    ensures Padded(1000 * a + 100 * b + 10 * c + d, 4) == [DigitChar(a), DigitChar(b), DigitChar(c), DigitChar(d)]
  {
    assert DigitChar(0) == '0';
    hide Decimal, Zeros, DigitChar;
    DecimalOfFour(a, b, c, d);
    FewZeros();
  }

  lemma {:induction false} Places(n: int)
    requires 0 <= n < 10000
    ensures n == 1000 * (n / 1000) + 100 * (n / 100 % 10) + 10 * (n / 10 % 10) + n % 10
  {
    assert n / 100 == 10 * (n / 1000) + n / 100 % 10;
    assert n / 10 == 10 * (n / 100) + n / 10 % 10;
  }

  lemma {:induction false} FourDigits(n: int)
    requires 0 <= n < 10000
    ensures |Padded(n, 4)| == 4 && Digits(Padded(n, 4))
    ensures Number(Padded(n, 4)) == n
  {
    Places(n);
    FourDigitsOf(n, n / 1000, n / 100 % 10, n / 10 % 10, n % 10);
  }

  lemma {:induction false} FourDigitsOf(n: nat, a: nat, b: nat, c: nat, d: nat)
    requires a < 10 && b < 10 && c < 10 && d < 10 && n == 1000 * a + 100 * b + 10 * c + d
    ensures |Padded(n, 4)| == 4 && Digits(Padded(n, 4))
    ensures Number(Padded(n, 4)) == n
  {
    hide Padded, Number, DigitChar;
    PaddedToFour(a, b, c, d);
    NumberOfFour(a, b, c, d);
  }

  predicate Digits(text: string) {
    forall c :: c in text ==> Digit(c)
  }

  lemma {:induction false} ShapeOfParts(y: string, m: string, d: string, h: string, n: string, s: string)
    requires |y| == 4 && |m| == |d| == |h| == |n| == 2 && (|s| == 0 || |s| == 2)
    requires Digits(y) && Digits(m) && Digits(d) && Digits(h) && Digits(n) && Digits(s)
    ensures var minute := y + "-" + m + "-" + d + "T" + h + ":" + n;
      var text := if s == "" then minute else minute + ":" + s;
      && |text| == (if s == "" then 16 else 19) && Shaped(text)
      && text[..4] == y && text[5..7] == m && text[8..10] == d && text[11..13] == h && text[14..16] == n
      && (s != "" ==> text[17..19] == s)
  {
    var minute := y + "-" + m + "-" + d + "T" + h + ":" + n;
    var text := if s == "" then minute else minute + ":" + s;
    assert text[..4] == y && text[5..7] == m && text[8..10] == d && text[11..13] == h && text[14..16] == n;
    assert s != "" ==> text[17..19] == s;
    forall i | 0 <= i < |text| && !Separator(i)
      ensures Digit(text[i])
    {
      if i < 4 { assert text[i] == y[i]; }
      else if i < 7 { assert text[i] == m[i - 5]; }
      else if i < 10 { assert text[i] == d[i - 8]; }
      else if i < 13 { assert text[i] == h[i - 11]; }
      else if i < 16 { assert text[i] == n[i - 14]; }
      else { assert text[i] == s[i - 17]; }
    }
  }

  // Reading back what was written.
  lemma {:induction false} SpelledFields(i: Instant)
    requires Possible(i) && 0 <= i.date.y < 10000
    ensures var text := Spell(i);
      && |text| == (if i.s == 0 then 16 else 19)
      && Shaped(text) && Fields(text) == i
  {
    assert i.date.m < 100 && i.date.d < 100;
    hide Padded, Number, Shaped, Real;
    FourDigits(i.date.y);
    TwoDigits(i.date.m);
    TwoDigits(i.date.d);
    TwoDigits(i.h);
    TwoDigits(i.n);
    TwoDigits(i.s);
    ShapeOfParts(Padded(i.date.y, 4), Padded(i.date.m, 2), Padded(i.date.d, 2), Padded(i.h, 2), Padded(i.n, 2),
                 if i.s == 0 then "" else Padded(i.s, 2));
  }

  // ----- the main results -----

  // The instants of the years 0000 to 9999, the ones four digits can spell.
  const FIRST := -62167219200
  const BEYOND := 253402300800

  lemma {:induction false} EndDays()
    ensures DayNumber(Civil(0, 1, 1)) == -719528 && DayNumber(Civil(10000, 1, 1)) == 2932897
  {
    assert YearStart(-1) == -366 && YearStart(9999) == 3652059;
    assert MonthStart(10) == 306;
    hide YearStart, MonthStart;
  }

  lemma {:induction false} FourDigitYears(t: int)
    ensures FIRST <= t < BEYOND <==> 0 <= InstantOf(t).date.y < 10000
  {
    var day := t / 86400;
    var c, first, beyond := CivilOf(day), Civil(0, 1, 1), Civil(10000, 1, 1);
    CivilOfIsWalk(day);
    EndDays();
    hide CivilOf, DayNumber;
    DayNumberIsOrdered(c, first);
    DayNumberIsOrdered(c, beyond);
    assert Real(c);
    assert Before(c, first) <==> c.y < 0;
    assert Before(c, beyond) <==> c.y < 10000;
    assert InstantOf(t).date == c;
  }

  lemma {:induction false} DecimalIsDigits(n: nat)
    ensures Digits(Decimal(n)) && |Decimal(n)| >= 1
    decreases n
  {
    if n >= 10 {
      DecimalIsDigits(n / 10);
    }
  }

  lemma {:induction false} DecimalGrows(n: nat)
    requires n >= 10
    ensures |Decimal(n)| == |Decimal(n / 10)| + 1
  {
  }

  lemma {:induction false} FiveDigits(n: nat)
    requires n >= 10000
    ensures Digits(Decimal(n)) && |Decimal(n)| >= 5
  {
    DecimalIsDigits(n);
    DecimalGrows(n);
    DecimalGrows(n / 10);
    DecimalGrows(n / 10 / 10);
    DecimalGrows(n / 10 / 10 / 10);
    DecimalIsDigits(n / 10 / 10 / 10 / 10);
  }

  lemma {:induction false} SpellStartsWithYear(i: Instant)
    ensures var year, text := Padded(i.date.y, 4), Spell(i); |year| < |text| && text[..|year|] == year
  {
    hide Padded;
    var year, text := Padded(i.date.y, 4), Spell(i);
    var day := year + ("-" + Padded(i.date.m, 2) + "-" + Padded(i.date.d, 2));
    var minute := day + ("T" + Padded(i.h, 2) + ":" + Padded(i.n, 2));
    assert text == if i.s == 0 then minute else minute + (":" + Padded(i.s, 2));
  }

  lemma {:induction false} LongYearIsRefused(i: Instant)
    requires !(0 <= i.date.y < 10000)
    ensures !Shaped(Spell(i))
  {
    var y := i.date.y;
    var year, text := Padded(y, 4), Spell(i);
    SpellStartsWithYear(i);
    if y < 0 {
      assert year[0] == '-';
      hide Spell, Padded;
      assert text[0] == text[..|year|][0];
    } else {
      FiveDigits(y);
      assert year == Decimal(y);
      hide Spell, Padded;
      assert text[4] == text[..|year|][4] && year[4] in year;
    }
  }

  // What is printed reads back as itself exactly for the years 0000 to 9999;
  // every other instant is printed as a text the parser refuses.
  lemma {:induction false} FormatThenDate(t: int)
    ensures Date(FormatDate(t)) == Ok(t) <==> FIRST <= t < BEYOND
    ensures Date(FormatDate(t)).Err? <==> !(FIRST <= t < BEYOND)
  {
    FourDigitYears(t);
    if 0 <= InstantOf(t).date.y < 10000 {
      InstantOfIsExact(t);
      SpelledFields(InstantOf(t));
    } else {
      LongYearIsRefused(InstantOf(t));
    }
  }

  lemma {:induction false} NumberIsInjective(a: string, b: string)
    requires Digits(a) && Digits(b) && |a| == |b| && Number(a) == Number(b)
    ensures a == b
    decreases |a|
  {
    if a != [] {
      var n := |a| - 1;
      assert a == a[..n] + [a[n]] && b == b[..n] + [b[n]];
      assert DigitValue(a[n]) == DigitValue(b[n]);
      NumberIsInjective(a[..n], b[..n]);
    }
  }

  // The one spelling the program prints: minutes always, seconds when not zero.
  function Canonical(text: string): string
    requires Shaped(text)
  {
    if |text| == 10 then text + "T00:00"
    else if |text| == 19 && text[17] == '0' && text[18] == '0' then text[..16]
    else text
  }

  lemma {:induction false} DateFields(text: string)
    requires Date(text).Ok?
    ensures Shaped(text) && Possible(Fields(text)) && Date(text).value == Seconds(Fields(text))
    ensures InstantOf(Date(text).value) == Fields(text)
  {
    InstantIsUnique(Fields(text));
  }

  lemma {:induction false} NumberStep(text: string)
    requires |text| > 0 && Digits(text)
    ensures Digits(text[..|text| - 1])
    ensures Number(text) == 10 * Number(text[..|text| - 1]) + DigitValue(text[|text| - 1])
  {
  }

  lemma {:induction false} NumberOfPair(text: string)
    requires |text| == 2 && Digits(text)
    ensures Number(text) == 10 * DigitValue(text[0]) + DigitValue(text[1]) < 100
  {
    NumberStep(text);
    NumberStep(text[..1]);
    assert text[..1][..0] == [];
  }

  lemma {:induction false} NumberBelow(text: string)
    requires |text| == 4 && Digits(text)
    ensures Number(text) < 10000
  {
    NumberStep(text);
    NumberStep(text[..3]);
    assert text[..3][..2] == text[..2];
    NumberOfPair(text[..2]);
  }

  lemma {:induction false} SameTwo(text: string)
    requires |text| == 2 && Digits(text)
    ensures Padded(Number(text), 2) == text
  {
    NumberOfPair(text);
    TwoDigits(Number(text));
    NumberIsInjective(Padded(Number(text), 2), text);
  }

  lemma {:induction false} SameFour(text: string)
    requires |text| == 4 && Digits(text)
    ensures Padded(Number(text), 4) == text
  {
    NumberBelow(text);
    FourDigits(Number(text));
    NumberIsInjective(Padded(Number(text), 4), text);
  }

  lemma {:induction false} PartsAreDigits(text: string)
    requires Shaped(text)
    ensures Digits(text[..4]) && Digits(text[5..7]) && Digits(text[8..10])
    ensures |text| >= 16 ==> Digits(text[11..13]) && Digits(text[14..16])
    ensures |text| == 19 ==> Digits(text[17..19])
  {
  }

  lemma {:induction false} SplitText(text: string)
    requires Shaped(text)
    ensures text[..10] == text[..4] + "-" + text[5..7] + "-" + text[8..10]
    ensures |text| == 10 ==> text[..10] == text
    ensures |text| >= 16 ==> text[..16] == text[..10] + "T" + text[11..13] + ":" + text[14..16]
    ensures |text| == 16 ==> text[..16] == text
    ensures |text| == 19 ==> text == text[..16] + ":" + text[17..19]
  {
  }

  // Each field, printed, is the piece of the text it was read from.
  lemma {:induction false} FieldsSpellTheText(text: string)
    requires Date(text).Ok?
    ensures var i := Fields(text);
      && Padded(i.date.y, 4) == text[..4] && Padded(i.date.m, 2) == text[5..7] && Padded(i.date.d, 2) == text[8..10]
      && Padded(i.h, 2) == (if |text| == 10 then "00" else text[11..13])
      && Padded(i.n, 2) == (if |text| == 10 then "00" else text[14..16])
      && (|text| == 19 ==> Padded(i.s, 2) == text[17..19])
      && (i.s == 0 <==> |text| != 19 || (text[17] == '0' && text[18] == '0'))
  {
    PartsAreDigits(text);
    SameFour(text[..4]);
    SameTwo(text[5..7]);
    SameTwo(text[8..10]);
    TwoDigits(0);
    assert DigitChar(0) == '0';
    if |text| >= 16 {
      SameTwo(text[11..13]);
      SameTwo(text[14..16]);
    }
    if |text| == 19 {
      SameTwo(text[17..19]);
      NumberOfPair(text[17..19]);
    }
    hide Padded, Number, Shaped;
  }

  lemma {:induction false} SpellPieces(i: Instant, text: string)
    requires Shaped(text)
    requires Padded(i.date.y, 4) == text[..4] && Padded(i.date.m, 2) == text[5..7] && Padded(i.date.d, 2) == text[8..10]
    requires Padded(i.h, 2) == (if |text| == 10 then "00" else text[11..13])
    requires Padded(i.n, 2) == (if |text| == 10 then "00" else text[14..16])
    requires |text| == 19 ==> Padded(i.s, 2) == text[17..19]
    requires i.s == 0 <==> |text| != 19 || (text[17] == '0' && text[18] == '0')
    ensures Spell(i) == Canonical(text)
  {
    hide Padded;
    SplitText(text);
    if |text| == 10 {
      assert Spell(i) == text[..10] + "T" + "00" + ":" + "00";
    } else {
      assert Spell(i) == if i.s == 0 then text[..16] else text[..16] + ":" + text[17..19];
    }
  }

  // Every date read lies in the years 0 to 9999.
  lemma {:induction false} DateIsInRange(text: string)
    requires Date(text).Ok?
    ensures FIRST <= Date(text).value < BEYOND
  {
    hide Number, InstantOf, Shaped;
    DateFields(text);
    PartsAreDigits(text);
    NumberBelow(text[..4]);
    FourDigitYears(Date(text).value);
  }

  // What is read prints as its canonical spelling.
  lemma {:induction false} DateThenFormat(text: string)
    requires Date(text).Ok?
    ensures FormatDate(Date(text).value) == Canonical(text)
  {
    hide Padded, Number, InstantOf, Date, Fields;
    DateFields(text);
    SplitText(text);
    FieldsSpellTheText(text);
    SpellPieces(Fields(text), text);
  }
}
