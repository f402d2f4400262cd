/** Which texts are dates, and which instants they name (`date` in
    zega/src/history.rs): for every date of the years 0000 to 9999 three
    spellings, and no other text. */
module DateTexts {
  import opened Calendar
  import opened Dates
  import opened Wrappers

  function Two(n: nat): string
    requires n < 100
  {
    [DigitChar(n / 10), DigitChar(n % 10)]
  }

  function Four(n: nat): string
    requires n < 10000
  {
    [DigitChar(n / 1000), DigitChar(n / 100 % 10), DigitChar(n / 10 % 10), DigitChar(n % 10)]
  }

  predicate Spellable(i: Instant) {
    Possible(i) && 0 <= i.date.y < 10000
  }

  // yyyy-mm-dd
  function DayText(c: Civil): string
    requires Real(c) && 0 <= c.y < 10000
  {
    Four(c.y) + "-" + Two(c.m) + "-" + Two(c.d)
  }

  // yyyy-mm-ddThh:mm
  function MinuteText(i: Instant): string
    requires Spellable(i)
  {
    DayText(i.date) + "T" + Two(i.h) + ":" + Two(i.n)
  }

  // yyyy-mm-ddThh:mm:ss
  function SecondText(i: Instant): string
    requires Spellable(i)
  {
    MinuteText(i) + ":" + Two(i.s)
  }

  predicate IsDateText(text: string, i: Instant) {
    && Spellable(i)
    && ((text == DayText(i.date) && i.h == 0 && i.n == 0 && i.s == 0)
        || (text == MinuteText(i) && i.s == 0)
        || text == SecondText(i))
  }

  lemma {:induction false} TwoReads(n: nat)
    requires n < 100
    ensures |Two(n)| == 2 && Digits(Two(n)) && Number(Two(n)) == n && Two(n) == Padded(n, 2)
  {
    TwoDigits(n);
  }

  lemma {:induction false} FourReads(n: nat)
    requires n < 10000
    ensures |Four(n)| == 4 && Digits(Four(n)) && Number(Four(n)) == n && Four(n) == Padded(n, 4)
  {
    Places(n);
    FourDigits(n);
    PaddedToFour(n / 1000, n / 100 % 10, n / 10 % 10, n % 10);
  }

  lemma {:induction false} DayShape(y: string, m: string, d: string)
    requires |y| == 4 && |m| == |d| == 2 && Digits(y) && Digits(m) && Digits(d)
    ensures var text := y + "-" + m + "-" + d;
      |text| == 10 && Shaped(text) && text[..4] == y && text[5..7] == m && text[8..10] == d
  {
    var text := y + "-" + m + "-" + d;
    assert text[..4] == y && text[5..7] == m && text[8..10] == d;
    forall i | 0 <= i < |text| && !Separator(i)
      ensures Digit(text[i])
    {
      if i < 4 { assert text[i] == y[i]; }
      else if i < 7 { assert text[i] == m[i - 5]; }
      else { assert text[i] == d[i - 8]; }
    }
  }

  lemma {:induction false} DayFields(c: Civil)
    requires Real(c) && 0 <= c.y < 10000
    ensures Shaped(DayText(c)) && |DayText(c)| == 10 && Fields(DayText(c)) == Instant(c, 0, 0, 0)
  {
    assert c.m < 100 && c.d < 100;
    FourReads(c.y);
    TwoReads(c.m);
    TwoReads(c.d);
    hide Four, Two, Number, Padded, Real, Shaped;
    DayShape(Four(c.y), Two(c.m), Two(c.d));
  }

  lemma {:induction false} LongFields(i: Instant, seconds: bool)
    requires Spellable(i) && (!seconds ==> i.s == 0)
    ensures var text := if seconds then SecondText(i) else MinuteText(i);
      Shaped(text) && |text| == (if seconds then 19 else 16) && Fields(text) == i
  {
    var c := i.date;
    assert c.m < 100 && c.d < 100;
    FourReads(c.y);
    TwoReads(c.m);
    TwoReads(c.d);
    TwoReads(i.h);
    TwoReads(i.n);
    TwoReads(i.s);
    hide Four, Two, Number, Padded, Real, Shaped;
    ShapeOfParts(Four(c.y), Two(c.m), Two(c.d), Two(i.h), Two(i.n), if seconds then Two(i.s) else "");
    assert MinuteText(i) == Four(c.y) + "-" + Two(c.m) + "-" + Two(c.d) + "T" + Two(i.h) + ":" + Two(i.n);
  }

  lemma {:induction false} SpelledIsAccepted(text: string, i: Instant)
    requires IsDateText(text, i)
    ensures Date(text) == Ok(Seconds(i))
  {
    hide Shaped, Number, Fields, Seconds, Four, Two;
    if text == DayText(i.date) && i.h == 0 && i.n == 0 && i.s == 0 {
      DayFields(i.date);
    } else {
      LongFields(i, text != MinuteText(i) || i.s != 0);
    }
  }

  lemma {:induction false} AcceptedIsSpelled(text: string)
    requires Date(text).Ok?
    ensures Shaped(text) && IsDateText(text, Fields(text))
  {
    DateFields(text);
    var i := Fields(text);
    PartsAreDigits(text);
    NumberBelow(text[..4]);
    FieldsSpellTheText(text);
    assert i.date.m < 100 && i.date.d < 100;
    FourReads(i.date.y);
    TwoReads(i.date.m);
    TwoReads(i.date.d);
    TwoReads(i.h);
    TwoReads(i.n);
    TwoReads(i.s);
    hide Four, Two, Number, Padded, Shaped, Fields;
    SplitText(text);
  }

  // A text is read as a date if and only if it is one of the three spellings of
  // a real instant of the years 0000 to 9999.
  lemma {:induction false} DatesAreTheSpellings(text: string)
    ensures Date(text).Ok? <==> exists i :: IsDateText(text, i)
    ensures forall i | IsDateText(text, i) :: Date(text) == Ok(Seconds(i))
  {
    hide Date, IsDateText, Seconds;
    if Date(text).Ok? {
      AcceptedIsSpelled(text);
    }
    forall i | IsDateText(text, i)
      ensures Date(text) == Ok(Seconds(i))
    {
      SpelledIsAccepted(text, i);
    }
  }

  // What is read is the seconds from the epoch, with days counted one at a time.
  lemma {:induction false} SpellingsRead(k: int, h: int, n: int, s: int)
    requires 0 <= Walk(k).y < 10000 && 0 <= h <= 23 && 0 <= n <= 59 && 0 <= s <= 59
    ensures Date(DayText(Walk(k))) == Ok(86400 * k)
    ensures Date(MinuteText(Instant(Walk(k), h, n, 0))) == Ok(86400 * k + 3600 * h + 60 * n)
    ensures Date(SecondText(Instant(Walk(k), h, n, s))) == Ok(86400 * k + 3600 * h + 60 * n + s)
  {
    WalkCounts(k);
    hide Date, DayNumber, Walk, DayText, MinuteText, SecondText;
    var c := Walk(k);
    SpelledIsAccepted(DayText(c), Instant(c, 0, 0, 0));
    SpelledIsAccepted(MinuteText(Instant(c, h, n, 0)), Instant(c, h, n, 0));
    SpelledIsAccepted(SecondText(Instant(c, h, n, s)), Instant(c, h, n, s));
  }
}
