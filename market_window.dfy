/** The market window evaluator: whether a market is open at a given time of
    day, from its two free-form time-of-day strings (starline-management.js and
    main-market-management.js carry identical copies of this code). The current
    time is a parameter: the clock reading `hours * 100 + minutes`. */
module MarketWindow {
  import opened Seqs
  import opened Text

  /** JavaScript falsiness of an optional string field: absent or empty. */
  predicate Falsy(t: Option<string>) {
    t.None? || t.value == []
  }

  /** `parseTime`: 0 for an absent or empty value, otherwise the decimal value of
      the digits left after removing every other character (0 if none are left). */
  function ParseTime(t: Option<string>): (r: nat)
    ensures Falsy(t) ==> r == 0
    ensures !Falsy(t) && AllDigits(t.value) ==> r == DecimalValue(t.value)
  {
    if Falsy(t) then 0
    else
      DigitsOfDigits(t.value);
      DecimalValue(Digits(t.value))
  }

  /** The clock reading `getHours() * 100 + getMinutes()`. */
  function ClockValue(h: nat, m: nat): (r: nat)
    requires h < 24 && m < 60
    ensures r <= 2359 && r / 100 == h && r % 100 == m
  {
    h * 100 + m
  }

  /** `isMarketOpen`: closed when either time is missing; otherwise an inclusive
      same-day window when open <= close, and an overnight window that wraps past
      midnight when open > close. */
  function IsMarketOpen(openTime: Option<string>, closeTime: Option<string>, now: int): (b: bool)
    ensures Falsy(openTime) || Falsy(closeTime) ==> !b
    ensures !Falsy(openTime) && !Falsy(closeTime) && ParseTime(openTime) <= now <= ParseTime(closeTime) ==> b
    ensures b ==> ParseTime(openTime) <= now || now <= ParseTime(closeTime)
  {
    if Falsy(openTime) || Falsy(closeTime) then false
    else
      var o := ParseTime(openTime);
      var c := ParseTime(closeTime);
      if o <= c then o <= now <= c
      else now >= o || now <= c
  }

  /** An "HH:MM" time string, as markets usually store them. */
  function ClockText(h: nat, m: nat): string
    requires h < 100 && m < 100
  {
    TwoDigits(h) + ":" + TwoDigits(m)
  }

  /** Minutes since midnight. */
  function Minutes(h: nat, m: nat): nat
  {
    h * 60 + m
  }

  /** Going forward from `o` around a day of `day` units, `t` is reached no later
      than `c`: the window from `o` to `c`, inclusive, possibly crossing midnight. */
  predicate InCyclicWindow(o: int, c: int, t: int, day: int)
    requires day > 0
  {
    (t - o) % day <= (c - o) % day
  }

  lemma ParseTimeExamples()
    ensures ParseTime(Some("10:30")) == 1030
    ensures ParseTime(Some("1030")) == 1030
    ensures ParseTime(Some("10-30")) == 1030
    ensures ParseTime(Some("")) == 0
    ensures ParseTime(None) == 0
    ensures ParseTime(Some("abc")) == 0
  {
    DecimalRoundTrip(1030);
    assert Decimal(1030) == "1030";
    assert Digits("10:30") == "1030";
    assert Digits("10-30") == "1030";
    DigitsOfDigits("1030");
    DigitsOfNonDigits("abc");
  }

  /** A present value with no digit at all parses to 0. */
  lemma NoDigitsParsesToZero(s: string)
    requires forall i :: 0 <= i < |s| ==> !IsDigit(s[i])
    ensures ParseTime(Some(s)) == 0
  {
    if s != [] {
      DigitsOfNonDigits(s);
    }
  }

  /** Separators never matter: removing one non-digit character from a time,
      wherever it stands, leaves its value unchanged. */
  lemma ParseSkipsSeparator(a: string, c: char, b: string)
    requires !IsDigit(c)
    ensures ParseTime(Some(a + [c] + b)) == ParseTime(Some(a + b))
  {
    DigitsAppend(a + [c], b);
    DigitsAppend(a, [c]);
    DigitsAppend(a, b);
    assert Digits([c]) == [];
    assert Digits(a + [c]) == Digits(a);
    if a + b == [] {
      assert Digits(a + [c] + b) == [];
    }
  }

  /** Hours written as digits `d`, then one separator, then two minute digits,
      parse to `d * 100 + minutes`. */
  lemma {:induction false} ParseHoursAndMinutes(d: string, sep: char, m: nat)
    requires AllDigits(d) && !IsDigit(sep) && m < 100
    ensures ParseTime(Some(d + [sep] + TwoDigits(m))) == DecimalValue(d) * 100 + m
  {
    var s := d + [sep] + TwoDigits(m);
    DigitsAppend(d + [sep], TwoDigits(m));
    DigitsAppend(d, [sep]);
    assert Digits([sep]) == [];
    DigitsOfDigits(d);
    DigitsOfDigits(TwoDigits(m));
    DecimalValueAppend(d, TwoDigits(m));
    TwoDigitsRoundTrip(m);
    assert Digits(s) == d + TwoDigits(m);
    assert Pow10(2) == 100;
  }

  /** "HH:MM" parses to exactly the clock reading of that time, so a market's
      times and the current time are compared in one encoding. */
  lemma ClockTextParsesToClockValue(h: nat, m: nat)
    requires h < 24 && m < 60
    ensures ParseTime(Some(ClockText(h, m))) == ClockValue(h, m)
  {
    ParseHoursAndMinutes(TwoDigits(h), ':', m);
    TwoDigitsRoundTrip(h);
  }

  /** "H:MM" without a leading zero parses the same way. */
  lemma UnpaddedClockTextParsesToClockValue(h: nat, m: nat)
    requires h < 24 && m < 60
    ensures ParseTime(Some(Decimal(h) + ":" + TwoDigits(m))) == ClockValue(h, m)
  {
    ParseHoursAndMinutes(Decimal(h), ':', m);
    DecimalRoundTrip(h);
  }

  /** The clock reading orders times of day as minutes since midnight do. */
  lemma ClockValueOrder(h1: nat, m1: nat, h2: nat, m2: nat)
    requires h1 < 24 && m1 < 60 && h2 < 24 && m2 < 60
    ensures ClockValue(h1, m1) <= ClockValue(h2, m2) <==> Minutes(h1, m1) <= Minutes(h2, m2)
  {
    if h1 < h2 {
      assert h1 * 100 + 100 <= h2 * 100;
      assert h1 * 60 + 60 <= h2 * 60;
    } else if h1 > h2 {
      assert h2 * 100 + 100 <= h1 * 100;
      assert h2 * 60 + 60 <= h1 * 60;
    }
  }

  /** An absent or empty time keeps a market closed at every time. */
  lemma MissingTimeMeansClosed(openTime: Option<string>, closeTime: Option<string>, now: int)
    requires Falsy(openTime) || Falsy(closeTime)
    ensures !IsMarketOpen(openTime, closeTime, now)
  {
  }

  /** A same-day window is open exactly from open to close, both ends included. */
  lemma SameDayWindow(openTime: string, closeTime: string, now: int)
    requires openTime != [] && closeTime != []
    requires ParseTime(Some(openTime)) <= ParseTime(Some(closeTime))
    ensures IsMarketOpen(Some(openTime), Some(closeTime), now)
      <==> ParseTime(Some(openTime)) <= now <= ParseTime(Some(closeTime))
  {
  }

  /** An overnight window is closed exactly strictly between close and open. */
  lemma OvernightWindow(openTime: string, closeTime: string, now: int)
    requires openTime != [] && closeTime != []
    requires ParseTime(Some(openTime)) > ParseTime(Some(closeTime))
    ensures !IsMarketOpen(Some(openTime), Some(closeTime), now)
      <==> ParseTime(Some(closeTime)) < now < ParseTime(Some(openTime))
  {
  }

  lemma ModOfDifference(x: int, day: int)
    requires day > 0 && -day <= x < day
    ensures x % day == if x >= 0 then x else x + day
  {
    if x < 0 {
      assert x == -1 * day + (x + day);
    }
  }

  lemma CyclicWindowCases(o: int, c: int, t: int, day: int)
    requires day > 0 && 0 <= o < day && 0 <= c < day && 0 <= t < day
    ensures InCyclicWindow(o, c, t, day) <==> if o <= c then o <= t <= c else t >= o || t <= c
  {
    ModOfDifference(t - o, day);
    ModOfDifference(c - o, day);
  }

  /** Both branches of `isMarketOpen` are one rule: walking forward from the
      opening time, possibly past midnight, the current time comes no later than
      the closing time. */
  lemma IsMarketOpenIsCyclicWindow(openTime: string, closeTime: string, now: int)
    requires openTime != [] && closeTime != []
    requires ParseTime(Some(openTime)) < 2400 && ParseTime(Some(closeTime)) < 2400
    requires 0 <= now < 2400
    ensures IsMarketOpen(Some(openTime), Some(closeTime), now)
      <==> InCyclicWindow(ParseTime(Some(openTime)), ParseTime(Some(closeTime)), now, 2400)
  {
    CyclicWindowCases(ParseTime(Some(openTime)), ParseTime(Some(closeTime)), now, 2400);
  }

  /** For times stored as "HH:MM" and read off a real clock, a market is open
      exactly when the current minute of the day lies in the window from the
      opening minute to the closing minute, wrapping past midnight. */
  lemma OpenIffWithinMinutesWindow(oh: nat, om: nat, ch: nat, cm: nat, h: nat, m: nat)
    requires oh < 24 && om < 60 && ch < 24 && cm < 60 && h < 24 && m < 60
    ensures IsMarketOpen(Some(ClockText(oh, om)), Some(ClockText(ch, cm)), ClockValue(h, m))
      <==> InCyclicWindow(Minutes(oh, om), Minutes(ch, cm), Minutes(h, m), 1440)
  {
    ClockTextParsesToClockValue(oh, om);
    ClockTextParsesToClockValue(ch, cm);
    ClockValueOrder(oh, om, ch, cm);
    ClockValueOrder(oh, om, h, m);
    ClockValueOrder(h, m, ch, cm);
    CyclicWindowCases(Minutes(oh, om), Minutes(ch, cm), Minutes(h, m), 1440);
  }

  /** The overnight example 22:00 to 06:00: open at both ends, closed just before opening. */
  lemma OvernightBoundaryExample()
    ensures IsMarketOpen(Some("22:00"), Some("06:00"), 2200)
    ensures IsMarketOpen(Some("22:00"), Some("06:00"), 600)
    ensures !IsMarketOpen(Some("22:00"), Some("06:00"), 2159)
    ensures !IsMarketOpen(Some("22:00"), Some("06:00"), 601)
  {
    ClockTextParsesToClockValue(22, 0);
    ClockTextParsesToClockValue(6, 0);
    assert ClockText(22, 0) == "22:00";
    assert ClockText(6, 0) == "06:00";
  }
}
