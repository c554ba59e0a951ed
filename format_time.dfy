/**
  The countdown texts of src/utils/formatTime.js: `formatCountdown` renders a number of seconds
  as days, as hours and minutes, or as minutes and seconds; `calculateSessionCountdown` gives
  the whole seconds until a session starts or, once it has started, until it ends.

  Seconds are whole numbers (the only caller passes the result of `calculateSessionCountdown`);
  instants are millisecond timestamps, and the clock reading is a parameter.
 */
module FormatTime {
  import opened Strings
  import opened Common

  const SecondsInMinute: int := 60
  const SecondsInHour: int := 60 * SecondsInMinute
  const SecondsInDay: int := 24 * SecondsInHour

  // ---------------------------------------------------------------------------
  // JavaScript arithmetic and text pieces
  // ---------------------------------------------------------------------------

  /** JavaScript's `a % 60`: the remainder takes the sign of a. */
  function JsRemainder60(a: int): (r: int)
    ensures -60 < r < 60 && (a - r) % 60 == 0
    ensures a >= 0 ==> 0 <= r
    ensures a < 0 ==> r <= 0
  {
    if a >= 0 then a % 60 else -((-a) % 60)
  }

  /** The plural ending the templates append: none exactly for the value 1. */
  function Plural(n: int): string
  {
    if n == 1 then "" else "s"
  }

  /** `String(n).padStart(2, '0')`. */
  function Padded(n: int): string
  {
    PadStart(IntToString(n), 2, '0')
  }

  // ---------------------------------------------------------------------------
  // formatCountdown
  // ---------------------------------------------------------------------------

  /** Words with a single blank between each two, as the template literals write them. */
  function Words(ws: seq<string>): string
  {
    if ws == [] then "" else if |ws| == 1 then ws[0] else ws[0] + " " + Words(ws[1..])
  }

  /**
    `formatCountdown(seconds)`. Lower bounds are inclusive: 86400 is "1 day", 3600 is in hours.
    Each template is written as its words: `${days} day${s}` is the two words days and "day"
    or "days".
   */
  function FormatCountdown(seconds: int): string
  {
    if seconds >= SecondsInDay then
      var days := seconds / SecondsInDay;
      Words([IntToString(days), "day" + Plural(days)])
    else if seconds >= SecondsInHour then
      var hours := seconds / SecondsInHour;
      var minutes := (seconds % SecondsInHour) / SecondsInMinute;
      Words([Padded(hours), "hour" + Plural(hours), "and", Padded(minutes), "minute" + Plural(minutes)])
    else
      var minutes := seconds / SecondsInMinute;
      var secs := JsRemainder60(seconds);
      Words([Padded(minutes), "minute" + Plural(minutes), "and", Padded(secs), "second" + Plural(secs)])
  }

  /** What a countdown text says, unit by unit. */
  datatype Countdown = Days(days: nat) | HoursMinutes(hours: nat, minutes: nat) | MinutesSeconds(minutes: nat, seconds: nat)

  /**
    The reading c is a truthful account of s seconds: whole days (at least one), or hours of
    the current day with the whole minutes past the hour, or exact minutes and seconds below
    one hour.
   */
  predicate Describes(c: Countdown, s: int)
  {
    match c
    case Days(d) => d >= 1 && d * SecondsInDay <= s < (d + 1) * SecondsInDay
    case HoursMinutes(h, m) =>
      1 <= h < 24 && m < 60 && h * SecondsInHour + m * SecondsInMinute <= s < h * SecondsInHour + (m + 1) * SecondsInMinute
    case MinutesSeconds(m, x) => m < 60 && x < 60 && m * SecondsInMinute + x == s
  }

  /** At most one reading describes a number of seconds. */
  lemma DescribesUnique(c1: Countdown, c2: Countdown, s: int)
    requires Describes(c1, s) && Describes(c2, s)
    ensures c1 == c2
  {
    match c1
    case Days(d1) =>
      assert c2.Days?;
      DaysUnique(d1, c2.days, s);
    case HoursMinutes(h1, m1) =>
      assert c2.HoursMinutes?;
      HoursMinutesUnique(h1, m1, c2.hours, c2.minutes, s);
    case MinutesSeconds(m1, x1) =>
      assert c2.MinutesSeconds?;
      MinutesSecondsUnique(m1, x1, c2.minutes, c2.seconds, s);
  }

  lemma DaysUnique(d1: nat, d2: nat, s: int)
    requires d1 * SecondsInDay <= s < (d1 + 1) * SecondsInDay
    requires d2 * SecondsInDay <= s < (d2 + 1) * SecondsInDay
    ensures d1 == d2
  {
  }

  lemma HoursMinutesUnique(h1: nat, m1: nat, h2: nat, m2: nat, s: int)
    requires m1 < 60 && m2 < 60
    requires h1 * 3600 + m1 * 60 <= s < h1 * 3600 + (m1 + 1) * 60
    requires h2 * 3600 + m2 * 60 <= s < h2 * 3600 + (m2 + 1) * 60
    ensures h1 == h2 && m1 == m2
  {
    var k1, k2 := h1 * 60 + m1, h2 * 60 + m2;
    assert k1 * 60 <= s < (k1 + 1) * 60;
    assert k2 * 60 <= s < (k2 + 1) * 60;
  }

  lemma MinutesSecondsUnique(m1: nat, x1: nat, m2: nat, x2: nat, s: int)
    requires x1 < 60 && x2 < 60
    requires m1 * 60 + x1 == s && m2 * 60 + x2 == s
    ensures m1 == m2 && x1 == x2
  {
  }

  /** A non-empty run of digits. */
  predicate IsNumeral(w: string)
  {
    |w| > 0 && AllDigits(w)
  }

  /**
    Reading a countdown text back: the words between single blanks, numbers as decimal
    numerals, each unit word in the singular exactly when its number is 1.
   */
  function ReadCountdown(text: string): Option<Countdown>
  {
    ReadWords(Split(text, ' '))
  }

  function ReadWords(w: seq<string>): Option<Countdown>
  {
    if |w| == 2 && IsNumeral(w[0]) && w[1] == "day" + Plural(DigitsValue(w[0])) then
      Some(Days(DigitsValue(w[0])))
    else if |w| == 5 && IsNumeral(w[0]) && w[2] == "and" && IsNumeral(w[3]) then
      var a, b := DigitsValue(w[0]), DigitsValue(w[3]);
      if w[1] == "hour" + Plural(a) && w[4] == "minute" + Plural(b) then Some(HoursMinutes(a, b))
      else if w[1] == "minute" + Plural(a) && w[4] == "second" + Plural(b) then Some(MinutesSeconds(a, b))
      else None
    else None
  }

  // ---------------------------------------------------------------------------
  // Reading the text back
  // ---------------------------------------------------------------------------

  lemma NumeralHasNoBlank(w: string)
    requires AllDigits(w)
    ensures ' ' !in w
  {
    forall i | 0 <= i < |w| ensures w[i] != ' ' {
      assert IsDigit(w[i]);
    }
  }

  /** `String(n).padStart(2, '0')` for 0 <= n is a numeral of at least two digits that denotes n. */
  lemma PaddedNumeral(n: nat)
    ensures IsNumeral(Padded(n)) && DigitsValue(Padded(n)) == n && ' ' !in Padded(n)
  {
    ZeroPaddedValue(n, 2);
    NumeralHasNoBlank(Padded(n));
  }

  lemma PlainNumeral(n: nat)
    ensures IsNumeral(IntToString(n)) && DigitsValue(IntToString(n)) == n && ' ' !in IntToString(n)
  {
    NumeralHasNoBlank(IntToString(n));
  }

  lemma UnitHasNoBlank(unit: string, n: int)
    requires unit == "day" || unit == "hour" || unit == "minute" || unit == "second"
    ensures ' ' !in unit + Plural(n)
  {
  }

  /** Words without blanks are recovered by splitting on the blank. */
  predicate NoBlankWords(ws: seq<string>)
  {
    forall i :: 0 <= i < |ws| ==> ' ' !in ws[i]
  }

  lemma {:induction false} SplitWords(ws: seq<string>)
    requires |ws| >= 1 && NoBlankWords(ws)
    ensures Split(Words(ws), ' ') == ws
  {
    if |ws| == 1 {
      SplitWithoutSeparator(ws[0], ' ');
    } else {
      SplitWords(ws[1..]);
      assert ws[0] + " " + Words(ws[1..]) == ws[0] + [' '] + Words(ws[1..]);
      SplitAfterField(ws[0], ' ', Words(ws[1..]));
      assert [ws[0]] + ws[1..] == ws;
    }
  }

  /** The days branch reads back as its number of days. */
  lemma DaysReadBack(d: nat)
    ensures ReadCountdown(Words([IntToString(d), "day" + Plural(d)])) == Some(Days(d))
  {
    var ws := [IntToString(d), "day" + Plural(d)];
    PlainNumeral(d);
    UnitHasNoBlank("day", d);
    SplitWords(ws);
  }

  lemma FiveNoBlankWords(a: string, b: string, c: string, d: string, e: string)
    requires ' ' !in a && ' ' !in b && ' ' !in c && ' ' !in d && ' ' !in e
    ensures NoBlankWords([a, b, c, d, e])
  {
  }

  lemma ReadHoursMinutesWords(w0: string, u1: string, w3: string, u4: string)
    requires IsNumeral(w0) && IsNumeral(w3)
    requires u1 == "hour" + Plural(DigitsValue(w0)) && u4 == "minute" + Plural(DigitsValue(w3))
    ensures ReadWords([w0, u1, "and", w3, u4]) == Some(HoursMinutes(DigitsValue(w0), DigitsValue(w3)))
  {
  }

  lemma ReadMinutesSecondsWords(w0: string, u1: string, w3: string, u4: string)
    requires IsNumeral(w0) && IsNumeral(w3)
    requires u1 == "minute" + Plural(DigitsValue(w0)) && u4 == "second" + Plural(DigitsValue(w3))
    ensures ReadWords([w0, u1, "and", w3, u4]) == Some(MinutesSeconds(DigitsValue(w0), DigitsValue(w3)))
  {
    assert u1[0] == 'm' && ("hour" + Plural(DigitsValue(w0)))[0] == 'h';
  }

  lemma HoursMinutesWords(h: nat, m: nat)
    ensures ReadWords([Padded(h), "hour" + Plural(h), "and", Padded(m), "minute" + Plural(m)]) == Some(HoursMinutes(h, m))
  {
    PaddedNumeral(h);
    PaddedNumeral(m);
    ReadHoursMinutesWords(Padded(h), "hour" + Plural(h), Padded(m), "minute" + Plural(m));
  }

  lemma MinutesSecondsWords(m: nat, x: nat)
    ensures ReadWords([Padded(m), "minute" + Plural(m), "and", Padded(x), "second" + Plural(x)]) == Some(MinutesSeconds(m, x))
  {
    PaddedNumeral(m);
    PaddedNumeral(x);
    ReadMinutesSecondsWords(Padded(m), "minute" + Plural(m), Padded(x), "second" + Plural(x));
  }

  /** The hours branch reads back as its hours and minutes. */
  lemma HoursMinutesReadBack(h: nat, m: nat)
    ensures ReadCountdown(Words([Padded(h), "hour" + Plural(h), "and", Padded(m), "minute" + Plural(m)]))
            == Some(HoursMinutes(h, m))
  {
    var ws := [Padded(h), "hour" + Plural(h), "and", Padded(m), "minute" + Plural(m)];
    PaddedNumeral(h);
    PaddedNumeral(m);
    UnitHasNoBlank("hour", h);
    UnitHasNoBlank("minute", m);
    FiveNoBlankWords(ws[0], ws[1], ws[2], ws[3], ws[4]);
    SplitWords(ws);
    HoursMinutesWords(h, m);
  }

  /** The minutes branch reads back as its minutes and seconds. */
  lemma MinutesSecondsReadBack(m: nat, x: nat)
    ensures ReadCountdown(Words([Padded(m), "minute" + Plural(m), "and", Padded(x), "second" + Plural(x)]))
            == Some(MinutesSeconds(m, x))
  {
    var ws := [Padded(m), "minute" + Plural(m), "and", Padded(x), "second" + Plural(x)];
    PaddedNumeral(m);
    PaddedNumeral(x);
    UnitHasNoBlank("minute", m);
    UnitHasNoBlank("second", x);
    FiveNoBlankWords(ws[0], ws[1], ws[2], ws[3], ws[4]);
    SplitWords(ws);
    MinutesSecondsWords(m, x);
  }

  /** Floor division by a positive divisor bounds n between two multiples. */
  lemma QuotientBounds(n: int, k: int)
    requires k > 0
    ensures (n / k) * k <= n < (n / k + 1) * k
  {
  }

  lemma DaysBranch(s: int)
    requires s >= SecondsInDay
    ensures ReadCountdown(FormatCountdown(s)) == Some(Days(s / SecondsInDay))
    ensures Describes(Days(s / SecondsInDay), s)
  {
    QuotientBounds(s, SecondsInDay);
    DaysReadBack(s / SecondsInDay);
  }

  lemma HoursBranch(s: int)
    requires SecondsInHour <= s < SecondsInDay
    ensures var c := HoursMinutes(s / SecondsInHour, (s % SecondsInHour) / SecondsInMinute);
            ReadCountdown(FormatCountdown(s)) == Some(c) && Describes(c, s)
  {
    HoursFields(s);
    HoursMinutesReadBack(s / SecondsInHour, (s % SecondsInHour) / SecondsInMinute);
  }

  lemma MinutesBranch(s: int)
    requires 0 <= s < SecondsInHour
    ensures var c := MinutesSeconds(s / SecondsInMinute, JsRemainder60(s));
            ReadCountdown(FormatCountdown(s)) == Some(c) && Describes(c, s)
  {
    MinutesFields(s);
    MinutesSecondsReadBack(s / SecondsInMinute, JsRemainder60(s));
  }

  /**
    For every non-negative number of seconds the text reads back as a truthful account of it:
    days from 86400 on, hours and minutes from 3600 on, minutes and seconds below.
   */
  lemma FormatCountdownReadsBack(s: int)
    requires s >= 0
    ensures var c := ReadCountdown(FormatCountdown(s));
            c.Some? && Describes(c.value, s)
            && (c.value.Days? <==> s >= SecondsInDay)
            && (c.value.MinutesSeconds? <==> s < SecondsInHour)
  {
    if s >= SecondsInDay {
      DaysBranch(s);
    } else if s >= SecondsInHour {
      HoursBranch(s);
    } else {
      MinutesBranch(s);
    }
  }

  lemma WordsOfTwo(a: string, b: string)
    ensures Words([a, b]) == a + " " + b
  {
    assert [a, b][1..] == [b];
  }

  lemma SmallNumerals()
    ensures IntToString(1) == "1" && IntToString(2) == "2"
  {
    assert DigitChar(1) == '1' && DigitChar(2) == '2';
  }

  /** Exactly one day is "1 day". */
  lemma OneDayExample()
    ensures FormatCountdown(86400) == "1 day"
  {
    SmallNumerals();
    assert 86400 / SecondsInDay == 1;
    assert FormatCountdown(86400) == Words([IntToString(1), "day" + Plural(1)]);
    assert "day" + Plural(1) == "day";
    WordsOfTwo("1", "day");
  }

  /** Two days are "2 days". */
  lemma TwoDaysExample()
    ensures FormatCountdown(2 * 86400) == "2 days"
  {
    SmallNumerals();
    assert (2 * 86400) / SecondsInDay == 2;
    assert FormatCountdown(2 * 86400) == Words([IntToString(2), "day" + Plural(2)]);
    WordsOfTwo("2", "days");
  }

  lemma HoursFields(s: int)
    requires SecondsInHour <= s < SecondsInDay
    ensures var h, m := s / SecondsInHour, (s % SecondsInHour) / SecondsInMinute;
            1 <= h < 24 && 0 <= m < 60 && h * SecondsInHour + m * SecondsInMinute <= s < h * SecondsInHour + (m + 1) * SecondsInMinute
  {
    var h, r := s / 3600, s % 3600;
    assert s == h * 3600 + r && 0 <= r < 3600;
    var m, x := r / 60, r % 60;
    assert r == m * 60 + x && 0 <= x < 60;
  }

  lemma MinutesFields(s: int)
    requires 0 <= s < SecondsInHour
    ensures var m, x := s / SecondsInMinute, JsRemainder60(s);
            0 <= m < 60 && 0 <= x < 60 && m * SecondsInMinute + x == s
  {
  }

  /**
    Below zero the minutes are floored but the seconds keep the sign of the input, so a
    countdown that is not a whole number of minutes is shown one minute short: -30 gives
    "-1 minutes and -30 seconds".
   */
  lemma NegativeCountdownFields(s: int)
    requires s < 0 && s % SecondsInMinute != 0
    ensures var m, x := s / SecondsInMinute, JsRemainder60(s);
            m < 0 && -60 < x < 0 && m * SecondsInMinute + x == s - SecondsInMinute
  {
    var q, r := s / 60, s % 60;
    assert s == q * 60 + r && 0 < r < 60;
    assert -s == (-q - 1) * 60 + (60 - r);
    assert (-s) % 60 == 60 - r;
  }

  /** A negative whole number of minutes is shown exactly: -60 gives "-1 minutes and 00 seconds". */
  lemma NegativeWholeMinutesFields(s: int)
    requires s < 0 && s % SecondsInMinute == 0
    ensures var m, x := s / SecondsInMinute, JsRemainder60(s);
            m < 0 && x == 0 && m * SecondsInMinute + x == s
  {
    var q := s / 60;
    assert s == 60 * q && q < 0;
    WholeMinutesRemainder(-s, -q);
    assert JsRemainder60(s) == 0;
  }

  lemma WholeMinutesRemainder(a: int, q: int)
    requires a == 60 * q
    ensures a % 60 == 0
  {
  }

  // ---------------------------------------------------------------------------
  // calculateSessionCountdown
  // ---------------------------------------------------------------------------

  /**
    A session's start and end as `new Date(...).getTime()` reads them: millisecond timestamps,
    None standing for NaN, the reading of a date that cannot be parsed.
   */
  datatype Session = Session(start: Option<int>, end: Option<int>)

  /** `sessionStartTime > currentTime`: false when the start is NaN. */
  predicate StartsLater(session: Session, now: int)
  {
    session.start.Some? && session.start.value > now
  }

  /**
    `calculateSessionCountdown(session)` with the clock reading `now`: the whole seconds (rounded
    down) until the start if it is still ahead, otherwise until the end. None is NaN: the end
    could not be parsed when it is the one counted to.
   */
  function CalculateSessionCountdown(session: Session, now: int): (r: Option<int>)
    ensures var target := if StartsLater(session, now) then session.start else session.end;
            && (r.Some? <==> target.Some?)
            && (r.Some? ==> r.value * 1000 <= target.value - now < (r.value + 1) * 1000)
  {
    var countdown := if StartsLater(session, now) then session.start else session.end;
    match countdown
    case Some(t) =>
      QuotientBounds(t - now, 1000);
      Some((t - now) / 1000)
    case None => None
  }

  /** Before the start: between 0 and the seconds to the start, and positive from one second out. */
  lemma CountdownBeforeStart(session: Session, now: int)
    requires StartsLater(session, now)
    ensures var r := CalculateSessionCountdown(session, now);
            && r.Some? && 0 <= r.value && r.value * 1000 <= session.start.value - now
            && (r.value > 0 <==> session.start.value - now >= 1000)
  {
  }

  /** After the start: the seconds left to the end, negative once the end has passed. */
  lemma CountdownAfterStart(session: Session, start: int, end: int, now: int)
    requires session == Session(Some(start), Some(end)) && start <= now
    ensures var r := CalculateSessionCountdown(session, now);
            && r.Some? && r.value * 1000 <= end - now < (r.value + 1) * 1000
            && (r.value < 0 <==> end < now)
  {
  }

  /** A start that cannot be parsed counts as passed: the countdown runs to the end, as for a session starting now. */
  lemma InvalidStartCountsToEnd(session: Session, now: int)
    requires session.start.None?
    ensures CalculateSessionCountdown(session, now) == CalculateSessionCountdown(Session(Some(now), session.end), now)
  {
  }

  /** NaN comes out exactly when the date counted to cannot be parsed, as when both cannot. */
  lemma NaNCountdown(session: Session, now: int)
    ensures CalculateSessionCountdown(session, now).None? <==> !StartsLater(session, now) && session.end.None?
    ensures session.start.None? && session.end.None? ==> CalculateSessionCountdown(session, now).None?
  {
  }

  /**
    `formatCountdown` of a countdown that may be NaN: every comparison with NaN is false, so the
    last branch renders NaN minutes and NaN seconds, in the plural.
   */
  function FormatCountdownOrNaN(seconds: Option<int>): (text: string)
    ensures seconds.Some? ==> text == FormatCountdown(seconds.value)
  {
    match seconds
    case Some(s) => FormatCountdown(s)
    case None => Words(["NaN", "minutes", "and", "NaN", "seconds"])
  }

  /**
    The NaN text is "NaN minutes and NaN seconds": `padStart` leaves "NaN" as it is and both
    units are plural. It is no countdown at all: no reading describes it.
   */
  lemma NaNCountdownUnreadable()
    ensures Split(FormatCountdownOrNaN(None), ' ') == ["NaN", "minutes", "and", "NaN", "seconds"]
    ensures ReadCountdown(FormatCountdownOrNaN(None)) == None
  {
    var ws := ["NaN", "minutes", "and", "NaN", "seconds"];
    FiveNoBlankWords("NaN", "minutes", "and", "NaN", "seconds");
    SplitWords(ws);
    NotANumeral(ws[0]);
  }

  lemma NotANumeral(w: string)
    requires w == "NaN"
    ensures !IsNumeral(w)
  {
    assert !IsDigit(w[0]);
  }
}
