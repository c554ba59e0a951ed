/**
  Target visibility for an observer: the Julian date and sidereal-time arithmetic of
  src/utils/visibility.js, and the bucketing of the targets that stand more than 30 degrees
  above the horizon into five categories by their AVM classification code.

  The clock is an explicit `Instant`; the spherical trigonometry of `calcAltAz` is a
  function-typed parameter returning the pair `(az, alt)` in the order the source returns them.
 */
module Visibility {
  import opened Strings

  // ---------------------------------------------------------------------------
  // Instants, sign, decimal hours
  // ---------------------------------------------------------------------------

  /** A UTC instant as JavaScript's Date getters report it; `month0` is 0-based like getUTCMonth. */
  datatype Instant = Instant(year: int, month0: int, day: int, hours: int, minutes: int, seconds: int)

  predicate ValidClock(now: Instant)
  {
    0 <= now.hours < 24 && 0 <= now.minutes < 60 && 0 <= now.seconds < 60
  }

  /** `sign(x)`: 0 for the falsy value 0, otherwise -1 or 1. */
  function Sign(x: real): (r: int)
    ensures r == -1 <==> x < 0.0
    ensures r == 0 <==> x == 0.0
    ensures r == 1 <==> x > 0.0
  {
    if x != 0.0 then (if x < 0.0 then -1 else 1) else 0
  }

  function Abs(x: int): nat
  {
    if x < 0 then -x else x
  }

  /** `decimalhours(now)`: the time of day in hours. */
  function DecimalHours(now: Instant): (h: real)
    ensures h * 3600.0 == (3600 * now.hours + 60 * now.minutes + now.seconds) as real
    ensures ValidClock(now) ==> 0.0 <= h < 24.0
  {
    ((now.seconds as real / 60.0) + now.minutes as real) / 60.0 + now.hours as real
  }

  // ---------------------------------------------------------------------------
  // Julian date
  // ---------------------------------------------------------------------------

  /**
    The Julian day at 0h UT of a Gregorian calendar date, as Meeus gives it in chapter 7 of
    "Astronomical Algorithms": January and February count as months 13 and 14 of the previous
    year, then JD = INT(365.25 (Y + 4716)) + INT(30.6001 (M + 1)) + D + B - 1524.5 with
    A = INT(Y / 100) and B = 2 - A + INT(A / 4). INT is written with integer division.
   */
  function MeeusJulianDay(year: int, month: int, day: int): real
  {
    var y := if month == 1 || month == 2 then year - 1 else year;
    var m := if month == 1 || month == 2 then month + 12 else month;
    var a := y / 100;
    var b := 2 - a + a / 4;
    ((1461 * (y + 4716)) / 4 + (306001 * (m + 1)) / 10000 + day + b) as real - 1524.5
  }

  /** Real division followed by `Math.floor` is integer floor division. */
  lemma FloorOfQuotient(n: int, k: int)
    requires k > 0
    ensures (n as real / k as real).Floor == n / k
  {
    var q, r := n / k, n % k;
    var kr := k as real;
    assert n == q * k + r && 0 <= r < k;
    assert n as real == q as real * kr + r as real;
    assert 0.0 <= r as real / kr < 1.0;
    MultipleOverDivisor(q as real, kr);
    assert n as real / kr == (q as real * kr) / kr + r as real / kr;
    assert n as real / kr == q as real + r as real / kr;
  }

  lemma MultipleOverDivisor(a: real, k: real)
    requires k > 0.0
    ensures (a * k) / k == a
  {
  }

  /**
    `juliandate(now)`: the date part of `now` only, with the 4716-year and 1524.5-day offsets of
    the textbook formula folded into the constant 1720994.5.
   */
  method JulianDate(now: Instant) returns (jd: real)
    ensures jd == MeeusJulianDay(now.year, now.month0 + 1, now.day)
  {
    var y := now.year;
    var m := now.month0 + 1;
    var d := now.day;
    if m == 1 || m == 2 {
      y := y - 1;
      m := m + 12;
    }
    var a := (y as real / 100.0).Floor;
    var b := 2 - a + (a as real / 4.0).Floor;
    var c := (365.25 * y as real).Floor;
    var dm := (30.6001 * (m + 1) as real).Floor;
    jd := (b + c + dm + d) as real + 1720994.5;

    FloorOfQuotient(y, 100);
    FloorOfQuotient(a, 4);
    assert 365.25 * y as real == (1461 * y) as real / 4.0;
    FloorOfQuotient(1461 * y, 4);
    assert 30.6001 * (m + 1) as real == (306001 * (m + 1)) as real / 10000.0;
    FloorOfQuotient(306001 * (m + 1), 10000);
    assert (1461 * (y + 4716)) / 4 == (1461 * y) / 4 + 1722519;
  }

  /** January and February are months 13 and 14 of the previous year. */
  lemma JanuaryFebruaryAreMonthsOfPreviousYear(year: int, month: int, day: int)
    requires month == 1 || month == 2
    ensures MeeusJulianDay(year, month, day) == MeeusJulianDay(year - 1, month + 12, day)
  {
  }

  predicate IsLeapYear(y: int)
  {
    y % 4 == 0 && (y % 100 != 0 || y % 400 == 0)
  }

  function DaysInMonth(y: int, m: int): int
    requires 1 <= m <= 12
  {
    if m == 2 then (if IsLeapYear(y) then 29 else 28)
    else if m == 4 || m == 6 || m == 9 || m == 11 then 30
    else 31
  }

  predicate ValidDate(y: int, m: int, d: int)
  {
    1 <= m <= 12 && 1 <= d <= DaysInMonth(y, m)
  }

  /** The Gregorian calendar date that follows (y, m, d). */
  function NextDate(y: int, m: int, d: int): (int, int, int)
    requires ValidDate(y, m, d)
  {
    if d < DaysInMonth(y, m) then (y, m, d + 1)
    else if m < 12 then (y, m + 1, 1)
    else (y + 1, 1, 1)
  }

  lemma QuadrennialDays(q: int)
    ensures (1461 * q) / 4 == 365 * q + q / 4
  {
    var j, r := q / 4, q % 4;
    assert 1461 * q == 4 * (365 * q + j) + r;
  }

  /** Stepping back one from n drops n / 4 by one exactly when 4 divides n. */
  lemma QuarterStep(n: int)
    ensures n / 4 == (n - 1) / 4 + (if n % 4 == 0 then 1 else 0)
  {
  }

  /** Stepping back one from n drops n / 100 by one exactly when 100 divides n. */
  lemma CenturyStep(n: int)
    ensures n / 100 == (n - 1) / 100 + (if n % 100 == 0 then 1 else 0)
  {
  }

  lemma CenturyLeap(y: int)
    requires y % 100 == 0
    ensures (y / 100) % 4 == 0 <==> y % 400 == 0
  {
    var c := y / 100;
    var j, r := c / 4, c % 4;
    assert y == 400 * j + 100 * r;
  }

  /** INT(365.25 (Y + 4716)): whole days up to the shifted year Y. */
  function QuadrennialTerm(y: int): int
  {
    (1461 * (y + 4716)) / 4
  }

  /** B = 2 - A + INT(A / 4) with A = INT(Y / 100): the Gregorian century correction. */
  function CenturyTerm(y: int): int
  {
    var a := y / 100;
    2 - a + a / 4
  }

  /** The part of the Julian day that depends on the (shifted) year only. */
  function YearPart(y: int): real
  {
    (QuadrennialTerm(y) + CenturyTerm(y)) as real - 1524.5
  }

  lemma MarchOnward(y: int, m: int, d: int)
    requires m >= 3
    ensures MeeusJulianDay(y, m, d) == YearPart(y) + ((306001 * (m + 1)) / 10000 + d) as real
  {
  }

  lemma FebruaryAsMonthFourteen(y: int, d: int)
    ensures MeeusJulianDay(y, 2, d) == YearPart(y - 1) + (459 + d) as real
  {
  }

  /** Every fourth shifted year is one day longer. */
  lemma QuadrennialStep(y: int)
    ensures QuadrennialTerm(y) == QuadrennialTerm(y - 1) + 365 + (if y % 4 == 0 then 1 else 0)
  {
    QuadrennialDays(y + 4716);
    QuadrennialDays(y - 1 + 4716);
    QuarterStep(y + 4716);
    assert (y + 4716) % 4 == y % 4;
  }

  /** A century year drops that day again, unless it is divisible by 400. */
  lemma CenturyTermStep(y: int)
    ensures CenturyTerm(y) == CenturyTerm(y - 1) - (if y % 100 == 0 then 1 else 0)
                              + (if y % 400 == 0 then 1 else 0)
  {
    CenturyStep(y);
    var a, a' := y / 100, (y - 1) / 100;
    if y % 100 == 0 {
      CenturyLeap(y);
      QuarterStep(a);
    } else {
      assert a == a';
      assert y % 400 != 0;
    }
  }

  lemma QuadricentennialIsCentury(y: int)
    requires y % 400 == 0
    ensures y % 100 == 0
  {
    var k := y / 400;
    assert y == 100 * (4 * k);
  }

  lemma CenturyIsQuadrennial(y: int)
    requires y % 100 == 0
    ensures y % 4 == 0
  {
    var k := y / 100;
    assert y == 4 * (25 * k);
  }

  /**
    The shifted year y - 1 (March of y - 1 to February of y) has 366 days exactly when y is a
    Gregorian leap year: the A and B terms encode the century rule.
   */
  lemma YearPartStep(y: int)
    ensures YearPart(y) == YearPart(y - 1) + (if IsLeapYear(y) then 366.0 else 365.0)
  {
    QuadrennialStep(y);
    CenturyTermStep(y);
    if y % 400 == 0 { QuadricentennialIsCentury(y); }
    if y % 100 == 0 { CenturyIsQuadrennial(y); }
    var leap := if IsLeapYear(y) then 1 else 0;
    assert QuadrennialTerm(y) + CenturyTerm(y) == QuadrennialTerm(y - 1) + CenturyTerm(y - 1) + 365 + leap;
  }

  /** Over the last days of February, in leap and common years. */
  lemma MarchFollowsFebruary(y: int)
    ensures MeeusJulianDay(y, 3, 1) == MeeusJulianDay(y, 2, DaysInMonth(y, 2)) + 1.0
  {
    MarchOnward(y, 3, 1);
    FebruaryAsMonthFourteen(y, DaysInMonth(y, 2));
    YearPartStep(y);
  }

  /** From the last day of a month from March to November to the first of the next. */
  lemma NextMonthFollows(y: int, m: int)
    requires 3 <= m <= 11
    ensures MeeusJulianDay(y, m + 1, 1) == MeeusJulianDay(y, m, DaysInMonth(y, m)) + 1.0
  {
    MarchOnward(y, m + 1, 1);
    MarchOnward(y, m, DaysInMonth(y, m));
    var t := (306001 * (m + 2)) / 10000 - (306001 * (m + 1)) / 10000;
    if m == 3 { assert t == 31; } else if m == 4 { assert t == 30; }
    else if m == 5 { assert t == 31; } else if m == 6 { assert t == 30; }
    else if m == 7 { assert t == 31; } else if m == 8 { assert t == 31; }
    else if m == 9 { assert t == 30; } else if m == 10 { assert t == 31; }
    else { assert t == 30; }
  }

  /** From January 31 to February 1: both count as months of the previous year. */
  lemma FebruaryFollowsJanuary(y: int)
    ensures MeeusJulianDay(y, 2, 1) == MeeusJulianDay(y, 1, 31) + 1.0
  {
  }

  /** From December 31 to January 1 of the next year, which counts as month 13 of this year. */
  lemma NewYearFollowsDecember(y: int)
    ensures MeeusJulianDay(y + 1, 1, 1) == MeeusJulianDay(y, 12, 31) + 1.0
  {
    assert MeeusJulianDay(y + 1, 1, 1) == MeeusJulianDay(y, 13, 1);
  }

  lemma NextDayOfMonth(y: int, m: int, d: int)
    ensures MeeusJulianDay(y, m, d + 1) == MeeusJulianDay(y, m, d) + 1.0
  {
  }

  /**
    Consecutive calendar dates have Julian days exactly one apart, across month and year ends
    and in leap and common years alike.
   */
  lemma NextDateIsOneDayLater(y: int, m: int, d: int)
    requires ValidDate(y, m, d)
    ensures var (y', m', d') := NextDate(y, m, d);
            MeeusJulianDay(y', m', d') == MeeusJulianDay(y, m, d) + 1.0
  {
    if d < DaysInMonth(y, m) {
      assert NextDate(y, m, d) == (y, m, d + 1);
      NextDayOfMonth(y, m, d);
    } else if m == 1 {
      assert NextDate(y, m, d) == (y, 2, 1);
      FebruaryFollowsJanuary(y);
    } else if m == 2 {
      assert NextDate(y, m, d) == (y, 3, 1);
      MarchFollowsFebruary(y);
    } else if m == 12 {
      assert NextDate(y, m, d) == (y + 1, 1, 1);
      NewYearFollowsDecember(y);
    } else {
      assert NextDate(y, m, d) == (y, m + 1, 1);
      NextMonthFollows(y, m);
    }
  }

  // ---------------------------------------------------------------------------
  // Sidereal time
  // ---------------------------------------------------------------------------

  /** Sidereal hours per solar hour. */
  const SiderealRate: real := 1.002737909

  /** Greenwich mean sidereal time at 0h UT, in hours, before reduction; T counts centuries since J2000.0. */
  function GstPolynomial(jd: real): real
  {
    var t := (jd - 2451545.0) / 36525.0;
    6.697374558 + 2400.051336 * t + 0.000025862 * (t * t)
  }

  /** x is a whole number of 24-hour turns. */
  predicate WholeDays(x: real)
  {
    (x / 24.0).Floor as real == x / 24.0
  }

  lemma WholeDaysOf(k: int, x: real)
    requires x == 24.0 * k as real
    ensures WholeDays(x)
  {
    assert x / 24.0 == k as real;
  }

  lemma WholeDaysSum(x: real, y: real)
    requires WholeDays(x) && WholeDays(y)
    ensures WholeDays(x + y)
  {
    WholeDaysOf((x / 24.0).Floor + (y / 24.0).Floor, x + y);
  }

  /**
    The reduction of `T0` into one day (lines 42-46 of `gst`): for a negative value the
    magnitude of the floor is added back, otherwise subtracted; both land in [0, 24).
   */
  function ReduceToDay(t0: real): (r: real)
    ensures 0.0 <= r < 24.0
    ensures WholeDays(t0 - r)
  {
    var f := (t0 / 24.0).Floor;
    var r := if Sign(t0) == -1 then t0 + 24.0 * Abs(f) as real else t0 - 24.0 * Abs(f) as real;
    assert f as real <= t0 / 24.0 < f as real + 1.0;
    assert t0 < 0.0 ==> f < 0;
    assert t0 >= 0.0 ==> f >= 0;
    assert r == t0 - 24.0 * f as real;
    WholeDaysOf(f, t0 - r);
    r
  }

  /**
    `gst(jd, dechours)`: Greenwich sidereal time in hours. The result differs from the
    polynomial plus the sidereal-scaled hours by whole days. Only one strict wrap follows the
    addition, so for a time of day in [0, 24) the result is in [0, 24 * SiderealRate) rather
    than [0, 24): a sum of exactly 24 is returned as 24.
   */
  method Gst(jd: real, decHours: real) returns (t0: real)
    ensures WholeDays(GstPolynomial(jd) + decHours * SiderealRate - t0)
    ensures decHours >= 0.0 ==> t0 >= 0.0
    ensures 0.0 <= decHours < 24.0 ==> t0 < 24.0 * SiderealRate
    ensures ReduceToDay(GstPolynomial(jd)) + decHours * SiderealRate == 24.0 ==> t0 == 24.0
  {
    t0 := GstPolynomial(jd);
    ghost var raw := t0;
    t0 := ReduceToDay(t0);
    ghost var reduced := t0;
    t0 := t0 + decHours * SiderealRate;
    ghost var k := 0;
    if t0 < 0.0 {
      t0 := t0 + 24.0;
      k := -1;
    }
    if t0 > 24.0 {
      t0 := t0 - 24.0;
      k := k + 1;
    }
    WholeDaysOf(k, reduced + decHours * SiderealRate - t0);
    WholeDaysSum(raw - reduced, reduced + decHours * SiderealRate - t0);
    assert raw + decHours * SiderealRate - t0
        == (raw - reduced) + (reduced + decHours * SiderealRate - t0);
  }

  /**
    `lst(gstime, lon)`: the local sidereal time, east longitudes ahead of Greenwich. Both
    branches add lon / 15 hours, followed by one wrap down from above 24 and one up from below 0.
   */
  method Lst(gstime: real, lon: real) returns (lstime: real)
    ensures WholeDays(gstime + lon / 15.0 - lstime)
    ensures -24.0 <= gstime + lon / 15.0 <= 48.0 ==> 0.0 <= lstime <= 24.0
    ensures lon == 0.0 && 0.0 <= gstime <= 24.0 ==> lstime == gstime
  {
    var utcdiff := (if lon < 0.0 then -lon else lon) / 15.0;
    if Sign(lon) == -1 {
      lstime := gstime - utcdiff;
    } else {
      lstime := gstime + utcdiff;
    }
    ghost var k := 0;
    if lstime > 24.0 {
      lstime := lstime - 24.0;
      k := 1;
    }
    if lstime < 0.0 {
      lstime := lstime + 24.0;
      k := k - 1;
    }
    WholeDaysOf(k, gstime + lon / 15.0 - lstime);
  }

  /**
    `calculate_lst(lon)` with the clock injected: the local sidereal time at `now`. It is the
    textbook sidereal time up to whole days, and lies in [0, 24] for a valid time of day and a
    longitude in [-180, 180].
   */
  method CalculateLst(now: Instant, lon: real) returns (lstime: real)
    ensures WholeDays(GstPolynomial(MeeusJulianDay(now.year, now.month0 + 1, now.day))
                      + DecimalHours(now) * SiderealRate + lon / 15.0 - lstime)
    ensures ValidClock(now) && -180.0 <= lon <= 180.0 ==> 0.0 <= lstime <= 24.0
  {
    var jd := JulianDate(now);
    var g := Gst(jd, DecimalHours(now));
    lstime := Lst(g, lon);
    var raw := GstPolynomial(jd) + DecimalHours(now) * SiderealRate;
    WholeDaysSum(raw - g, g + lon / 15.0 - lstime);
    assert raw + lon / 15.0 - lstime == (raw - g) + (g + lon / 15.0 - lstime);
  }

  // ---------------------------------------------------------------------------
  // Visible targets
  // ---------------------------------------------------------------------------

  /** One entry of a target's filter list: carried through, never read. */
  datatype TargetFilter = TargetFilter(name: string, exposureTime: real, count: int)

  datatype Target = Target(name: string, ra: real, dec: real, filters: seq<TargetFilter>,
                           avmcode: string, desc: string)

  /** A target above the altitude cut, tagged with its index in the input and its position. */
  datatype VisibleTarget = VisibleTarget(id: nat, name: string, ra: real, dec: real,
                                         alt: real, az: real, filters: seq<TargetFilter>,
                                         avmcode: string, desc: string)

  datatype Category = Nebulae | Galaxies | Supernovae | Clusters | Other

  /** The result object: always the five keys, one list per category. */
  datatype VisibleTargets = VisibleTargets(nebulae: seq<VisibleTarget>, galaxies: seq<VisibleTarget>,
                                           supernovae: seq<VisibleTarget>, clusters: seq<VisibleTarget>,
                                           other: seq<VisibleTarget>)
  {
    function Bucket(c: Category): seq<VisibleTarget>
    {
      match c
      case Nebulae => nebulae
      case Galaxies => galaxies
      case Supernovae => supernovae
      case Clusters => clusters
      case Other => other
    }
  }

  /** `calcAltAz(ra, dec, lat, lon)`, returning `[az, alt]` in degrees. */
  type AltAzModel = (real, real, real, real) -> (real, real)

  /** Targets are kept only strictly above this altitude, in degrees. */
  const MinAltitude: real := 30.0

  /**
    First matching prefix wins, in the order galaxies, supernovae, nebulae, clusters: so every
    "4.1.4" code is a supernova, and a nebula is any other code beginning with '4'.
   */
  function Classify(avmcode: string): (c: Category)
    ensures c == Galaxies <==> |avmcode| >= 1 && avmcode[0] == '5'
    ensures c == Supernovae <==> |avmcode| >= 5 && avmcode[..5] == "4.1.4"
    ensures c == Nebulae <==> |avmcode| >= 1 && avmcode[0] == '4' && !(|avmcode| >= 5 && avmcode[..5] == "4.1.4")
    ensures c == Clusters <==> |avmcode| >= 3 && avmcode[..3] == "3.6"
  {
    assert |avmcode| >= 1 ==> avmcode[..1] == [avmcode[0]];
    assert |avmcode| >= 5 && avmcode[..5] == "4.1.4" ==> avmcode[0] == '4';
    assert |avmcode| >= 3 && avmcode[..3] == "3.6" ==> avmcode[0] == '3';
    if StartsWith(avmcode, "5") then Galaxies
    else if StartsWith(avmcode, "4.1.4") then Supernovae
    else if StartsWith(avmcode, "4") then Nebulae
    else if StartsWith(avmcode, "3.6") then Clusters
    else Other
  }

  function Altitude(t: Target, lat: real, lon: real, calcAltAz: AltAzModel): real
  {
    calcAltAz(t.ra, t.dec, lat, lon).1
  }

  function Record(targets: seq<Target>, i: nat, lat: real, lon: real, calcAltAz: AltAzModel): VisibleTarget
    requires i < |targets|
  {
    var t := targets[i];
    var altaz := calcAltAz(t.ra, t.dec, lat, lon);
    VisibleTarget(i, t.name, t.ra, t.dec, altaz.1, altaz.0, t.filters, t.avmcode, t.desc)
  }

  /** The records of the targets among the first n that stand above the cut, in input order. */
  function Kept(targets: seq<Target>, lat: real, lon: real, calcAltAz: AltAzModel, n: nat): (kept: seq<VisibleTarget>)
    requires n <= |targets|
    ensures |kept| <= n
  {
    if n == 0 then []
    else
      Kept(targets, lat, lon, calcAltAz, n - 1)
      + (if Altitude(targets[n - 1], lat, lon, calcAltAz) > MinAltitude
         then [Record(targets, n - 1, lat, lon, calcAltAz)] else [])
  }

  /** The records of one category, in their order. */
  function InCategory(rs: seq<VisibleTarget>, c: Category): seq<VisibleTarget>
  {
    if rs == [] then []
    else
      InCategory(rs[..|rs| - 1], c)
      + (if Classify(rs[|rs| - 1].avmcode) == c then [rs[|rs| - 1]] else [])
  }

  /** What `calculateVisibleTargets` returns, as a function of its inputs. */
  function VisibleTargetsOf(targets: seq<Target>, lat: real, lon: real, calcAltAz: AltAzModel): (v: VisibleTargets)
    ensures |v.nebulae| + |v.galaxies| + |v.supernovae| + |v.clusters| + |v.other|
            == |Kept(targets, lat, lon, calcAltAz, |targets|)| <= |targets|
  {
    var k := Kept(targets, lat, lon, calcAltAz, |targets|);
    CategoryLengthsAddUp(k);
    VisibleTargets(InCategory(k, Nebulae), InCategory(k, Galaxies), InCategory(k, Supernovae),
                   InCategory(k, Clusters), InCategory(k, Other))
  }

  lemma InCategoryAppend(rs: seq<VisibleTarget>, r: VisibleTarget, c: Category)
    ensures InCategory(rs + [r], c) == InCategory(rs, c) + (if Classify(r.avmcode) == c then [r] else [])
  {
    assert (rs + [r])[..|rs|] == rs;
  }

  /** `calculateVisibleTargets(targets, lat, lon)`: one pass pushing each kept record into its bucket. */
  method CalculateVisibleTargets(targets: seq<Target>, lat: real, lon: real, calcAltAz: AltAzModel)
    returns (visible: VisibleTargets)
    ensures visible == VisibleTargetsOf(targets, lat, lon, calcAltAz)
  {
    var nebulae, galaxies, supernovae, clusters, other := [], [], [], [], [];
    for i := 0 to |targets|
      invariant nebulae == InCategory(Kept(targets, lat, lon, calcAltAz, i), Nebulae)
      invariant galaxies == InCategory(Kept(targets, lat, lon, calcAltAz, i), Galaxies)
      invariant supernovae == InCategory(Kept(targets, lat, lon, calcAltAz, i), Supernovae)
      invariant clusters == InCategory(Kept(targets, lat, lon, calcAltAz, i), Clusters)
      invariant other == InCategory(Kept(targets, lat, lon, calcAltAz, i), Other)
    {
      var ra := targets[i].ra;
      var dec := targets[i].dec;
      var altaz := calcAltAz(ra, dec, lat, lon);
      var alt := altaz.1;
      var az := altaz.0;
      if alt > MinAltitude {
        var target := VisibleTarget(i, targets[i].name, ra, dec, alt, az, targets[i].filters,
                                    targets[i].avmcode, targets[i].desc);
        ghost var before := Kept(targets, lat, lon, calcAltAz, i);
        assert Kept(targets, lat, lon, calcAltAz, i + 1) == before + [target];
        InCategoryAppend(before, target, Nebulae);
        InCategoryAppend(before, target, Galaxies);
        InCategoryAppend(before, target, Supernovae);
        InCategoryAppend(before, target, Clusters);
        InCategoryAppend(before, target, Other);
        if StartsWith(targets[i].avmcode, "5") {
          galaxies := galaxies + [target];
        } else if StartsWith(targets[i].avmcode, "4.1.4") {
          supernovae := supernovae + [target];
        } else if StartsWith(targets[i].avmcode, "4") {
          nebulae := nebulae + [target];
        } else if StartsWith(targets[i].avmcode, "3.6") {
          clusters := clusters + [target];
        } else {
          other := other + [target];
        }
      } else {
        assert Kept(targets, lat, lon, calcAltAz, i + 1) == Kept(targets, lat, lon, calcAltAz, i);
      }
    }
    visible := VisibleTargets(nebulae, galaxies, supernovae, clusters, other);
  }

  // ---------------------------------------------------------------------------
  // Properties of the classification and of the buckets
  // ---------------------------------------------------------------------------

  /** A supernova code is tested before the generic nebula prefix "4", so it never lands there. */
  lemma SupernovaeBeforeNebulae(avmcode: string)
    requires StartsWith(avmcode, "4.1.4")
    ensures Classify(avmcode) == Supernovae
  {
    assert avmcode[0] == avmcode[..5][0] == '4';
    assert avmcode[..1] == [avmcode[0]];
  }

  lemma ClassifyExamples()
    ensures Classify("4.1.4B") == Supernovae
    ensures Classify("5A") == Galaxies
    ensures Classify("4.2") == Nebulae
    ensures Classify("3.6C") == Clusters
    ensures Classify("XYZ") == Other
    ensures Classify("") == Other
  {
    SupernovaeBeforeNebulae("4.1.4B");
    assert "5A"[..1] == "5";
    assert "4.2"[..1] == "4";
    assert "3.6C"[..3] == "3.6";
  }

  /**
    The kept records are exactly the targets strictly above the cut: each carries its input
    index as id, copies the target's fields, and takes alt from index 1 and az from index 0 of
    the altitude model's result.
   */
  lemma {:induction false} KeptRecords(targets: seq<Target>, lat: real, lon: real, calcAltAz: AltAzModel, n: nat)
    requires n <= |targets|
    ensures forall r :: r in Kept(targets, lat, lon, calcAltAz, n) ==>
              r.id < n && r == Record(targets, r.id, lat, lon, calcAltAz)
              && Altitude(targets[r.id], lat, lon, calcAltAz) > MinAltitude
    ensures forall i :: 0 <= i < n ==>
              (Record(targets, i, lat, lon, calcAltAz) in Kept(targets, lat, lon, calcAltAz, n)
               <==> Altitude(targets[i], lat, lon, calcAltAz) > MinAltitude)
  {
    if n > 0 {
      KeptRecords(targets, lat, lon, calcAltAz, n - 1);
    }
  }

  lemma {:induction false} KeptIdsBelow(targets: seq<Target>, lat: real, lon: real, calcAltAz: AltAzModel, n: nat)
    requires n <= |targets|
    ensures forall j :: 0 <= j < |Kept(targets, lat, lon, calcAltAz, n)| ==> Kept(targets, lat, lon, calcAltAz, n)[j].id < n
  {
    if n > 0 {
      KeptIdsBelow(targets, lat, lon, calcAltAz, n - 1);
      var k0 := Kept(targets, lat, lon, calcAltAz, n - 1);
      var k := Kept(targets, lat, lon, calcAltAz, n);
      forall j | 0 <= j < |k| ensures k[j].id < n {
        if j < |k0| {
          assert k[j] == k0[j];
        } else {
          assert k[j] == Record(targets, n - 1, lat, lon, calcAltAz);
        }
      }
    }
  }

  predicate IdsIncreasing(rs: seq<VisibleTarget>)
  {
    forall a, b :: 0 <= a < b < |rs| ==> rs[a].id < rs[b].id
  }

  /** The kept records are in increasing input order. */
  lemma {:induction false} KeptOrdered(targets: seq<Target>, lat: real, lon: real, calcAltAz: AltAzModel, n: nat)
    requires n <= |targets|
    ensures IdsIncreasing(Kept(targets, lat, lon, calcAltAz, n))
  {
    if n > 0 {
      KeptOrdered(targets, lat, lon, calcAltAz, n - 1);
      KeptIdsBelow(targets, lat, lon, calcAltAz, n - 1);
      var k0 := Kept(targets, lat, lon, calcAltAz, n - 1);
      var k := Kept(targets, lat, lon, calcAltAz, n);
      if Altitude(targets[n - 1], lat, lon, calcAltAz) > MinAltitude {
        var last := Record(targets, n - 1, lat, lon, calcAltAz);
        assert k == k0 + [last];
        forall a, b | 0 <= a < b < |k| ensures k[a].id < k[b].id {
          if b == |k0| {
            assert k[b] == last && last.id == n - 1;
            assert k[a] == k0[a] && k0[a].id < n - 1;
          } else {
            assert k[a] == k0[a] && k[b] == k0[b];
            assert k0[a].id < k0[b].id;
          }
        }
      }
    }
  }

  function IndicesAbove(targets: seq<Target>, lat: real, lon: real, calcAltAz: AltAzModel, n: nat): set<nat>
    requires n <= |targets|
  {
    set i: nat | i < n && Altitude(targets[i], lat, lon, calcAltAz) > MinAltitude
  }

  lemma IndicesAboveGrow(targets: seq<Target>, lat: real, lon: real, calcAltAz: AltAzModel, n: nat)
    requires 0 < n <= |targets| && Altitude(targets[n - 1], lat, lon, calcAltAz) > MinAltitude
    ensures IndicesAbove(targets, lat, lon, calcAltAz, n) == IndicesAbove(targets, lat, lon, calcAltAz, n - 1) + {n - 1}
  {
  }

  lemma IndicesAboveSame(targets: seq<Target>, lat: real, lon: real, calcAltAz: AltAzModel, n: nat)
    requires 0 < n <= |targets| && Altitude(targets[n - 1], lat, lon, calcAltAz) <= MinAltitude
    ensures IndicesAbove(targets, lat, lon, calcAltAz, n) == IndicesAbove(targets, lat, lon, calcAltAz, n - 1)
  {
  }

  /** Index n - 1 joins the indices above the cut exactly when its target is above it. */
  lemma IndicesAboveStep(targets: seq<Target>, lat: real, lon: real, calcAltAz: AltAzModel, n: nat)
    requires 0 < n <= |targets|
    ensures |IndicesAbove(targets, lat, lon, calcAltAz, n)|
            == |IndicesAbove(targets, lat, lon, calcAltAz, n - 1)|
               + (if Altitude(targets[n - 1], lat, lon, calcAltAz) > MinAltitude then 1 else 0)
  {
    if Altitude(targets[n - 1], lat, lon, calcAltAz) > MinAltitude {
      IndicesAboveGrow(targets, lat, lon, calcAltAz, n);
      assert n - 1 !in IndicesAbove(targets, lat, lon, calcAltAz, n - 1);
    } else {
      IndicesAboveSame(targets, lat, lon, calcAltAz, n);
    }
  }

  /** As many records are kept as there are targets strictly above the cut. */
  lemma {:induction false} KeptCount(targets: seq<Target>, lat: real, lon: real, calcAltAz: AltAzModel, n: nat)
    requires n <= |targets|
    ensures |Kept(targets, lat, lon, calcAltAz, n)| == |IndicesAbove(targets, lat, lon, calcAltAz, n)|
  {
    if n > 0 {
      KeptCount(targets, lat, lon, calcAltAz, n - 1);
      IndicesAboveStep(targets, lat, lon, calcAltAz, n);
    }
  }

  /** A category's list holds exactly the records of that category. */
  lemma {:induction false} InCategoryContents(rs: seq<VisibleTarget>, c: Category)
    ensures forall r :: r in InCategory(rs, c) <==> r in rs && Classify(r.avmcode) == c
  {
    if rs != [] {
      var init := rs[..|rs| - 1];
      InCategoryContents(init, c);
      assert rs == init + [rs[|rs| - 1]];
    }
  }

  /** Selecting one category keeps the records in their order. */
  lemma {:induction false} InCategoryOrdered(rs: seq<VisibleTarget>, c: Category)
    requires IdsIncreasing(rs)
    ensures IdsIncreasing(InCategory(rs, c))
  {
    if rs != [] {
      var init := rs[..|rs| - 1];
      forall a, b | 0 <= a < b < |init| ensures init[a].id < init[b].id {
        assert init[a] == rs[a] && init[b] == rs[b];
      }
      InCategoryOrdered(init, c);
      InCategoryContents(init, c);
      var q := InCategory(rs, c);
      var q0 := InCategory(init, c);
      if Classify(rs[|rs| - 1].avmcode) == c {
        assert q == q0 + [rs[|rs| - 1]];
        forall a, b | 0 <= a < b < |q| ensures q[a].id < q[b].id {
          if b == |q0| {
            assert q[b] == rs[|rs| - 1];
            assert q[a] == q0[a] && q0[a] in init;
            var x :| 0 <= x < |init| && init[x] == q[a];
            assert rs[x] == init[x];
            assert rs[x].id < rs[|rs| - 1].id;
          } else {
            assert q[a] == q0[a] && q[b] == q0[b];
            assert q0[a].id < q0[b].id;
          }
        }
      }
    }
  }

  /** The five lists together hold each kept record once: their lengths add up. */
  lemma {:induction false} CategoryLengthsAddUp(rs: seq<VisibleTarget>)
    ensures |InCategory(rs, Nebulae)| + |InCategory(rs, Galaxies)| + |InCategory(rs, Supernovae)|
            + |InCategory(rs, Clusters)| + |InCategory(rs, Other)| == |rs|
  {
    if rs != [] {
      CategoryLengthsAddUp(rs[..|rs| - 1]);
    }
  }

  lemma BucketIsCategory(targets: seq<Target>, lat: real, lon: real, calcAltAz: AltAzModel, c: Category)
    ensures VisibleTargetsOf(targets, lat, lon, calcAltAz).Bucket(c)
            == InCategory(Kept(targets, lat, lon, calcAltAz, |targets|), c)
  {
  }

  /**
    Every target strictly above the cut is in exactly one bucket, the one its code selects; a
    target at or below the cut is in none.
   */
  lemma VisibleTargetsBuckets(targets: seq<Target>, lat: real, lon: real, calcAltAz: AltAzModel)
    ensures var v := VisibleTargetsOf(targets, lat, lon, calcAltAz);
            forall i, c :: 0 <= i < |targets| ==>
              (Record(targets, i, lat, lon, calcAltAz) in v.Bucket(c)
               <==> Altitude(targets[i], lat, lon, calcAltAz) > MinAltitude && c == Classify(targets[i].avmcode))
  {
    var v := VisibleTargetsOf(targets, lat, lon, calcAltAz);
    var k := Kept(targets, lat, lon, calcAltAz, |targets|);
    KeptRecords(targets, lat, lon, calcAltAz, |targets|);
    forall i, c | 0 <= i < |targets|
      ensures Record(targets, i, lat, lon, calcAltAz) in v.Bucket(c)
              <==> Altitude(targets[i], lat, lon, calcAltAz) > MinAltitude && c == Classify(targets[i].avmcode)
    {
      BucketIsCategory(targets, lat, lon, calcAltAz, c);
      InCategoryContents(k, c);
    }
  }

  /** The buckets together are as long as the number of targets strictly above the cut. */
  lemma VisibleTargetsTotal(targets: seq<Target>, lat: real, lon: real, calcAltAz: AltAzModel)
    ensures var v := VisibleTargetsOf(targets, lat, lon, calcAltAz);
            |v.nebulae| + |v.galaxies| + |v.supernovae| + |v.clusters| + |v.other|
            == |IndicesAbove(targets, lat, lon, calcAltAz, |targets|)|
  {
    KeptCount(targets, lat, lon, calcAltAz, |targets|);
    CategoryLengthsAddUp(Kept(targets, lat, lon, calcAltAz, |targets|));
  }

  /** Each bucket lists its targets in increasing input index. */
  lemma VisibleTargetsOrdered(targets: seq<Target>, lat: real, lon: real, calcAltAz: AltAzModel, c: Category)
    ensures IdsIncreasing(VisibleTargetsOf(targets, lat, lon, calcAltAz).Bucket(c))
  {
    KeptOrdered(targets, lat, lon, calcAltAz, |targets|);
    BucketIsCategory(targets, lat, lon, calcAltAz, c);
    InCategoryOrdered(Kept(targets, lat, lon, calcAltAz, |targets|), c);
  }

  /** No targets: five empty lists. */
  lemma NoTargetsNoneVisible(lat: real, lon: real, calcAltAz: AltAzModel)
    ensures VisibleTargetsOf([], lat, lon, calcAltAz) == VisibleTargets([], [], [], [], [])
  {
  }
}
