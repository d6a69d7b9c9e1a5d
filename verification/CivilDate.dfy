/**
 The unix-time to civil-date conversion used for certificate expiry output, against the proleptic
 Gregorian calendar: month lengths, the 4/100/400 leap rule and the day-successor function.
 */
module CivilDate {

  datatype Date = Date(y: int, m: int, d: int)
  datatype Stamp = Unavailable | Stamp(date: Date, hh: int, mm: int, ss: int)

  // ---- the computation ----

  /** Year of the 400-year era, counting years from 1 March. */
  function YearOfEra(doe: int): int { (doe - doe / 1460 + doe / 36524 - doe / 146096) / 365 }

  function YearStart(yoe: int): int { 365 * yoe + yoe / 4 - yoe / 100 }

  /** Civil date of day `days` after 1970-01-01. */
  function Civil(days: nat): Date {
    var shifted := days + 719468;
    var era, doe := shifted / 146097, shifted % 146097;
    var yoe := YearOfEra(doe);
    MarchDate(yoe + era * 400, doe - YearStart(yoe))
  }

  /** Day `doy` of the year that starts on 1 March of year `y`. */
  function MarchDate(y: int, doy: int): Date {
    var mp := (5 * doy + 2) / 153;
    var d := doy - (153 * mp + 2) / 5 + 1;
    var m := if mp < 10 then mp + 3 else mp - 9;
    Date(if m <= 2 then y + 1 else y, m, d)
  }

  function Rfc3339(unix: int): Stamp {
    if unix < 0 then Unavailable
    else
      var s := unix % 86400;
      Stamp(Civil(unix / 86400), s / 3600, (s % 3600) / 60, s % 60)
  }

  // ---- the calendar ----

  predicate Leap(y: int) { y % 4 == 0 && (y % 100 != 0 || y % 400 == 0) }

  function MonthLength(y: int, m: int): int {
    if m == 2 then (if Leap(y) then 29 else 28)
    else if m == 4 || m == 6 || m == 9 || m == 11 then 30 else 31
  }

  predicate IsDate(t: Date) { 1 <= t.m <= 12 && 1 <= t.d <= MonthLength(t.y, t.m) }

  function NextDay(t: Date): Date {
    if t.d < MonthLength(t.y, t.m) then t.(d := t.d + 1)
    else if t.m < 12 then Date(t.y, t.m + 1, 1)
    else Date(t.y + 1, 1, 1)
  }

  /** Length of the year that starts on 1 March of year `y`. */
  function MarchYearLength(y: int): int { if Leap(y + 1) then 366 else 365 }

  // ---- the year of the era ----

  /** Century, four-year block, year in block and day of year of a day of the era. */
  datatype Parts = Parts(c: int, q: int, r: int, doy: int) {
    predicate Valid() {
      && 0 <= c <= 3 && 0 <= q <= 24 && 0 <= r <= 3 && 0 <= doy
      && doy < (if r == 3 && (q != 24 || c == 3) then 366 else 365)
    }
    function Year(): int { 100 * c + 4 * q + r }
    function Day(): int { 36524 * c + 1461 * q + 365 * r + doy }
  }

  function Cap(a: int, b: int): int { if a < b then a else b }

  function Split(doe: int): (p: Parts)
    requires 0 <= doe < 146097
    ensures p.Valid() && p.Day() == doe
  {
    var c := Cap(doe / 36524, 3);
    var rest := doe - 36524 * c;
    var q := Cap(rest / 1461, 24);
    var rest2 := rest - 1461 * q;
    var r := Cap(rest2 / 365, 3);
    Parts(c, q, r, rest2 - 365 * r)
  }

  lemma StartOfYear(p: Parts)
    requires p.Valid()
    ensures YearStart(p.Year()) == p.Day() - p.doy
  {
    var y := p.Year();
    assert y / 4 == 25 * p.c + p.q && y / 100 == p.c;
  }

  lemma YearOfParts(p: Parts)
    requires p.Valid()
    ensures YearOfEra(p.Day()) == p.Year()
  {
    var doe := p.Day();
    var last := if doe == 146096 then 1 else 0;
    assert doe / 36524 == p.c + last && doe / 146096 == last;
    var t := 24 * p.c + p.q + 365 * p.r + p.doy;
    var k := if t >= 1460 then 1 else 0;
    assert doe == 1460 * (25 * p.c + p.q) + t;
    assert doe / 1460 == 25 * p.c + p.q + k;
    assert 0 <= p.doy - k < 365;
  }

  lemma Mod4(a: int, r: int) requires 0 <= r < 4 ensures (4 * a + r) % 4 == r {}
  lemma Mod100(a: int, r: int) requires 0 <= r < 100 ensures (100 * a + r) % 100 == r {}
  lemma Mod400(a: int, r: int) requires 0 <= r < 400 ensures (400 * a + r) % 400 == r {}

  /** Length of the year a day's parts lie in. */
  function PartsLength(p: Parts): int { if p.r == 3 && (p.q != 24 || p.c == 3) then 366 else 365 }

  lemma LeapOfParts(p: Parts, era: int)
    requires p.Valid()
    ensures MarchYearLength(YearAt(era, p)) == PartsLength(p)
  {
    var y := YearAt(era, p) + 1;
    if p.r < 3 {
      Mod4(25 * p.c + p.q + 100 * era, p.r + 1);
    } else {
      Mod4(25 * p.c + p.q + 1 + 100 * era, 0);
      if p.q < 24 {
        Mod100(p.c + 4 * era, 4 * (p.q + 1));
      } else {
        Mod100(p.c + 1 + 4 * era, 0);
        if p.c < 3 { Mod400(era, 100 * (p.c + 1)); } else { Mod400(era + 1, 0); }
      }
    }
  }

  /** The year whose 1 March starts day `p` of era `era`. */
  function YearAt(era: int, p: Parts): int { p.Year() + era * 400 }

  /** Day `days` is day `p` of 400-year era `era`. */
  predicate At(days: nat, era: int, p: Parts) { p.Valid() && days + 719468 == 146097 * era + p.Day() }

  lemma DayRange(p: Parts)
    requires p.Valid()
    ensures 0 <= p.Day() < 146097
  {}

  lemma EraOf(n: int, era: int, doe: int)
    requires n == 146097 * era + doe && 0 <= doe < 146097
    ensures n / 146097 == era && n % 146097 == doe
  {}

  lemma CivilOfParts(days: nat, era: int, p: Parts)
    requires At(days, era, p)
    ensures Civil(days) == MarchDate(YearAt(era, p), p.doy)
    ensures p.doy < MarchYearLength(YearAt(era, p))
  {
    DayRange(p);
    EraOf(days + 719468, era, p.Day());
    StartOfYear(p);
    YearOfParts(p);
    LeapOfParts(p, era);
  }

  lemma Locate(days: nat) returns (era: int, p: Parts)
    ensures At(days, era, p)
  {
    era := (days + 719468) / 146097;
    p := Split((days + 719468) % 146097);
  }

  /** The unsigned subtractions of the conversion never go below zero. */
  lemma NoUnderflow(days: nat)
    ensures var doe := (days + 719468) % 146097;
            && 0 <= doe - doe / 1460
            && 0 <= doe - doe / 1460 + doe / 36524 - doe / 146096
            && var yoe := YearOfEra(doe);
               && 0 <= 365 * yoe + yoe / 4 - yoe / 100 <= doe
               && var doy := doe - YearStart(yoe);
                  && (153 * ((5 * doy + 2) / 153) + 2) / 5 <= doy
                  && ((5 * doy + 2) / 153 >= 10 ==> 9 <= (5 * doy + 2) / 153)
  {
    var era, p := Locate(days);
    DayRange(p);
    EraOf(days + 719468, era, p.Day());
    StartOfYear(p);
    YearOfParts(p);
    MarchDateIsDate(YearAt(era, p), p.doy) by { LeapOfParts(p, era); }
  }

  // ---- months ----

  lemma MarchDateIsDate(y: int, doy: int)
    requires 0 <= doy < MarchYearLength(y)
    ensures IsDate(MarchDate(y, doy))
    ensures var mp := (5 * doy + 2) / 153; 0 <= mp <= 11 && (153 * mp + 2) / 5 <= doy
  {
    var mp := (5 * doy + 2) / 153;
    assert 0 <= mp <= 11;
    assert (153 * mp + 2) / 5 <= doy;
  }

  lemma MarchDateNext(y: int, doy: int)
    requires 0 <= doy && doy + 1 < MarchYearLength(y)
    ensures MarchDate(y, doy + 1) == NextDay(MarchDate(y, doy))
  {
    var mp := (5 * doy + 2) / 153;
    assert 0 <= mp <= 11;
  }

  lemma MarchYearEnds(y: int)
    ensures NextDay(MarchDate(y, MarchYearLength(y) - 1)) == MarchDate(y + 1, 0)
  {}

  // ---- the theorem ----

  function NextParts(era: int, p: Parts): (int, Parts) {
    if Parts(p.c, p.q, p.r, p.doy + 1).Valid() then (era, p.(doy := p.doy + 1))
    else if p.r < 3 then (era, Parts(p.c, p.q, p.r + 1, 0))
    else if p.q < 24 then (era, Parts(p.c, p.q + 1, 0, 0))
    else if p.c < 3 then (era, Parts(p.c + 1, 0, 0, 0))
    else (era + 1, Parts(0, 0, 0, 0))
  }

  lemma AdvanceDay(days: nat, era: int, p: Parts)
    requires At(days, era, p)
    ensures At(days + 1, NextParts(era, p).0, NextParts(era, p).1)
  {}

  lemma AdvanceInYear(era: int, p: Parts)
    requires p.Valid() && p.doy + 1 < PartsLength(p)
    ensures NextParts(era, p) == (era, p.(doy := p.doy + 1))
    ensures YearAt(era, p.(doy := p.doy + 1)) == YearAt(era, p)
  {
    assert Parts(p.c, p.q, p.r, p.doy + 1).Valid();
  }

  lemma YearSum(y: int, y': int, era: int, era': int)
    requires (era' == era && y' == y + 1) || (era' == era + 1 && y == 399 && y' == 0)
    ensures y' + era' * 400 == y + era * 400 + 1
  {}

  /** On the last day of a year the next parts are the first day of the next year. */
  lemma NewYear(era: int, p: Parts)
    requires p.Valid() && p.doy + 1 >= PartsLength(p)
    ensures var next := NextParts(era, p);
            && next.1.doy == 0
            && ((next.0 == era && next.1.Year() == p.Year() + 1) ||
              (next.0 == era + 1 && p.Year() == 399 && next.1.Year() == 0))
  {
    assert !Parts(p.c, p.q, p.r, p.doy + 1).Valid();
  }

  lemma AdvanceToNewYear(era: int, p: Parts)
    requires p.Valid() && p.doy + 1 >= PartsLength(p)
    ensures p.doy + 1 == PartsLength(p)
    ensures NextParts(era, p).1.doy == 0 && YearAt(NextParts(era, p).0, NextParts(era, p).1) == YearAt(era, p) + 1
  {
    NewYear(era, p);
    var next := NextParts(era, p);
    YearSum(p.Year(), next.1.Year(), era, next.0);
  }

  lemma StepInMarchYears(y: int, doy: int, y': int, doy': int)
    requires 0 <= doy < MarchYearLength(y)
    requires if doy + 1 < MarchYearLength(y) then doy' == doy + 1 && y' == y
             else doy + 1 == MarchYearLength(y) && doy' == 0 && y' == y + 1
    ensures MarchDate(y', doy') == NextDay(MarchDate(y, doy))
  {
    if doy + 1 < MarchYearLength(y) { MarchDateNext(y, doy); } else { MarchYearEnds(y); }
  }

  lemma NextOfParts(days: nat, era: int, p: Parts) returns (a: Date, b: Date)
    requires At(days, era, p)
    ensures a == Civil(days) && b == Civil(days + 1) && b == NextDay(a)
  {
    var next := NextParts(era, p);
    AdvanceDay(days, era, p);
    LeapOfParts(p, era);
    CivilOfParts(days, era, p);
    CivilOfParts(days + 1, next.0, next.1);
    var y, y' := YearAt(era, p), YearAt(next.0, next.1);
    a, b := MarchDate(y, p.doy), MarchDate(y', next.1.doy);
    if p.doy + 1 < PartsLength(p) { AdvanceInYear(era, p); } else { AdvanceToNewYear(era, p); }
    StepInMarchYears(y, p.doy, y', next.1.doy);
  }

  /** The conversion is the calendar: right on the epoch day, and each day is the successor of the day before. */
  lemma CivilIsCalendar(days: nat)
    ensures Civil(0) == Date(1970, 1, 1)
    ensures IsDate(Civil(days))
    ensures Civil(days + 1) == NextDay(Civil(days))
  {
    var epoch := Parts(3, 17, 1, 306);
    CivilOfParts(0, 4, epoch);
    var era, p := Locate(days);
    CivilOfParts(days, era, p);
    MarchDateIsDate(YearAt(era, p), p.doy);
    var a, b := NextOfParts(days, era, p);
  }

  lemma SecondsRecombine(s: int)
    requires 0 <= s < 86400
    ensures 0 <= s / 3600 < 24 && 0 <= s % 3600 / 60 < 60 && 0 <= s % 60 < 60
    ensures s == 3600 * (s / 3600) + 60 * (s % 3600 / 60) + s % 60
  {
    var t := s % 3600;
    assert s % 60 == t % 60 by { assert s == 60 * (60 * (s / 3600)) + t; }
  }

  /** Hours, minutes and seconds recombine to the second of the day. */
  lemma TimeOfDay(unix: nat)
    ensures var t := Rfc3339(unix);
            && t.Stamp? && t.date == Civil(unix / 86400)
            && 0 <= t.hh < 24 && 0 <= t.mm < 60 && 0 <= t.ss < 60
            && unix == 86400 * (unix / 86400) + 3600 * t.hh + 60 * t.mm + t.ss
  {
    SecondsRecombine(unix % 86400);
  }
}
