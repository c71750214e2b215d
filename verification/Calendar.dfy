/** The conversion of a time in seconds to a Gregorian date, against a calendar that counts
    days year by year and month by month. */
module Calendar {

  datatype Tm = Tm(sec: int, min: int, hour: int, mday: int, mon: int, year: int, wday: int)

  // ---------- the calendar, counted ----------

  predicate Leap(y: int) {
    y % 4 == 0 && (y % 100 != 0 || y % 400 == 0)
  }

  function YearDays(y: int): int {
    if Leap(y) then 366 else 365
  }

  function MonthDays(y: int, m: int): int {
    if m == 2 then (if Leap(y) then 29 else 28)
    else if m == 4 || m == 6 || m == 9 || m == 11 then 30
    else 31
  }

  /** Days from January 1, 1970 to January 1 of year `y`, which may lie before or after. */
  function YearStart(y: int): int
    decreases if y < 1970 then 1970 - y else y - 1970
  {
    if y == 1970 then 0
    else if y > 1970 then YearStart(y - 1) + YearDays(y - 1)
    else YearStart(y + 1) - YearDays(y)
  }

  /** Days from January 1 to the first of month `m`. */
  function MonthStart(y: int, m: int): int
    requires 1 <= m <= 12
  {
    if m == 1 then 0 else MonthStart(y, m - 1) + MonthDays(y, m - 1)
  }

  predicate ValidDate(y: int, m: int, d: int) {
    1 <= m <= 12 && 1 <= d <= MonthDays(y, m)
  }

  /** Days from January 1, 1970. */
  function DayNumber(y: int, m: int, d: int): int
    requires 1 <= m <= 12
  {
    YearStart(y) + MonthStart(y, m) + d - 1
  }

  predicate ValidTime(h: int, m: int, s: int) {
    0 <= h < 24 && 0 <= m < 60 && 0 <= s < 60
  }

  predicate ValidTm(tm: Tm) {
    ValidDate(tm.year, tm.mon, tm.mday) && ValidTime(tm.hour, tm.min, tm.sec)
  }

  /** Seconds from the beginning of 1970. */
  function Seconds(tm: Tm): int
    requires 1 <= tm.mon <= 12
  {
    DayNumber(tm.year, tm.mon, tm.mday) * 86400 + tm.hour * 3600 + tm.min * 60 + tm.sec
  }

  // ---------- days from March 1 of the year 0 ----------

  /** Days to March 1 of year `y`: Gauss' formula. */
  function MarchDays(y: int): int {
    365 * y + y / 4 - y / 100 + y / 400
  }

  lemma MarchStep(y: int)
    ensures MarchDays(y) == MarchDays(y - 1) + YearDays(y)
  {
    assert y / 4 == (y - 1) / 4 + if y % 4 == 0 then 1 else 0;
    assert y / 100 == (y - 1) / 100 + if y % 100 == 0 then 1 else 0;
    assert y / 400 == (y - 1) / 400 + if y % 400 == 0 then 1 else 0;
    Divides(y);
  }

  lemma Divides(y: int)
    ensures y % 400 == 0 ==> y % 100 == 0
    ensures y % 100 == 0 ==> y % 4 == 0
  {
  }

  lemma {:induction false} YearStartMarch(y: int)
    ensures YearStart(y) == MarchDays(y - 1) + 306 - 719468
    decreases if y < 1970 then 1970 - y else y - 1970
  {
    if y > 1970 {
      YearStartMarch(y - 1);
      MarchStep(y - 1);
    } else if y < 1970 {
      YearStartMarch(y + 1);
      MarchStep(y);
    }
  }

  /** How close the formula is to 146097 days in 400 years. */
  lemma MarchBounds(y: int)
    requires y >= 0
    ensures 146097 * y - 800 < 400 * MarchDays(y) < 146097 * y + 400
  {
    assert 4 * (y / 4) <= y <= 4 * (y / 4) + 3;
    assert 100 * (y / 100) <= y <= 100 * (y / 100) + 99;
    assert 400 * (y / 400) <= y <= 400 * (y / 400) + 399;
  }

  /** Days from March 1 to the first of the `m`-th month from March. */
  lemma MonthsFromMarch(y: int, m: int)
    requires 1 <= m <= 12
    ensures m <= 10 ==> MonthStart(y, m + 2) == 367 * m / 12 - 30 + 59 + if Leap(y) then 1 else 0
    ensures m > 10 ==> MonthStart(y, m - 10) == 367 * m / 12 - 30 - 306
  {
    MonthTable(y);
    if m == 1 {} else if m == 2 {} else if m == 3 {} else if m == 4 {} else if m == 5 {} else if m == 6 {}
    else if m == 7 {} else if m == 8 {} else if m == 9 {} else if m == 10 {} else if m == 11 {} else {}
  }

  lemma MonthTable(y: int)
    ensures var k := if Leap(y) then 1 else 0;
      && MonthStart(y, 1) == 0 && MonthStart(y, 2) == 31 && MonthStart(y, 3) == 59 + k && MonthStart(y, 4) == 90 + k
      && MonthStart(y, 5) == 120 + k && MonthStart(y, 6) == 151 + k && MonthStart(y, 7) == 181 + k
         && MonthStart(y, 8) == 212 + k
      && MonthStart(y, 9) == 243 + k && MonthStart(y, 10) == 273 + k && MonthStart(y, 11) == 304 + k
         && MonthStart(y, 12) == 334 + k
  {
    assert MonthStart(y, 2) == 31;
    assert MonthStart(y, 3) == 59 + if Leap(y) then 1 else 0;
    assert MonthStart(y, 5) == 120 + if Leap(y) then 1 else 0;
    assert MonthStart(y, 7) == 181 + if Leap(y) then 1 else 0;
    assert MonthStart(y, 9) == 243 + if Leap(y) then 1 else 0;
    assert MonthStart(y, 11) == 304 + if Leap(y) then 1 else 0;
  }

  /** The date that Gauss' formula gives, for a month counted from March. */
  lemma GaussIsDayNumber(y: int, m: int, d: int)
    requires 1 <= m <= 12
    ensures var y', m' := if m > 10 then y + 1 else y, if m > 10 then m - 10 else m + 2;
      DayNumber(y', m', d) == MarchDays(y) + (367 * m / 12 - 30) + d - 1 - 719527 + 59
  {
    var y', m' := if m > 10 then y + 1 else y, if m > 10 then m - 10 else m + 2;
    YearStartMarch(y');
    MonthsFromMarch(y', m);
    MarchStep(y');
  }

  // ---------- the conversion ----------

  /** The year, counted from March, that day `days` falls in, and the day of that year. */
  method MarchYear(days: int) returns (year: int, yday: int)
    requires days >= 719468
    ensures year >= 1969 && days == MarchDays(year) + yday && 0 <= yday < YearDays(year + 1)
  {
    year := (days + 2) * 400 / (365 * 400 + 100 - 4 + 1);
    yday := days - (365 * year + year / 4 - year / 100 + year / 400);
    YearClose(days, year);
    MarchStep(year);
    MarchStep(year + 1);
    if yday < 0 {
      var leap := if year % 4 == 0 && (year % 100 != 0 || year % 400 == 0) then 1 else 0;
      yday := 365 + leap + yday;
      year := year - 1;
    }
    EarlyYears(days, year, yday);
  }

  /** The estimate is the right year or the one after it. */
  lemma YearClose(days: int, year: int)
    requires days >= 719468 && year == (days + 2) * 400 / 146097
    ensures year >= 1969 && MarchDays(year - 1) <= days < MarchDays(year + 1)
  {
    assert 146097 * year <= (days + 2) * 400 < 146097 * year + 146097;
    MarchBounds(year - 1);
    MarchBounds(year + 1);
  }

  lemma EarlyYears(days: int, year: int, yday: int)
    requires days >= 719468 && days == MarchDays(year) + yday && yday < YearDays(year + 1) && 1968 <= year
    ensures year >= 1969
  {
    assert MarchDays(1969) == 719162;
    assert MarchDays(1968) == 718797;
  }

  /** The month, counted from March, and the day of the month. */
  lemma MonthOf(yday: int, mon: int)
    requires 0 <= yday <= 365 && mon == (yday + 31) * 10 / 306
    ensures 1 <= mon <= 12 && (mon > 10 <==> yday >= 306)
    ensures var d := yday - (367 * mon / 12 - 30) + 1;
      && 1 <= d <= 31 && (mon == 2 || mon == 4 || mon == 7 || mon == 9 ==> d <= 30) && (mon == 12 ==> d <= 29)
      && (mon == 12 && d == 29 ==> yday == 365)
  {
    if yday < 31 { assert mon == 1; } else if yday < 61 { assert mon == 2; }
    else if yday < 92 { assert mon == 3; } else if yday < 122 { assert mon == 4; }
    else if yday < 153 { assert mon == 5; } else if yday < 184 { assert mon == 6; }
    else if yday < 214 { assert mon == 7; } else if yday < 245 { assert mon == 8; }
    else if yday < 275 { assert mon == 9; } else if yday < 306 { assert mon == 10; }
    else if yday < 337 { assert mon == 11; } else { assert mon == 12; }
  }

  /** The broken-down time: a valid date and time of day that counts to exactly `t` seconds,
      and the day of the week, January 1, 1970 having been a Thursday. */
  method Gmtime(t: int) returns (tm: Tm)
    requires t >= 0
    ensures ValidTm(tm) && tm.year >= 1970 && Seconds(tm) == t && tm.wday == (4 + t / 86400) % 7
  {
    var n := t;
    var days := n / 86400;
    var wday := (4 + days) % 7;
    n := n % 86400;
    var hour := n / 3600;
    n := n % 3600;
    var min, sec := n / 60, n % 60;
    days := days - (31 + 28) + 719527;
    var year, yday := MarchYear(days);
    var mon := (yday + 31) * 10 / 306;
    var mday := yday - (367 * mon / 12 - 30) + 1;
    MonthOf(yday, mon);
    ghost var y, m := year, mon;
    if yday >= 306 {
      year := year + 1;
      mon := mon - 10;
    } else {
      mon := mon + 2;
    }
    InMarchYear(y, m, yday, mday, days);
    tm := Tm(sec, min, hour, mday, mon, year, wday);
    TimeOfDay(t, hour, min, sec);
  }

  lemma InMarchYear(y: int, m: int, yday: int, mday: int, days: int)
    requires days >= 719468 && y >= 1969 && days == MarchDays(y) + yday && 0 <= yday < YearDays(y + 1)
    requires m == (yday + 31) * 10 / 306 && mday == yday - (367 * m / 12 - 30) + 1
    ensures var y', m' := if m > 10 then y + 1 else y, if m > 10 then m - 10 else m + 2;
      y' >= 1970 && ValidDate(y', m', mday) && DayNumber(y', m', mday) == days + 59 - 719527
  {
    MonthOf(yday, m);
    if m <= 10 { assert MarchDays(1969) == 719162; }
    GaussIsDayNumber(y, m, mday);
  }

  lemma TimeOfDay(t: int, hour: int, min: int, sec: int)
    requires t >= 0 && hour == t % 86400 / 3600 && min == t % 86400 % 3600 / 60 && sec == t % 86400 % 3600 % 60
    ensures ValidTime(hour, min, sec) && t == t / 86400 * 86400 + hour * 3600 + min * 60 + sec
  {
  }

  // ---------- the date is the only one ----------

  lemma {:induction false} YearsIncrease(a: int, b: int)
    requires a < b
    ensures YearStart(a) + YearDays(a) <= YearStart(b)
    decreases b - a
  {
    YearStep(b - 1);
    if a + 1 < b { YearsIncrease(a, b - 1); }
  }

  lemma YearStep(y: int)
    ensures YearStart(y + 1) == YearStart(y) + YearDays(y)
  {
  }

  lemma MonthsIncrease(y: int, a: int, b: int)
    requires 1 <= a < b <= 12
    ensures MonthStart(y, a) + MonthDays(y, a) <= MonthStart(y, b)
    decreases b
  {
    if a + 1 < b { MonthsIncrease(y, a, b - 1); }
  }

  lemma WithinYear(y: int, m: int, d: int)
    requires ValidDate(y, m, d)
    ensures 0 <= MonthStart(y, m) + d - 1 < YearDays(y)
  {
    MonthTable(y);
    if m < 12 { MonthsIncrease(y, m, 12); }
    if m > 1 { MonthsIncrease(y, 1, m); }
  }

  /** Two valid dates with the same day number are the same. */
  lemma OneDate(y: int, m: int, d: int, y': int, m': int, d': int)
    requires ValidDate(y, m, d) && ValidDate(y', m', d') && DayNumber(y, m, d) == DayNumber(y', m', d')
    ensures y == y' && m == m' && d == d'
  {
    WithinYear(y, m, d);
    WithinYear(y', m', d');
    if y < y' { YearsIncrease(y, y'); }
    if y' < y { YearsIncrease(y', y); }
    if m < m' { MonthsIncrease(y, m, m'); }
    if m' < m { MonthsIncrease(y, m', m); }
  }
}
