/** Printing and parsing of HTTP dates (section 7.1.1.1 of RFC 7231). */
module HttpDate {
  import opened Common
  import opened Calendar

  const MODULUS: int := 0x1_0000_0000_0000_0000
  const HALF: int := 0x8000_0000_0000_0000

  // ---------- printing ----------

  function Digit(n: int): char
    requires 0 <= n <= 9
  {
    '0' + n as char
  }

  /** %02d */
  function Two(n: int): string
    requires 0 <= n < 100
  {
    [Digit(n / 10), Digit(n % 10)]
  }

  /** The decimal digits of a number. */
  function Decimal(n: int): string
    requires n >= 0
  {
    if n < 10 then [Digit(n)] else Decimal(n / 10) + [Digit(n % 10)]
  }

  /** %4d */
  function Padded(n: int): string
    requires n >= 0
  {
    var s := Decimal(n);
    if |s| >= 4 then s else seq(4 - |s|, _ => ' ') + s
  }

  function Week(d: int): string
    requires 0 <= d < 7
  {
    ["Sun", "Mon", "Tue", "Wed", "Thu", "Fri", "Sat"][d]
  }

  function MonthName(m: int): string
    requires 1 <= m <= 12
  {
    ["Jan", "Feb", "Mar", "Apr", "May", "Jun", "Jul", "Aug", "Sep", "Oct", "Nov", "Dec"][m - 1]
  }

  predicate Printable(tm: Tm) {
    && 0 <= tm.wday < 7 && 1 <= tm.mon <= 12 && 0 <= tm.mday < 100 && tm.year >= 0
    && 0 <= tm.hour < 100 && 0 <= tm.min < 100 && 0 <= tm.sec < 100
  }

  function Clock(tm: Tm): string
    requires Printable(tm)
  {
    Two(tm.hour) + ":" + Two(tm.min) + ":" + Two(tm.sec)
  }

  function Print(tm: Tm): string
    requires Printable(tm)
  {
    DatePart(tm) + Clock(tm) + " GMT"
  }

  function DatePart(tm: Tm): string
    requires Printable(tm)
  {
    Week(tm.wday) + ", " + Two(tm.mday) + " " + MonthName(tm.mon) + " " + Padded(tm.year) + " "
  }

  // ---------- parsing ----------

  predicate IsDigit(c: char) {
    '0' <= c <= '9'
  }

  function Value(c: char): int
    requires IsDigit(c)
  {
    c as int - '0' as int
  }

  predicate Digits(v: string, p: nat, n: nat) {
    p + n <= |v| && forall i :: p <= i < p + n ==> IsDigit(v[i])
  }

  function Num2(v: string, p: nat): (n: int)
    requires Digits(v, p, 2)
    ensures 0 <= n <= 99
  {
    Value(v[p]) * 10 + Value(v[p + 1])
  }

  function Num4(v: string, p: nat): (n: int)
    requires Digits(v, p, 4)
    ensures 0 <= n <= 9999
  {
    Value(v[p]) * 1000 + Value(v[p + 1]) * 100 + Value(v[p + 2]) * 10 + Value(v[p + 3])
  }

  /** The month, from 0, by as few letters as tell the names apart. */
  function MonthAt(v: string, p: nat): (m: Option<int>)
    requires p + 3 <= |v|
    ensures m.Some? ==> 0 <= m.value <= 11
  {
    match v[p]
    case 'J' => Some(if v[p + 1] == 'a' then 0 else if v[p + 2] == 'n' then 5 else 6)
    case 'F' => Some(1)
    case 'M' => Some(if v[p + 2] == 'r' then 2 else 4)
    case 'A' => Some(if v[p + 1] == 'p' then 3 else 7)
    case 'S' => Some(8)
    case 'O' => Some(9)
    case 'N' => Some(10)
    case 'D' => Some(11)
    case _ => None
  }

  function Limit(month: int): int
    requires 0 <= month <= 11
  {
    [31, 28, 31, 30, 31, 30, 31, 31, 30, 31, 30, 31][month]
  }

  function Signed(x: int): int {
    var w := x % MODULUS;
    if w < HALF then w else w - MODULUS
  }

  /** What a text says; months are counted from 0. */
  datatype Fields = Fields(day: int, month: int, year: int, hour: int, min: int, sec: int)

  /** What digits and month letters can say. */
  predicate Bounded(f: Fields) {
    && 0 <= f.day <= 99 && 0 <= f.month <= 11 && 0 <= f.year <= 9999
    && 0 <= f.hour <= 99 && 0 <= f.min <= 99 && 0 <= f.sec <= 99
  }

  /** The checks on the fields, and the time in seconds; the year is an unsigned word. */
  function Checked(f: Fields): Option<int>
    requires Bounded(f)
  {
    if f.hour > 23 || f.min > 59 || f.sec > 59 then None
    else if f.day == 29 && f.month == 1 && (f.year % 4 != 0 || (f.year % 100 == 0 && f.year % 400 != 0)) then None
    else if !(f.day == 29 && f.month == 1) && f.day > Limit(f.month) then None
    else
      var m := if f.month - 1 <= 0 then f.month + 11 else f.month - 1;
      var y := if f.month - 1 <= 0 then (f.year - 1) % MODULUS else f.year;
      Some(Signed(GaussDays(y, m, f.day) * 86400 + f.hour * 3600 + f.min * 60 + f.sec))
  }

  /** Days from January 1, 1970 to a date whose year begins in March. */
  function GaussDays(y: int, m: int, day: int): int {
    365 * y + y / 4 - y / 100 + y / 400 + 367 * m / 12 - 30 + day - 1 - 719527 + 31 + 28
  }

  /** hh:mm:ss at `p`. */
  predicate ClockAt(v: string, p: nat) {
    p + 8 <= |v| && Digits(v, p, 2) && v[p + 2] == ':' && Digits(v, p + 3, 2) && v[p + 5] == ':' && Digits(v, p + 6, 2)
  }

  function WithClock(v: string, p: nat, day: int, month: int, year: int): (f: Fields)
    requires ClockAt(v, p) && 0 <= day <= 99 && 0 <= month <= 11 && 0 <= year <= 9999
    ensures Bounded(f)
  {
    Fields(day, month, year, Num2(v, p), Num2(v, p + 3), Num2(v, p + 6))
  }

  function Century(short: int): int {
    short + if short < 70 then 2000 else 1900
  }

  /** "10 Nov 2002 23:50:13" and "10-Dec-02 23:50:13" */
  function DayFirst(v: string, p: nat): (f: Option<Fields>)
    requires p + 18 <= |v|
    ensures f.Some? ==> Bounded(f.value)
  {
    if !Digits(v, p, 2) then None
    else if v[p + 2] == ' ' then (
      if |v| < p + 20 then None
      else
        var month := MonthAt(v, p + 3);
        if month.None? || v[p + 6] != ' ' || !Digits(v, p + 7, 4) || v[p + 11] != ' ' || !ClockAt(v, p + 12) then None
        else Some(WithClock(v, p + 12, Num2(v, p), month.value, Num4(v, p + 7))))
    else if v[p + 2] == '-' then
      var month := MonthAt(v, p + 3);
      if month.None? || v[p + 6] != '-' || !Digits(v, p + 7, 2) || v[p + 9] != ' ' || !ClockAt(v, p + 10) then None
      else Some(WithClock(v, p + 10, Num2(v, p), month.value, Century(Num2(v, p + 7))))
    else None
  }

  /** "Dec 10 23:50:13 2002" */
  function MonthFirst(v: string, p: nat): (f: Option<Fields>)
    requires p + 18 <= |v|
    ensures f.Some? ==> Bounded(f.value)
  {
    var month := MonthAt(v, p);
    if month.None? then None
    else
      var q := if v[p + 4] == ' ' then p + 5 else p + 4;
      if !IsDigit(v[q]) then None
      else if v[q + 1] != ' ' && !IsDigit(v[q + 1]) then None
      else
        var day := if v[q + 1] == ' ' then Value(v[q]) else Value(v[q]) * 10 + Value(v[q + 1]);
        var r := if v[q + 1] == ' ' then q + 1 else q + 2;
        if |v| < r + 14 || v[r] != ' ' || !ClockAt(v, r + 1) || v[r + 9] != ' ' || !Digits(v, r + 10, 4) then None
        else Some(WithClock(v, r + 1, day, month.value, Num4(v, r + 10)))
  }

  /** Where the first comma or space is, from `p` on. */
  function Separator(v: string, p: nat): (q: nat)
    requires p <= |v|
    ensures p <= q <= |v|
    decreases |v| - p
  {
    if p == |v| || v[p] == ',' || v[p] == ' ' then p else Separator(v, p + 1)
  }

  function SkipSpaces(v: string, p: nat): (q: nat)
    ensures p <= q
    decreases |v| - p
  {
    if p < |v| && v[p] == ' ' then SkipSpaces(v, p + 1) else p
  }

  /** What the parser reads, before any check of the values. */
  function ReadFields(v: string): (f: Option<Fields>)
    ensures f.Some? ==> Bounded(f.value)
  {
    var q := Separator(v, 0);
    var p := SkipSpaces(v, q + 1);
    if |v| < p + 18 then None
    else if q < |v| && v[q] == ' ' then MonthFirst(v, p)
    else DayFirst(v, p)
  }

  /** What the parser answers. */
  function Parse(v: string): Option<int> {
    var f := ReadFields(v);
    if f.None? then None else Checked(f.value)
  }

  // ---------- the time computed is the time meant ----------

  /** What passes the checks: a valid date, or day 0 of a month, and a valid time. */
  predicate Passes(f: Fields) {
    (f.day == 0 || ValidDate(f.year, f.month + 1, f.day)) && ValidTime(f.hour, f.min, f.sec)
  }

  function ToTm(f: Fields): Tm {
    Tm(f.sec, f.min, f.hour, f.day, f.month + 1, f.year, 0)
  }

  /** January and February of the year 0: the year before it is not a natural number. */
  predicate BeforeYearZero(f: Fields) {
    f.year == 0 && f.month <= 1
  }

  lemma Accepted(f: Fields)
    requires Bounded(f)
    ensures Checked(f).Some? <==> Passes(f)
  {
    Divides(f.year);
  }

  /** The time of what passes is right, unless the unsigned year has wrapped. */
  lemma CheckedExact(f: Fields)
    requires Bounded(f)
    ensures Checked(f).Some? <==> Passes(f)
    ensures Passes(f) ==> (Checked(f) == Some(Seconds(ToTm(f))) <==> !BeforeYearZero(f))
  {
    Accepted(f);
    if Passes(f) {
      if BeforeYearZero(f) { YearZeroWrong(f); } else { TimeExact(f); }
    }
  }

  /** The days that the formula counts otherwise. */
  lemma RightDays(f: Fields)
    requires Bounded(f) && !BeforeYearZero(f)
    ensures var m := if f.month - 1 <= 0 then f.month + 11 else f.month - 1;
      var y := if f.month - 1 <= 0 then (f.year - 1) % MODULUS else f.year;
      GaussDays(y, m, f.day) == DayNumber(f.year, f.month + 1, f.day)
  {
    SmallYear(f.year, f.month);
    DaysExact(if f.month - 1 <= 0 then f.year - 1 else f.year,
              if f.month - 1 <= 0 then f.month + 11 else f.month - 1, f.day);
  }

  lemma TimeExact(f: Fields)
    requires Bounded(f) && Passes(f) && !BeforeYearZero(f)
    ensures Checked(f) == Some(Seconds(ToTm(f)))
  {
    Accepted(f);
    RightDays(f);
    SecondsBound(f);
    InRange(Seconds(ToTm(f)));
  }

  /** How far off the days are when the year -1 is taken as an unsigned word. */
  const OFF: int := 365 * MODULUS + 4473335437874566267

  lemma YearZeroDays(m: int, d: int)
    ensures GaussDays((0 - 1) % MODULUS, m, d) == GaussDays(-1, m, d) + OFF
  {
    assert (0 - 1) % MODULUS == MODULUS - 1;
    assert (MODULUS - 1) / 4 == 4611686018427387903 && (MODULUS - 1) / 100 == 184467440737095516
      && (MODULUS - 1) / 400 == 46116860184273879;
  }

  lemma Differs(x: int, k: int)
    requires k % MODULUS != 0
    ensures Signed(x + k) != Signed(x)
  {
  }

  /** The days that the formula counts for January and February of the year 0. */
  lemma WrappedDays(f: Fields)
    requires Bounded(f) && BeforeYearZero(f)
    ensures GaussDays(MODULUS - 1, f.month + 11, f.day) == DayNumber(f.year, f.month + 1, f.day) + OFF
  {
    YearZeroDays(f.month + 11, f.day);
    DaysExact(-1, f.month + 11, f.day);
  }

  function TimeOfDay(f: Fields): int {
    f.hour * 3600 + f.min * 60 + f.sec
  }

  function WrappedSeconds(f: Fields): int {
    GaussDays(MODULUS - 1, f.month + 11, f.day) * 86400 + TimeOfDay(f)
  }

  function WrappedTime(f: Fields): int {
    Signed(WrappedSeconds(f))
  }

  lemma CheckedEarly(f: Fields)
    requires Bounded(f) && Passes(f) && BeforeYearZero(f)
    ensures Checked(f) == Some(WrappedTime(f))
  {
    Accepted(f);
    assert (0 - 1) % MODULUS == MODULUS - 1;
  }

  lemma SecondsDays(f: Fields)
    requires 0 <= f.month <= 11
    ensures Seconds(ToTm(f)) == DayNumber(f.year, f.month + 1, f.day) * 86400 + TimeOfDay(f)
  {
  }

  lemma Spread(a: int, b: int, rest: int)
    requires a == b + OFF
    ensures a * 86400 + rest == b * 86400 + rest + OFF * 86400
  {
  }

  lemma WrappedSum(f: Fields)
    requires Bounded(f) && BeforeYearZero(f)
    ensures WrappedSeconds(f) == Seconds(ToTm(f)) + OFF * 86400
  {
    WrappedDays(f);
    SecondsDays(f);
    Spread(GaussDays(MODULUS - 1, f.month + 11, f.day), DayNumber(f.year, f.month + 1, f.day), TimeOfDay(f));
  }

  lemma OffMatters()
    ensures OFF * 86400 % MODULUS != 0
  {
  }

  lemma WrappedWrong(f: Fields)
    requires Bounded(f) && BeforeYearZero(f) && ValidTime(f.hour, f.min, f.sec)
    ensures WrappedTime(f) != Seconds(ToTm(f))
  {
    WrappedSum(f);
    SecondsBound(f);
    Apart64(WrappedSeconds(f), Seconds(ToTm(f)));
  }

  lemma Apart64(a: int, t: int)
    requires a == t + OFF * 86400 && -HALF <= t < HALF
    ensures Signed(a) != t
  {
    OffMatters();
    Differs(t, OFF * 86400);
    InRange(t);
  }

  lemma YearZeroWrong(f: Fields)
    requires Bounded(f) && Passes(f) && BeforeYearZero(f)
    ensures Checked(f) != Some(Seconds(ToTm(f)))
  {
    CheckedEarly(f);
    WrappedWrong(f);
  }

  lemma SecondsBound(f: Fields)
    requires Bounded(f) && ValidTime(f.hour, f.min, f.sec)
    ensures -HALF <= Seconds(ToTm(f)) < HALF
  {
    DayBounds(f.year, f.month + 1, f.day);
    SecondsDays(f);
  }

  lemma SmallYear(year: int, month: int)
    requires 0 <= year <= 9999 && !(year == 0 && month <= 1)
    ensures month <= 1 ==> (year - 1) % MODULUS == year - 1
  {
  }

  lemma DaysExact(y: int, m: int, d: int)
    requires 1 <= m <= 12
    ensures GaussDays(y, m, d) == DayNumber(if m > 10 then y + 1 else y, if m > 10 then m - 10 else m + 2, d)
  {
    GaussIsDayNumber(y, m, d);
  }

  lemma YearBounds(y: int)
    requires 0 <= y <= 9999
    ensures -800000 < YearStart(y) < 3600000
  {
    YearStartMarch(y);
    if y > 0 { MarchBounds(y - 1); }
  }

  lemma DayBounds(y: int, m: int, d: int)
    requires 0 <= y <= 9999 && 1 <= m <= 12 && 0 <= d <= 99
    ensures -4000000 < DayNumber(y, m, d) < 4000000
  {
    YearBounds(y);
    MonthTable(y);
  }

  lemma InRange(x: int)
    requires -HALF <= x < HALF
    ensures Signed(x) == x
  {
  }

  // ---------- reading back what was printed ----------

  lemma TwoBack(v: string, p: nat, n: int)
    requires 0 <= n < 100 && p + 2 <= |v| && v[p] == Two(n)[0] && v[p + 1] == Two(n)[1]
    ensures Digits(v, p, 2) && Num2(v, p) == n
  {
  }

  lemma FourDigits(n: int)
    requires 1000 <= n <= 9999
    ensures Decimal(n) == [Digit(n / 1000), Digit(n / 100 % 10), Digit(n / 10 % 10), Digit(n % 10)] == Padded(n)
  {
    assert Decimal(n / 1000) == [Digit(n / 1000)];
    assert Decimal(n / 100) == [Digit(n / 1000), Digit(n / 100 % 10)];
    assert Decimal(n / 10) == Decimal(n / 100) + [Digit(n / 10 % 10)];
  }

  lemma FourBack(v: string, p: nat, n: int)
    requires 1000 <= n <= 9999 && p + 4 <= |v|
    requires v[p] == Digit(n / 1000) && v[p + 1] == Digit(n / 100 % 10) && v[p + 2] == Digit(n / 10 % 10)
      && v[p + 3] == Digit(n % 10)
    ensures Digits(v, p, 4) && Num4(v, p) == n
  {
    FourSum(n);
    DigitValue(n / 1000);
    DigitValue(n / 100 % 10);
    DigitValue(n / 10 % 10);
    DigitValue(n % 10);
  }

  lemma DigitValue(d: int)
    requires 0 <= d <= 9
    ensures IsDigit(Digit(d)) && Value(Digit(d)) == d
  {
  }

  lemma FourSum(n: int)
    requires 1000 <= n <= 9999
    ensures 1 <= n / 1000 <= 9 && n == n / 1000 * 1000 + n / 100 % 10 * 100 + n / 10 % 10 * 10 + n % 10
  {
    assert n / 100 == n / 10 / 10 && n / 1000 == n / 10 / 10 / 10;
  }

  lemma MonthBack(v: string, p: nat, m: int)
    requires 1 <= m <= 12 && p + 3 <= |v| && v[p] == MonthName(m)[0] && v[p + 1] == MonthName(m)[1]
      && v[p + 2] == MonthName(m)[2]
    ensures MonthAt(v, p) == Some(m - 1)
  {
  }

  lemma DatePlaces(tm: Tm)
    requires Printable(tm) && 1000 <= tm.year <= 9999
    ensures var v := DatePart(tm);
      && |v| == 17 && v[3] == ',' && v[4] == ' ' && v[7] == ' ' && v[11] == ' ' && v[16] == ' '
      && v[..3] == Week(tm.wday) && v[5..7] == Two(tm.mday) && v[8..11] == MonthName(tm.mon)
         && v[12..16] == Padded(tm.year)
  {
    FourDigits(tm.year);
  }

  lemma ClockPlaces(tm: Tm)
    requires Printable(tm)
    ensures var v := Clock(tm);
      |v| == 8 && v[2] == ':' && v[5] == ':' && v[..2] == Two(tm.hour) && v[3..5] == Two(tm.min)
        && v[6..8] == Two(tm.sec)
  {
  }

  /** What the first part of a text shows, the whole shows; and so for the second part. */
  lemma Shows(a: string, b: string, c: string, i: nat, j: nat)
    requires i <= j
    ensures j <= |a| ==> (a + b + c)[i..j] == a[i..j]
    ensures j <= |b| ==> (a + b + c)[|a| + i..|a| + j] == b[i..j]
  {
  }

  /** The printed form, place by place. */
  lemma PrintedPlaces(tm: Tm)
    requires Printable(tm) && 1000 <= tm.year <= 9999
    ensures var v := Print(tm);
      && |v| == 29 && v[3] == ',' && v[4] == ' ' && v[7] == ' ' && v[11] == ' ' && v[16] == ' ' && v[19] == ':'
         && v[22] == ':'
      && v[..3] == Week(tm.wday) && v[5..7] == Two(tm.mday) && v[8..11] == MonthName(tm.mon)
         && v[12..16] == Padded(tm.year)
      && v[17..19] == Two(tm.hour) && v[20..22] == Two(tm.min) && v[23..25] == Two(tm.sec)
  {
    DatePlaces(tm);
    ClockPlaces(tm);
    var a, b := DatePart(tm), Clock(tm);
    Shows(a, b, " GMT", 0, 3);
    Shows(a, b, " GMT", 5, 7);
    Shows(a, b, " GMT", 8, 11);
    Shows(a, b, " GMT", 12, 16);
    Shows(a, b, " GMT", 0, 2);
    Shows(a, b, " GMT", 3, 5);
    Shows(a, b, " GMT", 6, 8);
  }

  lemma PrintedStart(tm: Tm)
    requires Printable(tm) && 1000 <= tm.year <= 9999
    ensures var v := Print(tm); Separator(v, 0) == 3 && SkipSpaces(v, 4) == 5
  {
    PrintedPlaces(tm);
    var v := Print(tm);
    WeekLetters(tm.wday);
    assert v[0] == v[..3][0] && v[1] == v[..3][1] && v[2] == v[..3][2];
    assert v[5] == v[5..7][0];
    assert Separator(v, 3) == 3 && Separator(v, 2) == 3 && Separator(v, 1) == 3;
    assert SkipSpaces(v, 5) == 5;
  }

  lemma WeekLetters(d: int)
    requires 0 <= d < 7
    ensures |Week(d)| == 3 && forall i :: 0 <= i < 3 ==> Week(d)[i] != ',' && Week(d)[i] != ' '
  {
  }

  lemma PrintedFields(tm: Tm)
    requires Printable(tm) && 1000 <= tm.year <= 9999
    ensures var v := Print(tm);
      && |v| == 29 && Digits(v, 5, 2) && Num2(v, 5) == tm.mday && MonthAt(v, 8) == Some(tm.mon - 1) && Digits(v, 12, 4)
         && Num4(v, 12) == tm.year
      && Digits(v, 17, 2) && Num2(v, 17) == tm.hour && Digits(v, 20, 2) && Num2(v, 20) == tm.min && Digits(v, 23, 2)
         && Num2(v, 23) == tm.sec
  {
    PrintedPlaces(tm);
    var v := Print(tm);
    assert v[0..29] == v;
    TwoAt(v, 0, 29, 5, tm.mday);
    MonthNameAt(v, 0, 29, 8, tm.mon);
    YearAt(v, 0, 29, 12, tm.year);
    TwoAt(v, 0, 29, 17, tm.hour);
    TwoAt(v, 0, 29, 20, tm.min);
    TwoAt(v, 0, 29, 23, tm.sec);
  }

  /** Parsing a printed date gives back its time. */
  lemma PrintThenParse(tm: Tm)
    requires ValidTm(tm) && Printable(tm) && 1000 <= tm.year <= 9999
    ensures Parse(Print(tm)) == Some(Seconds(tm))
  {
    PrintedPlaces(tm);
    PrintedStart(tm);
    PrintedFields(tm);
    assert ReadFields(Print(tm)) == Some(FieldsOf(tm));
    ParseRead(Print(tm), tm);
  }

  function FieldsOf(tm: Tm): Fields {
    Fields(tm.mday, tm.mon - 1, tm.year, tm.hour, tm.min, tm.sec)
  }

  const YEAR_10000: int := 253402300800

  lemma ThroughYear9999(tm: Tm)
    requires ValidTm(tm) && Seconds(tm) < YEAR_10000
    ensures tm.year <= 9999
  {
    YearStartMarch(10000);
    WithinYear(tm.year, tm.mon, tm.mday);
    if tm.year > 10000 { YearsIncrease(10000, tm.year); }
  }

  // ---------- the two obsolete forms ----------

  /** A day name, of whatever length. */
  predicate IsName(name: string) {
    forall i :: 0 <= i < |name| ==> name[i] != ',' && name[i] != ' '
  }

  /** A name ends at the first comma or space. */
  lemma {:induction false} NameEnds(v: string, q: nat, p: nat)
    requires p <= q < |v| && (v[q] == ',' || v[q] == ' ') && forall i :: p <= i < q ==> v[i] != ',' && v[i] != ' '
    ensures Separator(v, p) == q
    decreases q - p
  {
    if p < q { NameEnds(v, q, p + 1); }
  }

  lemma {:induction false} SpacesEnd(v: string, p: nat, q: nat)
    requires p <= q <= |v| && (q < |v| ==> v[q] != ' ') && forall i :: p <= i < q ==> v[i] == ' '
    ensures SkipSpaces(v, p) == q
    decreases q - p
  {
    if p < q { SpacesEnd(v, p + 1, q); }
  }

  /** Reading at a distance: the text from `p` on. */
  lemma ClockBack(v: string, p: nat, tm: Tm)
    requires Printable(tm) && p + 8 <= |v| && v[p..p + 8] == Clock(tm)
    ensures Digits(v, p, 2) && Digits(v, p + 3, 2) && Digits(v, p + 6, 2) && v[p + 2] == ':' && v[p + 5] == ':'
    ensures Num2(v, p) == tm.hour && Num2(v, p + 3) == tm.min && Num2(v, p + 6) == tm.sec
  {
    var c := v[p..p + 8];
    assert c == [Digit(tm.hour / 10), Digit(tm.hour % 10), ':', Digit(tm.min / 10), Digit(tm.min % 10), ':',
                 Digit(tm.sec / 10), Digit(tm.sec % 10)];
    assert c[0] == v[p] && c[1] == v[p + 1] && c[2] == v[p + 2] && c[3] == v[p + 3];
    assert c[4] == v[p + 4] && c[5] == v[p + 5] && c[6] == v[p + 6] && c[7] == v[p + 7];
    TwoBack(v, p, tm.hour);
    TwoBack(v, p + 3, tm.min);
    TwoBack(v, p + 6, tm.sec);
  }

  /** A time of day, read at `p`. */
  lemma ClockAtBack(v: string, p: nat, tm: Tm)
    requires Printable(tm) && Bounded(FieldsOf(tm)) && p + 8 <= |v| && v[p..p + 8] == Clock(tm)
    ensures ClockAt(v, p) && WithClock(v, p, tm.mday, tm.mon - 1, tm.year) == FieldsOf(tm)
  {
    ClockBack(v, p, tm);
  }

  /** 06-Nov-94 08:49:37 */
  function Dashed(tm: Tm): string
    requires Printable(tm)
  {
    DashedDate(tm) + Clock(tm)
  }

  function DashedDate(tm: Tm): string
    requires Printable(tm)
  {
    Two(tm.mday) + "-" + MonthName(tm.mon) + "-" + Two(tm.year % 100) + " "
  }

  /** A piece of a piece. */
  lemma Piece(v: string, p: nat, n: nat, i: nat, k: nat)
    requires p + n <= |v| && i <= k <= n
    ensures v[p..p + n][i..k] == v[p + i..p + k]
  {
    var a, b := v[p..p + n][i..k], v[p + i..p + k];
    assert |a| == |b|;
    forall j | 0 <= j < |a|
      ensures a[j] == b[j]
    {
    }
  }

  lemma TwoAt(v: string, p: nat, n: nat, i: nat, x: int)
    requires p + n <= |v| && i + 2 <= n && 0 <= x < 100 && v[p..p + n][i..i + 2] == Two(x)
    ensures Digits(v, p + i, 2) && Num2(v, p + i) == x
  {
    Piece(v, p, n, i, i + 2);
    assert v[p + i] == v[p + i..p + i + 2][0] && v[p + i + 1] == v[p + i..p + i + 2][1];
    TwoBack(v, p + i, x);
  }

  lemma MonthNameAt(v: string, p: nat, n: nat, i: nat, m: int)
    requires p + n <= |v| && i + 3 <= n && 1 <= m <= 12 && v[p..p + n][i..i + 3] == MonthName(m)
    ensures MonthAt(v, p + i) == Some(m - 1)
  {
    Piece(v, p, n, i, i + 3);
    var w := v[p + i..p + i + 3];
    assert v[p + i] == w[0] && v[p + i + 1] == w[1] && v[p + i + 2] == w[2];
    MonthBack(v, p + i, m);
  }

  lemma DashedPlaces(tm: Tm)
    requires Printable(tm)
    ensures var d := Dashed(tm);
      && |d| == 18 && d[0..2] == Two(tm.mday) && d[2] == '-' && d[3..6] == MonthName(tm.mon) && d[6] == '-'
      && d[7..9] == Two(tm.year % 100) && d[9] == ' ' && d[10..18] == Clock(tm)
  {
    DashedDatePlaces(tm);
    var a, d := DashedDate(tm), Dashed(tm);
    assert d[..10] == a && d[10..18] == Clock(tm);
    assert d[0..2] == a[0..2] && d[3..6] == a[3..6] && d[7..9] == a[7..9];
  }

  lemma DashedDatePlaces(tm: Tm)
    requires Printable(tm)
    ensures var d := DashedDate(tm);
      && |d| == 10 && d[0..2] == Two(tm.mday) && d[2] == '-' && d[3..6] == MonthName(tm.mon) && d[6] == '-'
      && d[7..9] == Two(tm.year % 100) && d[9] == ' '
  {
  }

  lemma DashedFields(v: string, p: nat, tm: Tm)
    requires Printable(tm) && p + 18 <= |v| && v[p..p + 18] == Dashed(tm)
    ensures Digits(v, p, 2) && Num2(v, p) == tm.mday && v[p + 2] == '-' && MonthAt(v, p + 3) == Some(tm.mon - 1)
      && v[p + 6] == '-'
    ensures Digits(v, p + 7, 2) && Num2(v, p + 7) == tm.year % 100 && v[p + 9] == ' ' && v[p + 10..p + 18] == Clock(tm)
  {
    DashedPlaces(tm);
    TwoAt(v, p, 18, 0, tm.mday);
    MonthNameAt(v, p, 18, 3, tm.mon);
    TwoAt(v, p, 18, 7, tm.year % 100);
    Piece(v, p, 18, 10, 18);
    assert v[p + 2] == v[p..p + 18][2] && v[p + 6] == v[p..p + 18][6] && v[p + 9] == v[p..p + 18][9];
  }

  lemma DashedBack(v: string, p: nat, tm: Tm)
    requires ValidTm(tm) && Printable(tm) && 1970 <= tm.year <= 2069 && p + 18 <= |v| && v[p..p + 18] == Dashed(tm)
    ensures DayFirst(v, p) == Some(FieldsOf(tm))
  {
    DashedFields(v, p, tm);
    ClockAtBack(v, p + 10, tm);
    CenturyBack(tm.year);
  }

  lemma CenturyBack(y: int)
    requires 1970 <= y <= 2069
    ensures y == Century(y % 100)
  {
  }

  lemma Shape(name: string, sep: string, body: string, tail: string, v: string)
    requires v == name + sep + body + tail
    ensures |v| == |name| + |sep| + |body| + |tail| && v[..|name|] == name && v[|name|..|name| + |sep|] == sep
    ensures v[|name| + |sep|..|name| + |sep| + |body|] == body
  {
  }

  lemma BodyStarts(v: string, q: nat, p: nat, n: nat)
    requires q < p && n > 0 && p + n <= |v| && IsName(v[..q]) && (v[q..p] == ", " || v[q..p] == " ")
      && v[p..p + n][0] != ' '
    ensures Separator(v, 0) == q && SkipSpaces(v, q + 1) == p && (v[q] == ' ' <==> v[q..p] == " ")
  {
    assert forall i :: 0 <= i < q ==> v[i] == v[..q][i];
    assert v[q] == v[q..p][0] && v[p] == v[p..p + n][0];
    if v[q..p] == ", " { assert v[q + 1] == v[q..p][1]; }
    NameEnds(v, q, 0);
    SpacesEnd(v, q + 1, p);
  }

  /** After a name and a separator, the fields are read from the body. */
  lemma BodyRead(v: string, q: nat, p: nat, n: nat)
    requires q < p && n >= 18 && p + n <= |v| && IsName(v[..q]) && (v[q..p] == ", " || v[q..p] == " ")
      && v[p..p + n][0] != ' '
    ensures ReadFields(v) == if v[q..p] == " " then MonthFirst(v, p) else DayFirst(v, p)
  {
    BodyStarts(v, q, p, n);
  }

  /** Fields that are read are answered with their time. */
  lemma ParseRead(v: string, tm: Tm)
    requires ReadFields(v) == Some(FieldsOf(tm)) && ValidTm(tm) && tm.year > 0
    ensures Parse(v) == Some(Seconds(tm))
  {
    CheckedExact(FieldsOf(tm));
  }

  /** The form of RFC 850, with its two-digit year read into 1970 to 2069. */
  lemma DashedThenParse(name: string, tm: Tm, tail: string)
    requires IsName(name) && ValidTm(tm) && Printable(tm) && 1970 <= tm.year <= 2069
    ensures Parse(name + ", " + Dashed(tm) + tail) == Some(Seconds(tm))
  {
    var v := name + ", " + Dashed(tm) + tail;
    DashedPlaces(tm);
    Shape(name, ", ", Dashed(tm), tail, v);
    DashedRead(v, |name|, |name| + 2, tm);
    ParseRead(v, tm);
  }

  lemma DashedRead(v: string, q: nat, p: nat, tm: Tm)
    requires ValidTm(tm) && Printable(tm) && 1970 <= tm.year <= 2069
    requires q < p && p + 18 <= |v| && IsName(v[..q]) && v[q..p] == ", " && v[p..p + 18] == Dashed(tm)
    ensures ReadFields(v) == Some(FieldsOf(tm))
  {
    DashedPlaces(tm);
    assert Dashed(tm)[0] == Dashed(tm)[0..2][0];
    BodyRead(v, q, p, 18);
    DashedBack(v, p, tm);
  }

  /** Nov  6 08:49:37 1994 */
  function Asctime(tm: Tm): string
    requires Printable(tm)
  {
    MonthName(tm.mon) + " " + (if tm.mday < 10 then [' ', Digit(tm.mday)] else Two(tm.mday)) + " " + Clock(tm) + " "
      + Padded(tm.year)
  }

  lemma AsctimePlaces(tm: Tm)
    requires Printable(tm) && 1000 <= tm.year <= 9999
    ensures var d := Asctime(tm);
      && |d| == 20 && d[0..3] == MonthName(tm.mon) && d[3] == ' ' && d[6] == ' ' && d[7..15] == Clock(tm)
         && d[15] == ' '
      && d[16..20] == Padded(tm.year)
      && d[4..6] == (if tm.mday < 10 then [' ', Digit(tm.mday)] else Two(tm.mday))
  {
    FourDigits(tm.year);
  }

  lemma YearAt(v: string, p: nat, n: nat, i: nat, y: int)
    requires p + n <= |v| && i + 4 <= n && 1000 <= y <= 9999 && v[p..p + n][i..i + 4] == Padded(y)
    ensures Digits(v, p + i, 4) && Num4(v, p + i) == y
  {
    FourDigits(y);
    Piece(v, p, n, i, i + 4);
    var w := v[p + i..p + i + 4];
    assert v[p + i] == w[0] && v[p + i + 1] == w[1] && v[p + i + 2] == w[2] && v[p + i + 3] == w[3];
    FourBack(v, p + i, y);
  }

  lemma AsctimeBack(v: string, p: nat, tm: Tm)
    requires ValidTm(tm) && Printable(tm) && 1000 <= tm.year <= 9999 && |v| >= p + 20 && v[p..p + 20] == Asctime(tm)
    ensures MonthFirst(v, p) == Some(FieldsOf(tm))
  {
    AsctimePlaces(tm);
    MonthNameAt(v, p, 20, 0, tm.mon);
    YearAt(v, p, 20, 16, tm.year);
    Piece(v, p, 20, 7, 15);
    ClockBack(v, p + 7, tm);
    ClockAtBack(v, p + 7, tm);
    var d := v[p..p + 20];
    assert d[6] == v[p + 6] && d[15] == v[p + 15];
    assert d[4] == v[p + 4] == d[4..6][0] && d[5] == v[p + 5] == d[4..6][1];
    DayBack(tm.mday);
  }

  lemma DayBack(d: int)
    requires 1 <= d <= 31
    ensures d < 10 ==> IsDigit(Digit(d)) && Value(Digit(d)) == d
    ensures d >= 10 ==> IsDigit(Two(d)[0]) && IsDigit(Two(d)[1]) && Value(Two(d)[0]) * 10 + Value(Two(d)[1]) == d
  {
  }

  /** The form of the C function asctime(). */
  lemma AsctimeThenParse(name: string, tm: Tm, tail: string)
    requires IsName(name) && ValidTm(tm) && Printable(tm) && 1000 <= tm.year <= 9999
    ensures Parse(name + " " + Asctime(tm) + tail) == Some(Seconds(tm))
  {
    var v := name + " " + Asctime(tm) + tail;
    AsctimePlaces(tm);
    Shape(name, " ", Asctime(tm), tail, v);
    AsctimeRead(v, |name|, |name| + 1, tm);
    ParseRead(v, tm);
  }

  lemma AsctimeRead(v: string, q: nat, p: nat, tm: Tm)
    requires ValidTm(tm) && Printable(tm) && 1000 <= tm.year <= 9999
    requires q < p && p + 20 <= |v| && IsName(v[..q]) && v[q..p] == " " && v[p..p + 20] == Asctime(tm)
    ensures ReadFields(v) == Some(FieldsOf(tm))
  {
    AsctimePlaces(tm);
    assert Asctime(tm)[0] == Asctime(tm)[0..3][0];
    BodyRead(v, q, p, 20);
    AsctimeBack(v, p, tm);
  }
}
