/** The parser of HTTP dates as it runs: a cursor that moves over the text. */
module HttpDateCode {
  import opened Common
  import opened Calendar
  import opened HttpDate
  import opened HttpDateText

  /** Tue, 10 Nov 2002 23:50:13; Tuesday, 10-Dec-02 23:50:13; Tue Dec 10 23:50:13 2002 */
  datatype Format = No | Rfc822 | Rfc850 | Isoc

  /** Up to the first comma or space, and over the spaces behind it. */
  method SkipName(v: string) returns (p: nat, fmt: Format)
    ensures p == SkipSpaces(v, Separator(v, 0) + 1)
    ensures fmt == if Separator(v, 0) < |v| && v[Separator(v, 0)] == ' ' then Isoc else No
  {
    p, fmt := 0, No;
    while p < |v| && v[p] != ','
      invariant p <= |v| && fmt == No && Separator(v, 0) == Separator(v, p)
    {
      if v[p] == ' ' {
        fmt := Isoc;
        break;
      }
      p := p + 1;
    }
    p := p + 1;
    ghost var q := p;
    while p < |v| && v[p] == ' '
      invariant SkipSpaces(v, q) == SkipSpaces(v, p)
    {
      p := p + 1;
    }
  }

  /** Two digits at the cursor. */
  method ReadTwo(v: string, p: nat) returns (ok: bool, n: int)
    requires p + 2 <= |v|
    ensures ok == Digits(v, p, 2) && (ok ==> n == Num2(v, p))
  {
    ok, n := IsDigit(v[p]) && IsDigit(v[p + 1]), 0;
    if ok {
      n := Value(v[p]) * 10 + Value(v[p + 1]);
    }
  }

  method ReadFour(v: string, p: nat) returns (ok: bool, n: int)
    requires p + 4 <= |v|
    ensures ok == Digits(v, p, 4) && (ok ==> n == Num4(v, p))
  {
    ok, n := IsDigit(v[p]) && IsDigit(v[p + 1]) && IsDigit(v[p + 2]) && IsDigit(v[p + 3]), 0;
    if ok {
      n := Value(v[p]) * 1000 + Value(v[p + 1]) * 100 + Value(v[p + 2]) * 10 + Value(v[p + 3]);
    }
  }

  /** The day in front, and what follows it tells the format. */
  method ReadDay(v: string, start: nat) returns (ok: bool, p: nat, day: int, fmt: Format)
    requires start + 18 <= |v|
    ensures !ok ==> DayFirst(v, start) == None
    ensures ok ==> p == start + 3 && Digits(v, start, 2) && day == Num2(v, start)
    ensures ok ==> (fmt == Rfc822 && v[start + 2] == ' ' && start + 20 <= |v|) || (fmt == Rfc850 && v[start + 2] == '-')
  {
    p, fmt := start, No;
    ok, day := ReadTwo(v, p);
    if !ok {
      return;
    }
    p := p + 2;
    if v[p] == ' ' {
      ok := |v| - p >= 18;
      fmt := Rfc822;
    } else if v[p] == '-' {
      fmt := Rfc850;
    } else {
      ok := false;
    }
    p := p + 1;
  }

  method ReadMonth(v: string, p: nat) returns (month: Option<int>)
    requires p + 3 <= |v|
    ensures month == MonthAt(v, p)
  {
    match v[p] {
      case 'J' => month := Some(if v[p + 1] == 'a' then 0 else if v[p + 2] == 'n' then 5 else 6);
      case 'F' => month := Some(1);
      case 'M' => month := Some(if v[p + 2] == 'r' then 2 else 4);
      case 'A' => month := Some(if v[p + 1] == 'p' then 3 else 7);
      case 'S' => month := Some(8);
      case 'O' => month := Some(9);
      case 'N' => month := Some(10);
      case 'D' => month := Some(11);
      case _ => month := None;
    }
  }

  /** The time of day. */
  method ReadClock(v: string, start: nat) returns (ok: bool, p: nat, hour: int, min: int, sec: int)
    requires start + 8 <= |v|
    ensures ok == ClockAt(v, start) && (ok ==> p == start + 6)
    ensures ok ==> hour == Num2(v, start) && min == Num2(v, start + 3) && sec == Num2(v, start + 6)
  {
    p, min, sec := start, 0, 0;
    ok, hour := ReadTwo(v, p);
    p := p + 2;
    if !ok || v[p] != ':' {
      ok := false;
      return;
    }
    p := p + 1;
    ok, min := ReadTwo(v, p);
    p := p + 2;
    if !ok || v[p] != ':' {
      ok := false;
      return;
    }
    p := p + 1;
    ok, sec := ReadTwo(v, p);
  }

  /** The rest of a date with the day in front: month, year and time. */
  method ReadDayFirst(v: string, start: nat) returns (f: Option<Fields>)
    requires start + 18 <= |v|
    ensures f == DayFirst(v, start)
  {
    f := None;
    var ok, p, day, fmt := ReadDay(v, start);
    if !ok {
      return;
    }
    var month := ReadMonth(v, p);
    if month == None {
      return;
    }
    p := p + 3;
    if (fmt == Rfc822 && v[p] != ' ') || (fmt == Rfc850 && v[p] != '-') {
      return;
    }
    p := p + 1;
    var year;
    if fmt == Rfc822 {
      ok, year := ReadFour(v, p);
      p := p + 4;
    } else {
      ok, year := ReadTwo(v, p);
      year := year + if year < 70 then 2000 else 1900;
      p := p + 2;
    }
    if !ok || v[p] != ' ' {
      return;
    }
    p := p + 1;
    var hour, min, sec;
    ok, p, hour, min, sec := ReadClock(v, p);
    if ok {
      f := Some(Fields(day, month.value, year, hour, min, sec));
    }
  }

  /** The day of a date with the month in front. */
  method ReadDayAfter(v: string, start: nat) returns (ok: bool, p: nat, day: int)
    requires start + 14 <= |v|
    ensures var q := if v[start] == ' ' then start + 1 else start;
      && ok == (IsDigit(v[q]) && (v[q + 1] == ' ' || IsDigit(v[q + 1])))
      && (ok ==> p == if v[q + 1] == ' ' then q + 1 else q + 2)
      && (ok ==> day == if v[q + 1] == ' ' then Value(v[q]) else Value(v[q]) * 10 + Value(v[q + 1]))
  {
    p, day := start, 0;
    if v[p] == ' ' {
      p := p + 1;
    }
    ok := IsDigit(v[p]);
    if !ok {
      return;
    }
    day := Value(v[p]);
    p := p + 1;
    if v[p] != ' ' {
      ok := IsDigit(v[p]);
      if ok {
        day := day * 10 + Value(v[p]);
        p := p + 1;
      }
    }
  }

  method ReadMonthFirst(v: string, start: nat) returns (f: Option<Fields>)
    requires start + 18 <= |v|
    ensures f == MonthFirst(v, start)
  {
    f := None;
    var p := start;
    var month := ReadMonth(v, p);
    if month == None {
      return;
    }
    p := p + 4;
    var ok, day;
    ok, p, day := ReadDayAfter(v, p);
    if !ok || |v| - p < 14 || v[p] != ' ' {
      return;
    }
    p := p + 1;
    var hour, min, sec;
    ok, p, hour, min, sec := ReadClock(v, p);
    if !ok {
      return;
    }
    p := p + 2;
    if v[p] != ' ' {
      return;
    }
    p := p + 1;
    var year;
    ok, year := ReadFour(v, p);
    if ok {
      f := Some(Fields(day, month.value, year, hour, min, sec));
    }
  }

  /** The checks and the closing formula: month and year are moved so that the year begins in
      March, the year as an unsigned word. */
  method Compute(f: Fields) returns (r: Option<int>)
    requires Bounded(f)
    ensures r == Checked(f)
  {
    var month, year := f.month, f.year;
    if f.hour > 23 || f.min > 59 || f.sec > 59 {
      return None;
    }
    if f.day == 29 && month == 1 {
      if year % 4 != 0 || (year % 100 == 0 && year % 400 != 0) {
        return None;
      }
    } else if f.day > Limit(month) {
      return None;
    }
    month := month - 1;
    if month <= 0 {
      month := month + 12;
      year := (year - 1) % MODULUS;
    }
    r := Some(Signed(GaussDays(year, month, f.day) * 86400 + f.hour * 3600 + f.min * 60 + f.sec));
  }

  /** The whole parser. */
  method ParseHttpTime(v: string) returns (r: Option<int>)
    ensures r == Parse(v)
  {
    var p, fmt := SkipName(v);
    if |v| - p < 18 {
      return None;
    }
    var f;
    if fmt != Isoc {
      f := ReadDayFirst(v, p);
    } else {
      f := ReadMonthFirst(v, p);
    }
    if f == None {
      return None;
    }
    r := Compute(f.value);
  }

  /** The date of a time, printed. */
  method HttpTime(t: int) returns (s: string, ghost tm: Tm)
    requires t >= 0
    ensures ValidTm(tm) && Printable(tm) && tm.year >= 1970 && Seconds(tm) == t && s == Print(tm)
    ensures IsPrinted(s, tm)
  {
    var x := Gmtime(t);
    tm := x;
    s := Print(x);
    PrintedText(tm);
  }

  /** For every time from 1970 through the year 9999, parsing the printed date returns it. */
  method RoundTrip(t: int) returns (r: Option<int>)
    requires 0 <= t < YEAR_10000
    ensures r == Some(t)
  {
    var s, tm := HttpTime(t);
    ThroughYear9999(tm);
    PrintThenParse(tm);
    r := ParseHttpTime(s);
  }
}
