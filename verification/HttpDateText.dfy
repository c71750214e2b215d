/** Exactly which texts the parser of HTTP dates accepts, said as a grammar. */
module HttpDateText {
  import opened Common
  import opened Calendar
  import opened HttpDate

  // ---------- the grammar ----------

  predicate AllDigits(s: string) {
    forall i :: 0 <= i < |s| ==> IsDigit(s[i])
  }

  /** The number that a row of digits says. */
  function Number(s: string): int
    requires AllDigits(s)
  {
    if s == [] then 0 else Number(s[..|s| - 1]) * 10 + Value(s[|s| - 1])
  }

  predicate Says(s: string, n: int) {
    AllDigits(s) && Number(s) == n
  }

  /** Three letters stand for a month; only those that tell the names apart are looked at. */
  predicate MonthText(s: string, month: int) {
    && |s| == 3
    && match month
       case 0 => s[0] == 'J' && s[1] == 'a'
       case 1 => s[0] == 'F'
       case 2 => s[0] == 'M' && s[2] == 'r'
       case 3 => s[0] == 'A' && s[1] == 'p'
       case 4 => s[0] == 'M' && s[2] != 'r'
       case 5 => s[0] == 'J' && s[1] != 'a' && s[2] == 'n'
       case 6 => s[0] == 'J' && s[1] != 'a' && s[2] != 'n'
       case 7 => s[0] == 'A' && s[1] != 'p'
       case 8 => s[0] == 'S'
       case 9 => s[0] == 'O'
       case 10 => s[0] == 'N'
       case 11 => s[0] == 'D'
       case _ => false
  }

  /** 08:49:37 */
  predicate ClockText(s: string, f: Fields) {
    |s| == 8 && Says(s[..2], f.hour) && s[2] == ':' && Says(s[3..5], f.min) && s[5] == ':' && Says(s[6..8], f.sec)
  }

  /** 06 Nov 1994 08:49:37 */
  predicate LongText(s: string, f: Fields) {
    && |s| == 20 && Says(s[..2], f.day) && s[2] == ' ' && MonthText(s[3..6], f.month) && s[6] == ' '
    && Says(s[7..11], f.year) && s[11] == ' ' && ClockText(s[12..20], f)
  }

  /** 06-Nov-94 08:49:37, the year being one of 1970 to 2069. */
  predicate DashedText(s: string, f: Fields) {
    && |s| == 18 && Says(s[..2], f.day) && s[2] == '-' && MonthText(s[3..6], f.month) && s[6] == '-'
    && AllDigits(s[7..9]) && f.year == Century(Number(s[7..9])) && s[9] == ' ' && ClockText(s[10..18], f)
  }

  /** One or two digits, with or without a space before them. */
  predicate DayText(s: string, day: int) {
    || ((|s| == 1 || |s| == 2) && Says(s, day))
    || ((|s| == 2 || |s| == 3) && s[0] == ' ' && Says(s[1..], day))
  }

  /** Nov  6 08:49:37 1994, with any character after the month and a day text of `k` characters. */
  predicate AscText(s: string, k: nat, f: Fields) {
    && 1 <= k <= 3 && |s| == k + 18 && MonthText(s[..3], f.month) && DayText(s[4..4 + k], f.day) && s[4 + k] == ' '
    && ClockText(s[5 + k..13 + k], f) && s[13 + k] == ' ' && Says(s[14 + k..18 + k], f.year)
  }

  predicate Blank(s: string) {
    forall i :: 0 <= i < |s| ==> s[i] == ' '
  }

  /** The text says the fields: a name up to the separator at `q`, spaces, and from `p` on the
      `n` characters of a body in the form the separator calls for.  What follows is ignored. */
  predicate Reads(v: string, f: Fields, q: nat, p: nat, n: nat) {
    && q < p && p + n <= |v| && IsName(v[..q]) && Blank(v[q + 1..p])
    && if v[q] == ',' then LongText(v[p..p + n], f) || DashedText(v[p..p + n], f)
       else v[q] == ' ' && n >= 18 && AscText(v[p..p + n], n - 18, f)
  }

  // ---------- digits, places and months ----------

  lemma Says1(c: char, n: int)
    ensures Says([c], n) <==> IsDigit(c) && Value(c) == n
  {
    assert [c][0] == c && [c][..0] == [];
    if IsDigit(c) { assert Number([c]) == Number([c][..0]) * 10 + Value(c); }
  }

  lemma Says2(v: string, p: nat, n: int)
    requires p + 2 <= |v|
    ensures Says(v[p..p + 2], n) <==> Digits(v, p, 2) && Num2(v, p) == n
  {
    var s := v[p..p + 2];
    assert s[0] == v[p] && s[1] == v[p + 1];
    if Digits(v, p, 2) {
      assert s[..1] == [v[p]];
      Says1(v[p], Value(v[p]));
      assert Number(s) == Number(s[..1]) * 10 + Value(s[1]);
    }
  }

  lemma Says4(v: string, p: nat, n: int)
    requires p + 4 <= |v|
    ensures Says(v[p..p + 4], n) <==> Digits(v, p, 4) && Num4(v, p) == n
  {
    var s := v[p..p + 4];
    assert s[0] == v[p] && s[1] == v[p + 1] && s[2] == v[p + 2] && s[3] == v[p + 3];
    if Digits(v, p, 4) {
      assert s[..2] == v[p..p + 2] && s[..3][..2] == s[..2];
      Says2(v, p, Num2(v, p));
      assert Number(s[..3]) == Number(s[..3][..2]) * 10 + Value(s[2]);
      assert Number(s) == Number(s[..3]) * 10 + Value(s[3]);
    }
  }

  lemma MonthSays(v: string, p: nat, month: int)
    requires p + 3 <= |v|
    ensures MonthText(v[p..p + 3], month) <==> MonthAt(v, p) == Some(month)
  {
    var s := v[p..p + 3];
    assert s[0] == v[p] && s[1] == v[p + 1] && s[2] == v[p + 2];
  }

  lemma ClockSays(v: string, p: nat, f: Fields)
    requires p + 8 <= |v|
    ensures ClockText(v[p..p + 8], f) <==>
      ClockAt(v, p) && f.hour == Num2(v, p) && f.min == Num2(v, p + 3) && f.sec == Num2(v, p + 6)
  {
    var s := v[p..p + 8];
    Piece(v, p, 8, 0, 2);
    Piece(v, p, 8, 3, 5);
    Piece(v, p, 8, 6, 8);
    assert s[..2] == s[0..2];
    Says2(v, p, f.hour);
    Says2(v, p + 3, f.min);
    Says2(v, p + 6, f.sec);
  }

  // ---------- the three forms ----------

  lemma LongReads(v: string, p: nat, f: Fields)
    requires p + 20 <= |v|
    ensures LongText(v[p..p + 20], f) <==> v[p + 2] == ' ' && DayFirst(v, p) == Some(f)
  {
    var s := v[p..p + 20];
    Piece(v, p, 20, 0, 2);
    Piece(v, p, 20, 3, 6);
    Piece(v, p, 20, 7, 11);
    Piece(v, p, 20, 12, 20);
    assert s[..2] == s[0..2];
    Says2(v, p, f.day);
    MonthSays(v, p + 3, f.month);
    Says4(v, p + 7, f.year);
    ClockSays(v, p + 12, f);
  }

  lemma DashedReads(v: string, p: nat, f: Fields)
    requires p + 18 <= |v|
    ensures DashedText(v[p..p + 18], f) <==> v[p + 2] == '-' && DayFirst(v, p) == Some(f)
  {
    var s := v[p..p + 18];
    Piece(v, p, 18, 0, 2);
    Piece(v, p, 18, 3, 6);
    Piece(v, p, 18, 7, 9);
    Piece(v, p, 18, 10, 18);
    assert s[..2] == s[0..2];
    Says2(v, p, f.day);
    MonthSays(v, p + 3, f.month);
    if Digits(v, p + 7, 2) { Says2(v, p + 7, Num2(v, p + 7)); }
    if AllDigits(s[7..9]) { Says2(v, p + 7, Number(s[7..9])); }
    ClockSays(v, p + 10, f);
  }

  /** Where the day text of an asctime body ends, counted from behind the month. */
  function DayLength(v: string, p: nat): nat
    requires p + 18 <= |v|
  {
    var q := if v[p + 4] == ' ' then p + 5 else p + 4;
    q - p - 4 + if v[q + 1] == ' ' then 1 else 2
  }

  /** The day text, and what the parser makes of it. */
  lemma DaySays(v: string, p: nat, k: nat, day: int)
    requires p + 18 <= |v| && 1 <= k <= 3 && p + 4 + k < |v| && v[p + 4 + k] == ' '
    ensures DayText(v[p + 4..p + 4 + k], day) <==>
      var q := if v[p + 4] == ' ' then p + 5 else p + 4;
      && k == DayLength(v, p) && IsDigit(v[q]) && (v[q + 1] == ' ' || IsDigit(v[q + 1]))
      && day == if v[q + 1] == ' ' then Value(v[q]) else Value(v[q]) * 10 + Value(v[q + 1])
  {
    var s := v[p + 4..p + 4 + k];
    assert forall i :: 0 <= i < k ==> s[i] == v[p + 4 + i];
    if k == 1 {
      assert s == [v[p + 4]];
      Says1(v[p + 4], day);
    } else if k == 2 {
      Says2(v, p + 4, day);
      assert s[1..] == [v[p + 5]];
      Says1(v[p + 5], day);
    } else {
      assert s[1..] == v[p + 5..p + 7];
      Says2(v, p + 5, day);
    }
  }

  lemma PieceAt(v: string, p: nat, n: nat, i: nat)
    requires p + n <= |v| && i < n
    ensures v[p..p + n][i] == v[p + i]
  {
  }

  /** An asctime body, place by place in the text. */
  lemma AscPlaces(v: string, p: nat, k: nat, f: Fields)
    requires 1 <= k <= 3 && p + k + 18 <= |v|
    ensures AscText(v[p..p + k + 18], k, f) <==> MonthAt(v, p) == Some(f.month) && AscRest(v, p, k, f)
  {
    var n := k + 18;
    var s := v[p..p + n];
    Piece(v, p, n, 0, 3);
    Piece(v, p, n, 4, 4 + k);
    Piece(v, p, n, 5 + k, 13 + k);
    Piece(v, p, n, 14 + k, 18 + k);
    PieceAt(v, p, n, 4 + k);
    PieceAt(v, p, n, 13 + k);
    assert s[..3] == s[0..3];
    MonthSays(v, p, f.month);
  }

  lemma AscReads(v: string, p: nat, k: nat, f: Fields)
    requires 1 <= k <= 3 && p + k + 18 <= |v|
    ensures AscText(v[p..p + k + 18], k, f) <==> k == DayLength(v, p) && MonthFirst(v, p) == Some(f)
  {
    AscPlaces(v, p, k, f);
    if AscText(v[p..p + k + 18], k, f) { AscForth(v, p, k, f); }
    if k == DayLength(v, p) && MonthFirst(v, p) == Some(f) { AscBack(v, p, f); }
  }

  /** What follows the month of an asctime body. */
  ghost predicate AscRest(v: string, p: nat, k: nat, f: Fields)
    requires 1 <= k <= 3 && p + k + 18 <= |v|
  {
    && DayText(v[p + 4..p + 4 + k], f.day) && v[p + 4 + k] == ' '
    && ClockText(v[p + 5 + k..p + 13 + k], f) && v[p + 13 + k] == ' ' && Says(v[p + 14 + k..p + 18 + k], f.year)
  }

  lemma AscForth(v: string, p: nat, k: nat, f: Fields)
    requires 1 <= k <= 3 && p + k + 18 <= |v| && MonthAt(v, p) == Some(f.month) && AscRest(v, p, k, f)
    ensures k == DayLength(v, p) && MonthFirst(v, p) == Some(f)
  {
    ClockSays(v, p + 5 + k, f);
    Says4(v, p + 14 + k, f.year);
    DaySays(v, p, k, f.day);
  }

  lemma AscBack(v: string, p: nat, f: Fields)
    requires p + 18 <= |v| && MonthFirst(v, p) == Some(f)
    ensures p + DayLength(v, p) + 18 <= |v| && MonthAt(v, p) == Some(f.month) && AscRest(v, p, DayLength(v, p), f)
  {
    var k := DayLength(v, p);
    ClockSays(v, p + 5 + k, f);
    Says4(v, p + 14 + k, f.year);
    DaySays(v, p, k, f.day);
  }

  // ---------- the whole text ----------

  /** Where the body of a text of the grammar starts. */
  lemma ReadsStart(v: string, f: Fields, q: nat, p: nat, n: nat)
    requires Reads(v, f, q, p, n) && n > 0 && v[p] != ' '
    ensures Separator(v, 0) == q && SkipSpaces(v, q + 1) == p
  {
    assert forall i :: 0 <= i < q ==> v[i] == v[..q][i];
    assert forall i :: q + 1 <= i < p ==> v[i] == v[q + 1..p][i - q - 1];
    NameEnds(v, q, 0);
    SpacesEnd(v, q + 1, p);
  }

  lemma CommaReads(v: string, f: Fields, q: nat, p: nat, n: nat)
    requires Reads(v, f, q, p, n) && v[q] == ','
    ensures n >= 18 && v[p] != ' ' && DayFirst(v, p) == Some(f)
  {
    if |v[p..p + n]| == 20 { LongReads(v, p, f); }
    if |v[p..p + n]| == 18 { DashedReads(v, p, f); }
    assert Digits(v, p, 2);
  }

  lemma SpaceReads(v: string, f: Fields, q: nat, p: nat, n: nat)
    requires Reads(v, f, q, p, n) && v[q] == ' '
    ensures n >= 19 && v[p] != ' ' && MonthFirst(v, p) == Some(f)
  {
    AscReads(v, p, n - 18, f);
    assert MonthAt(v, p).Some?;
  }

  /** A text of the grammar is read as it says. */
  lemma ReadsBack(v: string, f: Fields, q: nat, p: nat, n: nat)
    requires Reads(v, f, q, p, n)
    ensures ReadFields(v) == Some(f)
  {
    if v[q] == ',' { CommaReads(v, f, q, p, n); } else { SpaceReads(v, f, q, p, n); }
    ReadsStart(v, f, q, p, n);
  }

  lemma {:induction false} NameBefore(v: string, p: nat)
    requires p <= |v|
    ensures var q := Separator(v, p);
      && (forall i :: p <= i < q ==> v[i] != ',' && v[i] != ' ') && (q < |v| ==> v[q] == ',' || v[q] == ' ')
    decreases |v| - p
  {
    if p < |v| && v[p] != ',' && v[p] != ' ' { NameBefore(v, p + 1); }
  }

  lemma {:induction false} SpacesBefore(v: string, p: nat, i: nat)
    requires p <= i < SkipSpaces(v, p)
    ensures i < |v| && v[i] == ' '
    decreases |v| - p
  {
    if p < i { SpacesBefore(v, p + 1, i); }
  }

  /** What the parser reads begins with a name, a separator and spaces. */
  lemma StartThere(v: string, q: nat, p: nat)
    requires q == Separator(v, 0) && p == SkipSpaces(v, q + 1) && p < |v|
    ensures q < p && IsName(v[..q]) && Blank(v[q + 1..p]) && (v[q] == ',' || v[q] == ' ')
  {
    NameBefore(v, 0);
    forall i | q + 1 <= i < p
      ensures v[i] == ' '
    {
      SpacesBefore(v, q + 1, i);
    }
  }

  lemma BodyThere(v: string, p: nat, f: Fields) returns (n: nat)
    requires p + 18 <= |v| && DayFirst(v, p) == Some(f)
    ensures p + n <= |v| && (LongText(v[p..p + n], f) || DashedText(v[p..p + n], f))
  {
    if v[p + 2] == ' ' {
      n := 20;
      LongReads(v, p, f);
    } else {
      n := 18;
      DashedReads(v, p, f);
    }
  }

  lemma AscThere(v: string, p: nat, f: Fields) returns (n: nat)
    requires p + 18 <= |v| && MonthFirst(v, p) == Some(f)
    ensures p + n <= |v| && n >= 18 && AscText(v[p..p + n], n - 18, f)
  {
    n := DayLength(v, p) + 18;
    AscReads(v, p, DayLength(v, p), f);
  }

  /** What is read is a text of the grammar. */
  lemma ReadsThere(v: string, f: Fields) returns (q: nat, p: nat, n: nat)
    requires ReadFields(v) == Some(f)
    ensures Reads(v, f, q, p, n)
  {
    q := Separator(v, 0);
    p := SkipSpaces(v, q + 1);
    StartThere(v, q, p);
    if v[q] == ' ' {
      n := AscThere(v, p, f);
    } else {
      n := BodyThere(v, p, f);
    }
  }

  /** The time of the fields: that of the calendar, except where the unsigned year has wrapped. */
  function TimeOf(f: Fields): int
    requires 0 <= f.month <= 11
  {
    if BeforeYearZero(f) then WrappedTime(f) else Seconds(ToTm(f))
  }

  /** The parser accepts exactly the texts of the grammar whose fields are a valid date, or day 0,
      and a valid time, and answers with their time. */
  lemma ParseExact(v: string, t: int)
    ensures Parse(v) == Some(t) <==> exists f, q, p, n :: Reads(v, f, q, p, n) && Passes(f) && t == TimeOf(f)
  {
    if Parse(v) == Some(t) {
      var f := ReadFields(v).value;
      var q, p, n := ReadsThere(v, f);
      TimeRead(f);
      assert Reads(v, f, q, p, n) && Passes(f) && t == TimeOf(f);
    }
    forall f, q, p, n | Reads(v, f, q, p, n) && Passes(f) && t == TimeOf(f)
      ensures Parse(v) == Some(t)
    {
      ReadsBack(v, f, q, p, n);
      TimeRead(f);
    }
  }

  lemma TimeRead(f: Fields)
    requires Bounded(f)
    ensures Checked(f) == if Passes(f) then Some(TimeOf(f)) else None
  {
    Accepted(f);
    if Passes(f) {
      if BeforeYearZero(f) { CheckedEarly(f); } else { TimeExact(f); }
    }
  }

  // ---------- where it accepts more than dates ----------

  /** Of the texts of the grammar, exactly those that say a valid date and time are accepted,
      unless they say day 0 with a valid time. */
  lemma OnlyValidDates(v: string, f: Fields, q: nat, p: nat, n: nat)
    requires Reads(v, f, q, p, n)
    ensures (Parse(v).Some? <==> ValidDate(f.year, f.month + 1, f.day) && ValidTime(f.hour, f.min, f.sec))
      <==> !(f.day == 0 && ValidTime(f.hour, f.min, f.sec))
  {
    ReadsBack(v, f, q, p, n);
    CheckedExact(f);
  }

  /** Of those, exactly the ones of January and February of the year 0 get a wrong time. */
  lemma OnlyRightTimes(v: string, f: Fields, q: nat, p: nat, n: nat)
    requires Reads(v, f, q, p, n) && Parse(v).Some?
    ensures Parse(v) == Some(Seconds(ToTm(f))) <==> !BeforeYearZero(f)
  {
    ReadsBack(v, f, q, p, n);
    CheckedExact(f);
  }

  /** A text in the first form, part by part. */
  lemma LongParts(name: string, day: string, month: string, year: string, clock: string, tail: string, f: Fields)
    requires IsName(name) && |day| == 2 && Says(day, f.day) && MonthText(month, f.month) && |year| == 4
      && Says(year, f.year)
    requires ClockText(clock, f)
    ensures var body := day + " " + month + " " + year + " " + clock;
      ReadFields(name + ", " + body + tail) == Some(f)
  {
    var body := day + " " + month + " " + year + " " + clock;
    var v := name + ", " + body + tail;
    LongBody(day, month, year, clock, body, f);
    Shape(name, ", ", body, tail, v);
    LongRead(v, |name|, |name| + 2, f);
  }

  lemma LongBody(day: string, month: string, year: string, clock: string, body: string, f: Fields)
    requires |day| == 2 && Says(day, f.day) && MonthText(month, f.month) && |year| == 4 && Says(year, f.year)
      && ClockText(clock, f)
    requires body == day + " " + month + " " + year + " " + clock
    ensures LongText(body, f)
  {
    assert body[..2] == day && body[3..6] == month && body[7..11] == year && body[12..20] == clock;
    assert body[2] == ' ' && body[6] == ' ' && body[11] == ' ';
  }

  lemma LongRead(v: string, q: nat, p: nat, f: Fields)
    requires q < p && p + 20 <= |v| && IsName(v[..q]) && v[q..p] == ", " && LongText(v[p..p + 20], f)
    ensures ReadFields(v) == Some(f)
  {
    var body := v[p..p + 20];
    assert body[0] == body[..2][0];
    BodyRead(v, q, p, 20);
    LongReads(v, p, f);
  }

  lemma TwoDigits(s: string)
    requires |s| == 2 && IsDigit(s[0]) && IsDigit(s[1])
    ensures Says(s, Value(s[0]) * 10 + Value(s[1]))
  {
    Says2(s, 0, Value(s[0]) * 10 + Value(s[1]));
    assert s[0..2] == s;
  }

  lemma FourDigitsSay(s: string)
    requires |s| == 4 && IsDigit(s[0]) && IsDigit(s[1]) && IsDigit(s[2]) && IsDigit(s[3])
    ensures Says(s, Value(s[0]) * 1000 + Value(s[1]) * 100 + Value(s[2]) * 10 + Value(s[3]))
  {
    Says4(s, 0, Value(s[0]) * 1000 + Value(s[1]) * 100 + Value(s[2]) * 10 + Value(s[3]));
    assert s[0..4] == s;
  }

  lemma ClockExample(f: Fields)
    requires f.hour == 8 && f.min == 49 && f.sec == 37
    ensures ClockText("08:49:37", f)
  {
    var s := "08:49:37";
    assert s[..2] == "08" && s[3..5] == "49" && s[6..8] == "37";
    TwoDigits("08");
    TwoDigits("49");
    TwoDigits("37");
  }

  /** Sunday, 08:49:37, on a day, month and year as written. */
  function Example(day: string, month: string, year: string): string {
    "Sun" + ", " + (day + " " + month + " " + year + " " + "08:49:37") + " GMT"
  }

  lemma LastDay(y: int)
    ensures Seconds(Tm(37, 49, 8, 0, 11, y, 0)) == Seconds(Tm(37, 49, 8, 31, 10, y, 0))
  {
    MonthTable(y);
  }

  /** Day 0 is read as the day before the first. */
  lemma DayZeroAccepted(year: string, y: int)
    requires |year| == 4 && Says(year, y) && 0 <= y <= 9999
    ensures Parse(Example("00", "Nov", year)) == Some(Seconds(Tm(37, 49, 8, 31, 10, y, 0)))
  {
    var f := Fields(0, 10, y, 8, 49, 37);
    TwoDigits("00");
    ClockExample(f);
    LongParts("Sun", "00", "Nov", year, "08:49:37", " GMT", f);
    TimeExact(f);
    LastDay(y);
  }

  /** Letters that do not tell months apart are not looked at. */
  lemma LettersIgnored()
    ensures Parse(Example("06", "Nxx", "1994")) == Some(Seconds(Tm(37, 49, 8, 6, 11, 1994, 0)))
  {
    var f := Fields(6, 10, 1994, 8, 49, 37);
    TwoDigits("06");
    FourDigitsSay("1994");
    ClockExample(f);
    LongParts("Sun", "06", "Nxx", "1994", "08:49:37", " GMT", f);
    CheckedExact(f);
  }

  /** Years before 1970 are accepted and give negative times. */
  lemma EarlyYear()
    ensures Parse(Example("06", "Nov", "0001")) == Some(Seconds(Tm(37, 49, 8, 6, 11, 1, 0)))
    ensures Seconds(Tm(37, 49, 8, 6, 11, 1, 0)) < 0
  {
    var f := Fields(6, 10, 1, 8, 49, 37);
    TwoDigits("06");
    FourDigitsSay("0001");
    ClockExample(f);
    LongParts("Sun", "06", "Nov", "0001", "08:49:37", " GMT", f);
    TimeExact(f);
    YearStartMarch(1);
    MonthTable(1);
  }

  /** In January of the year 0 the unsigned year wraps, and the time is wrong. */
  lemma YearZero()
    ensures Parse(Example("06", "Jan", "0000")).Some?
    ensures Parse(Example("06", "Jan", "0000")) != Some(Seconds(Tm(37, 49, 8, 6, 1, 0, 0)))
  {
    var f := Fields(6, 0, 0, 8, 49, 37);
    TwoDigits("06");
    FourDigitsSay("0000");
    ClockExample(f);
    LongParts("Sun", "06", "Jan", "0000", "08:49:37", " GMT", f);
    CheckedExact(f);
  }

  lemma ExampleText()
    ensures Example("00", "Nov", "1994") == "Sun, 00 Nov 1994 08:49:37 GMT"
  {
  }

  /** One of these texts, written out. */
  lemma DayZeroText(v: string, y: int)
    requires v == "Sun, 00 Nov 1994 08:49:37 GMT" && y == 1994
    ensures Parse(v) == Some(Seconds(Tm(37, 49, 8, 31, 10, y, 0)))
  {
    var year := "1994";
    FourDigitsSay(year);
    ExampleText();
    DayZeroAccepted(year, y);
  }

  // ---------- what printed texts look like ----------

  predicate NamesDay(s: string, d: int) {
    match d
    case 0 => s == "Sun"
    case 1 => s == "Mon"
    case 2 => s == "Tue"
    case 3 => s == "Wed"
    case 4 => s == "Thu"
    case 5 => s == "Fri"
    case 6 => s == "Sat"
    case _ => false
  }

  predicate NamesMonth(s: string, m: int) {
    match m
    case 1 => s == "Jan"
    case 2 => s == "Feb"
    case 3 => s == "Mar"
    case 4 => s == "Apr"
    case 5 => s == "May"
    case 6 => s == "Jun"
    case 7 => s == "Jul"
    case 8 => s == "Aug"
    case 9 => s == "Sep"
    case 10 => s == "Oct"
    case 11 => s == "Nov"
    case 12 => s == "Dec"
    case _ => false
  }

  /** The parts of a printed date. */
  datatype Parts =
    Parts(weekday: string, day: string, month: string, year: string, hour: string, min: string, sec: string)

  /** Names, two digits each for day, hour, minute and second, and the digits of the year. */
  ghost predicate PartsOf(w: Parts, tm: Tm) {
    && NamesDay(w.weekday, tm.wday) && NamesMonth(w.month, tm.mon)
    && |w.day| == |w.hour| == |w.min| == |w.sec| == 2
    && Says(w.day, tm.mday) && Says(w.hour, tm.hour) && Says(w.min, tm.min) && Says(w.sec, tm.sec)
    && |w.year| >= 4 && w.year[0] != '0' && Says(w.year, tm.year)
  }

  /** Sun, 06 Nov 1994 08:49:37 GMT */
  ghost predicate IsPrinted(v: string, tm: Tm) {
    exists w: Parts :: PartsOf(w, tm) &&
      v == w.weekday + ", " + w.day + " " + w.month + " " + w.year + " " + w.hour + ":" + w.min + ":" + w.sec + " GMT"
  }

  lemma TwoSays(n: int)
    requires 0 <= n < 100
    ensures Says(Two(n), n)
  {
    TwoDigits(Two(n));
  }

  lemma SaysMore(s: string, n: int, c: char)
    requires Says(s, n) && IsDigit(c)
    ensures Says(s + [c], n * 10 + Value(c))
  {
    assert (s + [c])[..|s|] == s;
  }

  lemma {:induction false} DecimalSays(n: int)
    requires n >= 0
    ensures Says(Decimal(n), n)
    decreases n
  {
    if n >= 10 {
      DecimalSays(n / 10);
      SaysMore(Decimal(n / 10), n / 10, Digit(n % 10));
    } else {
      Says1(Digit(n), n);
    }
  }

  lemma {:induction false} DecimalStarts(n: int)
    requires n > 0
    ensures Decimal(n) != "" && Decimal(n)[0] != '0'
    decreases n
  {
    if n >= 10 {
      DecimalStarts(n / 10);
      assert Decimal(n)[0] == Decimal(n / 10)[0];
    }
  }

  lemma DecimalLong(n: int)
    requires n >= 1000
    ensures |Decimal(n)| >= 4
  {
    assert |Decimal(n / 10 / 10 / 10)| >= 1;
    assert |Decimal(n / 10 / 10)| >= 2;
    assert |Decimal(n / 10)| >= 3;
  }

  lemma Names(tm: Tm)
    requires 0 <= tm.wday < 7 && 1 <= tm.mon <= 12
    ensures NamesDay(Week(tm.wday), tm.wday) && NamesMonth(MonthName(tm.mon), tm.mon)
  {
  }

  /** The text printed, part by part. */
  lemma PrintedText(tm: Tm)
    requires Printable(tm) && tm.year >= 1000
    ensures IsPrinted(Print(tm), tm)
  {
    Names(tm);
    TwoSays(tm.mday);
    TwoSays(tm.hour);
    TwoSays(tm.min);
    TwoSays(tm.sec);
    DecimalSays(tm.year);
    DecimalStarts(tm.year);
    DecimalLong(tm.year);
    var w := Parts(Week(tm.wday), Two(tm.mday), MonthName(tm.mon), Decimal(tm.year), Two(tm.hour), Two(tm.min),
                   Two(tm.sec));
    assert PartsOf(w, tm);
    assert Print(tm) ==
      w.weekday + ", " + w.day + " " + w.month + " " + w.year + " " + w.hour + ":" + w.min + ":" + w.sec + " GMT";
  }
}
