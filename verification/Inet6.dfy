/** Text forms of IPv6 addresses (section 2.2 of RFC 4291): the printer, the parser, and what
    the one makes of the other's output. */
module Inet6 {
  import opened Common
  import opened Arith

  const INADDR_NONE: nat := 0xFFFF_FFFF

  ghost predicate IsByte(b: nat) {
    b < 256
  }

  ghost predicate IsAddress(p: seq<nat>) {
    |p| == 16 && forall i :: 0 <= i < 16 ==> IsByte(p[i])
  }

  /** The `i`-th 16-bit word of an address. */
  function WordAt(p: seq<nat>, i: nat): nat
    requires 2 * i + 1 < |p|
  {
    p[2 * i] * 256 + p[2 * i + 1]
  }

  function Words(p: seq<nat>): (w: seq<nat>)
    requires |p| == 16
    ensures |w| == 8
  {
    seq(8, i requires 0 <= i < 8 => WordAt(p, i))
  }

  // ---------- numbers in text ----------

  function HexDigit(n: nat): char
    requires n < 16
  {
    if n < 10 then '0' + n as char else 'a' + (n - 10) as char
  }

  /** %xd */
  function Hex(n: nat): (s: string)
    ensures |s| >= 1
  {
    if n < 16 then [HexDigit(n)] else Hex(n / 16) + [HexDigit(n % 16)]
  }

  /** %ud */
  function Decimal(n: nat): (s: string)
    ensures |s| >= 1
  {
    if n < 10 then [HexDigit(n)] else Decimal(n / 10) + [HexDigit(n % 10)]
  }

  // ---------- the run of zero words that is left out ----------

  datatype Run = Run(zero: int, len: nat)

  /** Looks through the words from `i` on: `best` is the longest run so far (or -1 and 1), and
      `n` zero words from `last` on have just been seen. */
  function FindRun(w: seq<nat>, i: nat, best: Run, last: int, n: nat): Run
    requires i <= |w|
    decreases |w| - i
  {
    if i == |w| then (if best.len < n then Run(last, n) else best)
    else if w[i] != 0 then FindRun(w, i + 1, if best.len < n then Run(last, n) else best, last, 0)
    else FindRun(w, i + 1, best, if n == 0 then i else last, n + 1)
  }

  function RunOf(w: seq<nat>): Run {
    FindRun(w, 0, Run(-1, 1), -1, 0)
  }

  predicate Zeros(w: seq<nat>, a: int, n: nat) {
    0 <= a && a + n <= |w| && forall i :: a <= i < a + n ==> w[i] == 0
  }

  /** No two zero words in a row up to `end`, or the first of the longest runs of them. */
  ghost predicate FirstLongest(w: seq<nat>, r: Run, end: int) {
    && (r.zero == -1 ==> r.len == 1)
    && (r.zero != -1 ==> r.len >= 2 && Zeros(w, r.zero, r.len) && r.zero + r.len <= end)
    && (forall a: int, m: nat {:trigger Zeros(w, a, m)} :: Zeros(w, a, m) && m >= 2 && a + m <= end ==>
         m < r.len || (m == r.len && r.zero <= a))
  }

  lemma ZerosApart(w: seq<nat>, a: int, m: nat, x: int)
    requires Zeros(w, a, m) && 0 <= x < |w| && w[x] != 0
    ensures x < a || a + m <= x
  {
  }

  lemma RunEnds(w: seq<nat>, i: nat, best: Run, last: int, n: nat)
    requires n <= i <= |w| && Zeros(w, i - n, n) && (i - n > 0 ==> w[i - n - 1] != 0) && (n > 0 ==> last == i - n)
    requires FirstLongest(w, best, i - n)
    ensures FirstLongest(w, if best.len < n then Run(last, n) else best, i)
  {
    var r := if best.len < n then Run(last, n) else best;
    forall a: int, m: nat | Zeros(w, a, m) && m >= 2 && a + m <= i
      ensures m < r.len || (m == r.len && r.zero <= a)
    {
      if i - n > 0 { ZerosApart(w, a, m, i - n - 1); }
    }
  }

  lemma {:induction false} FindRunIsLongest(w: seq<nat>, i: nat, best: Run, last: int, n: nat)
    requires n <= i <= |w| && Zeros(w, i - n, n) && (i - n > 0 ==> w[i - n - 1] != 0) && (n > 0 ==> last == i - n)
    requires FirstLongest(w, best, i - n)
    ensures FirstLongest(w, FindRun(w, i, best, last, n), |w|)
    decreases |w| - i
  {
    if i == |w| {
      RunEnds(w, i, best, last, n);
    } else if w[i] != 0 {
      RunEnds(w, i, best, last, n);
      var r := if best.len < n then Run(last, n) else best;
      forall a: int, m: nat | Zeros(w, a, m) && m >= 2 && a + m <= i + 1
        ensures m < r.len || (m == r.len && r.zero <= a)
      {
        ZerosApart(w, a, m, i);
      }
      FindRunIsLongest(w, i + 1, r, last, 0);
    } else {
      FindRunIsLongest(w, i + 1, best, if n == 0 then i else last, n + 1);
    }
  }

  /** What the printer leaves out is the first of the longest runs of at least two zero words. */
  lemma RunIsFirstLongest(w: seq<nat>)
    ensures FirstLongest(w, RunOf(w), |w|)
  {
    FindRunIsLongest(w, 0, Run(-1, 1), -1, 0);
  }

  // ---------- printing ----------

  /** Words, each followed by a colon. */
  function Left(w: seq<nat>): string {
    if w == [] then "" else Left(w[..|w| - 1]) + Hex(w[|w| - 1]) + ":"
  }

  /** Words, separated by colons. */
  function Right(w: seq<nat>): string {
    if w == [] then "" else Left(w[..|w| - 1]) + Hex(w[|w| - 1])
  }

  function Dotted(p: seq<nat>): string
    requires |p| == 16
  {
    Decimal(p[12]) + "." + (Decimal(p[13]) + "." + (Decimal(p[14]) + "." + Decimal(p[15])))
  }

  /** Is the tail written like an IPv4 address? */
  predicate ShowsDotted(p: seq<nat>, r: Run)
    requires |p| == 16
  {
    r.zero == 0 && ((r.len == 5 && p[10] == 0xff && p[11] == 0xff) || r.len == 6
                    || (r.len == 7 && p[14] != 0 && p[15] != 1))
  }

  function Text(p: seq<nat>): string
    requires |p| == 16
  {
    var w, r := Words(p), RunOf(Words(p));
    if r.zero == -1 || !(0 <= r.zero && r.zero + r.len <= 8) then Right(w)
    else if ShowsDotted(p, r) then "::" + (if r.len == 5 then Left(w[5..6]) else "") + Dotted(p)
    else (if r.zero == 0 then ":" else Left(w[..r.zero])) + ":" + Right(w[r.zero + r.len..])
  }

  // ---------- parsing IPv4 ----------

  function InetScan(t: string, i: nat, addr: nat, octet: nat, n: nat): nat
    requires i <= |t|
    decreases |t| - i
  {
    if i == |t| then (if n == 3 then (addr * 256 + octet) % 0x1_0000_0000 else INADDR_NONE)
    else if '0' <= t[i] <= '9' then
      var o := octet * 10 + (t[i] as int - '0' as int);
      if o > 255 then INADDR_NONE else InetScan(t, i + 1, addr, o, n)
    else if t[i] == '.' then InetScan(t, i + 1, (addr * 256 + octet) % 0x1_0000_0000, 0, n + 1)
    else INADDR_NONE
  }

  method InetAddr(t: string) returns (r: nat)
    ensures r == InetScan(t, 0, 0, 0, 0)
  {
    var addr: nat, octet: nat, n: nat := 0, 0, 0;
    var i := 0;
    while i < |t|
      invariant i <= |t| && InetScan(t, 0, 0, 0, 0) == InetScan(t, i, addr, octet, n)
    {
      var c := t[i];
      if '0' <= c <= '9' {
        octet := octet * 10 + (c as int - '0' as int);
        if octet > 255 {
          return INADDR_NONE;
        }
      } else if c == '.' {
        addr := (addr * 256 + octet) % 0x1_0000_0000;
        octet := 0;
        n := n + 1;
      } else {
        return INADDR_NONE;
      }
      i := i + 1;
    }
    r := if n == 3 then (addr * 256 + octet) % 0x1_0000_0000 else INADDR_NONE;
  }

  /** Digits of an octet, read on top of nothing. */
  lemma {:induction false} OctetBack(t: string, i: nat, addr: nat, n: nat, x: nat)
    requires x < 256 && i + |Decimal(x)| <= |t| && t[i..i + |Decimal(x)|] == Decimal(x)
    ensures InetScan(t, i, addr, 0, n) == InetScan(t, i + |Decimal(x)|, addr, x, n)
    decreases x
  {
    var s := Decimal(x);
    if x >= 10 {
      var h := Decimal(x / 10);
      assert s == h + [HexDigit(x % 10)];
      assert t[i..i + |h|] == s[..|h|] == h;
      OctetBack(t, i, addr, n, x / 10);
      assert t[i + |h|] == s[|h|] == HexDigit(x % 10);
    } else {
      assert t[i] == s[0];
    }
  }

  lemma OctetText(t: string, i: nat, x: nat, rest: string)
    requires i <= |t| && t[i..] == Decimal(x) + "." + rest
    ensures var k := i + |Decimal(x)|;
      k < |t| && t[i..k] == Decimal(x) && t[k] == '.' && t[k + 1..] == rest
  {
    var k := |Decimal(x)|;
    var u := t[i..];
    assert t[i..i + k] == u[..k] == Decimal(x);
    assert t[i + k] == u[k] == '.';
    assert t[i + k + 1..] == u[k + 1..] == rest;
  }

  /** An octet and the dot after it. */
  lemma OctetDot(t: string, i: nat, addr: nat, n: nat, x: nat, rest: string, j: nat, addr': nat, n': nat)
    requires x < 256 && addr < 0x100_0000 && i <= |t| && t[i..] == Decimal(x) + "." + rest
    requires j == i + |Decimal(x)| + 1 && addr' == addr * 256 + x && n' == n + 1
    ensures j <= |t| && t[j..] == rest && InetScan(t, i, addr, 0, n) == InetScan(t, j, addr', 0, n')
  {
    OctetText(t, i, x, rest);
    OctetBack(t, i, addr, n, x);
  }

  /** The address that a dotted text says. */
  lemma DottedBack(p: seq<nat>, t: string)
    requires IsAddress(p) && t == Dotted(p)
    ensures InetScan(t, 0, 0, 0, 0) == p[12] * 0x100_0000 + p[13] * 0x1_0000 + p[14] * 0x100 + p[15]
  {
    assert IsByte(p[12]) && IsByte(p[13]) && IsByte(p[14]) && IsByte(p[15]);
    var d := Decimal(p[15]);
    var c := Decimal(p[14]) + "." + d;
    var b := Decimal(p[13]) + "." + c;
    assert t[0..] == t;
    var i := |Decimal(p[12])| + 1;
    OctetDot(t, 0, 0, 0, p[12], b, i, p[12], 1);
    var j := i + |Decimal(p[13])| + 1;
    var two := p[12] * 256 + p[13];
    OctetDot(t, i, p[12], 1, p[13], c, j, two, 2);
    var k := j + |Decimal(p[14])| + 1;
    var three := two * 256 + p[14];
    OctetDot(t, j, two, 2, p[14], d, k, three, 3);
    OctetEnd(t, k, three, p[15]);
  }

  lemma OctetEnd(t: string, i: nat, addr: nat, x: nat)
    requires x < 256 && addr < 0x100_0000 && i <= |t| && t[i..] == Decimal(x)
    ensures InetScan(t, i, addr, 0, 3) == addr * 256 + x
  {
    assert t[i..i + |Decimal(x)|] == t[i..];
    OctetBack(t, i, addr, 3, x);
  }

  // ---------- parsing IPv6 ----------

  /** Half-way: the bytes written, where the run of zeros goes (-1: none so far), where the
      text after the last colon starts (-1: none), and the word being read. */
  datatype Reading = Reading(out: seq<nat>, zero: int, digit: int, nibbles: nat, word: nat)

  function High(word: nat): nat {
    word / 256 % 256
  }

  function Low(word: nat): nat {
    word % 256
  }

  /** The value of a hexadecimal digit; letters of either case. */
  function HexValue(c: char): Option<nat> {
    if '0' <= c <= '9' then Some(c as int - '0' as int)
    else if 'a' <= c <= 'f' then Some(c as int - 'a' as int + 10)
    else if 'A' <= c <= 'F' then Some(c as int - 'A' as int + 10)
    else None
  }

  /** Whole words, with room for one more. */
  predicate Pairs(n: nat) {
    n == 0 || n == 2 || n == 4 || n == 6 || n == 8 || n == 10 || n == 12 || n == 14
  }

  /** The end of the text: the last word, and the zeros put where they belong. */
  function Finish(s: Reading): Option<seq<nat>>
    requires Pairs(|s.out|) && s.zero <= |s.out|
  {
    if s.nibbles == 0 && s.zero == -1 then None
    else
      var out := s.out + [High(s.word), Low(s.word)];
      var left := 16 - |out|;
      if left > 0 then (if s.zero >= 0 then Some(out[..s.zero] + seq(left, _ => 0) + out[s.zero..]) else None)
      else if s.zero == -1 then Some(out) else None
  }

  function Scan(t: string, i: nat, s: Reading): Option<seq<nat>>
    requires i <= |t| && Pairs(|s.out|) && -1 <= s.zero <= |s.out| && -1 <= s.digit <= i
    decreases |t| - i
  {
    if i == |t| then Finish(s)
    else if t[i] == ':' then (
      if s.nibbles > 0 then
        if |s.out| >= 14 then None
        else Scan(t, i + 1, Reading(s.out + [High(s.word), Low(s.word)], s.zero, i + 1, 0, 0))
      else if s.zero == -1 then Scan(t, i + 1, s.(zero := |s.out|, digit := i + 1))
      else None)
    else if t[i] == '.' && s.nibbles > 0 then (
      if |s.out| > 12 || s.digit == -1 then None
      else
        var word := InetScan(t[s.digit..], 0, 0, 0, 0);
        if word == INADDR_NONE then None
        else Finish(s.(out := s.out + [word / 0x100_0000 % 256, word / 0x1_0000 % 256], word := word)))
    else if s.nibbles >= 4 || HexValue(t[i]).None? then None
    else Scan(t, i + 1, s.(nibbles := s.nibbles + 1, word := s.word * 16 + HexValue(t[i]).value))
  }

  const ADDRSTRLEN: nat := 45   // ffff:ffff:ffff:ffff:ffff:ffff:255.255.255.255

  const START: Reading := Reading([], -1, -1, 0, 0)

  /** What the parser answers. */
  function Parse(t: string): Option<seq<nat>> {
    if |t| == 0 then None else Scan(t, if t[0] == ':' then 1 else 0, START)
  }

  // ---------- reading back what was printed ----------

  /** A text from `i` on that is made of two parts. */
  lemma SplitText(t: string, i: nat, j: nat, a: string, b: string)
    requires i <= j <= |t| && t[i..j] == a + b
    ensures i + |a| <= j && t[i..i + |a|] == a && t[i + |a|..j] == b
  {
    var u := t[i..j];
    assert t[i..i + |a|] == u[..|a|];
    assert t[i + |a|..j] == u[|a|..];
  }

  lemma Around(t: string, a: string, b: string)
    requires t == a + ":" + b
    ensures |a| < |t| && t[..|a|] == a && t[|a|] == ':' && t[|a| + 1..] == b
  {
  }

  function BytesOf(w: seq<nat>): (b: seq<nat>)
    ensures |b| == 2 * |w|
  {
    if w == [] then [] else BytesOf(w[..|w| - 1]) + [High(w[|w| - 1]), Low(w[|w| - 1])]
  }

  ghost predicate Fits(t: string, i: nat, s: Reading) {
    i <= |t| && Pairs(|s.out|) && -1 <= s.zero <= |s.out| && -1 <= s.digit <= i
  }

  lemma {:induction false} HexLength(w: nat, k: nat, bound: nat)
    requires k >= 1 && w < bound && (k == 1 ==> bound == 16) && (k == 2 ==> bound == 256) && (k == 3 ==> bound == 4096)
      && (k == 4 ==> bound == 65536) && k <= 4
    ensures |Hex(w)| <= k
    decreases k
  {
    if w >= 16 { HexLength(w / 16, k - 1, bound / 16); }
  }

  /** One hexadecimal digit. */
  lemma DigitBack(t: string, i: nat, s: Reading, d: nat, j: nat, s': Reading)
    requires Fits(t, i, s) && i < |t| && d < 16 && t[i] == HexDigit(d) && s.nibbles < 4
    requires j == i + 1 && s' == s.(nibbles := s.nibbles + 1, word := s.word * 16 + d)
    ensures Fits(t, j, s') && Scan(t, i, s) == Scan(t, j, s')
  {
  }

  /** The digits of a word. */
  lemma {:induction false} HexBack(t: string, i: nat, s: Reading, w: nat, j: nat, s': Reading)
    requires Fits(t, i, s) && s.nibbles == 0 && s.word == 0 && w < 65536
    requires j == i + |Hex(w)| <= |t| && t[i..j] == Hex(w) && s' == s.(nibbles := |Hex(w)|, word := w)
    ensures Fits(t, j, s') && Scan(t, i, s) == Scan(t, j, s')
    decreases w
  {
    var h := Hex(w);
    if w < 16 {
      assert t[i] == h[0];
      DigitBack(t, i, s, w, j, s');
    } else {
      var g := Hex(w / 16);
      assert t[i..j - 1] == h[..|g|] == g;
      var s1 := s.(nibbles := |g|, word := w / 16);
      HexBack(t, i, s, w / 16, j - 1, s1);
      HexLength(w / 16, 3, 4096);
      assert t[j - 1] == h[|g|];
      DigitBack(t, j - 1, s1, w % 16, j, s');
    }
  }

  /** A word and the colon after it. */
  lemma WordBack(t: string, i: nat, s: Reading, w: nat, j: nat, s': Reading)
    requires Fits(t, i, s) && s.nibbles == 0 && s.word == 0 && w < 65536 && |s.out| < 14
    requires j == i + |Hex(w)| + 1 <= |t| && t[i..j - 1] == Hex(w) && t[j - 1] == ':'
    requires s' == Reading(s.out + [High(w), Low(w)], s.zero, j, 0, 0)
    ensures Fits(t, j, s') && Scan(t, i, s) == Scan(t, j, s')
  {
    var s1 := s.(nibbles := |Hex(w)|, word := w);
    HexBack(t, i, s, w, j - 1, s1);
    ColonBack(t, j - 1, s1, j, s');
  }

  lemma ColonBack(t: string, i: nat, s: Reading, j: nat, s': Reading)
    requires Fits(t, i, s) && i < |t| && t[i] == ':' && s.nibbles > 0 && |s.out| < 14
    requires j == i + 1 && s' == Reading(s.out + [High(s.word), Low(s.word)], s.zero, j, 0, 0)
    ensures Fits(t, j, s') && Scan(t, i, s) == Scan(t, j, s')
  {
  }

  ghost predicate AreWords(w: seq<nat>) {
    forall i :: 0 <= i < |w| ==> w[i] < 65536
  }

  /** Where the last of the words begins. */
  lemma LeftSplit(t: string, i: nat, w: seq<nat>, j: nat) returns (k: nat)
    requires w != [] && j == i + |Left(w)| <= |t| && t[i..j] == Left(w)
    ensures var u, x := w[..|w| - 1], w[|w| - 1];
      && k == i + |Left(u)| && k + |Hex(x)| + 1 == j && t[i..k] == Left(u) && t[k..k + |Hex(x)|] == Hex(x)
         && t[j - 1] == ':'
  {
    var u, x := w[..|w| - 1], w[|w| - 1];
    k := i + |Left(u)|;
    assert Left(w) == Left(u) + (Hex(x) + ":");
    SplitText(t, i, j, Left(u), Hex(x) + ":");
    SplitText(t, k, j, Hex(x), ":");
    assert t[j - 1] == t[j - 1..j][0];
  }

  lemma {:induction false} LeftBack(t: string, i: nat, s: Reading, w: seq<nat>, j: nat, s': Reading)
    requires Fits(t, i, s) && s.nibbles == 0 && s.word == 0 && AreWords(w) && |s.out| + 2 * |w| <= 14
    requires j == i + |Left(w)| <= |t| && t[i..j] == Left(w)
    requires s' == Reading(s.out + BytesOf(w), s.zero, if w == [] then s.digit else j, 0, 0)
    ensures Fits(t, j, s') && Scan(t, i, s) == Scan(t, j, s')
    decreases |w|
  {
    if w != [] {
      var n := |w| - 1;
      var u, x := w[..n], w[n];
      var k := LeftSplit(t, i, w, j);
      var s1 := Reading(s.out + BytesOf(u), s.zero, if u == [] then s.digit else k, 0, 0);
      LeftBack(t, i, s, u, k, s1);
      Joined(s.out, BytesOf(u), High(x), Low(x));
      WordBack(t, k, s1, x, j, s');
    } else {
      assert s.out + BytesOf(w) == s.out;
    }
  }

  /** Words to the end of the text: the last of them is still to be written. */
  lemma RightBack(t: string, i: nat, s: Reading, w: seq<nat>) returns (s': Reading)
    requires Fits(t, i, s) && s.nibbles == 0 && s.word == 0 && AreWords(w) && w != [] && |s.out| + 2 * |w| <= 16
    requires t[i..] == Right(w)
    ensures |s'.out| == |s.out| + 2 * |w| - 2 && Pairs(|s'.out|) && s'.zero == s.zero && s'.nibbles > 0
    ensures s'.out + [High(s'.word), Low(s'.word)] == s.out + BytesOf(w)
    ensures Scan(t, i, s) == Finish(s')
  {
    var n := |w| - 1;
    var u, x := w[..n], w[n];
    var k := i + |Left(u)|;
    var s1 := Reading(s.out + BytesOf(u), s.zero, if u == [] then s.digit else k, 0, 0);
    assert t[i..|t|] == t[i..];
    SplitText(t, i, |t|, Left(u), Hex(x));
    LeftBack(t, i, s, u, k, s1);
    s' := s1.(nibbles := |Hex(x)|, word := x);
    HexBack(t, k, s1, x, |t|, s');
    Joined(s.out, BytesOf(u), High(x), Low(x));
  }

  lemma Joined(a: seq<nat>, b: seq<nat>, x: nat, y: nat)
    ensures a + b + [x, y] == a + (b + [x, y])
  {
  }

  lemma GapStep(t: string, i: nat, s: Reading, s': Reading)
    requires Fits(t, i, s) && i < |t| && t[i] == ':' && s.nibbles == 0 && s.zero == -1
    requires s' == s.(zero := |s.out|, digit := i + 1)
    ensures Fits(t, i + 1, s') && Scan(t, i, s) == Scan(t, i + 1, s')
  {
  }

  function Zero(n: nat): seq<nat> {
    seq(n, _ => 0)
  }

  /** Nothing more: the last word is zero and belongs to the run. */
  lemma FinishEmpty(s: Reading)
    requires Pairs(|s.out|) && |s.out| <= 12 && s.zero == |s.out| && s.nibbles == 0 && s.word == 0
    ensures Finish(s) == Some(s.out + Zero(16 - |s.out|))
  {
    var out := s.out + [0, 0];
    assert out[..s.zero] == s.out && out[s.zero..] == [0, 0];
    assert seq(14 - |s.out|, _ => 0) + [0, 0] == Zero(16 - |s.out|);
    assert s.out + seq(14 - |s.out|, _ => 0) + [0, 0] == s.out + (seq(14 - |s.out|, _ => 0) + [0, 0]);
  }

  /** The bytes `a`, zeros up to 16 bytes in all, and the bytes `b`. */
  function Spread(a: seq<nat>, b: seq<nat>): seq<nat>
    requires |a| + |b| <= 16
  {
    a + Zero(16 - |a| - |b|) + b
  }

  /** More words: the run goes before the bytes `b` of them. */
  lemma FinishGap(s: Reading, a: seq<nat>, b: seq<nat>)
    requires Pairs(|s.out|) && |s.out| <= 12 && s.zero == |a| && s.nibbles > 0 && |a| + |b| <= 14 && |a| <= |s.out|
    requires s.out + [High(s.word), Low(s.word)] == a + b
    ensures Finish(s) == Some(Spread(a, b))
  {
    var out := a + b;
    assert out[..s.zero] == a && out[s.zero..] == b;
    assert seq(16 - |out|, _ => 0) == Zero(16 - |a| - |b|);
  }

  lemma GapWords(t: string, i: nat, s: Reading, w: seq<nat>, b: seq<nat>)
    requires Fits(t, i, s) && s.nibbles == 0 && s.word == 0 && s.zero == |s.out|
    requires AreWords(w) && w != [] && b == BytesOf(w) && |s.out| + |b| <= 12 && t[i..] == Right(w)
    ensures Scan(t, i, s) == Some(Spread(s.out, b))
  {
    var s' := RightBack(t, i, s, w);
    FinishGap(s', s.out, b);
  }

  /** The two colons, and what follows them. */
  lemma GapBack(t: string, i: nat, s: Reading, w: seq<nat>, b: seq<nat>)
    requires Fits(t, i, s) && i < |t| && t[i] == ':' && s.nibbles == 0 && s.word == 0 && s.zero == -1
    requires AreWords(w) && b == BytesOf(w) && |s.out| + |b| <= 12 && t[i + 1..] == Right(w)
    ensures Scan(t, i, s) == Some(Spread(s.out, b))
  {
    var s1 := s.(zero := |s.out|, digit := i + 1);
    GapStep(t, i, s, s1);
    if w == [] {
      GapEmpty(t, i + 1, s1);
    } else {
      GapWords(t, i + 1, s1, w, b);
    }
  }

  lemma GapEmpty(t: string, i: nat, s: Reading)
    requires Fits(t, i, s) && t[i..] == "" && |s.out| <= 12 && s.zero == |s.out| && s.nibbles == 0 && s.word == 0
    ensures Scan(t, i, s) == Some(Spread(s.out, []))
  {
    assert i == |t|;
    FinishEmpty(s);
    assert s.out + Zero(16 - |s.out|) + [] == s.out + Zero(16 - |s.out|);
  }

  // ---------- a tail written like an IPv4 address ----------

  /** Decimal digits are read as hexadecimal ones until the dot shows what they are. */
  lemma {:induction false} DecimalAsHex(t: string, i: nat, s: Reading, x: nat, j: nat) returns (s': Reading)
    requires Fits(t, i, s) && s.nibbles == 0 && x < 256 && j == i + |Decimal(x)| <= |t| && t[i..j] == Decimal(x)
    ensures s' == s.(nibbles := |Decimal(x)|, word := s'.word)
      && |Decimal(x)| <= (if x < 10 then 1 else if x < 100 then 2 else 3)
    ensures Fits(t, j, s') && Scan(t, i, s) == Scan(t, j, s')
    decreases x
  {
    var h := Decimal(x);
    if x < 10 {
      assert t[i] == t[i..j][0] == h[0];
      s' := s.(nibbles := 1, word := s.word * 16 + x);
      DigitBack(t, i, s, x, j, s');
    } else {
      var g := Decimal(x / 10);
      assert t[i..j - 1] == h[..|g|] == g;
      var s1 := DecimalAsHex(t, i, s, x / 10, j - 1);
      assert t[j - 1] == t[i..j][|g|] == h[|g|];
      s' := s1.(nibbles := s1.nibbles + 1, word := s1.word * 16 + x % 10);
      DigitBack(t, j - 1, s1, x % 10, j, s');
    }
  }

  /** The word the last four bytes make. */
  function Tail(p: seq<nat>): nat
    requires |p| == 16
  {
    p[12] * 0x100_0000 + p[13] * 0x1_0000 + p[14] * 0x100 + p[15]
  }

  lemma FourBytes(x: nat, a: nat, b: nat, c: nat, d: nat)
    requires a < 256 && b < 256 && c < 256 && d < 256 && x == a * 0x100_0000 + b * 0x1_0000 + c * 0x100 + d
    ensures x / 0x100_0000 % 256 == a && x / 0x1_0000 % 256 == b && High(x) == c && Low(x) == d
  {
    Quotient(x, a, b * 0x1_0000 + c * 0x100 + d, 0x100_0000);
    Quotient(a, 0, a, 256);
    Quotient(x, a * 256 + b, c * 0x100 + d, 0x1_0000);
    Quotient(a * 256 + b, a, b, 256);
    var h := (a * 256 + b) * 256 + c;
    Quotient(x, h, d, 256);
    Quotient(h, a * 256 + b, c, 256);
  }

  lemma TailBytes(p: seq<nat>)
    requires IsAddress(p)
    ensures var x := Tail(p);
      x / 0x100_0000 % 256 == p[12] && x / 0x1_0000 % 256 == p[13] && High(x) == p[14] && Low(x) == p[15]
    ensures Tail(p) == INADDR_NONE <==> p[12] == 255 && p[13] == 255 && p[14] == 255 && p[15] == 255
  {
    assert IsByte(p[12]) && IsByte(p[13]) && IsByte(p[14]) && IsByte(p[15]);
    FourBytes(Tail(p), p[12], p[13], p[14], p[15]);
  }

  lemma DotStep(t: string, i: nat, s: Reading, word: nat, s': Reading)
    requires Fits(t, i, s) && i < |t| && t[i] == '.' && s.nibbles > 0 && |s.out| <= 12 && s.digit >= 0
    requires word == InetScan(t[s.digit..], 0, 0, 0, 0)
    requires s' == s.(out := s.out + [word / 0x100_0000 % 256, word / 0x1_0000 % 256], word := word)
    ensures Scan(t, i, s) == if word == INADDR_NONE then None else Finish(s')
  {
  }

  lemma DottedStart(p: seq<nat>, t: string)
    requires |p| == 16 && t == Dotted(p)
    ensures |Decimal(p[12])| < |t| && t[..|Decimal(p[12])|] == Decimal(p[12]) && t[|Decimal(p[12])|] == '.'
  {
  }

  /** The dotted tail after a gap: its four bytes, unless all of them are 255. */
  lemma DottedTail(t: string, i: nat, s: Reading, p: seq<nat>, a: seq<nat>, b: seq<nat>)
    requires Fits(t, i, s) && IsAddress(p) && s.nibbles == 0 && s.digit == i && |s.out| <= 10 && t[i..] == Dotted(p)
    requires s.zero == |a| && s.out + p[12..16] == a + b && |a| <= |s.out|
    ensures Scan(t, i, s) == if Tail(p) == INADDR_NONE then None else Some(Spread(a, b))
  {
    var j := i + |Decimal(p[12])|;
    var whole := t[i..];
    assert IsByte(p[12]);
    DottedStart(p, whole);
    assert t[i..j] == whole[..|Decimal(p[12])|];
    var s1 := DecimalAsHex(t, i, s, p[12], j);
    assert t[j] == whole[|Decimal(p[12])|];
    DottedBack(p, t[i..]);
    TailBytes(p);
    var s2 := s1.(out := s.out + [p[12], p[13]], word := Tail(p));
    DotStep(t, j, s1, Tail(p), s2);
    assert s2.out + [p[14], p[15]] == s.out + p[12..16];
    FinishGap(s2, a, b);
  }

  // ---------- the round trip ----------

  lemma WordFacts(p: seq<nat>)
    requires IsAddress(p)
    ensures AreWords(Words(p)) && forall i :: 0 <= i < 8 ==>
      High(Words(p)[i]) == p[2 * i] && Low(Words(p)[i]) == p[2 * i + 1]
  {
    forall i | 0 <= i < 8
      ensures Words(p)[i] < 65536 && High(Words(p)[i]) == p[2 * i] && Low(Words(p)[i]) == p[2 * i + 1]
    {
      assert IsByte(p[2 * i]) && IsByte(p[2 * i + 1]);
    }
  }

  /** The bytes of words `a` to `b` of an address are its bytes from 2a to 2b. */
  lemma {:induction false} BytesBack(p: seq<nat>, a: nat, b: nat)
    requires IsAddress(p) && a <= b <= 8
    ensures BytesOf(Words(p)[a..b]) == p[2 * a..2 * b]
    decreases b
  {
    if a < b {
      WordFacts(p);
      var w := Words(p)[a..b];
      assert w[..|w| - 1] == Words(p)[a..b - 1];
      BytesBack(p, a, b - 1);
    }
  }

  /** The bytes of a run of zero words are zero. */
  lemma ZeroBytes(p: seq<nat>, z: nat, len: nat)
    requires IsAddress(p) && Zeros(Words(p), z, len)
    ensures p[2 * z..2 * (z + len)] == Zero(2 * len)
  {
    WordFacts(p);
    forall i | 2 * z <= i < 2 * (z + len)
      ensures p[i] == 0
    {
      assert Words(p)[i / 2] == 0;
    }
  }

  /** The text of an address with a gap in it says that address. */
  lemma SpreadBack(p: seq<nat>, z: nat, len: nat)
    requires IsAddress(p) && Zeros(Words(p), z, len)
    ensures Spread(p[..2 * z], p[2 * (z + len)..]) == p
  {
    ZeroBytes(p, z, len);
    assert p == p[..2 * z] + p[2 * z..2 * (z + len)] + p[2 * (z + len)..];
  }

  lemma FirstChar(w: seq<nat>)
    requires w != []
    ensures Right(w)[0] != ':' && (|w| >= 1 ==> Left(w)[0] != ':')
    decreases |w|
  {
    HexStart(w[|w| - 1]);
    if |w| > 1 { FirstChar(w[..|w| - 1]); }
  }

  lemma {:induction false} HexStart(n: nat)
    ensures Hex(n)[0] != ':'
    decreases n
  {
    if n >= 16 { HexStart(n / 16); }
  }

  lemma PlainBack(p: seq<nat>)
    requires IsAddress(p)
    ensures Parse(Right(Words(p))) == Some(p)
  {
    var w := Words(p);
    var t := Right(w);
    WordFacts(p);
    FirstChar(w);
    assert t[0..] == t;
    var s' := RightBack(t, 0, START, w);
    BytesBack(p, 0, 8);
    assert w[0..8] == w && p[0..16] == p;
    assert [] + BytesOf(w) == p;
  }

  /** Words and bytes up to a place, and from it on. */
  lemma Parts(p: seq<nat>, k: nat)
    requires IsAddress(p) && k <= 8
    ensures BytesOf(Words(p)[..k]) == p[..2 * k] && BytesOf(Words(p)[k..]) == p[2 * k..]
    ensures AreWords(Words(p)[..k]) && AreWords(Words(p)[k..])
  {
    var w := Words(p);
    WordFacts(p);
    BytesBack(p, 0, k);
    BytesBack(p, k, 8);
    assert w[0..k] == w[..k] && w[k..8] == w[k..];
    assert p[0..2 * k] == p[..2 * k] && p[2 * k..16] == p[2 * k..];
  }

  /** After the words before the gap. */
  lemma BeforeGap(t: string, w: seq<nat>, b: seq<nat>) returns (s: Reading)
    requires w != [] && |w| <= 6 && AreWords(w) && b == BytesOf(w) && |Left(w)| <= |t| && t[..|Left(w)|] == Left(w)
    ensures s == Reading(b, -1, |Left(w)|, 0, 0) && Fits(t, |Left(w)|, s) && Parse(t) == Scan(t, |Left(w)|, s)
  {
    FirstChar(w);
    var j := |Left(w)|;
    assert t[0] == t[..j][0];
    assert t[0..j] == t[..j];
    assert START.out + b == b;
    s := Reading(b, -1, j, 0, 0);
    LeftBack(t, 0, START, w, j, s);
  }

  lemma GapAfter(p: seq<nat>, z: nat, len: nat, t: string)
    requires IsAddress(p) && Zeros(Words(p), z, len) && len >= 2 && z > 0
    requires t == Left(Words(p)[..z]) + ":" + Right(Words(p)[z + len..])
    ensures Parse(t) == Some(p)
  {
    var w, m := Words(p), z + len;
    Parts(p, z);
    Parts(p, m);
    Around(t, Left(w[..z]), Right(w[m..]));
    var s := BeforeGap(t, w[..z], p[..2 * z]);
    var j := |Left(w[..z])|;
    GapBack(t, j, s, w[m..], p[2 * m..]);
    SpreadBack(p, z, len);
  }

  lemma GapFirst(p: seq<nat>, len: nat, t: string)
    requires IsAddress(p) && Zeros(Words(p), 0, len) && len >= 2
    requires t == ":" + ":" + Right(Words(p)[len..])
    ensures Parse(t) == Some(p)
  {
    var w := Words(p);
    Parts(p, len);
    assert t[0] == ':' && t[1] == ':' && t[2..] == Right(w[len..]);
    GapBack(t, 1, START, w[len..], p[2 * len..]);
    SpreadBack(p, 0, len);
    assert p[..0] == [];
  }

  /** The two addresses whose dotted tail is taken for an error. */
  ghost predicate Collides(p: seq<nat>)
    requires |p| == 16
  {
    && p[..10] == Zero(10) && ((p[10] == 0 && p[11] == 0) || (p[10] == 255 && p[11] == 255))
    && p[12] == 255 && p[13] == 255 && p[14] == 255 && p[15] == 255
  }

  /** The dotted texts. */
  lemma DottedForm(p: seq<nat>, len: nat, t: string)
    requires IsAddress(p) && Zeros(Words(p), 0, len) && ShowsDotted(p, Run(0, len))
    requires t == "::" + (if len == 5 then Left(Words(p)[5..6]) else "") + Dotted(p)
    ensures Parse(t) == if Collides(p) then None else Some(p)
  {
    TailBytes(p);
    DottedZeros(p, len);
    if len == 5 { DottedFfff(p, t); } else { DottedPlain(p, t); }
  }

  lemma DottedZeros(p: seq<nat>, len: nat)
    requires IsAddress(p) && Zeros(Words(p), 0, len) && ShowsDotted(p, Run(0, len))
    ensures len == 5 ==> p[..10] == Zero(10) && p[10] == 255 && p[11] == 255
    ensures len != 5 ==> p[..12] == Zero(12)
    ensures Collides(p) <==> Tail(p) == INADDR_NONE
  {
    TailBytes(p);
    ZeroBytes(p, 0, if len == 5 then 5 else 6) by { assert Zeros(Words(p), 0, if len == 5 then 5 else 6); }
    if len == 5 {
      assert p[0..10] == p[..10];
    } else {
      assert p[0..12] == p[..12];
      assert p[..10] == p[..12][..10] == Zero(10);
      assert p[10] == p[..12][10] && p[11] == p[..12][11];
    }
  }

  /** ::a.b.c.d */
  lemma DottedPlain(p: seq<nat>, t: string)
    requires IsAddress(p) && p[..12] == Zero(12) && t == "::" + "" + Dotted(p)
    ensures Parse(t) == if Tail(p) == INADDR_NONE then None else Some(p)
  {
    assert t[0] == ':' && t[1] == ':' && t[2..] == Dotted(p);
    var s := START.(zero := 0, digit := 2);
    GapStep(t, 1, START, s);
    assert [] + p[12..16] == p[12..16];
    DottedTail(t, 2, s, p, [], p[12..16]);
    assert Spread([], p[12..16]) == p by {
      assert p == p[..12] + p[12..16];
    }
  }

  lemma FfffBytes(p: seq<nat>, w: seq<nat>)
    requires IsAddress(p) && p[10] == 255 && p[11] == 255 && w == Words(p)[5..6]
    ensures [] + BytesOf(w) == [255, 255] && [255, 255] + p[12..16] == [] + p[10..16]
  {
    BytesBack(p, 5, 6);
    assert p[10..12] == [255, 255];
    assert [] + BytesOf(w) == BytesOf(w);
  }

  /** ::ffff:a.b.c.d */
  lemma DottedFfff(p: seq<nat>, t: string)
    requires IsAddress(p) && p[..10] == Zero(10) && p[10] == 255 && p[11] == 255
    requires t == "::" + Left(Words(p)[5..6]) + Dotted(p)
    ensures Parse(t) == if Tail(p) == INADDR_NONE then None else Some(p)
  {
    var w := Words(p)[5..6];
    WordFacts(p);
    var j := 2 + |Left(w)|;
    assert t[0] == ':' && t[1] == ':' && t[2..j] == Left(w) && t[j..] == Dotted(p);
    var s := START.(zero := 0, digit := 2);
    GapStep(t, 1, START, s);
    FfffBytes(p, w);
    var s' := Reading([255, 255], 0, j, 0, 0);
    LeftBack(t, 2, s, w, j, s');
    DottedTail(t, j, s', p, [], p[10..16]);
    assert Spread([], p[10..16]) == p by {
      assert p == p[..10] + p[10..16];
    }
  }

  // ---------- the length of the text ----------

  lemma {:induction false} DecimalLength(n: nat, k: nat, bound: nat)
    requires 1 <= k <= 3 && n < bound && (k == 1 ==> bound == 10) && (k == 2 ==> bound == 100)
      && (k == 3 ==> bound == 1000)
    ensures |Decimal(n)| <= k
    decreases k
  {
    if n >= 10 { DecimalLength(n / 10, k - 1, bound / 10); }
  }

  lemma {:induction false} LeftLength(w: seq<nat>)
    requires AreWords(w)
    ensures |Left(w)| <= 5 * |w| && |Right(w)| <= 5 * |w|
    ensures w != [] ==> |Right(w)| < 5 * |w|
    decreases |w|
  {
    if w != [] {
      LeftLength(w[..|w| - 1]);
      HexLength(w[|w| - 1], 4, 65536);
    }
  }

  lemma DottedLength(p: seq<nat>)
    requires IsAddress(p)
    ensures |Dotted(p)| <= 15
  {
    forall i | 12 <= i < 16
      ensures |Decimal(p[i])| <= 3
    {
      assert IsByte(p[i]);
      DecimalLength(p[i], 3, 1000);
    }
  }

  /** Every text fits the buffer length that is asked for. */
  lemma TextFits(p: seq<nat>)
    requires IsAddress(p)
    ensures |Text(p)| <= 39 < ADDRSTRLEN
  {
    var w, r := Words(p), RunOf(Words(p));
    RunIsFirstLongest(w);
    WordFacts(p);
    LeftLength(w);
    DottedLength(p);
    if 0 <= r.zero && r.zero + r.len <= 8 {
      LeftLength(w[..r.zero]);
      LeftLength(w[r.zero + r.len..]);
      LeftLength(w[5..6]);
    }
  }

  /** Parsing the text of an address gives the address back, for all but two of them. */
  lemma PrintThenParse(p: seq<nat>)
    requires IsAddress(p)
    ensures Parse(Text(p)) == if Collides(p) then None else Some(p)
  {
    var w, r := Words(p), RunOf(Words(p));
    RunIsFirstLongest(w);
    var t := TextShape(p, r);
    if r.zero == -1 {
      PlainBack(p);
      NotColliding(p, r);
    } else if ShowsDotted(p, r) {
      DottedForm(p, r.len, t);
    } else {
      NotColliding(p, r);
      if r.zero == 0 { GapFirst(p, r.len, t); } else { GapAfter(p, r.zero, r.len, t); }
    }
  }

  lemma TextShape(p: seq<nat>, r: Run) returns (t: string)
    requires IsAddress(p) && r == RunOf(Words(p)) && FirstLongest(Words(p), r, 8)
    ensures t == Text(p)
    ensures r.zero == -1 ==> t == Right(Words(p))
    ensures r.zero != -1 && ShowsDotted(p, r) ==>
      t == "::" + (if r.len == 5 then Left(Words(p)[5..6]) else "") + Dotted(p)
    ensures r.zero == 0 && !ShowsDotted(p, r) ==> t == ":" + ":" + Right(Words(p)[r.len..])
    ensures r.zero > 0 ==> t == Left(Words(p)[..r.zero]) + ":" + Right(Words(p)[r.zero + r.len..])
  {
    t := Text(p);
  }

  /** The two addresses are among those shown with a dotted tail. */
  lemma NotColliding(p: seq<nat>, r: Run)
    requires IsAddress(p) && r == RunOf(Words(p)) && !ShowsDotted(p, r)
    ensures !Collides(p)
  {
    if Collides(p) { CollidingRun(p); }
  }

  lemma CollidingRun(p: seq<nat>)
    requires IsAddress(p) && Collides(p)
    ensures ShowsDotted(p, RunOf(Words(p)))
  {
    var w := Words(p);
    assert forall i :: 0 <= i < 10 ==> p[i] == p[..10][i] == 0;
    assert w[0] == 0 && w[1] == 0 && w[2] == 0 && w[3] == 0 && w[4] == 0 && w[6] != 0 && w[7] != 0;
    assert w[5] == 0 || w[5] != 0;
    var z := if w[5] == 0 then 6 else 5;
    assert FindRun(w, 0, Run(-1, 1), -1, 0) == FindRun(w, 2, Run(-1, 1), 0, 2);
    assert FindRun(w, 2, Run(-1, 1), 0, 2) == FindRun(w, 4, Run(-1, 1), 0, 4);
    assert FindRun(w, 4, Run(-1, 1), 0, 4) == FindRun(w, z, Run(-1, 1), 0, z);
    assert FindRun(w, z, Run(-1, 1), 0, z) == FindRun(w, z + 1, Run(0, z), 0, 0);
    assert FindRun(w, 7, Run(0, z), 0, 0) == Run(0, z);
  }
}
