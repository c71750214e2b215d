/** Exactly which texts the parsers of IPv4 and IPv6 addresses accept, said as a grammar over the
    whole text. */
module Inet6Text {
  import opened Common
  import opened Inet6

  // ---------- digits and numbers ----------

  function Digit(c: char): Option<nat> {
    match c
    case '0' => Some(0)
    case '1' => Some(1)
    case '2' => Some(2)
    case '3' => Some(3)
    case '4' => Some(4)
    case '5' => Some(5)
    case '6' => Some(6)
    case '7' => Some(7)
    case '8' => Some(8)
    case '9' => Some(9)
    case 'a' | 'A' => Some(10)
    case 'b' | 'B' => Some(11)
    case 'c' | 'C' => Some(12)
    case 'd' | 'D' => Some(13)
    case 'e' | 'E' => Some(14)
    case 'f' | 'F' => Some(15)
    case _ => None
  }

  predicate IsDigit(c: char, base: nat) {
    Digit(c).Some? && Digit(c).value < base
  }

  predicate AllDigits(s: string, base: nat) {
    forall i :: 0 <= i < |s| ==> IsDigit(s[i], base)
  }

  /** The number that a row of digits says; 0 for none. */
  function Number(s: string, base: nat): nat
    requires AllDigits(s, base)
  {
    if s == [] then 0 else Number(s[..|s| - 1], base) * base + Digit(s[|s| - 1]).value
  }

  // ---------- IPv4 ----------

  /** Decimal digits, any number of them or none, that say at most 255. */
  predicate Octet(s: string) {
    AllDigits(s, 10) && Number(s, 10) <= 255
  }

  predicate Octets(q: seq<string>) {
    forall k :: 0 <= k < |q| ==> Octet(q[k])
  }

  /** Octets, each followed by a dot. */
  function Dots(q: seq<string>): string {
    if q == [] then "" else Dots(q[..|q| - 1]) + q[|q| - 1] + "."
  }

  /** Four octets with dots between them. */
  ghost predicate DottedText(t: string, q: seq<string>) {
    |q| == 4 && Octets(q) && t == Dots(q[..3]) + q[3]
  }

  function Address4(q: seq<string>): nat
    requires |q| == 4 && Octets(q)
  {
    Number(q[0], 10) * 0x100_0000 + Number(q[1], 10) * 0x1_0000 + Number(q[2], 10) * 0x100 + Number(q[3], 10)
  }

  // ---------- IPv6 ----------

  /** One to four hexadecimal digits. */
  predicate Group(s: string) {
    1 <= |s| <= 4 && AllDigits(s, 16)
  }

  predicate Groups(q: seq<string>) {
    forall k :: 0 <= k < |q| ==> Group(q[k])
  }

  /** Groups, each followed by a colon. */
  function Colons(q: seq<string>): string {
    if q == [] then "" else Colons(q[..|q| - 1]) + q[|q| - 1] + ":"
  }

  /** What stands at the end: nothing, one more group, or an IPv4 address. */
  datatype Last = Nothing | Word(s: string) | Quad(q: seq<string>)

  function LastWords(last: Last): nat {
    if last.Quad? then 2 else 1
  }

  predicate ProperLast(last: Last) {
    match last
    case Nothing => true
    case Word(s) => Group(s)
    case Quad(q) => |q| == 4 && Octets(q) && 1 <= |q[0]| <= 4 && Address4(q) != INADDR_NONE
  }

  function LastText(last: Last): string
    requires ProperLast(last)
  {
    match last
    case Nothing => ""
    case Word(s) => s
    case Quad(q) => Dots(q[..3]) + q[3]
  }

  /** Groups before and after the gap that two colons leave, if there is one. */
  datatype Form = Form(left: seq<string>, gap: bool, right: seq<string>, last: Last)

  /** Eight words; with a gap at most seven, where no digits after the last colon are one more
      word. */
  predicate Proper(f: Form) {
    && Groups(f.left) && Groups(f.right) && ProperLast(f.last)
    && var words := |f.left| + |f.right| + LastWords(f.last);
    && if f.gap then words <= 7 else words == 8 && f.right == [] && !f.last.Nothing?
  }

  function Body(f: Form): string
    requires Proper(f)
  {
    Colons(f.left) + (if f.gap then ":" else "") + Colons(f.right) + LastText(f.last)
  }

  /** The text says the form; a colon at its start is passed over. */
  ghost predicate Reads(t: string, f: Form) {
    Proper(f) && t != "" && (if t[0] == ':' then t[1..] else t) == Body(f)
  }

  function GroupBytes(s: string): seq<nat>
    requires AllDigits(s, 16)
  {
    [Number(s, 16) / 256, Number(s, 16) % 256]
  }

  function GroupsBytes(q: seq<string>): (b: seq<nat>)
    requires Groups(q)
    ensures |b| == 2 * |q|
  {
    if q == [] then [] else GroupsBytes(q[..|q| - 1]) + GroupBytes(q[|q| - 1])
  }

  function LastBytes(last: Last): (b: seq<nat>)
    requires ProperLast(last)
    ensures |b| == 2 * LastWords(last)
  {
    match last
    case Nothing => [0, 0]
    case Word(s) => GroupBytes(s)
    case Quad(q) => [Number(q[0], 10), Number(q[1], 10), Number(q[2], 10), Number(q[3], 10)]
  }

  /** The 16 bytes said; the gap is zeros. */
  function Said(f: Form): seq<nat>
    requires Proper(f)
  {
    Spread(GroupsBytes(f.left), GroupsBytes(f.right) + LastBytes(f.last))
  }

  // ---------- single characters ----------

  /** The arithmetic on characters agrees with the table. */
  lemma HexIsTable(c: char)
    ensures HexValue(c) == Digit(c)
    ensures '0' <= c <= '9' <==> IsDigit(c, 10)
    ensures '0' <= c <= '9' ==> Digit(c) == Some(c as int - '0' as int)
    ensures c == ':' || c == '.' ==> Digit(c) == None
    ensures Digit(c).Some? ==> Digit(c).value < 16
  {
    var n := c as int;
  }

  lemma NumberMore(s: string, c: char, base: nat)
    requires AllDigits(s, base)
    ensures AllDigits(s + [c], base) <==> IsDigit(c, base)
    ensures IsDigit(c, base) ==> Number(s + [c], base) == Number(s, base) * base + Digit(c).value
  {
    assert (s + [c])[..|s|] == s && (s + [c])[|s|] == c;
    if IsDigit(c, base) {
      forall i | 0 <= i < |s + [c]|
        ensures IsDigit((s + [c])[i], base)
      {
        if i < |s| { assert (s + [c])[i] == s[i]; }
      }
    }
  }

  lemma {:induction false} GroupBound(s: string, k: nat, bound: nat)
    requires AllDigits(s, 16) && |s| <= k <= 4
    requires bound == if k == 0 then 1 else if k == 1 then 16 else if k == 2 then 256 else if k == 3 then 4096
      else 65536
    ensures Number(s, 16) < bound
    decreases k
  {
    if s != [] {
      assert IsDigit(s[|s| - 1], 16);
      GroupBound(s[..|s| - 1], k - 1, bound / 16);
    }
  }

  lemma PairOf(s: string)
    requires AllDigits(s, 16) && |s| <= 4
    ensures GroupBytes(s) == [High(Number(s, 16)), Low(Number(s, 16))]
  {
    GroupBound(s, 4, 65536);
    HighOf(Number(s, 16));
  }

  lemma HighOf(n: nat)
    requires n < 65536
    ensures High(n) == n / 256
  {
  }

  // ---------- exactly the IPv4 texts ----------

  /** The address so far, as the parser keeps it. */
  function Fold(q: seq<string>): nat
    requires Octets(q)
  {
    if q == [] then 0 else Shifted(Fold(q[..|q| - 1]), Number(q[|q| - 1], 10))
  }

  /** One octet more, in a word of 32 bits. */
  function Shifted(addr: nat, octet: nat): nat {
    (addr * 256 + octet) % 0x1_0000_0000
  }

  lemma FoldMore(q: seq<string>, w: string)
    requires Octets(q) && Octet(w) && Fold(q) < 0x100_0000
    ensures Octets(q + [w]) && Fold(q + [w]) == Fold(q) * 256 + Number(w, 10)
  {
    OctetsMore(q, w);
    Unwrapped(Fold(q), Number(w, 10));
  }

  lemma OctetsMore(q: seq<string>, w: string)
    requires Octets(q) && Octet(w)
    ensures Octets(q + [w]) && Fold(q + [w]) == Shifted(Fold(q), Number(w, 10))
  {
    assert (q + [w])[..|q|] == q && (q + [w])[|q|] == w;
  }

  lemma Unwrapped(addr: nat, octet: nat)
    requires addr < 0x100_0000 && octet <= 255
    ensures Shifted(addr, octet) == addr * 256 + octet
  {
  }

  lemma FoldThree(q: seq<string>)
    requires |q| == 4 && Octets(q)
    ensures Fold(q[..3]) == Number(q[0], 10) * 0x1_0000 + Number(q[1], 10) * 0x100 + Number(q[2], 10) < 0x100_0000
  {
    assert Octet(q[0]) && Octet(q[1]) && Octet(q[2]);
    assert q[..1] == [] + [q[0]] && q[..2] == q[..1] + [q[1]] && q[..3] == q[..2] + [q[2]];
    FoldMore([], q[0]);
    FoldMore(q[..1], q[1]);
    FoldMore(q[..2], q[2]);
  }

  lemma FoldFour(q: seq<string>)
    requires |q| == 4 && Octets(q)
    ensures Shifted(Fold(q[..3]), Number(q[3], 10)) == Address4(q) < 0x1_0000_0000
  {
    FoldThree(q);
    assert Octet(q[3]);
    FoldMore(q[..3], q[3]);
    assert q[..3] + [q[3]] == q && (q[..3] + [q[3]])[..3] == q[..3];
  }

  /** The digits of an octet. */
  lemma {:induction false} OctetForth(t: string, i: nat, addr: nat, n: nat, w: string)
    requires i + |w| <= |t| && t[i..i + |w|] == w && Octet(w)
    ensures InetScan(t, i, addr, 0, n) == InetScan(t, i + |w|, addr, Number(w, 10), n)
    decreases |w|
  {
    if w != [] {
      var k := |w| - 1;
      assert w[..k] == t[i..i + k] && w[k] == t[i + k];
      OctetLess(w);
      OctetForth(t, i, addr, n, w[..k]);
      DigitForth(t, i + k, addr, n, w, i + |w|);
    }
  }

  lemma OctetLess(w: string)
    requires Octet(w) && w != ""
    ensures Octet(w[..|w| - 1])
  {
    NumberLess(w, 10);
  }

  /** The last digit of an octet. */
  lemma DigitForth(t: string, i: nat, addr: nat, n: nat, w: string, j: nat)
    requires i < |t| && j == i + 1 && Octet(w) && w != "" && t[i] == w[|w| - 1]
    ensures AllDigits(w[..|w| - 1], 10)
    ensures InetScan(t, i, addr, Number(w[..|w| - 1], 10), n) == InetScan(t, j, addr, Number(w, 10), n)
  {
    NumberLess(w, 10);
    HexIsTable(t[i]);
  }

  lemma LastPart(v: string, a: string, w: string, c: char)
    requires v == a + (w + [c])
    ensures |v| == |a| + |w| + 1 && v[..|a|] == a && v[|a|..|a| + |w|] == w && v[|a| + |w|] == c
  {
  }

  lemma SliceOf(t: string, i: nat, j: nat, a: nat, b: nat)
    requires i <= j <= |t| && a <= b <= j - i
    ensures t[i..j][a..b] == t[i + a..i + b]
  {
    forall k | 0 <= k < b - a
      ensures t[i..j][a..b][k] == t[i + a..i + b][k]
    {
    }
  }

  lemma SplitDots(t: string, q: seq<string>, j: nat)
    requires q != [] && j <= |t| && t[..j] == Dots(q)
    ensures var u, w := q[..|q| - 1], q[|q| - 1]; var k := |Dots(u)|;
      k + |w| + 1 == j && t[..k] == Dots(u) && t[k..k + |w|] == w && t[j - 1] == '.'
  {
    var u, w := q[..|q| - 1], q[|q| - 1];
    var a, v := Dots(u), t[..j];
    Appended(a, w, ".");
    LastPart(v, a, w, '.');
    assert t[..|a|] == v[..|a|] && t[|a|..|a| + |w|] == v[|a|..|a| + |w|];
  }

  lemma {:induction false} DotsForth(t: string, q: seq<string>, j: nat)
    requires j <= |t| && t[..j] == Dots(q) && Octets(q)
    ensures InetScan(t, 0, 0, 0, 0) == InetScan(t, j, Fold(q), 0, |q|)
    decreases |q|
  {
    if q != [] {
      var u, w := q[..|q| - 1], q[|q| - 1];
      SplitDots(t, q, j);
      assert Octet(w);
      DotsForth(t, u, |Dots(u)|);
      OctetDotForth(t, |Dots(u)|, Fold(u), |u|, w, j, Fold(q), |q|);
    }
  }

  lemma OctetDotForth(t: string, i: nat, addr: nat, n: nat, w: string, j: nat, addr': nat, n': nat)
    requires j == i + |w| + 1 <= |t| && t[i..i + |w|] == w && Octet(w) && t[j - 1] == '.'
    requires addr' == Shifted(addr, Number(w, 10)) && n' == n + 1
    ensures InetScan(t, i, addr, 0, n) == InetScan(t, j, addr', 0, n')
  {
    OctetForth(t, i, addr, n, w);
    DotForth(t, j - 1, addr, Number(w, 10), n, j, addr', n');
  }

  lemma DotForth(t: string, i: nat, addr: nat, octet: nat, n: nat, j: nat, addr': nat, n': nat)
    requires i < |t| && t[i] == '.' && j == i + 1
    requires addr' == Shifted(addr, octet) && n' == n + 1
    ensures InetScan(t, i, addr, octet, n) == InetScan(t, j, addr', 0, n')
  {
  }

  /** Four octets are read as the address they say. */
  lemma InetForth(t: string, q: seq<string>)
    requires DottedText(t, q)
    ensures InetScan(t, 0, 0, 0, 0) == Address4(q)
  {
    var j := |Dots(q[..3])|;
    DotsForth(t, q[..3], j);
    assert Octet(q[3]) && t[j..j + |q[3]|] == q[3];
    OctetForth(t, j, Fold(q[..3]), 3, q[3]);
    FoldFour(q);
  }

  /** The parser has read the octets of `q` with their dots, and the digits `cur`. */
  ghost predicate InetAt(t: string, i: nat, addr: nat, octet: nat, n: nat, q: seq<string>, cur: string) {
    && i <= |t| && Octets(q) && Octet(cur) && t[..i] == Dots(q) + cur
    && addr == Fold(q) && octet == Number(cur, 10) && n == |q|
  }

  lemma InetDigit(t: string, i: nat, addr: nat, octet: nat, n: nat, q: seq<string>, cur: string)
    requires InetAt(t, i, addr, octet, n, q, cur) && i < |t| && '0' <= t[i] <= '9'
    ensures var o := octet * 10 + (t[i] as int - '0' as int);
      0 <= o && (o <= 255 ==> InetAt(t, i + 1, addr, o, n, q, cur + [t[i]]))
  {
    HexIsTable(t[i]);
    NumberMore(cur, t[i], 10);
    assert t[..i + 1] == t[..i] + [t[i]];
  }

  lemma InetDot(t: string, i: nat, addr: nat, octet: nat, n: nat, q: seq<string>, cur: string)
    requires InetAt(t, i, addr, octet, n, q, cur) && i < |t| && t[i] == '.'
    ensures InetAt(t, i + 1, Shifted(addr, octet), 0, n + 1, q + [cur], "")
  {
    assert (q + [cur])[..|q|] == q;
    assert t[..i + 1] == t[..i] + ".";
  }

  /** What is not refused is four octets. */
  lemma {:induction false} InetBack(t: string, i: nat, addr: nat, octet: nat, n: nat, q: seq<string>, cur: string)
    returns (q4: seq<string>)
    requires InetAt(t, i, addr, octet, n, q, cur) && InetScan(t, i, addr, octet, n) != INADDR_NONE
    ensures DottedText(t, q4)
    decreases |t| - i
  {
    if i == |t| {
      q4 := q + [cur];
      assert q4[..3] == q && t[..i] == t;
    } else if t[i] == '.' {
      InetDot(t, i, addr, octet, n, q, cur);
      q4 := InetBack(t, i + 1, Shifted(addr, octet), 0, n + 1, q + [cur], "");
    } else {
      InetDigit(t, i, addr, octet, n, q, cur);
      q4 := InetBack(t, i + 1, addr, octet * 10 + (t[i] as int - '0' as int), n, q, cur + [t[i]]);
    }
  }

  /** The IPv4 parser answers the address of every text of four octets, and refuses every
      other. */
  lemma InetExact(t: string)
    ensures forall q :: DottedText(t, q) ==> InetScan(t, 0, 0, 0, 0) == Address4(q)
    ensures (forall q :: !DottedText(t, q)) ==> InetScan(t, 0, 0, 0, 0) == INADDR_NONE
  {
    forall q | DottedText(t, q)
      ensures InetScan(t, 0, 0, 0, 0) == Address4(q)
    {
      InetForth(t, q);
    }
    if InetScan(t, 0, 0, 0, 0) != INADDR_NONE {
      assert t[..0] == "";
      var q := InetBack(t, 0, 0, 0, 0, [], "");
    }
  }

  // ---------- from the grammar to the parser ----------

  /** The digits of a group. */
  lemma {:induction false} GroupForth(t: string, i: nat, s: Reading, w: string, j: nat, s': Reading)
    requires Fits(t, i, s) && s.nibbles == 0 && s.word == 0 && AllDigits(w, 16) && |w| <= 4
    requires j == i + |w| <= |t| && t[i..j] == w && s' == s.(nibbles := |w|, word := Number(w, 16))
    ensures Fits(t, j, s') && Scan(t, i, s) == Scan(t, j, s')
    decreases |w|
  {
    if w != [] {
      var k := |w| - 1;
      assert w[..k] == t[i..j - 1] && w[k] == t[j - 1];
      var s1 := s.(nibbles := k, word := Number(w[..k], 16));
      GroupForth(t, i, s, w[..k], j - 1, s1);
      HexForth(t, j - 1, s1, w, j, s');
    }
  }

  lemma NumberLess(w: string, base: nat)
    requires AllDigits(w, base) && w != ""
    ensures var u, c := w[..|w| - 1], w[|w| - 1];
      AllDigits(u, base) && IsDigit(c, base) && Number(w, base) == Number(u, base) * base + Digit(c).value
  {
    assert IsDigit(w[|w| - 1], base);
  }

  /** The last digit of a group. */
  lemma HexForth(t: string, i: nat, s: Reading, w: string, j: nat, s': Reading)
    requires Fits(t, i, s) && i < |t| && j == i + 1 && AllDigits(w, 16) && w != "" && t[i] == w[|w| - 1]
    requires s.nibbles == |w| - 1 < 4 && s.word == Number(w[..|w| - 1], 16)
    requires s' == s.(nibbles := |w|, word := Number(w, 16))
    ensures Fits(t, j, s') && Scan(t, i, s) == Scan(t, j, s')
  {
    NumberLess(w, 16);
    HexIsTable(t[i]);
  }

  lemma SplitColons(t: string, i: nat, q: seq<string>, j: nat) returns (k: nat)
    requires q != [] && j == i + |Colons(q)| <= |t| && t[i..j] == Colons(q)
    ensures var u, w := q[..|q| - 1], q[|q| - 1];
      k == i + |Colons(u)| && k + |w| + 1 == j && t[i..k] == Colons(u) && t[k..j - 1] == w && t[j - 1] == ':'
  {
    var u, w := q[..|q| - 1], q[|q| - 1];
    var a, v := Colons(u), t[i..j];
    k := i + |a|;
    Appended(a, w, ":");
    LastPart(v, a, w, ':');
    SliceOf(t, i, j, 0, |a|);
    SliceOf(t, i, j, |a|, |a| + |w|);
  }

  /** Groups with their colons. */
  lemma {:induction false} ColonsForth(t: string, i: nat, s: Reading, q: seq<string>, j: nat, s': Reading)
    requires Fits(t, i, s) && s.nibbles == 0 && s.word == 0 && Groups(q) && |s.out| + 2 * |q| <= 14
    requires j == i + |Colons(q)| <= |t| && t[i..j] == Colons(q)
    requires s' == Reading(s.out + GroupsBytes(q), s.zero, if q == [] then s.digit else j, 0, 0)
    ensures Fits(t, j, s') && Scan(t, i, s) == Scan(t, j, s')
    decreases |q|
  {
    if q != [] {
      var u, w := q[..|q| - 1], q[|q| - 1];
      var k := SplitColons(t, i, q, j);
      var s1 := Reading(s.out + GroupsBytes(u), s.zero, if u == [] then s.digit else k, 0, 0);
      ColonsForth(t, i, s, u, k, s1);
      assert Group(w);
      GroupColon(t, k, s1, w, j);
      Appended(s.out, GroupsBytes(u), GroupBytes(w));
    } else {
      NoneAppended(s.out);
    }
  }

  lemma GroupColon(t: string, i: nat, s: Reading, w: string, j: nat)
    requires Fits(t, i, s) && s.nibbles == 0 && s.word == 0 && Group(w) && |s.out| < 14
    requires j == i + |w| + 1 <= |t| && t[i..j - 1] == w && t[j - 1] == ':'
    ensures var s' := Reading(s.out + GroupBytes(w), s.zero, j, 0, 0);
      Fits(t, j, s') && Scan(t, i, s) == Scan(t, j, s')
  {
    var s1 := s.(nibbles := |w|, word := Number(w, 16));
    GroupForth(t, i, s, w, j - 1, s1);
    PairOf(w);
    ColonBack(t, j - 1, s1, j, Reading(s.out + GroupBytes(w), s.zero, j, 0, 0));
  }

  /** The bytes `out` written and those of the last words make up the 16: with the zeros at the
      gap, if there is one. */
  lemma FinishSaid(s: Reading, a: seq<nat>, b: seq<nat>)
    requires Pairs(|s.out|) && s.out + [High(s.word), Low(s.word)] == a + b && |a| <= |s.out|
    requires s.zero == |a| && |a| + |b| <= 14
    ensures Finish(s) == Some(Spread(a, b))
  {
    var out := a + b;
    assert out[..s.zero] == a && out[s.zero..] == b;
    assert seq(16 - |out|, _ => 0) == Zero(16 - |a| - |b|);
  }

  lemma FinishFull(s: Reading, a: seq<nat>, b: seq<nat>)
    requires Pairs(|s.out|) && s.out + [High(s.word), Low(s.word)] == a + b && s.zero == -1
    requires s.nibbles > 0 && |a| + |b| == 16
    ensures Finish(s) == Some(Spread(a, b))
  {
    assert Zero(0) == [];
    assert a + [] + b == a + b;
  }

  /** What the last part of a text comes to. */
  ghost predicate Ends(s: Reading, s': Reading, last: Last)
    requires ProperLast(last)
  {
    && s'.zero == s.zero && Pairs(|s'.out|) && |s'.out| >= |s.out| && (s'.nibbles == 0 <==> last.Nothing?)
    && s'.out + [High(s'.word), Low(s'.word)] == s.out + LastBytes(last)
  }

  lemma LastForth(t: string, i: nat, s: Reading, last: Last) returns (s': Reading)
    requires Fits(t, i, s) && s.nibbles == 0 && s.word == 0 && ProperLast(last) && t[i..] == LastText(last)
    requires last.Quad? ==> s.digit == i && |s.out| <= 12
    ensures Ends(s, s', last) && Scan(t, i, s) == Finish(s')
  {
    match last
    case Nothing => s' := s;
    case Word(w) =>
      s' := s.(nibbles := |w|, word := Number(w, 16));
      assert t[i..|t|] == t[i..];
      GroupForth(t, i, s, w, |t|, s');
      PairOf(w);
    case Quad(q) => s' := QuadForth(t, i, s, q);
  }

  lemma DotsHead(q: seq<string>)
    requires |q| == 4
    ensures Dots(q[..3]) + q[3] == q[0] + ("." + (q[1] + "." + q[2] + "." + q[3]))
  {
    var u := q[..3];
    assert u[..2][..1][..0] == [] && u[..2][..1][0] == q[0] && u[..2][1] == q[1] && u[2] == q[2];
    assert Dots(u[..2][..1]) == q[0] + ".";
    assert Dots(u[..2]) == q[0] + "." + q[1] + ".";
  }

  lemma TenSixteen(s: string)
    requires AllDigits(s, 10)
    ensures AllDigits(s, 16)
  {
    forall i | 0 <= i < |s|
      ensures IsDigit(s[i], 16)
    {
      assert IsDigit(s[i], 10);
    }
  }

  lemma QuadForth(t: string, i: nat, s: Reading, q: seq<string>) returns (s': Reading)
    requires Fits(t, i, s) && s.nibbles == 0 && s.word == 0 && ProperLast(Quad(q)) && t[i..] == LastText(Quad(q))
    requires s.digit == i && |s.out| <= 12
    ensures Ends(s, s', Quad(q)) && Scan(t, i, s) == Finish(s')
  {
    var w := q[0];
    DotsHead(q);
    SplitTail(t, i, w, "." + (q[1] + "." + q[2] + "." + q[3]));
    var k := i + |w|;
    assert t[k] == t[k..][0] == '.';
    assert Octet(w);
    TenSixteen(w);
    var s1 := s.(nibbles := |w|, word := Number(w, 16));
    GroupForth(t, i, s, w, k, s1);
    InetForth(t[i..], q);
    var a := Address4(q);
    s' := s1.(out := s.out + [a / 0x100_0000 % 256, a / 0x1_0000 % 256], word := a);
    DotStep(t, k, s1, a, s');
    QuadBytes(q);
    Joined4(s.out, a);
  }

  lemma Joined4(b: seq<nat>, a: nat)
    ensures b + [a / 0x100_0000 % 256, a / 0x1_0000 % 256] + [High(a), Low(a)] ==
      b + [a / 0x100_0000 % 256, a / 0x1_0000 % 256, High(a), Low(a)]
  {
  }

  lemma QuadBytes(q: seq<string>)
    requires |q| == 4 && Octets(q)
    ensures var a := Address4(q);
      [Number(q[0], 10), Number(q[1], 10), Number(q[2], 10), Number(q[3], 10)] ==
      [a / 0x100_0000 % 256, a / 0x1_0000 % 256, High(a), Low(a)]
  {
    assert Octet(q[0]) && Octet(q[1]) && Octet(q[2]) && Octet(q[3]);
    FourBytes(Address4(q), Number(q[0], 10), Number(q[1], 10), Number(q[2], 10), Number(q[3], 10));
  }

  /** A text from `i` on that is made of two parts. */
  lemma SplitTail(t: string, i: nat, a: string, b: string)
    requires i <= |t| && t[i..] == a + b
    ensures i + |a| <= |t| && t[i..i + |a|] == a && t[i + |a|..] == b
  {
    assert t[i..|t|] == t[i..];
    SplitText(t, i, |t|, a, b);
    assert t[i + |a|..|t|] == t[i + |a|..];
  }

  /** The words before the gap. */
  lemma Beginning(t: string, i: nat, f: Form) returns (j: nat, s: Reading)
    requires Proper(f) && i <= |t| && t[i..] == Body(f)
    ensures i <= j <= |t| && Fits(t, j, s) && Scan(t, i, START) == Scan(t, j, s)
    ensures s == Reading(GroupsBytes(f.left), -1, if f.left == [] then -1 else j, 0, 0)
    ensures t[j..] == (if f.gap then ":" else "") + Colons(f.right) + LastText(f.last)
  {
    var rest := (if f.gap then ":" else "") + Colons(f.right) + LastText(f.last);
    assert Body(f) == Colons(f.left) + rest;
    SplitTail(t, i, Colons(f.left), rest);
    j := i + |Colons(f.left)|;
    s := Reading([] + GroupsBytes(f.left), -1, if f.left == [] then -1 else j, 0, 0);
    ColonsForth(t, i, START, f.left, j, s);
  }

  /** The gap. */
  lemma GapForth(t: string, i: nat, s: Reading, rest: string)
    requires Fits(t, i, s) && t[i..] == ":" + rest && s.zero == -1 && s.nibbles == 0
    ensures var s' := s.(zero := |s.out|, digit := i + 1);
      Fits(t, i + 1, s') && t[i + 1..] == rest && Scan(t, i, s) == Scan(t, i + 1, s')
  {
    SplitTail(t, i, ":", rest);
    assert t[i] == t[i..][0];
    GapStep(t, i, s, s.(zero := |s.out|, digit := i + 1));
  }

  /** The words behind the gap. */
  lemma Middle(t: string, i: nat, q: seq<string>, rest: string, s: Reading) returns (j: nat, s': Reading)
    requires Groups(q) && Fits(t, i, s) && t[i..] == Colons(q) + rest
    requires s.nibbles == 0 && s.word == 0 && s.digit == i && |s.out| + 2 * |q| <= 14
    ensures i <= j <= |t| && Fits(t, j, s') && Scan(t, i, s) == Scan(t, j, s') && t[j..] == rest
    ensures s' == Reading(s.out + GroupsBytes(q), s.zero, j, 0, 0)
  {
    SplitTail(t, i, Colons(q), rest);
    j := i + |Colons(q)|;
    s' := Reading(s.out + GroupsBytes(q), s.zero, j, 0, 0);
    ColonsForth(t, i, s, q, j, s');
  }

  lemma GapBody(t: string, i: nat, f: Form, s: Reading)
    requires Proper(f) && f.gap && Fits(t, i, s) && t[i..] == ":" + Colons(f.right) + LastText(f.last)
    requires s.out == GroupsBytes(f.left) && s.zero == -1 && s.nibbles == 0 && s.word == 0
    ensures Scan(t, i, s) == Some(Said(f))
  {
    var a, b, c := s.out, GroupsBytes(f.right), LastBytes(f.last);
    var rest := Colons(f.right) + LastText(f.last);
    Appended(":", Colons(f.right), LastText(f.last));
    GapForth(t, i, s, rest);
    var k, s1 := Middle(t, i + 1, f.right, LastText(f.last), s.(zero := |s.out|, digit := i + 1));
    var s2 := LastForth(t, k, s1, f.last);
    Appended(a, b, c);
    FinishSaid(s2, a, b + c);
  }

  lemma FullBody(t: string, i: nat, f: Form, s: Reading)
    requires Proper(f) && !f.gap && Fits(t, i, s) && t[i..] == LastText(f.last)
    requires s.out == GroupsBytes(f.left) && s.zero == -1 && s.nibbles == 0 && s.word == 0
    requires s.digit == i || f.left == []
    ensures Scan(t, i, s) == Some(Said(f))
  {
    var c := LastBytes(f.last);
    var s2 := LastForth(t, i, s, f.last);
    assert [] + c == c;
    FinishFull(s2, s.out, c);
  }

  /** Every text of the grammar is read as the address it says. */
  lemma BodyForth(t: string, i: nat, f: Form)
    requires Proper(f) && i <= |t| && t[i..] == Body(f)
    ensures Scan(t, i, START) == Some(Said(f))
  {
    var j, s := Beginning(t, i, f);
    if f.gap {
      GapBody(t, j, f, s);
    } else {
      assert t[j..] == LastText(f.last);
      FullBody(t, j, f, s);
    }
  }

  // ---------- from the parser to the grammar ----------

  /** From `start` to `i` the text says the groups of `left` and `right`, with a gap between them
      if `gap`, and the digits `cur` of a group that may go on. */
  ghost predicate At(t: string, start: nat, i: nat, s: Reading, left: seq<string>, gap: bool, right: seq<string>,
                     cur: string) {
    && start <= i <= |t| && Groups(left) && Groups(right) && (!gap ==> right == [])
    && AllDigits(cur, 16) && |cur| <= 4 && |left| + |right| <= 7
    && t[start..i] == Colons(left) + (if gap then ":" else "") + Colons(right) + cur
    && s.out == GroupsBytes(left) + GroupsBytes(right)
    && s.zero == (if gap then 2 * |left| else -1)
    && s.digit == (if gap || left != [] then i - |cur| else -1)
    && s.nibbles == |cur| && s.word == Number(cur, 16)
  }

  /** The digits of a group go on. */
  lemma AtDigit(t: string, start: nat, i: nat, s: Reading, left: seq<string>, gap: bool, right: seq<string>,
                cur: string)
    requires At(t, start, i, s, left, gap, right, cur) && i < |t| && |cur| < 4 && HexValue(t[i]).Some?
    ensures At(t, start, i + 1, s.(nibbles := s.nibbles + 1, word := s.word * 16 + HexValue(t[i]).value),
               left, gap, right, cur + [t[i]])
  {
    HexIsTable(t[i]);
    NumberMore(cur, t[i], 16);
    assert t[start..i + 1] == t[start..i] + [t[i]];
  }

  lemma ColonsMore(q: seq<string>, w: string)
    requires Groups(q) && Group(w)
    ensures Groups(q + [w]) && Colons(q + [w]) == Colons(q) + w + ":"
    ensures GroupsBytes(q + [w]) == GroupsBytes(q) + GroupBytes(w)
  {
    assert (q + [w])[..|q|] == q;
  }

  /** A colon ends a group. */
  lemma AtColon(t: string, start: nat, i: nat, s: Reading, left: seq<string>, gap: bool, right: seq<string>,
                cur: string)
    requires At(t, start, i, s, left, gap, right, cur) && i < |t| && t[i] == ':' && cur != "" && |s.out| < 14
    ensures var s' := Reading(s.out + [High(s.word), Low(s.word)], s.zero, i + 1, 0, 0);
      if gap then At(t, start, i + 1, s', left, gap, right + [cur], "")
      else At(t, start, i + 1, s', left + [cur], gap, right, "")
  {
    PairOf(cur);
    ColonText(t, start, i, left, gap, right, cur);
    if gap {
      ColonsMore(right, cur);
      Appended(GroupsBytes(left), GroupsBytes(right), GroupBytes(cur));
    } else {
      ColonsMore(left, cur);
    }
  }

  lemma ColonText(t: string, start: nat, i: nat, left: seq<string>, gap: bool, right: seq<string>, cur: string)
    requires start <= i < |t| && t[i] == ':' && (!gap ==> right == [])
    requires t[start..i] == Colons(left) + (if gap then ":" else "") + Colons(right) + cur
    ensures t[start..i + 1] ==
      if gap then Colons(left) + ":" + (Colons(right) + cur + ":") + "" else Colons(left) + cur + ":" + "" + "" + ""
  {
    assert t[start..i + 1] == t[start..i] + ":";
  }

  /** A colon right after another is the gap. */
  lemma AtGap(t: string, start: nat, i: nat, s: Reading, left: seq<string>)
    requires At(t, start, i, s, left, false, [], "") && i < |t| && t[i] == ':'
    ensures At(t, start, i + 1, s.(zero := |s.out|, digit := i + 1), left, true, [], "")
  {
    assert t[start..i + 1] == t[start..i] + ":";
  }

  /** The form that has been read when the last part is `last`. */
  lemma AtEnd(t: string, start: nat, s: Reading, s': Reading, left: seq<string>, gap: bool, right: seq<string>,
              last: Last) returns (f: Form)
    requires start <= |t| && Groups(left) && Groups(right) && (!gap ==> right == []) && ProperLast(last)
    requires t[start..] == Colons(left) + (if gap then ":" else "") + Colons(right) + LastText(last)
    requires s.out == GroupsBytes(left) + GroupsBytes(right) && s.zero == (if gap then 2 * |left| else -1)
    requires Ends(s, s', last) && Finish(s').Some?
    ensures Proper(f) && t[start..] == Body(f) && Finish(s') == Some(Said(f))
  {
    f := Form(left, gap, right, last);
    var a, b, c := GroupsBytes(left), GroupsBytes(right), LastBytes(last);
    Appended(a, b, c);
    if gap {
      FinishSaid(s', a, b + c);
    } else {
      assert b + c == c;
      FinishFull(s', a, b + c);
    }
  }

  /** The text ends after the digits `cur`. */
  lemma WordEnd(t: string, start: nat, s: Reading, left: seq<string>, gap: bool, right: seq<string>, cur: string)
    returns (f: Form)
    requires At(t, start, |t|, s, left, gap, right, cur) && Pairs(|s.out|) && Finish(s).Some?
    ensures Proper(f) && t[start..] == Body(f) && Finish(s) == Some(Said(f))
  {
    assert t[start..|t|] == t[start..];
    if cur == "" {
      f := AtEnd(t, start, s, s, left, gap, right, Nothing);
    } else {
      PairOf(cur);
      f := AtEnd(t, start, s, s, left, gap, right, Word(cur));
    }
  }

  /** A dot comes after all digits at the start. */
  lemma DotAfter(u: string, w: string, base: nat, k: nat)
    requires |w| <= |u| && u[..|w|] == w && AllDigits(w, base) && k < |u| && u[k] == '.'
    ensures k >= |w|
  {
    forall j | 0 <= j < |w|
      ensures u[j] != '.'
    {
      assert IsDigit(w[j], base) && u[j] == w[j];
    }
  }

  /** The first octet of a dotted text that starts with these digits is these digits. */
  lemma FirstOctet(u: string, cur: string, q: seq<string>)
    requires DottedText(u, q) && |cur| < |u| && u[..|cur|] == cur && AllDigits(cur, 16) && u[|cur|] == '.'
    ensures q[0] == cur
  {
    DotsHead(q);
    var w := q[0];
    assert u == w + ("." + (q[1] + "." + q[2] + "." + q[3]));
    assert u[|w|] == '.' && u[..|w|] == w;
    assert Octet(w);
    DotAfter(u, cur, 16, |w|);
    DotAfter(u, w, 10, |cur|);
  }

  lemma QuadThere(t: string, start: nat, i: nat, before: string, cur: string) returns (q: seq<string>)
    requires start <= i < |t| && t[start..i] == before + cur && AllDigits(cur, 16) && t[i] == '.'
    ensures |before| + |cur| == i - start
    requires InetScan(t[i - |cur|..], 0, 0, 0, 0) != INADDR_NONE
    ensures DottedText(t[i - |cur|..], q) && q[0] == cur && t[start..] == before + t[i - |cur|..]
  {
    var u := t[i - |cur|..];
    SplitText(t, start, i, before, cur);
    assert u[..0] == "" && u[..|cur|] == cur;
    q := InetBack(u, 0, 0, 0, 0, [], "");
    FirstOctet(u, cur, q);
    assert t[start..] == t[start..i - |cur|] + u;
  }

  /** A dot: what follows the last colon is an IPv4 address. */
  lemma QuadEnd(t: string, start: nat, i: nat, s: Reading, left: seq<string>, gap: bool, right: seq<string>,
                cur: string, a: nat, s': Reading)
    returns (f: Form)
    requires At(t, start, i, s, left, gap, right, cur) && i < |t| && t[i] == '.' && cur != "" && s.digit >= 0
    requires Pairs(|s.out|) && |s.out| <= 12 && a == InetScan(t[i - |cur|..], 0, 0, 0, 0) != INADDR_NONE
    requires s' == s.(out := s.out + [a / 0x100_0000 % 256, a / 0x1_0000 % 256], word := a) && Finish(s').Some?
    ensures Proper(f) && t[start..] == Body(f) && Finish(s') == Some(Said(f))
  {
    var before := Colons(left) + (if gap then ":" else "") + Colons(right);
    assert t[start..i] == before + cur;
    var q := QuadThere(t, start, i, before, cur);
    InetForth(t[i - |cur|..], q);
    QuadBytes(q);
    Joined4(s.out, a);
    f := AtEnd(t, start, s, s', left, gap, right, Quad(q));
  }

  /** What is not refused. */
  lemma NotRefused(t: string, i: nat, s: Reading)
    requires Fits(t, i, s) && i < |t| && Scan(t, i, s).Some? && (t[i] == '.' ==> s.nibbles == 0)
    ensures t[i] == ':' && s.nibbles > 0 ==> |s.out| < 14
    ensures t[i] == ':' && s.nibbles == 0 ==> s.zero == -1
    ensures t[i] != ':' ==> s.nibbles < 4 && HexValue(t[i]).Some?
  {
    HexIsTable('.');
  }

  lemma DigitOn(t: string, i: nat, s: Reading)
    requires Fits(t, i, s) && i < |t| && t[i] != ':' && s.nibbles < 4 && HexValue(t[i]).Some?
    ensures var s' := s.(nibbles := s.nibbles + 1, word := s.word * 16 + HexValue(t[i]).value);
      Fits(t, i + 1, s') && Scan(t, i, s) == Scan(t, i + 1, s')
  {
    HexIsTable(t[i]);
  }

  /** One character more that is not refused, and no dot. */
  lemma Onward(t: string, start: nat, i: nat, s: Reading, left: seq<string>, gap: bool, right: seq<string>, cur: string)
    returns (s': Reading, left': seq<string>, gap': bool, right': seq<string>, cur': string)
    requires At(t, start, i, s, left, gap, right, cur) && Fits(t, i, s) && Scan(t, i, s).Some?
    requires i < |t| && (t[i] == '.' ==> s.nibbles == 0)
    ensures At(t, start, i + 1, s', left', gap', right', cur') && Fits(t, i + 1, s')
    ensures Scan(t, i, s) == Scan(t, i + 1, s')
  {
    left', gap', right', cur' := left, gap, right, "";
    NotRefused(t, i, s);
    if t[i] == ':' && s.nibbles > 0 {
      AtColon(t, start, i, s, left, gap, right, cur);
      s' := Reading(s.out + [High(s.word), Low(s.word)], s.zero, i + 1, 0, 0);
      ColonBack(t, i, s, i + 1, s');
      if gap { right' := right + [cur]; } else { left' := left + [cur]; }
    } else if t[i] == ':' {
      AtGap(t, start, i, s, left);
      s', gap' := s.(zero := |s.out|, digit := i + 1), true;
      GapStep(t, i, s, s');
    } else {
      AtDigit(t, start, i, s, left, gap, right, cur);
      s', cur' := s.(nibbles := s.nibbles + 1, word := s.word * 16 + HexValue(t[i]).value), cur + [t[i]];
      DigitOn(t, i, s);
    }
  }

  /** What is not refused is a text of the grammar, and read as the address it says. */
  lemma {:induction false} BodyBack(t: string, start: nat, i: nat, s: Reading, left: seq<string>, gap: bool,
                                    right: seq<string>, cur: string) returns (f: Form)
    requires At(t, start, i, s, left, gap, right, cur) && Fits(t, i, s) && Scan(t, i, s).Some?
    ensures Proper(f) && t[start..] == Body(f) && Scan(t, i, s) == Some(Said(f))
    decreases |t| - i
  {
    if i == |t| {
      f := WordEnd(t, start, s, left, gap, right, cur);
    } else if t[i] == '.' && s.nibbles > 0 {
      var a := InetScan(t[s.digit..], 0, 0, 0, 0);
      f := QuadEnd(t, start, i, s, left, gap, right, cur, a,
                   s.(out := s.out + [a / 0x100_0000 % 256, a / 0x1_0000 % 256], word := a));
    } else {
      var s', left', gap', right', cur' := Onward(t, start, i, s, left, gap, right, cur);
      f := BodyBack(t, start, i + 1, s', left', gap', right', cur');
    }
  }

  /** Exactly the texts of the grammar are accepted, and as the address they say. */
  lemma ParseExact(t: string, p: seq<nat>)
    ensures Parse(t) == Some(p) <==> exists f :: Reads(t, f) && p == Said(f)
  {
    var start := if t != "" && t[0] == ':' then 1 else 0;
    if Parse(t) == Some(p) {
      assert t[start..start] == "";
      var f := BodyBack(t, start, start, START, [], false, [], "");
      assert Reads(t, f) && p == Said(f);
    }
    forall f | Reads(t, f) && p == Said(f)
      ensures Parse(t) == Some(p)
    {
      assert start == 0 ==> t[0..] == t;
      BodyForth(t, start, f);
    }
  }

  /** A single colon before a text is passed over. */
  lemma ColonPassedOver(t: string)
    requires t != "" && t[0] != ':'
    ensures Parse(":" + t) == Parse(t)
  {
    var u := ":" + t;
    assert u[1..] == t;
    if Parse(t).Some? {
      ParseExact(t, Parse(t).value);
      var f :| Reads(t, f) && Parse(t).value == Said(f);
      assert Reads(u, f);
      ParseExact(u, Said(f));
    } else if Parse(u).Some? {
      ParseExact(u, Parse(u).value);
      var f :| Reads(u, f) && Parse(u).value == Said(f);
      assert Reads(t, f);
      ParseExact(t, Said(f));
    }
  }

  // ---------- what printed texts look like ----------

  /** Numbers are printed without leading zeros. */
  lemma {:induction false} Shortest(n: nat)
    ensures n > 0 ==> Hex(n)[0] != '0' && Decimal(n)[0] != '0'
    ensures n == 0 ==> Hex(n) == Decimal(n) == "0"
    decreases n
  {
    if n >= 10 { Shortest(n / 10); }
    if n >= 16 { Shortest(n / 16); }
  }

  predicate Plain(s: string) {
    forall c :: c in s ==> c in "0123456789abcdef:"
  }

  lemma PlainTogether(a: string, b: string)
    requires Plain(a) && Plain(b)
    ensures Plain(a + b)
  {
  }

  lemma PlainDigit(n: nat)
    requires n < 16
    ensures HexDigit(n) == "0123456789abcdef"[n] && Plain([HexDigit(n)])
  {
  }

  lemma {:induction false} HexPlain(n: nat)
    ensures Plain(Hex(n))
    decreases n
  {
    PlainDigit(n % 16);
    if n >= 16 {
      HexPlain(n / 16);
      PlainTogether(Hex(n / 16), [HexDigit(n % 16)]);
    }
  }

  lemma {:induction false} DecimalPlain(n: nat)
    ensures Plain(Decimal(n))
    decreases n
  {
    PlainDigit(n % 10);
    if n >= 10 {
      DecimalPlain(n / 10);
      PlainTogether(Decimal(n / 10), [HexDigit(n % 10)]);
    }
  }

  lemma {:induction false} LeftPlain(w: seq<nat>)
    ensures Plain(Left(w)) && Plain(Right(w))
    decreases |w|
  {
    if w != [] {
      var u, x := w[..|w| - 1], w[|w| - 1];
      LeftPlain(u);
      HexPlain(x);
      PlainTogether(Left(u), Hex(x));
      PlainTogether(Left(u) + Hex(x), ":");
    }
  }

  /** A printed text has digits, small letters, colons and dots; and dots only in a dotted tail. */
  lemma TextLetters(p: seq<nat>)
    requires IsAddress(p)
    ensures forall c :: c in Text(p) ==> c in "0123456789abcdef:."
    ensures '.' in Text(p) <==> ShowsDotted(p, RunOf(Words(p)))
  {
    var w, r := Words(p), RunOf(Words(p));
    RunIsFirstLongest(w);
    if ShowsDotted(p, r) {
      LeftPlain(w[5..6]);
      DecimalPlain(p[12]);
      DecimalPlain(p[13]);
      DecimalPlain(p[14]);
      DecimalPlain(p[15]);
      assert '.' in Dotted(p);
    } else {
      LeftPlain(w);
      if r.zero != -1 {
        LeftPlain(w[..r.zero]);
        LeftPlain(w[r.zero + r.len..]);
      }
      assert Plain(Text(p));
    }
  }

  /** The first `n` bytes are zero. */
  predicate Blank(p: seq<nat>, n: nat)
    requires n <= |p|
  {
    forall i :: 0 <= i < n ==> p[i] == 0
  }

  lemma BlankWords(p: seq<nat>, k: nat)
    requires IsAddress(p) && k <= 8
    ensures Blank(p, 2 * k) <==> Zeros(Words(p), 0, k)
    ensures forall i :: 0 <= i < 8 ==> (Words(p)[i] == 0 <==> p[2 * i] == 0 && p[2 * i + 1] == 0)
  {
    var w := Words(p);
    forall i | 0 <= i < 8
      ensures w[i] == 0 <==> p[2 * i] == 0 && p[2 * i + 1] == 0
    {
      assert w[i] == WordAt(p, i);
    }
    if Zeros(w, 0, k) {
      forall i | 0 <= i < 2 * k
        ensures p[i] == 0
      {
        assert w[i / 2] == 0;
      }
    }
  }

  /** More than half of the words, from the first on, are the run left out. */
  lemma RunAtStart(w: seq<nat>, k: nat)
    requires |w| == 8 && 5 <= k < 8
    ensures RunOf(w) == Run(0, k) <==> Zeros(w, 0, k) && w[k] != 0
  {
    var r := RunOf(w);
    RunIsFirstLongest(w);
    if Zeros(w, 0, k) && w[k] != 0 {
      ZerosApart(w, r.zero, r.len, k);
    }
    assert Zeros(w, 0, k + 1) <==> Zeros(w, 0, k) && w[k] == 0;
  }

  /** Exactly these addresses are printed with a tail like an IPv4 address. */
  lemma DottedExactly(p: seq<nat>)
    requires IsAddress(p)
    ensures '.' in Text(p) <==>
      || (Blank(p, 10) && p[10] == 255 && p[11] == 255)
      || (Blank(p, 12) && (p[12] != 0 || p[13] != 0))
      || (Blank(p, 14) && p[14] != 0 && p[15] != 1)
  {
    TextLetters(p);
    BlankWords(p, 5);
    BlankWords(p, 6);
    BlankWords(p, 7);
    RunAtStart(Words(p), 5);
    RunAtStart(Words(p), 6);
    RunAtStart(Words(p), 7);
  }
}
