/** The printer and the parser of IPv6 addresses as they run: loops over bytes and
    characters, and an output buffer that is filled and shifted in place. */
module Inet6Code {
  import opened Common
  import opened Inet6
  import opened Inet6Text

  // ---------- printing ----------

  /** A byte position as a word position. */
  function Half(i: int): int {
    if i == -1 then -1 else i / 2
  }

  /** The first of the longest runs of zero words, in bytes, and its length in words. */
  method ZeroRun(p: seq<nat>) returns (zero: int, max: nat)
    requires IsAddress(p)
    ensures RunOf(Words(p)) == Run(Half(zero), max) && zero >= -1 && (zero != -1 ==> zero % 2 == 0)
  {
    var last, n := -1, 0;
    zero, max := -1, 1;
    var i := 0;
    while i < 16
      invariant 0 <= i <= 16 && i % 2 == 0 && n >= 0
      invariant zero >= -1 && last >= -1 && (zero != -1 ==> zero % 2 == 0) && (last != -1 ==> last % 2 == 0)
      invariant RunOf(Words(p)) == FindRun(Words(p), i / 2, Run(Half(zero), max), Half(last), n)
    {
      assert Words(p)[i / 2] == p[i] * 256 + p[i + 1];
      if p[i] != 0 || p[i + 1] != 0 {
        if max < n {
          zero := last;
          max := n;
        }
        n := 0;
      } else {
        if n == 0 {
          last := i;
        }
        n := n + 1;
      }
      i := i + 2;
    }
    if max < n {
      zero := last;
      max := n;
    }
  }

  /** The text when words up to `k` have been dealt with. */
  function Done(w: seq<nat>, r: Run, k: nat): string
    requires |w| == 8 && k <= 8 && (r.zero == -1 || (0 <= r.zero && r.zero + r.len <= 8))
  {
    if r.zero == -1 then (if k < 8 then Left(w[..k]) else Right(w))
    else if k <= r.zero then (if r.zero == 0 then ":" else Left(w[..k]))
    else if k < r.zero + r.len then ""
    else
      (if r.zero == 0 then ":" else Left(w[..r.zero])) + ":" +
      (if k < 8 then Left(w[r.zero + r.len..k]) else Right(w[r.zero + r.len..]))
  }

  lemma DoneNone(w: seq<nat>, r: Run)
    requires |w| == 8 && (r.zero == -1 || (0 <= r.zero && r.len >= 2 && r.zero + r.len <= 8))
    ensures Done(w, r, 0) == if r.zero == 0 then ":" else ""
  {
    assert w[..0] == [];
  }

  lemma LeftMore(w: seq<nat>, a: nat, k: nat)
    requires a <= k < |w|
    ensures Left(w[a..k + 1]) == Left(w[a..k]) + Hex(w[k]) + ":" && Right(w[a..k + 1]) == Left(w[a..k]) + Hex(w[k])
  {
    assert w[a..k + 1][..k - a] == w[a..k];
  }

  lemma DoneWord(w: seq<nat>, r: Run, k: nat)
    requires |w| == 8 && k < 8 && (r.zero == -1 || (0 <= r.zero && r.len >= 2 && r.zero + r.len <= 8))
    requires r.zero == -1 || k < r.zero || r.zero + r.len <= k
    ensures k < 7 ==> Done(w, r, k + 1) == Done(w, r, k) + Hex(w[k]) + ":"
    ensures k == 7 ==> Done(w, r, 8) == Done(w, r, 7) + Hex(w[7])
  {
    if r.zero == -1 || k < r.zero {
      LeftMore(w, 0, k);
      assert w[0..k] == w[..k] && w[0..k + 1] == w[..k + 1] && w[..8] == w;
    } else {
      var a := r.zero + r.len;
      LeftMore(w, a, k);
      assert w[a..8] == w[a..];
    }
  }

  lemma DoneGap(w: seq<nat>, r: Run)
    requires |w| == 8 && 0 <= r.zero && r.len >= 2 && r.zero + r.len <= 8
    ensures Done(w, r, r.zero + r.len) == Done(w, r, r.zero) + ":"
  {
    var a := r.zero + r.len;
    assert w[a..a] == [] && (a == 8 ==> w[a..] == []);
  }

  lemma DoneAll(p: seq<nat>, r: Run)
    requires IsAddress(p) && r == RunOf(Words(p))
      && (r.zero == -1 || (0 <= r.zero && r.len >= 2 && r.zero + r.len <= 8))
    ensures !ShowsDotted(p, r) ==> Done(Words(p), r, 8) == Text(p)
    ensures ShowsDotted(p, r) && r.len <= 6 ==> Done(Words(p), r, 6) + Dotted(p) == Text(p)
    ensures ShowsDotted(p, r) && r.len == 7 ==> Done(Words(p), r, 7) + Dotted(p) == Text(p)
  {
    var w := Words(p);
    if ShowsDotted(p, r) {
      if r.len == 5 {
        assert Done(w, r, 6) == ":" + ":" + Left(w[5..6]);
        assert ":" + ":" == "::";
      } else {
        assert w[6..6] == [] && w[7..7] == [];
        assert ":" + ":" + "" == "::" + "";
      }
    }
  }

  /** One word, and a colon unless it is the last. */
  method PrintWord(p: seq<nat>, i: nat, text: string, ghost k: nat) returns (dst: string)
    requires |p| == 16 && i == 2 * k < 16
    ensures dst == if k < 7 then text + Hex(Words(p)[k]) + ":" else text + Hex(Words(p)[k])
  {
    dst := text + Hex(p[i] * 256 + p[i + 1]);
    if i < 14 {
      dst := dst + ":";
    }
  }

  /** The run of zeros, or one word; its first byte is `i`. */
  method PrintNext(p: seq<nat>, i: nat, zero: int, max: nat, text: string, ghost r: Run, ghost k: nat)
    returns (dst: string, next: nat, ghost k': nat)
    requires IsAddress(p) && r.len == max && (if r.zero == -1 then zero == -1 else zero == 2 * r.zero)
    requires r.zero == -1 || (0 <= r.zero && r.len >= 2 && r.zero + r.len <= 8)
    requires i == 2 * k < 16 && (r.zero != -1 ==> k <= r.zero || r.zero + r.len <= k)
    requires text == Done(Words(p), r, k)
    ensures k' == (if k == r.zero then k + r.len else k + 1) && next == 2 * k' && k' <= 8
    ensures dst == Done(Words(p), r, k')
  {
    ghost var w := Words(p);
    if i == zero {
      DoneGap(w, r);
      dst := text + ":";
      next := i + 2 * max;
      k' := k + r.len;
    } else {
      DoneWord(w, r, k);
      dst := PrintWord(p, i, text, k);
      next := i + 2;
      k' := k + 1;
    }
  }

  /** The words up to byte `n`, with the run of zeros left out. */
  method PrintWords(p: seq<nat>, zero: int, max: nat, n: nat, text: string, ghost r: Run)
    returns (dst: string, ghost k: nat)
    requires IsAddress(p) && r.len == max && (if r.zero == -1 then zero == -1 else zero == 2 * r.zero)
    requires r.zero == -1 || (0 <= r.zero && r.len >= 2 && r.zero + r.len <= 8)
    requires n == 16 || (n == 12 && zero == 0 && 5 <= max <= 7)
    requires text == if zero == 0 then ":" else ""
    ensures k == (if n == 16 then 8 else if max == 7 then 7 else 6) && dst == Done(Words(p), r, k)
  {
    var i := 0;
    ghost var w := Words(p);
    dst, k := text, 0;
    DoneNone(w, r);
    while i < n
      invariant i == 2 * k && 0 <= k <= 8 && (i <= n || (n == 12 && k == 7 && r.len == 7))
      invariant r.zero != -1 ==> k <= r.zero || r.zero + r.len <= k
      invariant n == 12 && k == 6 ==> r.len <= 6
      invariant dst == Done(w, r, k)
    {
      dst, i, k := PrintNext(p, i, zero, max, dst, r, k);
    }
  }

  /** The text of an address, or nothing if the buffer could be too small for some address; it
      never exceeds the buffer. */
  method Ntop(p: seq<nat>, len: nat) returns (dst: string)
    requires IsAddress(p)
    ensures dst == (if len < ADDRSTRLEN then "" else Text(p)) && |dst| <= len && |dst| <= 39
  {
    if len < ADDRSTRLEN {
      return "";
    }
    TextFits(p);
    ghost var w := Words(p);
    var zero, max := ZeroRun(p);
    ghost var r := RunOf(w);
    RunIsFirstLongest(w);
    dst := "";
    var n := 16;
    if zero == 0 {
      if (max == 5 && p[10] == 0xff && p[11] == 0xff) || max == 6 || (max == 7 && p[14] != 0 && p[15] != 1) {
        n := 12;
      }
      dst := ":";
    }
    ghost var k;
    dst, k := PrintWords(p, zero, max, n, dst, r);
    DoneAll(p, r);
    if n == 12 {
      dst := dst + Dotted(p);
    }
  }

  // ---------- parsing ----------

  /** The bytes from `zero` to `cur` go up by `n`, from the last to the first. */
  method ShiftUp(addr: array<nat>, zero: nat, cur: nat, n: nat)
    requires zero <= cur && cur + n == addr.Length
    modifies addr
    ensures forall k :: 0 <= k < zero ==> addr[k] == old(addr[k])
    ensures forall k :: zero + n <= k < cur + n ==> addr[k] == old(addr[k - n])
  {
    var s, d := cur - 1, cur - 1 + n;
    while s >= zero
      invariant zero - 1 <= s <= cur - 1 && d == s + n
      invariant forall k :: 0 <= k <= s ==> addr[k] == old(addr[k])
      invariant forall k :: d < k < cur + n ==> addr[k] == old(addr[k - n])
    {
      addr[d] := addr[s];
      d, s := d - 1, s - 1;
    }
  }

  method Clear(addr: array<nat>, at: nat, n: nat)
    requires at + n <= addr.Length
    modifies addr
    ensures forall k :: at <= k < at + n ==> addr[k] == 0
    ensures forall k :: 0 <= k < addr.Length && !(at <= k < at + n) ==> addr[k] == old(addr[k])
  {
    var k := at;
    while k < at + n
      invariant at <= k <= at + n
      invariant forall j :: at <= j < k ==> addr[j] == 0
      invariant forall j :: 0 <= j < addr.Length && !(at <= j < k) ==> addr[j] == old(addr[j])
    {
      addr[k] := 0;
      k := k + 1;
    }
  }

  /** The bytes from `zero` to `cur` go to the end of the buffer, zeros take their place. */
  method MakeRoom(addr: array<nat>, zero: nat, cur: nat)
    requires addr.Length == 16 && zero <= cur <= 16
    modifies addr
    ensures addr[..] == old(addr[..zero]) + seq(16 - cur, _ => 0) + old(addr[zero..cur])
  {
    var n := 16 - cur;
    ShiftUp(addr, zero, cur, n);
    Clear(addr, zero, n);
  }

  /** The end of the text. */
  method Complete(addr: array<nat>, cur: nat, zero: int, nibbles: nat, word: nat, ghost s: Reading) returns (ok: bool)
    requires addr.Length == 16 && cur == |s.out| && Pairs(cur) && -1 <= zero <= cur && addr[..cur] == s.out
    requires s.zero == zero && s.nibbles == nibbles && s.word == word
    modifies addr
    ensures ok <==> Finish(s).Some?
    ensures ok ==> addr[..] == Finish(s).value
  {
    if nibbles == 0 && zero == -1 {
      return false;
    }
    WritePair(addr, cur, High(word), Low(word));
    ghost var out := s.out + [High(word), Low(word)];
    if cur + 2 < 16 {
      if zero != -1 {
        assert addr[..zero] == out[..zero] && addr[zero..cur + 2] == out[zero..];
        MakeRoom(addr, zero, cur + 2);
        return true;
      }
    } else if zero == -1 {
      assert addr[..] == addr[..16];
      return true;
    }
    ok := false;
  }

  method WritePair(addr: array<nat>, cur: nat, hi: nat, lo: nat)
    requires cur + 2 <= addr.Length
    modifies addr
    ensures addr[..cur + 2] == old(addr[..cur]) + [hi, lo]
  {
    addr[cur], addr[cur + 1] := hi, lo;
  }

  lemma Exactly(t: string)
    ensures Parse(t).Some? ==> exists f :: Reads(t, f) && Parse(t).value == Said(f)
    ensures Parse(t).None? ==> forall f :: !Reads(t, f)
  {
    if Parse(t).Some? {
      ParseExact(t, Parse(t).value);
    }
    forall f | Reads(t, f)
      ensures Parse(t).Some?
    {
      ParseExact(t, Said(f));
    }
  }

  /** The address a text says, if it says one: exactly the texts of the grammar do. */
  method Inet6Addr(t: string, addr: array<nat>) returns (ok: bool)
    requires addr.Length == 16
    modifies addr
    ensures ok <==> Parse(t).Some?
    ensures ok ==> addr[..] == Parse(t).value
    ensures ok ==> exists f :: Reads(t, f) && addr[..] == Said(f)
    ensures !ok ==> forall f :: !Reads(t, f)
  {
    Exactly(t);
    if |t| == 0 {
      return false;
    }
    ok := ParseFrom(t, if t[0] == ':' then 1 else 0, addr);
  }

  /** The text from `start` on. */
  method ParseFrom(t: string, start: nat, addr: array<nat>) returns (ok: bool)
    requires addr.Length == 16 && start <= |t|
    modifies addr
    ensures ok <==> Scan(t, start, START).Some?
    ensures ok ==> addr[..] == Scan(t, start, START).value
  {
    var cur, zero, digit := 0, -1, -1;
    var nibbles: nat, word: nat := 0, 0;
    ghost var s := START;
    var i := start;
    while i < |t|
      invariant Fits(t, i, s) && Scan(t, start, START) == Scan(t, i, s)
      invariant cur == |s.out| && zero == s.zero && digit == s.digit && nibbles == s.nibbles && word == s.word
      invariant addr[..cur] == s.out
    {
      var c := t[i];
      if c == ':' {
        if nibbles > 0 {
          digit := i + 1;
          WritePair(addr, cur, High(word), Low(word));
          if cur + 2 == 16 {
            return false;
          }
          s := Reading(s.out + [High(word), Low(word)], s.zero, i + 1, 0, 0);
          cur, nibbles, word := cur + 2, 0, 0;
        } else if zero == -1 {
          digit := i + 1;
          zero := cur;
          s := s.(zero := |s.out|, digit := i + 1);
        } else {
          return false;
        }
      } else if c == '.' && nibbles > 0 {
        if cur > 12 || digit == -1 {
          return false;
        }
        word := InetAddr(t[digit..]);
        if word == INADDR_NONE {
          return false;
        }
        WritePair(addr, cur, word / 0x100_0000 % 256, word / 0x1_0000 % 256);
        s := s.(out := s.out + [word / 0x100_0000 % 256, word / 0x1_0000 % 256], word := word);
        ok := Complete(addr, cur + 2, zero, nibbles, word, s);
        return;
      } else {
        nibbles := nibbles + 1;
        var v := HexValue(c);
        if nibbles > 4 || v == None {
          return false;
        }
        word := word * 16 + v.value;
        s := s.(nibbles := nibbles, word := word);
      }
      i := i + 1;
    }
    ok := Complete(addr, cur, zero, nibbles, word, s);
  }

  /** Printing and parsing again: the same address, except for the two that collide. */
  method RoundTrip(p: seq<nat>, addr: array<nat>) returns (ok: bool)
    requires IsAddress(p) && addr.Length == 16
    modifies addr
    ensures ok <==> !Collides(p)
    ensures ok ==> addr[..] == p
  {
    var t := Ntop(p, ADDRSTRLEN);
    PrintThenParse(p);
    ok := Inet6Addr(t, addr);
  }
}
