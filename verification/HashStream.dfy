/** The streaming part of MD5 and SHA-1: input arrives in pieces of any size, is processed in
    blocks of 64 bytes, and is padded at the end.  The mixing of one block is any function. */
module HashStream {
  import opened Arith

  const WORD_MODULUS: nat := 0x1_0000_0000_0000_0000

  /** The mixing of one block into the state. */
  type Body = (seq<nat>, seq<nat>) -> seq<nat>

  // ---------- what is to be computed ----------

  /** The state after all whole blocks of `data`. */
  function Absorb(body: Body, state: seq<nat>, data: seq<nat>): seq<nat>
    decreases |data|
  {
    if |data| < 64 then state else Absorb(body, body(state, data[..64]), data[64..])
  }

  function Zeros(n: nat): seq<nat> {
    seq(n, _ => 0)
  }

  /** The `k` low bytes of a number, least significant first. */
  function LittleEndian(n: nat, k: nat): (b: seq<nat>)
    ensures |b| == k
  {
    if k == 0 then [] else [n % 256] + LittleEndian(n / 256, k - 1)
  }

  /** ... or most significant first. */
  function BigEndian(n: nat, k: nat): (b: seq<nat>)
    ensures |b| == k
  {
    if k == 0 then [] else BigEndian(n / 256, k - 1) + [n % 256]
  }

  function LengthBytes(big: bool, n: nat): (b: seq<nat>)
    ensures |b| == 8
  {
    if big then BigEndian(n, 8) else LittleEndian(n, 8)
  }

  /** How many zeros make 0x80, the zeros and the length fill up whole blocks. */
  function Fill(n: nat): nat {
    if n % 64 <= 55 then 55 - n % 64 else 119 - n % 64
  }

  /** Sections 3.1 and 3.2 of RFC 1321 (length least significant byte first), section 4 of
      RFC 3174 (most significant first). */
  function Padded(big: bool, m: seq<nat>): seq<nat> {
    m + [0x80] + Zeros(Fill(|m|)) + LengthBytes(big, 8 * |m| % WORD_MODULUS)
  }

  lemma PaddedWhole(big: bool, m: seq<nat>)
    ensures |Padded(big, m)| % 64 == 0 && Fill(|m|) < 64
  {
    UsedBytes(|m|);
    assert |Padded(big, m)| == Whole(|m|) + if |m| % 64 <= 55 then 64 else 128;
    OneOrTwo(Whole(|m|));
  }

  lemma OneOrTwo(w: nat)
    requires w % 64 == 0
    ensures (w + 64) % 64 == 0 && (w + 128) % 64 == 0
  {
  }

  /** The digest: the words of the state, byte by byte. */
  function WordBytes(big: bool, w: nat): seq<nat> {
    if big then BigEndian(w, 4) else LittleEndian(w, 4)
  }

  function Output(big: bool, state: seq<nat>): seq<nat> {
    if state == [] then [] else Output(big, state[..|state| - 1]) + WordBytes(big, state[|state| - 1])
  }

  function Digest(body: Body, big: bool, init: seq<nat>, m: seq<nat>): seq<nat> {
    Output(big, Absorb(body, init, Padded(big, m)))
  }

  // ---------- absorbing in pieces ----------

  lemma {:induction false} AbsorbMore(body: Body, state: seq<nat>, a: seq<nat>, b: seq<nat>)
    requires |a| % 64 == 0
    ensures Absorb(body, state, a + b) == Absorb(body, Absorb(body, state, a), b)
    decreases |a|
  {
    if |a| == 0 {
      assert a + b == b;
    } else {
      assert (a + b)[..64] == a[..64] && (a + b)[64..] == a[64..] + b;
      AbsorbMore(body, body(state, a[..64]), a[64..], b);
    }
  }

  /** The part of the input that has gone into the state, and the rest. */
  function Whole(n: nat): nat {
    n / 64 * 64
  }

  class Context {
    const body: Body
    const big: bool
    const init: seq<nat>
    var words: seq<nat>
    var bytes: nat
    const buffer: array<nat>
    ghost var input: seq<nat>   // everything that was fed in

    ghost predicate Valid()
      reads this, buffer
    {
      && buffer.Length == 64 && bytes == |input| % WORD_MODULUS
      && words == Absorb(body, init, input[..Whole(|input|)])
      && buffer[..|input| % 64] == input[Whole(|input|)..]
    }

    constructor (body: Body, big: bool, init: seq<nat>)
      ensures Valid() && input == [] && this.body == body && this.big == big && this.init == init && fresh(buffer)
    {
      this.body, this.big, this.init, words, bytes := body, big, init, init, 0;
      buffer := new nat[64](_ => 0);
      input := [];
    }

    /** One or more whole blocks. */
    method Blocks(data: seq<nat>)
      requires |data| % 64 == 0
      modifies this`words
      ensures words == Absorb(body, old(words), data)
    {
      var rest := data;
      while |rest| > 0
        invariant |rest| % 64 == 0 && Absorb(body, words, rest) == Absorb(body, old(words), data)
        decreases |rest|
      {
        words := body(words, rest[..64]);
        rest := rest[64..];
      }
    }

    method Copy(at: nat, data: seq<nat>)
      requires at + |data| <= buffer.Length
      modifies buffer
      ensures buffer[..at + |data|] == old(buffer[..at]) + data
    {
      var k := 0;
      while k < |data|
        invariant k <= |data| && buffer[..at + k] == old(buffer[..at]) + data[..k]
      {
        buffer[at + k] := data[k];
        assert buffer[..at + k + 1] == buffer[..at + k] + [data[k]];
        k := k + 1;
      }
    }

    /** More input. */
    method Update(data: seq<nat>)
      requires Valid()
      modifies this, buffer
      ensures Valid() && input == old(input) + data
    {
      var used := bytes % 64;
      ghost var m, all := input, input + data;
      UsedBytes(|m|);
      CountMore(|m|, |data|);
      bytes := (bytes + |data|) % WORD_MODULUS;
      input := all;
      var rest := data;
      ghost var c := |m|;
      if used > 0 {
        var free := 64 - used;
        if |data| < free {
          Copy(used, data);
          StillPartial(m, data, all);
          return;
        }
        Copy(used, data[..free]);
        assert buffer[..] == buffer[..64];
        rest := data[free..];
        FirstFilled(body, init, m, data, all, buffer[..]);
        Blocks(buffer[..]);
        c := Whole(|m|) + 64;
      } else {
        NothingHeld(m, data, all);
      }
      FinishUpdate(rest, c);
    }

    /** Whole blocks go into the state, what is left waits in the buffer. */
    method FinishUpdate(rest: seq<nat>, ghost c: nat)
      requires buffer.Length == 64 && bytes == |input| % WORD_MODULUS && c <= |input| && c % 64 == 0
      requires rest == input[c..] && words == Absorb(body, init, input[..c])
      modifies this`words, buffer
      ensures Valid()
    {
      Remainder(body, init, input, c, rest);
      var n := Whole(|rest|);
      if |rest| >= 64 {
        Blocks(rest[..n]);
      }
      Copy(0, rest[n..]);
    }

    /** The rest of the last block: zeros and the length in bits. */
    method LastBlock(used: nat, free: nat, ghost start: seq<nat>)
      requires buffer.Length == 64 && used + free == 64 && free >= 8 && buffer[..used] == start
      modifies this`words, buffer
      ensures words == Absorb(body, old(words), start + Zeros(free - 8) + LengthBytes(big, bytes))
    {
      Copy(used, Zeros(free - 8));
      Copy(56, LengthBytes(big, bytes));
      assert buffer[..] == buffer[..64];
      Blocks(buffer[..]);
    }

    /** The end: exactly the padded message has been absorbed. */
    method Final() returns (result: seq<nat>)
      requires Valid()
      modifies this, buffer
      ensures words == Absorb(body, init, Padded(big, input)) && result == Output(big, words)
      ensures result == Digest(body, big, init, input) && input == old(input)
    {
      ghost var m, state := input, words;
      UsedBytes(|m|);
      var used := bytes % 64;
      ghost var head := buffer[..used];
      buffer[used] := 0x80;
      used := used + 1;
      var free := 64 - used;
      assert buffer[..used] == head + [0x80];
      ghost var start := head + [0x80];
      if free < 8 {
        Copy(used, Zeros(free));
        assert buffer[..] == buffer[..64];
        Blocks(buffer[..]);
        used := 0;
        free := 64;
        start := [];
      }
      assert buffer[..used] == start;
      bytes := bytes * 8 % WORD_MODULUS;
      BitLength(|m|);
      LastBlock(used, free, start);
      PaddedBlocks(body, init, big, m, head, LengthBytes(big, bytes));
      result := Output(big, words);
    }
  }

  // ---------- the arithmetic of what is held ----------

  lemma UsedBytes(n: nat)
    ensures n % WORD_MODULUS % 64 == n % 64 && n == Whole(n) + n % 64 && Whole(n) % 64 == 0 && n % 64 < 64
  {
  }

  lemma BitLength(n: nat)
    ensures n % WORD_MODULUS * 8 % WORD_MODULUS == 8 * n % WORD_MODULUS
  {
    var q, r := n / WORD_MODULUS, n % WORD_MODULUS;
    DivMod(n, WORD_MODULUS);
    AddMultiple(8 * q, 8 * r, WORD_MODULUS);
  }

  lemma CountMore(n: nat, k: nat)
    ensures (n % WORD_MODULUS + k) % WORD_MODULUS == (n + k) % WORD_MODULUS
  {
  }

  lemma NothingHeld(m: seq<nat>, data: seq<nat>, all: seq<nat>)
    requires all == m + data && |m| % 64 == 0
    ensures Whole(|m|) == |m| && m[..|m|] == m && all[..|m|] == m && all[|m|..] == data
  {
  }

  /** Too little to fill the block. */
  lemma StillPartial(m: seq<nat>, data: seq<nat>, all: seq<nat>)
    requires all == m + data && |m| % 64 + |data| < 64
    ensures Whole(|all|) == Whole(|m|) && all[..Whole(|m|)] == m[..Whole(|m|)]
      && all[Whole(|m|)..] == m[Whole(|m|)..] + data
    ensures |all| % 64 == |m| % 64 + |data|
  {
    UsedBytes(|m|);
    UsedBytes(|all|);
  }

  /** The block that the first bytes of new input complete. */
  lemma FirstFilled(body: Body, init: seq<nat>, m: seq<nat>, data: seq<nat>, all: seq<nat>, block: seq<nat>)
    requires all == m + data && 0 < |m| % 64 && 64 - |m| % 64 <= |data|
    requires block == m[Whole(|m|)..] + data[..64 - |m| % 64]
    ensures var c := Whole(|m|) + 64;
      && c <= |all| && c % 64 == 0 && all[c..] == data[64 - |m| % 64..]
      && Absorb(body, init, all[..c]) == Absorb(body, Absorb(body, init, m[..Whole(|m|)]), block)
  {
    var w := Whole(|m|);
    UsedBytes(|m|);
    assert all[..w + 64] == m[..w] + block;
    AbsorbMore(body, init, m[..w], block);
  }

  /** The whole blocks among the rest. */
  lemma Remainder(body: Body, init: seq<nat>, all: seq<nat>, c: nat, rest: seq<nat>)
    requires c <= |all| && c % 64 == 0 && rest == all[c..]
    ensures var n := Whole(|rest|);
      && n <= |rest| && n % 64 == 0 && c + n == Whole(|all|) && |rest| - n == |all| % 64 && rest[n..] == all[c + n..]
      && Absorb(body, init, all[..c + n]) == Absorb(body, Absorb(body, init, all[..c]), rest[..n])
      && (|rest| < 64 ==> n == 0)
  {
    var n := Whole(|rest|);
    UsedBytes(|rest|);
    UsedBytes(|all|);
    WholeMore(c, |rest|);
    assert all[..c + n] == all[..c] + rest[..n];
    AbsorbMore(body, init, all[..c], rest[..n]);
  }

  lemma WholeMore(c: nat, n: nat)
    requires c % 64 == 0
    ensures Whole(c + n) == c + Whole(n) && (c + n) % 64 == n % 64
  {
  }

  lemma FourParts(a: seq<nat>, b: seq<nat>, c: seq<nat>, d: seq<nat>, e: seq<nat>)
    ensures (a + b) + c + d + e == a + (b + c + d + e)
  {
  }

  /** What the padding makes of the bytes held: one block or two. */
  function LastBlocks(head: seq<nat>, len: seq<nat>): seq<nat>
    requires |head| < 64
  {
    head + [0x80] + Zeros(if |head| <= 55 then 55 - |head| else 119 - |head|) + len
  }

  lemma PaddedSplit(big: bool, m: seq<nat>, w: nat, head: seq<nat>, len: seq<nat>)
    requires w <= |m| && head == m[w..] && |head| == |m| % 64 < 64 && len == LengthBytes(big, 8 * |m| % WORD_MODULUS)
    ensures Padded(big, m) == m[..w] + LastBlocks(head, len)
  {
    assert m == m[..w] + head;
    FourParts(m[..w], head, [0x80], Zeros(Fill(|m|)), len);
  }

  lemma PaddedHead(body: Body, init: seq<nat>, big: bool, m: seq<nat>, head: seq<nat>, len: seq<nat>)
    requires head == m[Whole(|m|)..] && len == LengthBytes(big, 8 * |m| % WORD_MODULUS)
    ensures |head| == |m| % 64
    ensures Absorb(body, init, Padded(big, m)) ==
      Absorb(body, Absorb(body, init, m[..Whole(|m|)]), LastBlocks(head, len))
  {
    UsedBytes(|m|);
    var w := Whole(|m|);
    PaddedSplit(big, m, w, head, len);
    AbsorbMore(body, init, m[..w], LastBlocks(head, len));
  }

  lemma TwoBlocks(body: Body, state: seq<nat>, head: seq<nat>, len: seq<nat>, b1: seq<nat>, b2: seq<nat>)
    requires 55 < |head| < 64 && b1 == head + [0x80] + Zeros(63 - |head|) && b2 == [] + Zeros(56) + len
    ensures Absorb(body, state, LastBlocks(head, len)) == Absorb(body, Absorb(body, state, b1), b2)
  {
    assert Zeros(119 - |head|) == Zeros(63 - |head|) + Zeros(56);
    assert LastBlocks(head, len) == b1 + b2;
    AbsorbMore(body, state, b1, b2);
  }

  /** The padded message, block by block. */
  lemma PaddedBlocks(body: Body, init: seq<nat>, big: bool, m: seq<nat>, head: seq<nat>, len: seq<nat>)
    requires head == m[Whole(|m|)..] && len == LengthBytes(big, 8 * |m| % WORD_MODULUS)
    ensures |head| == |m| % 64
    ensures var state, padded := Absorb(body, init, m[..Whole(|m|)]), Absorb(body, init, Padded(big, m));
      && (|head| <= 55 ==> padded == Absorb(body, state, head + [0x80] + Zeros(55 - |head|) + len))
      && (|head| > 55 ==>
          padded == Absorb(body, Absorb(body, state, head + [0x80] + Zeros(63 - |head|)), [] + Zeros(56) + len))
  {
    PaddedHead(body, init, big, m, head, len);
    if |head| > 55 {
      TwoBlocks(body, Absorb(body, init, m[..Whole(|m|)]), head, len, head + [0x80] + Zeros(63 - |head|),
                [] + Zeros(56) + len);
    }
  }

  // ---------- however the input is split ----------

  function Concat(pieces: seq<seq<nat>>): seq<nat> {
    if pieces == [] then [] else Concat(pieces[..|pieces| - 1]) + pieces[|pieces| - 1]
  }

  /** The digest of the input depends on the input alone, not on how it was split. */
  method HashPieces(body: Body, big: bool, init: seq<nat>, pieces: seq<seq<nat>>) returns (result: seq<nat>)
    ensures result == Digest(body, big, init, Concat(pieces))
  {
    var ctx := new Context(body, big, init);
    for k := 0 to |pieces|
      invariant ctx.Valid() && fresh(ctx) && fresh(ctx.buffer) && ctx.input == Concat(pieces[..k])
      invariant ctx.body == body && ctx.big == big && ctx.init == init
    {
      ctx.Update(pieces[k]);
      assert pieces[..k + 1][..k] == pieces[..k];
    }
    assert pieces[..|pieces|] == pieces;
    result := ctx.Final();
  }

  // ---------- byte by byte ----------

  /** The four bytes of a word, least significant first. */
  function Low4(w: nat): seq<nat> {
    [w % 256, w / 0x100 % 256, w / 0x1_0000 % 256, w / 0x100_0000 % 256]
  }

  lemma Quarter(w: nat)
    ensures w / 256 / 256 == w / 0x1_0000 && w / 256 / 256 / 256 == w / 0x100_0000
    ensures w / 256 / 256 / 256 / 256 == w / 0x1_0000_0000
  {
  }

  lemma LittleFour(w: nat)
    ensures LittleEndian(w, 4) == Low4(w)
  {
    Quarter(w);
    assert LittleEndian(w / 256 / 256, 2) == [w / 256 / 256 % 256] + LittleEndian(w / 256 / 256 / 256, 1);
    assert LittleEndian(w / 256 / 256 / 256, 1) == [w / 256 / 256 / 256 % 256];
  }

  lemma {:induction false} LittleMore(n: nat)
    ensures LittleEndian(n, 8) == LittleEndian(n, 4) + LittleEndian(n / 0x1_0000_0000, 4)
  {
    Quarter(n);
    var a, b, c := n / 256, n / 256 / 256, n / 256 / 256 / 256;
    assert LittleEndian(n, 8) == [n % 256] + LittleEndian(a, 7);
    assert LittleEndian(a, 7) == [a % 256] + LittleEndian(b, 6);
    assert LittleEndian(b, 6) == [b % 256] + LittleEndian(c, 5);
    assert LittleEndian(c, 5) == [c % 256] + LittleEndian(c / 256, 4);
    LittleFour(n);
  }

  lemma {:induction false} BigReverse(n: nat, k: nat, i: nat)
    requires i < k
    ensures BigEndian(n, k)[i] == LittleEndian(n, k)[k - 1 - i]
    decreases k
  {
    if i < k - 1 { BigReverse(n / 256, k - 1, i); }
  }

  /** The eight bytes of the length field of each algorithm. */
  lemma LengthField(n: nat)
    ensures LengthBytes(false, n) ==
      [n % 256, n / 0x100 % 256, n / 0x1_0000 % 256, n / 0x100_0000 % 256, n / 0x1_0000_0000 % 256,
       n / 0x100_0000_0000 % 256, n / 0x1_0000_0000_0000 % 256, n / 0x100_0000_0000_0000 % 256]
    ensures forall i :: 0 <= i < 8 ==> LengthBytes(true, n)[i] == LengthBytes(false, n)[7 - i]
  {
    var h := n / 0x1_0000_0000;
    LittleMore(n);
    LittleFour(n);
    LittleFour(h);
    assert h / 0x100 == n / 0x100_0000_0000 && h / 0x1_0000 == n / 0x1_0000_0000_0000;
    assert h / 0x100_0000 == n / 0x100_0000_0000_0000;
    forall i | 0 <= i < 8
      ensures LengthBytes(true, n)[i] == LengthBytes(false, n)[7 - i]
    {
      BigReverse(n, 8, i);
    }
  }

  ghost predicate IsWord(big: bool, w: nat, b: seq<nat>) {
    |b| == 4 && (if big then [b[3], b[2], b[1], b[0]] else b) == Low4(w)
  }

  lemma WordOut(big: bool, w: nat)
    ensures IsWord(big, w, WordBytes(big, w))
  {
    LittleFour(w);
    BigReverse(w, 4, 0);
    BigReverse(w, 4, 1);
    BigReverse(w, 4, 2);
    BigReverse(w, 4, 3);
  }

  ghost predicate IsOutput(big: bool, state: seq<nat>, result: seq<nat>) {
    && |result| == 4 * |state|
    && forall j :: 0 <= j < |state| ==> IsWord(big, state[j], result[4 * j..4 * j + 4])
  }

  /** Where the bytes of a word are in the digest. */
  lemma {:induction false} OutputPlaces(big: bool, state: seq<nat>)
    ensures |Output(big, state)| == 4 * |state|
    ensures forall j :: 0 <= j < |state| ==> Output(big, state)[4 * j..4 * j + 4] == WordBytes(big, state[j])
    decreases |state|
  {
    if state != [] {
      var n := |state| - 1;
      var u, out := state[..n], Output(big, state);
      OutputPlaces(big, u);
      assert out == Output(big, u) + WordBytes(big, state[n]);
      forall j | 0 <= j < |state|
        ensures out[4 * j..4 * j + 4] == WordBytes(big, state[j])
      {
        if j < n {
          assert out[4 * j..4 * j + 4] == Output(big, u)[4 * j..4 * j + 4] && state[j] == u[j];
        }
      }
    }
  }

  /** The digest puts out four bytes for each word of the state. */
  lemma OutputBytes(big: bool, state: seq<nat>)
    ensures IsOutput(big, state, Output(big, state))
  {
    OutputPlaces(big, state);
    forall j | 0 <= j < |state|
      ensures IsWord(big, state[j], Output(big, state)[4 * j..4 * j + 4])
    {
      WordOut(big, state[j]);
    }
  }

  /** The state after `k` blocks of 64 bytes. */
  function AfterBlocks(body: Body, init: seq<nat>, m: seq<nat>, k: nat): seq<nat>
    requires 64 * k <= |m|
  {
    if k == 0 then init else body(AfterBlocks(body, init, m, k - 1), m[64 * k - 64..64 * k])
  }

  lemma {:induction false} AbsorbBlocks(body: Body, init: seq<nat>, m: seq<nat>, k: nat)
    requires 64 * k <= |m|
    ensures Absorb(body, init, m[..64 * k]) == AfterBlocks(body, init, m, k)
    decreases k
  {
    if k > 0 {
      var a, b := m[..64 * k - 64], m[64 * k - 64..64 * k];
      AbsorbBlocks(body, init, m, k - 1);
      assert m[..64 * k] == a + b;
      AbsorbMore(body, init, a, b);
      OneBlock(body, AfterBlocks(body, init, m, k - 1), b);
    }
  }

  lemma OneBlock(body: Body, state: seq<nat>, b: seq<nat>)
    requires |b| == 64
    ensures Absorb(body, state, b) == body(state, b)
  {
    assert b[..64] == b && b[64..] == [];
  }

  /** `p` is the message, a byte of 0x80, fewer than 64 zeros and eight bytes, in whole blocks. */
  ghost predicate PadsTo(m: seq<nat>, p: seq<nat>) {
    && |p| % 64 == 0 && |m| + 9 <= |p| < |m| + 73 && p[..|m|] == m && p[|m|] == 0x80
    && forall i :: |m| < i < |p| - 8 ==> p[i] == 0
  }

  lemma PadShape(big: bool, m: seq<nat>)
    ensures PadsTo(m, Padded(big, m))
    ensures var p := Padded(big, m); |p| >= 8 && p[|p| - 8..] == LengthBytes(big, 8 * |m| % WORD_MODULUS)
  {
    PaddedWhole(big, m);
    var p := Padded(big, m);
    assert p[..|m|] == m;
  }

  /** The last eight bytes are the length in bits modulo 2^64. */
  ghost predicate EndsWithLength(big: bool, p: seq<nat>, bytes: nat)
    requires |p| >= 8
  {
    var n, b := 8 * bytes % WORD_MODULUS, p[|p| - 8..];
    (if big then [b[7], b[6], b[5], b[4], b[3], b[2], b[1], b[0]] else b) ==
      [n % 256, n / 0x100 % 256, n / 0x1_0000 % 256, n / 0x100_0000 % 256, n / 0x1_0000_0000 % 256,
       n / 0x100_0000_0000 % 256, n / 0x1_0000_0000_0000 % 256, n / 0x100_0000_0000_0000 % 256]
  }

  /** The digest that section 3 of RFC 1321 (least significant bytes first) and section 4 of
      RFC 3174 (most significant first) describe, `body` being the mixing of a block. */
  ghost predicate IsDigest(body: Body, big: bool, init: seq<nat>, m: seq<nat>, result: seq<nat>) {
    exists p :: PadsTo(m, p) && EndsWithLength(big, p, |m|) &&
      IsOutput(big, AfterBlocks(body, init, p, |p| / 64), result)
  }

  lemma DigestIs(body: Body, big: bool, init: seq<nat>, m: seq<nat>)
    ensures IsDigest(body, big, init, m, Digest(body, big, init, m))
  {
    var p := Padded(big, m);
    PadShape(big, m);
    LengthField(8 * |m| % WORD_MODULUS);
    DivMod(|p|, 64);
    AbsorbBlocks(body, init, p, |p| / 64);
    assert p[..|p|] == p;
    OutputBytes(big, AfterBlocks(body, init, p, |p| / 64));
  }

  const MD5_INIT: seq<nat> := [0x67452301, 0xefcdab89, 0x98badcfe, 0x10325476]
  const SHA1_INIT: seq<nat> := [0x67452301, 0xefcdab89, 0x98badcfe, 0x10325476, 0xc3d2e1f0]

  method Md5(body: Body, pieces: seq<seq<nat>>) returns (result: seq<nat>)
    ensures result == Digest(body, false, MD5_INIT, Concat(pieces))
    ensures IsDigest(body, false, [0x67452301, 0xefcdab89, 0x98badcfe, 0x10325476], Concat(pieces), result)
  {
    result := HashPieces(body, false, MD5_INIT, pieces);
    DigestIs(body, false, MD5_INIT, Concat(pieces));
  }

  method Sha1(body: Body, pieces: seq<seq<nat>>) returns (result: seq<nat>)
    ensures result == Digest(body, true, SHA1_INIT, Concat(pieces))
    ensures IsDigest(body, true, [0x67452301, 0xefcdab89, 0x98badcfe, 0x10325476, 0xc3d2e1f0], Concat(pieces), result)
  {
    result := HashPieces(body, true, SHA1_INIT, pieces);
    DigestIs(body, true, SHA1_INIT, Concat(pieces));
  }

  // ---------- the length field can be read back ----------

  function FromLittleEndian(b: seq<nat>): nat {
    if b == [] then 0 else b[0] + 256 * FromLittleEndian(b[1..])
  }

  function Pow256(k: nat): nat {
    if k == 0 then 1 else 256 * Pow256(k - 1)
  }

  /** The bytes of a number determine it, and the two orders are each other's reverse. */
  lemma {:induction false} LengthBack(n: nat, k: nat)
    requires n < Pow256(k)
    ensures FromLittleEndian(LittleEndian(n, k)) == n
    ensures forall i :: 0 <= i < k ==> BigEndian(n, k)[i] == LittleEndian(n, k)[k - 1 - i]
    decreases k
  {
    if k > 0 {
      LengthBack(n / 256, k - 1);
      assert LittleEndian(n, k)[1..] == LittleEndian(n / 256, k - 1);
    }
  }
}
