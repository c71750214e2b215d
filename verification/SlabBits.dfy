/** The three bitmaps: marking a chunk, clearing it, and the tests for "all in use" and
    "none in use". */
module SlabBits {
  import opened Words
  import opened SlabModel
  import opened SlabPages

  const MAP_MASK: nat := 0xFFFF_FFFF_0000_0000
  const SHIFT_MASK: nat := 0xF

  // ---------- marking and clearing ----------

  function MarkSlab(slab: nat, sh: nat, c: nat): nat {
    if sh < EXACT_SHIFT then slab else if sh == EXACT_SHIFT then Or(slab, Pow(c)) else Or(slab, Pow(32 + c))
  }

  function MarkWords(w: seq<nat>, sh: nat, c: nat): seq<nat> {
    if sh < EXACT_SHIFT && c / 64 < |w| then w[c / 64 := Or(w[c / 64], Pow(c % 64))] else w
  }

  function ClearSlab(slab: nat, sh: nat, c: nat): nat {
    if sh < EXACT_SHIFT then slab else if sh == EXACT_SHIFT then AndNot(slab, Pow(c)) else AndNot(slab, Pow(32 + c))
  }

  function ClearWords(w: seq<nat>, sh: nat, c: nat): seq<nat> {
    if sh < EXACT_SHIFT && c / 64 < |w| then w[c / 64 := AndNot(w[c / 64], Pow(c % 64))] else w
  }

  lemma OrPowBit(w: nat, k: nat, i: nat)
    ensures Bit(Or(w, Pow(k)), i) <==> Bit(w, i) || i == k
  {
    OrBit(w, Pow(k), i);
    PowBit(k, i);
  }

  lemma AndNotPowBit(w: nat, k: nat, i: nat)
    ensures Bit(AndNot(w, Pow(k)), i) <==> Bit(w, i) && i != k
  {
    AndNotBit(w, Pow(k), i);
    PowBit(k, i);
  }

  lemma OrPowWord(w: nat, k: nat)
    requires w < MODULUS && k < 64
    ensures Or(w, Pow(k)) < MODULUS
  {
    PowSmall();
    PowMonotone(k + 1, 64);
    OrBound(w, Pow(k), 64);
  }

  lemma MarkBit(slab: nat, w: seq<nat>, sh: nat, c: nat, x: nat)
    requires IsShift(sh) && |w| == PAGE_WORDS && c < Cap(sh)
    ensures ChunkBit(MarkSlab(slab, sh, c), MarkWords(w, sh, c), sh, x) <==>
      ChunkBit(slab, w, sh, x) || (x == c && (sh < EXACT_SHIFT ==> x / 64 < |w|))
  {
    if sh < EXACT_SHIFT {
      if x / 64 == c / 64 && x / 64 < |w| { OrPowBit(w[c / 64], c % 64, x % 64); }
    } else if sh == EXACT_SHIFT {
      OrPowBit(slab, c, x);
    } else {
      OrPowBit(slab, 32 + c, 32 + x);
    }
  }

  lemma ClearedBit(slab: nat, w: seq<nat>, sh: nat, c: nat, x: nat)
    requires IsShift(sh) && |w| == PAGE_WORDS && c < Cap(sh)
    ensures ChunkBit(ClearSlab(slab, sh, c), ClearWords(w, sh, c), sh, x) <==> ChunkBit(slab, w, sh, x) && x != c
  {
    if sh < EXACT_SHIFT {
      if x / 64 == c / 64 && x / 64 < |w| { AndNotPowBit(w[c / 64], c % 64, x % 64); }
    } else if sh == EXACT_SHIFT {
      AndNotPowBit(slab, c, x);
    } else {
      AndNotPowBit(slab, 32 + c, 32 + x);
    }
  }

  lemma MarkOk(slab: nat, w: seq<nat>, sh: nat, used: set<nat>, c: nat)
    requires IsShift(sh) && BitmapOk(slab, w, sh, used) && c < Cap(sh)
    ensures BitmapOk(MarkSlab(slab, sh, c), MarkWords(w, sh, c), sh, used + {c})
  {
    BitmapFits(sh);
    if sh == EXACT_SHIFT { OrPowWord(slab, c); }
    if sh > EXACT_SHIFT { OrPowWord(slab, 32 + c); }
    if sh < EXACT_SHIFT && c / 64 < PAGE_WORDS { OrPowWord(w[c / 64], c % 64); }
    forall x: nat | x < (if sh > EXACT_SHIFT then 32 else Cap(sh))
      ensures ChunkBit(MarkSlab(slab, sh, c), MarkWords(w, sh, c), sh, x) <==> x < Reserved(sh) || x in used + {c}
    {
      MarkBit(slab, w, sh, c, x);
    }
    if sh > EXACT_SHIFT {
      forall b: nat | b < 32
        ensures Bit(MarkSlab(slab, sh, c), b) <==> Bit(sh, b)
      {
        OrPowBit(slab, 32 + c, b);
      }
    }
  }

  lemma ClearOk(slab: nat, w: seq<nat>, sh: nat, used: set<nat>, c: nat)
    requires IsShift(sh) && BitmapOk(slab, w, sh, used) && Reserved(sh) <= c < Cap(sh)
    ensures BitmapOk(ClearSlab(slab, sh, c), ClearWords(w, sh, c), sh, used - {c})
  {
    BitmapFits(sh);
    AndNotBound(slab, Pow(c));
    AndNotBound(slab, Pow(32 + c));
    if sh < EXACT_SHIFT && c / 64 < PAGE_WORDS { AndNotBound(w[c / 64], Pow(c % 64)); }
    forall x: nat | x < (if sh > EXACT_SHIFT then 32 else Cap(sh))
      ensures ChunkBit(ClearSlab(slab, sh, c), ClearWords(w, sh, c), sh, x) <==> x < Reserved(sh) || x in used - {c}
    {
      ClearedBit(slab, w, sh, c, x);
    }
    if sh > EXACT_SHIFT {
      forall b: nat | b < 32
        ensures Bit(ClearSlab(slab, sh, c), b) <==> Bit(sh, b)
      {
        AndNotPowBit(slab, 32 + c, b);
      }
    }
  }

  // ---------- a fresh page ----------

  /** The words written when a page is cut into chunks and its first chunk handed out. */
  function FreshSlab(sh: nat): nat {
    if sh < EXACT_SHIFT then sh else if sh == EXACT_SHIFT then 1 else Or(Pow(32), sh)
  }

  ghost predicate FreshWords(w: seq<nat>, sh: nat)
    requires IsShift(sh)
  {
    && |w| == PAGE_WORDS && (forall x :: 0 <= x < PAGE_WORDS ==> w[x] < MODULUS)
    && (sh < EXACT_SHIFT ==> w[0] == Pow(Reserved(sh) + 1) - 1 && forall x :: 1 <= x < MapWords(sh) ==> w[x] == 0)
  }

  lemma FreshOk(w: seq<nat>, sh: nat)
    requires IsShift(sh) && FreshWords(w, sh)
    ensures BitmapOk(FreshSlab(sh), w, sh, {Reserved(sh)})
  {
    BitmapFits(sh);
    PowSmall();
    OrPowSlab(sh);
    forall x: nat | x < (if sh > EXACT_SHIFT then 32 else Cap(sh))
      ensures ChunkBit(FreshSlab(sh), w, sh, x) <==> x < Reserved(sh) || x in {Reserved(sh)}
    {
      FreshBit(w, sh, x);
    }
  }

  lemma OrPowSlab(sh: nat)
    requires IsShift(sh)
    ensures FreshSlab(sh) < MODULUS
    ensures sh > EXACT_SHIFT ==> forall b: nat :: b < 64 ==> (Bit(FreshSlab(sh), b) <==> b == 32 || Bit(sh, b))
  {
    PowSmall();
    PowMonotone(4, 64);
    PowMonotone(33, 64);
    assert Pow(4) == 16;
    if sh > EXACT_SHIFT {
      OrBound(Pow(32), sh, 64);
      forall b: nat | b < 64
        ensures Bit(FreshSlab(sh), b) <==> b == 32 || Bit(sh, b)
      {
        OrBit(Pow(32), sh, b);
        PowBit(32, b);
      }
    }
  }

  lemma {:induction false} HighZero(a: nat, k: nat, i: nat)
    requires a < Pow(k) && k <= i
    ensures !Bit(a, i)
    decreases k
  {
    if k == 0 { ZeroBit(i); } else { HighZero(a / 2, k - 1, i - 1); }
  }

  lemma FreshBit(w: seq<nat>, sh: nat, x: nat)
    requires IsShift(sh) && FreshWords(w, sh) && x < (if sh > EXACT_SHIFT then 32 else Cap(sh))
    ensures ChunkBit(FreshSlab(sh), w, sh, x) <==> x <= Reserved(sh)
  {
    BitmapFits(sh);
    if sh < EXACT_SHIFT {
      if x < 64 { OnesBit(Reserved(sh) + 1, x); } else { ZeroBit(x % 64); }
    } else if sh == EXACT_SHIFT {
      PowBit(0, x);
    } else {
      OrPowSlab(sh);
      assert Pow(4) == 16;
      HighZero(sh, 4, 32 + x);
    }
  }

  // ---------- the tests ----------

  function BigMask(sh: nat): nat
    requires IsShift(sh)
  {
    Shl(Pow(Cap(sh)) - 1, 32)
  }

  lemma MapMaskBit(i: nat)
    ensures Bit(MAP_MASK, i) <==> 32 <= i < 64
  {
    PowSmall();
    assert MAP_MASK == (Pow(32) - 1) * Pow(32);
    ShiftBit(Pow(32) - 1, 32, i);
    if i >= 32 { OnesBit(32, i - 32); }
  }

  lemma BigMaskBit(sh: nat, i: nat)
    requires IsShift(sh) && sh > EXACT_SHIFT
    ensures Bit(BigMask(sh), i) <==> 32 <= i < 32 + Cap(sh)
    ensures BigMask(sh) < MODULUS
  {
    BitmapFits(sh);
    ShlBit(Pow(Cap(sh)) - 1, 32, i);
    if i >= 32 { OnesBit(Cap(sh), i - 32); }
    PowMonotone(Cap(sh), 32);
    ShlBound(Pow(Cap(sh)) - 1, 32, 32);
    PowSmall();
  }

  /** slab == BUSY */
  lemma ExactFull(slab: nat, w: seq<nat>, used: set<nat>)
    requires BitmapOk(slab, w, EXACT_SHIFT, used)
    ensures slab == PAGE_BUSY <==> Full(EXACT_SHIFT, used)
    ensures slab == 0 <==> forall c: nat :: c < 64 ==> c !in used
  {
    PowSmall();
    BitmapFits(EXACT_SHIFT);
    forall i: nat | i < 64
      ensures Bit(PAGE_BUSY, i) && !Bit(0, i)
      ensures Bit(slab, i) <==> i in used
    {
      OnesBit(64, i);
      ZeroBit(i);
      assert ChunkBit(slab, w, EXACT_SHIFT, i) <==> i < Reserved(EXACT_SHIFT) || i in used;
    }
    if Full(EXACT_SHIFT, used) { SameBits(slab, PAGE_BUSY, 64); }
    if forall c: nat :: c < 64 ==> c !in used { SameBits(slab, 0, 64); }
  }

  lemma BigBits(slab: nat, w: seq<nat>, sh: nat, used: set<nat>, i: nat)
    requires IsShift(sh) && sh > EXACT_SHIFT && BitmapOk(slab, w, sh, used) && i < 64
    ensures Bit(And(slab, MAP_MASK), i) <==> i >= 32 && (i - 32) in used
    ensures And(slab, MAP_MASK) < MODULUS
  {
    AndBit(slab, MAP_MASK, i);
    AndBound(slab, MAP_MASK);
    MapMaskBit(i);
    if i >= 32 { assert ChunkBit(slab, w, sh, i - 32) <==> i - 32 < Reserved(sh) || (i - 32) in used; }
  }

  /** (slab & MAP_MASK) == mask, and slab & MAP_MASK */
  lemma BigFull(slab: nat, w: seq<nat>, sh: nat, used: set<nat>)
    requires IsShift(sh) && sh > EXACT_SHIFT && BitmapOk(slab, w, sh, used)
    requires forall c :: c in used ==> c < Cap(sh)
    ensures And(slab, MAP_MASK) == BigMask(sh) <==> Full(sh, used)
    ensures And(slab, MAP_MASK) == 0 <==> forall c: nat :: c < Cap(sh) ==> c !in used
  {
    BitmapFits(sh);
    PowSmall();
    var x := And(slab, MAP_MASK);
    forall i: nat | i < 64
      ensures Bit(x, i) <==> i >= 32 && (i - 32) in used
      ensures Bit(BigMask(sh), i) <==> 32 <= i < 32 + Cap(sh)
      ensures !Bit(0, i) && x < MODULUS && BigMask(sh) < MODULUS
    {
      BigBits(slab, w, sh, used, i);
      BigMaskBit(sh, i);
      ZeroBit(i);
    }
    assert Bit(x, 0) <==> false;
    if Full(sh, used) { SameBits(x, BigMask(sh), 64); }
    if x == BigMask(sh) {
      forall c | Reserved(sh) <= c < Cap(sh)
        ensures c in used
      {
        assert Bit(x, c + 32);
      }
    }
    if forall c: nat :: c < Cap(sh) ==> c !in used { SameBits(x, 0, 64); }
    if x == 0 {
      forall c: nat | c < Cap(sh)
        ensures c !in used
      {
        assert !Bit(x, c + 32);
      }
    }
  }

  /** slab & SHIFT_MASK gives the class of a small or big page. */
  lemma ShiftField(slab: nat, w: seq<nat>, sh: nat, used: set<nat>)
    requires IsShift(sh) && sh != EXACT_SHIFT && BitmapOk(slab, w, sh, used)
    ensures And(slab, SHIFT_MASK) == sh
  {
    assert Pow(4) == 16;
    AndBound(slab, SHIFT_MASK);
    forall i: nat | i < 4
      ensures Bit(And(slab, SHIFT_MASK), i) <==> Bit(sh, i)
    {
      AndBit(slab, SHIFT_MASK, i);
      OnesBit(4, i);
    }
    SameBits(And(slab, SHIFT_MASK), sh, 4);
  }

  /** One word of an in-page bitmap. */
  lemma SmallBit(slab: nat, w: seq<nat>, sh: nat, used: set<nat>, x: nat, b: nat)
    requires IsShift(sh) && sh < EXACT_SHIFT && BitmapOk(slab, w, sh, used) && x < MapWords(sh) && b < 64
    ensures x < |w| && (Bit(w[x], b) <==> 64 * x + b < Reserved(sh) || (64 * x + b) in used)
  {
    BitmapFits(sh);
    var c := 64 * x + b;
    assert c / 64 == x && c % 64 == b;
    assert ChunkBit(slab, w, sh, c) <==> c < Reserved(sh) || c in used;
  }

  ghost predicate WordFull(sh: nat, used: set<nat>, x: nat)
    requires IsShift(sh)
  {
    forall c: nat {:trigger c in used} :: 64 * x <= c < 64 * x + 64 ==> c < Reserved(sh) || c in used
  }

  lemma BusyBit(b: nat)
    requires b < 64
    ensures Bit(PAGE_BUSY, b)
  {
    PowSmall();
    OnesBit(64, b);
  }

  lemma FullWord(slab: nat, w: seq<nat>, sh: nat, used: set<nat>, x: nat)
    requires IsShift(sh) && sh < EXACT_SHIFT && BitmapOk(slab, w, sh, used) && x < MapWords(sh) && WordFull(sh, used, x)
    ensures x < |w| && w[x] == PAGE_BUSY
  {
    BitmapFits(sh);
    PowSmall();
    forall b: nat | b < 64
      ensures Bit(w[x], b) && Bit(PAGE_BUSY, b)
    {
      SmallBit(slab, w, sh, used, x, b);
      BusyBit(b);
    }
    SameBits(w[x], PAGE_BUSY, 64);
  }

  lemma SmallWord(slab: nat, w: seq<nat>, sh: nat, used: set<nat>, x: nat)
    requires IsShift(sh) && sh < EXACT_SHIFT && BitmapOk(slab, w, sh, used) && x < MapWords(sh)
    ensures x < |w| && (w[x] == PAGE_BUSY <==> WordFull(sh, used, x))
  {
    BitmapFits(sh);
    if WordFull(sh, used, x) {
      FullWord(slab, w, sh, used, x);
    } else {
      var c: nat :| 64 * x <= c < 64 * x + 64 && !(c < Reserved(sh) || c in used);
      SmallBit(slab, w, sh, used, x, c - 64 * x);
      BusyBit(c - 64 * x);
    }
  }

  /** A small page is all in use exactly when all its bitmap words are. */
  lemma SmallFull(slab: nat, w: seq<nat>, sh: nat, used: set<nat>)
    requires IsShift(sh) && sh < EXACT_SHIFT && BitmapOk(slab, w, sh, used)
    ensures MapWords(sh) <= |w|
    ensures Full(sh, used) <==> forall x :: 0 <= x < MapWords(sh) ==> w[x] == PAGE_BUSY
  {
    BitmapFits(sh);
    if Full(sh, used) {
      forall x | 0 <= x < MapWords(sh)
        ensures w[x] == PAGE_BUSY
      {
        SmallWord(slab, w, sh, used, x);
      }
    }
    if forall x :: 0 <= x < MapWords(sh) ==> w[x] == PAGE_BUSY {
      forall c | Reserved(sh) <= c < Cap(sh)
        ensures c in used
      {
        SmallWord(slab, w, sh, used, c / 64);
        assert w[c / 64] == PAGE_BUSY;
      }
    }
  }

  /** bitmap[0] & ~((1 << n) - 1) */
  lemma FirstWordBit(slab: nat, w: seq<nat>, sh: nat, used: set<nat>, b: nat)
    requires IsShift(sh) && sh < EXACT_SHIFT && BitmapOk(slab, w, sh, used) && b < 64
    ensures Bit(AndNot(w[0], Pow(Reserved(sh)) - 1), b) <==> Reserved(sh) <= b && b in used
  {
    BitmapFits(sh);
    SmallBit(slab, w, sh, used, 0, b);
    AndNotBit(w[0], Pow(Reserved(sh)) - 1, b);
    OnesBit(Reserved(sh), b);
  }

  ghost predicate NoneUsed(sh: nat, used: set<nat>)
    requires IsShift(sh)
  {
    forall c :: Reserved(sh) <= c < Cap(sh) ==> c !in used
  }

  ghost predicate WordsClear(w: seq<nat>, sh: nat)
    requires IsShift(sh) && 0 < MapWords(sh) <= |w|
  {
    AndNot(w[0], Pow(Reserved(sh)) - 1) == 0 && forall x :: 1 <= x < MapWords(sh) ==> w[x] == 0
  }

  lemma ZeroWord(slab: nat, w: seq<nat>, sh: nat, used: set<nat>, x: nat)
    requires IsShift(sh) && sh < EXACT_SHIFT && BitmapOk(slab, w, sh, used) && 1 <= x < MapWords(sh) && x < |w|
    requires NoneUsed(sh, used)
    ensures w[x] == 0
  {
    BitmapFits(sh);
    PowSmall();
    forall b: nat | b < 64
      ensures !Bit(w[x], b) && !Bit(0, b)
    {
      SmallBit(slab, w, sh, used, x, b);
      ZeroBit(b);
    }
    SameBits(w[x], 0, 64);
  }

  lemma FirstWordClear(slab: nat, w: seq<nat>, sh: nat, used: set<nat>)
    requires IsShift(sh) && sh < EXACT_SHIFT && BitmapOk(slab, w, sh, used) && NoneUsed(sh, used)
    ensures AndNot(w[0], Pow(Reserved(sh)) - 1) == 0
  {
    PowSmall();
    var y := AndNot(w[0], Pow(Reserved(sh)) - 1);
    AndNotBound(w[0], Pow(Reserved(sh)) - 1);
    forall b: nat | b < 64
      ensures !Bit(y, b) && !Bit(0, b)
    {
      FirstBitClear(slab, w, sh, used, b);
      ZeroBit(b);
    }
    SameBits(y, 0, 64);
  }

  lemma FirstBitClear(slab: nat, w: seq<nat>, sh: nat, used: set<nat>, b: nat)
    requires IsShift(sh) && sh < EXACT_SHIFT && BitmapOk(slab, w, sh, used) && NoneUsed(sh, used) && b < 64
    ensures !Bit(AndNot(w[0], Pow(Reserved(sh)) - 1), b)
  {
    BitmapFits(sh);
    FirstWordBit(slab, w, sh, used, b);
  }

  lemma NoneThenClear(slab: nat, w: seq<nat>, sh: nat, used: set<nat>)
    requires IsShift(sh) && sh < EXACT_SHIFT && BitmapOk(slab, w, sh, used) && NoneUsed(sh, used)
    ensures 0 < MapWords(sh) <= |w| && WordsClear(w, sh)
  {
    BitmapFits(sh);
    FirstWordClear(slab, w, sh, used);
    forall x | 1 <= x < MapWords(sh)
      ensures w[x] == 0
    {
      ZeroWord(slab, w, sh, used, x);
    }
  }

  lemma ClearThenNone(slab: nat, w: seq<nat>, sh: nat, used: set<nat>)
    requires IsShift(sh) && sh < EXACT_SHIFT && BitmapOk(slab, w, sh, used)
    requires 0 < MapWords(sh) <= |w| && WordsClear(w, sh)
    ensures NoneUsed(sh, used)
  {
    BitmapFits(sh);
    forall c | Reserved(sh) <= c < Cap(sh)
      ensures c !in used
    {
      if c < 64 {
        FirstWordBit(slab, w, sh, used, c);
        ZeroBit(c);
      } else {
        SmallBit(slab, w, sh, used, c / 64, c % 64);
        ZeroBit(c % 64);
      }
    }
  }

  /** Is any chunk of a small page left in use? */
  lemma SmallEmpty(slab: nat, w: seq<nat>, sh: nat, used: set<nat>)
    requires IsShift(sh) && sh < EXACT_SHIFT && BitmapOk(slab, w, sh, used)
    ensures 0 < MapWords(sh) <= |w|
    ensures NoneUsed(sh, used) <==> WordsClear(w, sh)
  {
    BitmapFits(sh);
    if NoneUsed(sh, used) { NoneThenClear(slab, w, sh, used); }
    if WordsClear(w, sh) { ClearThenNone(slab, w, sh, used); }
  }
}
