/** The loops of the allocator that look at sizes and bitmaps. */
module SlabScan {
  import opened Words
  import opened SlabModel
  import opened SlabPages
  import opened SlabBits

  // ---------- the class of a request ----------

  function Halvings(x: nat): nat {
    if x == 0 then 0 else 1 + Halvings(x / 2)
  }

  lemma {:induction false} HalvingsBound(x: nat)
    ensures x < Pow(Halvings(x))
    ensures x > 0 ==> Pow(Halvings(x) - 1) <= x
  {
    if x > 0 { HalvingsBound(x / 2); }
  }

  lemma SizeIsPow(sh: nat)
    requires IsShift(sh)
    ensures Size(sh) == Pow(sh)
  {
    assert Pow(3) == 8;
    assert Pow(4) == 16 && Pow(5) == 32 && Pow(6) == 64;
    assert Pow(7) == 128 && Pow(8) == 256;
    assert Pow(9) == 512 && Pow(10) == 1024 && Pow(11) == 2048;
  }

  /** The smallest chunk size that fits the request. */
  method ClassOf(size: nat) returns (shift: nat)
    requires size <= MAX_SIZE
    ensures shift == Fit(size)
    ensures IsShift(shift) && size <= Size(shift)
    ensures shift > MIN_SHIFT ==> IsShift(shift - 1) && Size(shift - 1) < size
  {
    if size > 8 {
      shift := 1;
      var s: nat := (size - 1) / 2;
      while s != 0
        invariant shift >= 1 && shift + Halvings(s) == Halvings(size - 1)
        decreases s
      {
        shift := shift + 1;
        s := s / 2;
      }
      HalvingsBound(size - 1);
      ClassBounds(size, shift);
    } else {
      shift := MIN_SHIFT;
    }
  }

  lemma ClassBounds(size: nat, shift: nat)
    requires 8 < size <= MAX_SIZE && shift >= 1 && Pow(shift - 1) <= size - 1 < Pow(shift)
    ensures IsShift(shift) && size <= Size(shift) && shift > MIN_SHIFT && Size(shift - 1) < size
  {
    assert Pow(3) == 8;
    SizeIsPow(11);
    if shift <= 3 { PowMonotone(shift, 3); }
    if shift > 11 { PowMonotone(11, shift - 1); }
    SizeIsPow(shift);
    SizeIsPow(shift - 1);
  }

  // ---------- looking for a clear bit ----------

  /** The first clear bit of `w` at or after `lo`, scanning with a moving mask. */
  method ScanBits(w: nat, lo: nat, hi: nat) returns (i: nat)
    requires exists x: nat :: lo <= x < hi && !Bit(w, x)
    ensures lo <= i < hi && !Bit(w, i)
    ensures forall x: nat :: lo <= x < i ==> Bit(w, x)
  {
    i := lo;
    var m := Pow(lo);
    TestBit(w, i);
    while And(w, m) != 0
      invariant lo <= i < hi && m == Pow(i)
      invariant And(w, m) != 0 <==> Bit(w, i)
      invariant forall x: nat :: lo <= x < i ==> Bit(w, x)
      decreases hi - i
    {
      m := 2 * m;
      i := i + 1;
      TestBit(w, i);
    }
  }

  // ---------- a free chunk of a page that is not all in use ----------

  method FindSmall(w: seq<nat>, sh: nat, ghost slab: nat, ghost used: set<nat>) returns (c: nat)
    requires IsShift(sh) && sh < EXACT_SHIFT && BitmapOk(slab, w, sh, used) && !Full(sh, used)
    ensures Reserved(sh) <= c < Cap(sh) && c !in used
    ensures c / 64 < |w| && forall x :: 0 <= x < c / 64 ==> w[x] == PAGE_BUSY
  {
    SmallFull(slab, w, sh, used);
    BitmapFits(sh);
    var n := 0;
    while w[n] == PAGE_BUSY
      invariant n < MapWords(sh) && forall x :: 0 <= x < n ==> w[x] == PAGE_BUSY
      decreases MapWords(sh) - n
    {
      n := n + 1;
    }
    NotBusy(w[n]);
    var b := ScanBits(w[n], 0, 64);
    SmallBit(slab, w, sh, used, n, b);
    c := n * 64 + b;
  }

  lemma NotBusy(w: nat)
    requires w < MODULUS && w != PAGE_BUSY
    ensures exists x: nat :: 0 <= x < 64 && !Bit(w, x)
  {
    PowSmall();
    var b := ClearBit(w, 64);
  }

  method FindChunk(slab: nat, w: seq<nat>, sh: nat, ghost used: set<nat>) returns (c: nat)
    requires IsShift(sh) && BitmapOk(slab, w, sh, used) && !Full(sh, used)
    ensures Reserved(sh) <= c < Cap(sh) && c !in used
    ensures sh < EXACT_SHIFT ==> c / 64 < |w| && forall x :: 0 <= x < c / 64 ==> w[x] == PAGE_BUSY
  {
    BitmapFits(sh);
    ghost var c0 :| Reserved(sh) <= c0 < Cap(sh) && c0 !in used;
    assert ChunkBit(slab, w, sh, c0) <==> c0 < Reserved(sh) || c0 in used;
    if sh < EXACT_SHIFT {
      c := FindSmall(w, sh, slab, used);
    } else if sh == EXACT_SHIFT {
      c := ScanBits(slab, 0, 64);
      assert ChunkBit(slab, w, sh, c) <==> c < Reserved(sh) || c in used;
    } else {
      assert !Bit(slab, 32 + c0);
      var b := ScanBits(slab, 32, 32 + Cap(sh));
      c := b - 32;
      assert ChunkBit(slab, w, sh, c) <==> c < Reserved(sh) || c in used;
    }
  }

  // ---------- the tests after a change ----------

  /** After chunk `c` was marked: is the page all in use?  For an in-page bitmap only the
      words from that of `c` on are looked at. */
  method IsFull(slab: nat, w: seq<nat>, sh: nat, c: nat, ghost used: set<nat>) returns (full: bool)
    requires IsShift(sh) && BitmapOk(slab, w, sh, used) && c < Cap(sh) && (forall x :: x in used ==> x < Cap(sh))
    requires sh < EXACT_SHIFT ==> c / 64 < |w| && forall x :: 0 <= x < c / 64 ==> w[x] == PAGE_BUSY
    ensures full <==> Full(sh, used)
  {
    BitmapFits(sh);
    if sh < EXACT_SHIFT {
      SmallFull(slab, w, sh, used);
      var n := c / 64;
      while n < MapWords(sh) && w[n] == PAGE_BUSY
        invariant n <= MapWords(sh) && forall x :: 0 <= x < n ==> w[x] == PAGE_BUSY
      {
        n := n + 1;
      }
      full := n == MapWords(sh);
    } else if sh == EXACT_SHIFT {
      ExactFull(slab, w, used);
      full := slab == PAGE_BUSY;
    } else {
      BigFull(slab, w, sh, used);
      full := And(slab, MAP_MASK) == BigMask(sh);
    }
  }

  /** After a chunk was cleared: is any chunk of the page still in use? */
  method IsEmpty(slab: nat, w: seq<nat>, sh: nat, ghost used: set<nat>) returns (empty: bool)
    requires IsShift(sh) && BitmapOk(slab, w, sh, used) && (forall x :: x in used ==> Reserved(sh) <= x < Cap(sh))
    ensures empty <==> used == {}
  {
    BitmapFits(sh);
    if sh < EXACT_SHIFT {
      SmallEmpty(slab, w, sh, used);
      empty := AndNot(w[0], Pow(Reserved(sh)) - 1) == 0;
      var i := 1;
      while empty && i < MapWords(sh)
        invariant 1 <= i <= MapWords(sh)
        invariant empty ==> AndNot(w[0], Pow(Reserved(sh)) - 1) == 0 && forall x :: 1 <= x < i ==> w[x] == 0
        invariant !empty ==> !WordsClear(w, sh)
      {
        empty := w[i] == 0;
        i := i + 1;
      }
    } else if sh == EXACT_SHIFT {
      ExactFull(slab, w, used);
      empty := slab == 0;
    } else {
      BigFull(slab, w, sh, used);
      empty := And(slab, MAP_MASK) == 0;
    }
  }
}
