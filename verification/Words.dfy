/** Machine words as natural numbers, with their bits and the bitwise operators the
    allocator applies to them. */
module Words {

  const MODULUS: nat := 0x1_0000_0000_0000_0000
  type Word = x: nat | x < MODULUS

  /** Bit `i` of `w`, counted from the low end. */
  predicate Bit(w: nat, i: nat)
    decreases i
  {
    if i == 0 then w % 2 == 1 else Bit(w / 2, i - 1)
  }

  function Pow(i: nat): (p: nat)
    ensures p > 0
  {
    if i == 0 then 1 else 2 * Pow(i - 1)
  }

  function And(a: nat, b: nat): nat {
    if a == 0 || b == 0 then 0 else 2 * And(a / 2, b / 2) + (if a % 2 == 1 && b % 2 == 1 then 1 else 0)
  }

  function Or(a: nat, b: nat): nat {
    if a == 0 then b else if b == 0 then a
    else 2 * Or(a / 2, b / 2) + (if a % 2 == 1 || b % 2 == 1 then 1 else 0)
  }

  /** `a & ~b` */
  function AndNot(a: nat, b: nat): nat {
    if a == 0 then 0 else 2 * AndNot(a / 2, b / 2) + (if a % 2 == 1 && b % 2 == 0 then 1 else 0)
  }

  // ---------- what the operators do to single bits ----------

  lemma {:induction false} ZeroBit(i: nat)
    ensures !Bit(0, i)
  {
    if i > 0 { ZeroBit(i - 1); }
  }

  lemma Doubled(h: nat, c: nat)
    requires c <= 1
    ensures (2 * h + c) / 2 == h && (2 * h + c) % 2 == c
  {
  }

  lemma {:induction false} AndBit(a: nat, b: nat, i: nat)
    ensures Bit(And(a, b), i) <==> Bit(a, i) && Bit(b, i)
    decreases i
  {
    if a == 0 || b == 0 {
      ZeroBit(i);
    } else {
      Doubled(And(a / 2, b / 2), if a % 2 == 1 && b % 2 == 1 then 1 else 0);
      if i > 0 { AndBit(a / 2, b / 2, i - 1); }
    }
  }

  lemma {:induction false} OrBit(a: nat, b: nat, i: nat)
    ensures Bit(Or(a, b), i) <==> Bit(a, i) || Bit(b, i)
    decreases i
  {
    if a == 0 || b == 0 {
      ZeroBit(i);
    } else {
      Doubled(Or(a / 2, b / 2), if a % 2 == 1 || b % 2 == 1 then 1 else 0);
      if i > 0 { OrBit(a / 2, b / 2, i - 1); }
    }
  }

  lemma {:induction false} AndNotBit(a: nat, b: nat, i: nat)
    ensures Bit(AndNot(a, b), i) <==> Bit(a, i) && !Bit(b, i)
    decreases i
  {
    if a == 0 {
      ZeroBit(i);
    } else {
      Doubled(AndNot(a / 2, b / 2), if a % 2 == 1 && b % 2 == 0 then 1 else 0);
      if i > 0 { AndNotBit(a / 2, b / 2, i - 1); }
    }
  }

  lemma {:induction false} PowBit(k: nat, i: nat)
    ensures Bit(Pow(k), i) <==> i == k
    decreases i
  {
    if i == 0 {
    } else if k == 0 {
      ZeroBit(i - 1);
    } else {
      PowBit(k - 1, i - 1);
    }
  }

  lemma {:induction false} PowMonotone(a: nat, b: nat)
    requires a <= b
    ensures Pow(a) <= Pow(b)
  {
    if a < b { PowMonotone(a, b - 1); }
  }

  lemma PowSmall()
    ensures Pow(32) == 0x1_0000_0000 && Pow(64) == MODULUS
  {
    assert Pow(8) == 256;
    PowAdd(8, 8);
    PowAdd(16, 16);
    PowAdd(32, 32);
  }

  lemma {:induction false} PowAdd(a: nat, b: nat)
    ensures Pow(a + b) == Pow(a) * Pow(b)
  {
    if a > 0 {
      PowAdd(a - 1, b);
    }
  }

  // ---------- words are determined by their bits ----------

  /** A number below 2^k is given by its k low bits. */
  lemma {:induction false} SameBits(a: nat, b: nat, k: nat)
    requires a < Pow(k) && b < Pow(k)
    requires forall i: nat :: i < k ==> (Bit(a, i) <==> Bit(b, i))
    ensures a == b
    decreases k
  {
    if k > 0 {
      assert Bit(a, 0) <==> Bit(b, 0);
      forall i: nat | i < k - 1
        ensures Bit(a / 2, i) <==> Bit(b / 2, i)
      {
        assert Bit(a, i + 1) <==> Bit(b, i + 1);
      }
      SameBits(a / 2, b / 2, k - 1);
    }
  }

  lemma {:induction false} OnesBit(k: nat, i: nat)
    ensures Bit(Pow(k) - 1, i) <==> i < k
    decreases k
  {
    if k == 0 {
      ZeroBit(i);
    } else if i > 0 {
      OnesBit(k - 1, i - 1);
      assert (Pow(k) - 1) / 2 == Pow(k - 1) - 1;
    }
  }

  lemma {:induction false} AndBound(a: nat, b: nat)
    ensures And(a, b) <= a && And(a, b) <= b
  {
    if a != 0 && b != 0 { AndBound(a / 2, b / 2); }
  }

  lemma {:induction false} AndNotBound(a: nat, b: nat)
    ensures AndNot(a, b) <= a
  {
    if a != 0 { AndNotBound(a / 2, b / 2); }
  }

  lemma {:induction false} OrBound(a: nat, b: nat, k: nat)
    requires a < Pow(k) && b < Pow(k)
    ensures Or(a, b) < Pow(k)
    decreases k
  {
    if a != 0 && b != 0 { OrBound(a / 2, b / 2, k - 1); }
  }

  /** The test `w & (1 << i)`. */
  lemma {:induction false} TestBit(w: nat, i: nat)
    ensures And(w, Pow(i)) != 0 <==> Bit(w, i)
    decreases i
  {
    if w == 0 {
      ZeroBit(i);
    } else if i == 0 {
      assert And(w, 1) == w % 2 by {
        assert And(w / 2, 0) == 0;
      }
    } else {
      TestBit(w / 2, i - 1);
    }
  }

  /** `w` below 2^k is not all ones exactly when some bit below k is clear. */
  lemma {:induction false} ClearBit(w: nat, k: nat) returns (i: nat)
    requires w < Pow(k) - 1
    ensures i < k && !Bit(w, i)
    decreases k
  {
    if w % 2 == 0 {
      i := 0;
    } else {
      var j := ClearBit(w / 2, k - 1);
      i := j + 1;
    }
  }

  /** a << k */
  function Shl(a: nat, k: nat): nat {
    if k == 0 then a else 2 * Shl(a, k - 1)
  }

  lemma {:induction false} ShlBit(a: nat, k: nat, i: nat)
    ensures Bit(Shl(a, k), i) <==> i >= k && Bit(a, i - k)
    decreases k
  {
    if k > 0 && i > 0 { ShlBit(a, k - 1, i - 1); }
  }

  lemma {:induction false} ShlBound(a: nat, k: nat, n: nat)
    requires a < Pow(n)
    ensures Shl(a, k) < Pow(n + k)
  {
    if k > 0 { ShlBound(a, k - 1, n); }
  }

  /** The bits of a number shifted up. */
  lemma {:induction false} ShiftBit(a: nat, k: nat, i: nat)
    ensures Bit(a * Pow(k), i) <==> i >= k && Bit(a, i - k)
    decreases k
  {
    if k > 0 {
      ShiftBit(a, k - 1, if i > 0 then i - 1 else 0);
      assert a * Pow(k) == 2 * (a * Pow(k - 1));
    }
  }

  /** The bits of a sum whose parts do not overlap. */
  lemma {:induction false} JoinBit(hi: nat, lo: nat, k: nat, i: nat)
    requires lo < Pow(k)
    ensures Bit(hi * Pow(k) + lo, i) <==> if i < k then Bit(lo, i) else Bit(hi, i - k)
    decreases k
  {
    if k > 0 {
      assert hi * Pow(k) == 2 * (hi * Pow(k - 1));
      assert (hi * Pow(k) + lo) / 2 == hi * Pow(k - 1) + lo / 2;
      if i > 0 { JoinBit(hi, lo / 2, k - 1, i - 1); }
    }
  }
}
