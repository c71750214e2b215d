/** A red-black tree as a plain recursive value: the independent reading of what the
    linked structure in RbTree stands for. */
module RbShape {

  datatype Color = Red | Black

  /** A subtree over nodes of type N.  Leaf stands for the shared sentinel. */
  datatype Shape<N> = Leaf | Bin(c: Color, l: Shape<N>, n: N, r: Shape<N>)

  ghost function InOrder<N>(s: Shape<N>): seq<N> {
    match s
    case Leaf => []
    case Bin(_, l, n, r) => InOrder(l) + [n] + InOrder(r)
  }

  ghost predicate IsRed<N>(s: Shape<N>) {
    s.Bin? && s.c.Red?
  }

  ghost function Weight(c: Color): nat {
    if c.Black? then 1 else 0
  }

  ghost function BlackHeight<N>(s: Shape<N>): nat {
    match s
    case Leaf => 0
    case Bin(c, l, _, _) => BlackHeight(l) + Weight(c)
  }

  /** No red node has a red child, and every path down has the same number of black nodes. */
  ghost predicate Balanced<N>(s: Shape<N>) {
    match s
    case Leaf => true
    case Bin(c, l, _, r) =>
      && Balanced(l) && Balanced(r)
      && BlackHeight(l) == BlackHeight(r)
      && (c.Red? ==> !IsRed(l) && !IsRed(r))
  }

  // ---------- height ----------

  ghost function Height<N>(s: Shape<N>): nat {
    match s
    case Leaf => 0
    case Bin(_, l, _, r) => 1 + if Height(l) < Height(r) then Height(r) else Height(l)
  }

  ghost function Pow2(k: nat): nat {
    if k == 0 then 1 else 2 * Pow2(k - 1)
  }

  lemma {:induction false} HeightVsBlackHeight<N>(s: Shape<N>)
    requires Balanced(s)
    ensures Height(s) <= 2 * BlackHeight(s) + (if IsRed(s) then 1 else 0)
    ensures |InOrder(s)| + 1 >= Pow2(BlackHeight(s))
  {
    if s.Bin? {
      HeightVsBlackHeight(s.l);
      HeightVsBlackHeight(s.r);
    }
  }

  lemma {:induction false} Pow2Double(k: nat)
    ensures Pow2(2 * k) == Pow2(k) * Pow2(k)
  {
    if k > 0 {
      Pow2Double(k - 1);
      var p := Pow2(k - 1);
      assert Pow2(2 * k) == 4 * Pow2(2 * (k - 1));
      assert (2 * p) * (2 * p) == 4 * (p * p);
    }
  }

  lemma {:induction false} Pow2Monotone(a: nat, b: nat)
    requires a <= b
    ensures Pow2(a) <= Pow2(b)
  {
    if a < b {
      Pow2Monotone(a, b - 1);
    }
  }

  lemma SquareMonotone(a: nat, b: nat)
    requires a <= b
    ensures a * a <= b * b
  {
    assert a * a <= a * b <= b * b;
  }

  /** Height is at most 2*log2(n+1): two to the height is at most (n+1) squared. */
  lemma HeightBound<N>(s: Shape<N>)
    requires Balanced(s) && !IsRed(s)
    ensures Pow2(Height(s)) <= (|InOrder(s)| + 1) * (|InOrder(s)| + 1)
  {
    HeightVsBlackHeight(s);
    var h := BlackHeight(s);
    Pow2Monotone(Height(s), 2 * h);
    Pow2Double(h);
    SquareMonotone(Pow2(h), |InOrder(s)| + 1);
  }
}
