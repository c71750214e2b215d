/** What the linked structure stands for: the local invariant of RbLinks means exactly
    that the links unfold to a recursive red-black tree with the recorded in-order
    sequence, whose height is logarithmic. */
module RbMeaning {
  import opened RbShape
  import opened RbLinks

  /** Following the links from `m` yields the tree `t`, with every child pointing back
      at its parent. */
  ghost predicate Unfolds(s: State, m: Node, t: Shape<Node>)
    decreases t
  {
    match t
    case Leaf => m == s.nil
    case Bin(c, l, n, r) =>
      && m == n && n in s.mem && n != s.nil && s.mem[n].color == c
      && Unfolds(s, s.mem[n].left, l) && Unfolds(s, s.mem[n].right, r)
      && (l.Bin? ==> l.n in s.mem && s.mem[l.n].parent == n)
      && (r.Bin? ==> r.n in s.mem && s.mem[r.n].parent == n)
  }

  lemma JoinStretches<T>(q: seq<T>, a: int, i: int, b: int)
    requires 0 <= a <= i < b <= |q|
    ensures q[a..b] == q[a..i] + [q[i]] + q[i + 1..b]
  {
  }

  /** The unfolding of a subtree: its in-order sequence is the stretch it covers. */
  lemma {:induction false} UnfoldAt(s: State, m: Node, a: int, b: int) returns (t: Shape<Node>)
    requires Geometry(s) && 0 <= a <= b <= |s.order|
    requires if m == s.nil then a == b else m in s.mem && s.mem[m].lo == a && s.mem[m].hi == b
    ensures Unfolds(s, m, t) && InOrder(t) == s.order[a..b]
    decreases b - a
  {
    if m == s.nil {
      t := Leaf;
    } else {
      assert Placed(s, m);
      var r := s.mem[m];
      var l' := UnfoldAt(s, r.left, a, r.idx);
      var r' := UnfoldAt(s, r.right, r.idx + 1, b);
      t := Bin(r.color, l', m, r');
      JoinStretches(s.order, a, r.idx, b);
    }
  }

  /** The colour and black-height conditions at every node add up to a balanced tree. */
  lemma {:induction false} UnfoldBalanced(s: State, m: Node, t: Shape<Node>)
    requires RedBlack(s) && Unfolds(s, m, t)
    ensures Balanced(t) && BlackHeight(t) == BH(s, m) && (IsRed(t) <==> !IsBlack(s, m))
    decreases t
  {
    if t.Bin? {
      UnfoldBalanced(s, s.mem[m].left, t.l);
      UnfoldBalanced(s, s.mem[m].right, t.r);
      assert Level(s, m) && Calm(s, m);
    }
  }

  /** A state that satisfies the invariant is a red-black tree in the usual sense. */
  lemma IsRedBlackTree(s: State) returns (t: Shape<Node>)
    requires RedBlack(s)
    ensures Unfolds(s, s.root, t) && InOrder(t) == s.order
    ensures Balanced(t) && !IsRed(t)
    ensures Pow2(Height(t)) <= (|s.order| + 1) * (|s.order| + 1)
  {
    t := UnfoldAt(s, s.root, 0, |s.order|);
    UnfoldBalanced(s, s.root, t);
    assert s.order[0..|s.order|] == s.order;
    HeightBound(t);
  }

  /** The links determine the tree. */
  lemma {:induction false} UnfoldsUnique(s: State, m: Node, t: Shape<Node>, t': Shape<Node>)
    requires s.nil !in s.mem && Unfolds(s, m, t) && Unfolds(s, m, t')
    ensures t == t'
    decreases t
  {
    if t.Bin? {
      UnfoldsUnique(s, s.mem[m].left, t.l, t'.l);
      UnfoldsUnique(s, s.mem[m].right, t.r, t'.r);
    }
  }
}
