/** Tree nodes, and what the linked structure is at one moment, as a value.

    A `State` records the links and colours of every node together with three ghost
    facts per node: its position in the in-order sequence, the stretch of that sequence
    its subtree covers, and its black height.  The invariant over these is local to a
    node and its neighbours. */
module RbLinks {
  import opened RbShape

  /** 64-bit keys. */
  const MODULUS: nat := 0x1_0000_0000_0000_0000
  type Word = x: nat | x < MODULUS

  class Node {
    var key: Word
    var left: Node?
    var right: Node?
    var parent: Node?
    var color: Color
  }

  datatype Rec = Rec(left: Node, right: Node, parent: Node?, color: Color,
                     idx: int,  // position in the in-order sequence
                     lo: int,   // the subtree covers [lo, hi) of that sequence
                     hi: int,
                     bh: nat)   // black height of the subtree, this node included

  datatype State = State(nil: Node, root: Node, mem: map<Node, Rec>, order: seq<Node>)

  /** Pointer `m` below `p` reaches a subtree that covers [a, b). */
  ghost predicate Kid(s: State, m: Node, p: Node, a: int, b: int) {
    if m == s.nil then a == b
    else m in s.mem && s.mem[m].parent == p && s.mem[m].lo == a && s.mem[m].hi == b
  }

  ghost predicate Placed(s: State, n: Node)
    requires n in s.mem
  {
    var r := s.mem[n];
    && 0 <= r.lo <= r.idx < r.hi <= |s.order| && s.order[r.idx] == n
    && Kid(s, r.left, n, r.lo, r.idx)
    && Kid(s, r.right, n, r.idx + 1, r.hi)
    && (n != s.root ==>
         && r.parent != null && r.parent in s.mem
         && (s.mem[r.parent].left == n || s.mem[r.parent].right == n))
  }

  /** Links, positions and the in-order sequence agree.  The parent of the root and
      the parent of the sentinel are not constrained. */
  ghost predicate Geometry(s: State) {
    && s.nil !in s.mem
    && (forall n {:trigger Placed(s, n)} :: n in s.mem ==> Placed(s, n))
    && (forall i :: 0 <= i < |s.order| ==> s.order[i] in s.mem && s.mem[s.order[i]].idx == i)
    && (if s.root == s.nil then s.order == []
        else s.root in s.mem && s.mem[s.root].lo == 0 && s.mem[s.root].hi == |s.order|)
  }

  ghost function BH(s: State, m: Node): nat {
    if m in s.mem then s.mem[m].bh else 0
  }

  ghost predicate IsBlack(s: State, m: Node) {
    m in s.mem ==> s.mem[m].color.Black?
  }

  /** Equal black heights on both sides. */
  ghost predicate Level(s: State, n: Node)
    requires n in s.mem
  {
    var r := s.mem[n];
    BH(s, r.left) == BH(s, r.right) && r.bh == BH(s, r.left) + Weight(r.color)
  }

  /** A red node has black children. */
  ghost predicate Calm(s: State, n: Node)
    requires n in s.mem
  {
    s.mem[n].color.Red? ==> IsBlack(s, s.mem[n].left) && IsBlack(s, s.mem[n].right)
  }

  ghost predicate RedBlack(s: State) {
    && Geometry(s)
    && IsBlack(s, s.root)
    && (forall n {:trigger Level(s, n)} :: n in s.mem ==> Level(s, n))
    && (forall n {:trigger Calm(s, n)} :: n in s.mem ==> Calm(s, n))
  }

  /** Nobody but its parent points at a node, and nobody at all points at the root. */
  lemma OnlyParent(s: State, m: Node, n: Node)
    requires Geometry(s) && m in s.mem && n in s.mem
    ensures s.mem[n].left == m || s.mem[n].right == m ==> m != s.root && s.mem[m].parent == n
    ensures !(s.mem[n].left == m && s.mem[n].right == m)
  {
    assert Placed(s, n) && Placed(s, m);
  }

  // ---------- sides ----------

  /** The child on side `d` (true is left), and the one on the other side. */
  ghost function Near(r: Rec, d: bool): Node {
    if d then r.left else r.right
  }

  ghost function Far(r: Rec, d: bool): Node {
    if d then r.right else r.left
  }

  ghost predicate Real(s: State, m: Node) {
    m in s.mem
  }

  // ---------- rotations ----------

  ghost predicate CanRotate(s: State, d: bool, node: Node) {
    Geometry(s) && node in s.mem && Real(s, Far(s.mem[node], d))
  }

  /** What a rotation at `node` towards side `d` makes of node `n`. */
  ghost function RotateRec(s: State, d: bool, node: Node, n: Node): Rec
    requires node in s.mem && Far(s.mem[node], d) in s.mem && n in s.mem
  {
    var x, r := s.mem[node], s.mem[n];
    var temp := Far(x, d);
    var y := s.mem[temp];
    if n == node then
      if d then r.(right := y.left, parent := temp, hi := y.idx)
      else r.(left := y.right, parent := temp, lo := y.idx + 1)
    else if n == temp then
      if d then r.(left := node, parent := x.parent, lo := x.lo, hi := x.hi)
      else r.(right := node, parent := x.parent, lo := x.lo, hi := x.hi)
    else
      r.(left := if r.left == node then temp else r.left,
         right := if r.right == node then temp else r.right,
         parent := if n == Near(y, d) then node else r.parent)
  }

  ghost function Rotate(s: State, d: bool, node: Node): State
    requires node in s.mem && Far(s.mem[node], d) in s.mem
  {
    s.(root := if node == s.root then Far(s.mem[node], d) else s.root,
       mem := map n | n in s.mem :: RotateRec(s, d, node, n))
  }

  /** What the rotation code relies on: the pointers it follows are where they should be. */
  ghost predicate Pivot(s: State, d: bool, node: Node) {
    && s.nil !in s.mem && node in s.mem && Far(s.mem[node], d) in s.mem
    && (forall n :: n in s.mem && (s.mem[n].left == node || s.mem[n].right == node) ==>
         node != s.root && s.mem[node].parent == n && !(s.mem[n].left == node && s.mem[n].right == node))
    && var temp := Far(s.mem[node], d);
    && temp != node && temp != s.root
    && var b := Near(s.mem[temp], d);
    && b != node && b != temp && (b == s.nil || (b in s.mem && b != s.root))
    && (node != s.root ==>
         var p := s.mem[node].parent;
         p in s.mem && p != node && p != temp && (s.mem[p].left == node || s.mem[p].right == node))
  }

  lemma PivotHere(s: State, d: bool, node: Node)
    requires CanRotate(s, d, node)
    ensures Pivot(s, d, node)
  {
    var temp := Far(s.mem[node], d);
    Around(s, d, node, node);
    OnlyParent(s, node, temp);
    OnlyParent(s, temp, temp);
    OnlyParent(s, node, node);
    if Near(s.mem[temp], d) in s.mem { OnlyParent(s, Near(s.mem[temp], d), temp); }
    forall n | n in s.mem
      ensures s.mem[n].left == node || s.mem[n].right == node ==> node != s.root && s.mem[node].parent == n
      ensures !(s.mem[n].left == node && s.mem[n].right == node)
    {
      OnlyParent(s, node, n);
    }
  }

  /** The pointers around a rotation at `node`. */
  lemma Around(s: State, d: bool, node: Node, n: Node)
    requires CanRotate(s, d, node) && n in s.mem
    ensures var temp := Far(s.mem[node], d);
      && Placed(s, n) && Placed(s, node) && Placed(s, temp) && temp != node
      && (s.mem[n].left == node || s.mem[n].right == node ==> node != s.root && s.mem[node].parent == n)
      && (s.mem[n].left == temp || s.mem[n].right == temp ==> n == node)
      && temp != s.root && Near(s.mem[node], d) != temp
  {
    var temp := Far(s.mem[node], d);
    assert Placed(s, n) && Placed(s, node) && Placed(s, temp);
    OnlyParent(s, node, n);
    OnlyParent(s, temp, n);
    OnlyParent(s, temp, node);
  }

  lemma RotatePlacedNode(s: State, d: bool, node: Node)
    requires CanRotate(s, d, node)
    ensures Placed(Rotate(s, d, node), node)
  {
    Around(s, d, node, node);
  }

  lemma RotatePlacedTemp(s: State, d: bool, node: Node)
    requires CanRotate(s, d, node)
    ensures Placed(Rotate(s, d, node), Far(s.mem[node], d))
  {
    var temp := Far(s.mem[node], d);
    Around(s, d, node, temp);
    if node != s.root {
      Around(s, d, node, s.mem[node].parent);
    }
  }

  lemma RotatePlacedOther(s: State, d: bool, node: Node, n: Node)
    requires CanRotate(s, d, node) && n in s.mem && n != node && n != Far(s.mem[node], d)
    ensures Placed(Rotate(s, d, node), n)
  {
    Around(s, d, node, n);
  }

  lemma RotatePlaced(s: State, d: bool, node: Node, n: Node)
    requires CanRotate(s, d, node) && n in s.mem
    ensures Placed(Rotate(s, d, node), n)
  {
    if n == node {
      RotatePlacedNode(s, d, node);
    } else if n == Far(s.mem[node], d) {
      RotatePlacedTemp(s, d, node);
    } else {
      RotatePlacedOther(s, d, node, n);
    }
  }

  /** A rotation keeps the in-order sequence and the agreement of all links with it. */
  lemma RotateGeometry(s: State, d: bool, node: Node)
    requires CanRotate(s, d, node)
    ensures Geometry(Rotate(s, d, node))
  {
    var s' := Rotate(s, d, node);
    forall n | n in s.mem
      ensures Placed(s', n)
    {
      RotatePlaced(s, d, node, n);
    }
    Around(s, d, node, s.root);
  }

  // ---------- recolouring ----------

  ghost function Bare(r: Rec): Rec {
    r.(color := Red, bh := 0)
  }

  /** The two states differ at most in colours and black heights. */
  ghost predicate SameLinks(s: State, s': State) {
    && s'.nil == s.nil && s'.root == s.root && s'.order == s.order && s'.mem.Keys == s.mem.Keys
    && forall n :: n in s.mem ==> Bare(s'.mem[n]) == Bare(s.mem[n])
  }

  lemma SameLinksPlaced(s: State, s': State, n: Node)
    requires SameLinks(s, s') && Geometry(s) && n in s.mem
    ensures Placed(s', n)
  {
    assert Placed(s, n);
    var r, r' := s.mem[n], s'.mem[n];
    assert Bare(r') == Bare(r);
    forall m, p, a, b | Kid(s, m, p, a, b)
      ensures Kid(s', m, p, a, b)
    {
      if m in s.mem { assert Bare(s'.mem[m]) == Bare(s.mem[m]); }
    }
    if n != s.root {
      assert Bare(s'.mem[r.parent]) == Bare(s.mem[r.parent]);
    }
  }

  lemma SameLinksGeometry(s: State, s': State)
    requires SameLinks(s, s') && Geometry(s)
    ensures Geometry(s')
  {
    forall n | n in s'.mem
      ensures Placed(s', n)
    {
      SameLinksPlaced(s, s', n);
    }
    forall i | 0 <= i < |s'.order|
      ensures s'.order[i] in s'.mem && s'.mem[s'.order[i]].idx == i
    {
      assert Bare(s'.mem[s.order[i]]) == Bare(s.mem[s.order[i]]);
    }
    if s.root in s.mem {
      assert Bare(s'.mem[s.root]) == Bare(s.mem[s.root]);
    }
  }

  ghost function Paint(s: State, n: Node, c: Color, b: nat): State
    requires n in s.mem
  {
    s.(mem := s.mem[n := s.mem[n].(color := c, bh := b)])
  }

  /** Two nodes exchange colour and black height. */
  ghost function Exchange(s: State, x: Node, y: Node): State
    requires x in s.mem && y in s.mem
  {
    Paint(Paint(s, x, s.mem[y].color, s.mem[y].bh), y, s.mem[x].color, s.mem[x].bh)
  }

  /** A rotation in which the rising node takes over the colour of the sinking one and
      the other way round.  Every rebalancing rotation has this form. */
  ghost function Turn(s: State, d: bool, node: Node): State
    requires CanRotate(s, d, node)
  {
    SameLinksGeometry(s, Exchange(s, node, Far(s.mem[node], d)));
    Rotate(Exchange(s, node, Far(s.mem[node], d)), d, node)
  }

  /** The records a turn produces. */
  lemma TurnRecs(s: State, d: bool, node: Node)
    requires CanRotate(s, d, node)
    ensures var temp := Far(s.mem[node], d); var s' := Turn(s, d, node);
      && temp != node && s'.mem.Keys == s.mem.Keys && s'.order == s.order && s'.nil == s.nil
      && s'.root == (if node == s.root then temp else s.root)
      && Near(s'.mem[node], d) == Near(s.mem[node], d) && Far(s'.mem[node], d) == Near(s.mem[temp], d)
      && s'.mem[node].color == s.mem[temp].color && s'.mem[node].bh == s.mem[temp].bh && s'.mem[node].parent == temp
      && Near(s'.mem[temp], d) == node && Far(s'.mem[temp], d) == Far(s.mem[temp], d)
      && s'.mem[temp].color == s.mem[node].color && s'.mem[temp].bh == s.mem[node].bh
      && s'.mem[temp].parent == s.mem[node].parent
      && Near(s.mem[node], d) != node && Near(s.mem[node], d) != temp
      && Near(s.mem[temp], d) != node && Near(s.mem[temp], d) != temp
      && Far(s.mem[temp], d) != node && Far(s.mem[temp], d) != temp
  {
    var temp := Far(s.mem[node], d);
    Around(s, d, node, temp);
    Around(s, d, node, node);
    OnlyParent(s, node, temp);
    OnlyParent(s, temp, temp);
    OnlyParent(s, node, node);
  }

  lemma TurnGeometry(s: State, d: bool, node: Node)
    requires CanRotate(s, d, node)
    ensures Geometry(Turn(s, d, node))
  {
    var e := Exchange(s, node, Far(s.mem[node], d));
    SameLinksGeometry(s, e);
    RotateGeometry(e, d, node);
  }

  lemma TurnRecOther(s: State, d: bool, node: Node, n: Node)
    requires CanRotate(s, d, node) && n in s.mem && n != node && n != Far(s.mem[node], d)
    ensures var temp := Far(s.mem[node], d); var s' := Turn(s, d, node);
      && n in s'.mem && s'.mem[n].color == s.mem[n].color && s'.mem[n].bh == s.mem[n].bh
      && s'.mem[n].left == (if s.mem[n].left == node then temp else s.mem[n].left)
      && s'.mem[n].right == (if s.mem[n].right == node then temp else s.mem[n].right)
      && s'.mem[n].parent == (if n == Near(s.mem[temp], d) then node else s.mem[n].parent)
      && s.mem[n].left != temp && s.mem[n].right != temp
      && s'.mem[n].lo == s.mem[n].lo && s'.mem[n].hi == s.mem[n].hi
  {
    Around(s, d, node, n);
  }

  /** A turn does not disturb any node but the two it moves. */
  lemma TurnOther(s: State, d: bool, node: Node, n: Node)
    requires CanRotate(s, d, node) && n in s.mem && n != node && n != Far(s.mem[node], d)
    ensures n in Turn(s, d, node).mem
    ensures Level(s, n) ==> Level(Turn(s, d, node), n)
    ensures Calm(s, n) ==> Calm(Turn(s, d, node), n)
  {
    var s' := Turn(s, d, node);
    TurnRecs(s, d, node);
    TurnRecOther(s, d, node, n);
    TurnPointer(s, d, node, s.mem[n].left);
    TurnPointer(s, d, node, s.mem[n].right);
  }

  /** What a pointer elsewhere in the tree sees is unchanged. */
  lemma TurnPointer(s: State, d: bool, node: Node, m: Node)
    requires CanRotate(s, d, node) && m != Far(s.mem[node], d)
    ensures var s' := Turn(s, d, node); var m' := if m == node then Far(s.mem[node], d) else m;
      BH(s', m') == BH(s, m) && (IsBlack(s', m') <==> IsBlack(s, m))
  {
    TurnRecs(s, d, node);
    if m in s.mem && m != node { TurnRecOther(s, d, node, m); }
  }
}
