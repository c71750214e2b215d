/** Hanging a new node into the tree and taking one out, before any rebalancing. */
module RbEdit {
  import opened Common
  import opened RbShape
  import opened RbLinks
  import opened RbBalance

  // ---------- a new leaf ----------

  /** Where a new child on side `d` of `temp` lands in the in-order sequence. */
  ghost function Slot(s: State, temp: Node, d: bool): int
    requires temp in s.mem
  {
    if d then s.mem[temp].idx else s.mem[temp].idx + 1
  }

  ghost predicate CanHang(s: State, temp: Node, d: bool, node: Node) {
    Geometry(s) && temp in s.mem && Near(s.mem[temp], d) == s.nil && node !in s.mem && node != s.nil
  }

  ghost function Lift(x: int, i: int, d: bool): int {
    if (if d then x > i else x >= i) then x + 1 else x
  }

  ghost function HangRec(s: State, temp: Node, d: bool, node: Node, n: Node): Rec
    requires CanHang(s, temp, d, node) && (n == node || n in s.mem)
  {
    var i := Slot(s, temp, d);
    if n == node then Rec(s.nil, s.nil, temp, Red, i, i, i + 1, 0)
    else
      var r := s.mem[n];
      r.(left := if n == temp && d then node else r.left,
         right := if n == temp && !d then node else r.right,
         idx := if r.idx >= i then r.idx + 1 else r.idx,
         lo := Lift(r.lo, i, d),
         hi := Lift(r.hi, i, d))
  }

  ghost function Hang(s: State, temp: Node, d: bool, node: Node): State
    requires CanHang(s, temp, d, node)
    requires 0 <= Slot(s, temp, d) <= |s.order|
  {
    var i := Slot(s, temp, d);
    s.(mem := map n | n in s.mem.Keys + {node} :: HangRec(s, temp, d, node, n),
       order := s.order[..i] + [node] + s.order[i..])
  }

  lemma HangSlot(s: State, temp: Node, d: bool)
    requires Geometry(s) && temp in s.mem
    ensures 0 <= Slot(s, temp, d) <= |s.order|
  {
    assert Placed(s, temp);
  }

  lemma HangPlacedNew(s: State, temp: Node, d: bool, node: Node)
    requires CanHang(s, temp, d, node) && 0 <= Slot(s, temp, d) <= |s.order|
    ensures Placed(Hang(s, temp, d, node), node)
  {
    assert Placed(s, temp);
  }

  lemma HangPlacedOld(s: State, temp: Node, d: bool, node: Node, n: Node)
    requires CanHang(s, temp, d, node) && 0 <= Slot(s, temp, d) <= |s.order| && n in s.mem
    ensures Placed(Hang(s, temp, d, node), n)
  {
    assert Placed(s, temp) && Placed(s, n);
  }

  lemma HangGeometry(s: State, temp: Node, d: bool, node: Node)
    requires CanHang(s, temp, d, node) && 0 <= Slot(s, temp, d) <= |s.order|
    ensures Geometry(Hang(s, temp, d, node))
  {
    var s' := Hang(s, temp, d, node);
    forall n | n in s'.mem
      ensures Placed(s', n)
    {
      if n == node { HangPlacedNew(s, temp, d, node); } else { HangPlacedOld(s, temp, d, node, n); }
    }
    assert Placed(s, temp);
    forall k | 0 <= k < |s'.order|
      ensures s'.order[k] in s'.mem && s'.mem[s'.order[k]].idx == k
    {
      HangOrderAt(s, temp, d, node, k);
    }
  }

  lemma HangOrderAt(s: State, temp: Node, d: bool, node: Node, k: int)
    requires CanHang(s, temp, d, node) && 0 <= Slot(s, temp, d) <= |s.order| && 0 <= k < |Hang(s, temp, d, node).order|
    ensures var s' := Hang(s, temp, d, node);
      s'.order[k] in s'.mem && s'.mem[s'.order[k]].idx == k
  {
    assert Placed(s, temp);
    var i := Slot(s, temp, d);
    if k != i { var m := s.order[if k < i then k else k - 1]; assert m in s.mem; }
  }

  /** A fresh red leaf leaves at most one conflict, with its parent. */
  lemma HangInserting(s: State, temp: Node, d: bool, node: Node)
    requires CanHang(s, temp, d, node) && RedBlack(s)
    ensures 0 <= Slot(s, temp, d) <= |s.order| && Inserting(Hang(s, temp, d, node), node)
  {
    HangSlot(s, temp, d);
    HangGeometry(s, temp, d, node);
    var s' := Hang(s, temp, d, node);
    assert Placed(s, temp);
    forall n | n in s'.mem
      ensures Level(s', n)
      ensures CalmBut(s', n, node)
      ensures n != temp ==> Calm(s', n)
    {
      if n != node {
        assert Level(s, n) && Calm(s, n) && Placed(s, n);
      }
    }
  }

  // ---------- taking a node with at most one child out ----------

  ghost function Drop(x: int, j: int): int {
    if x > j then x - 1 else x
  }

  /** `temp` is the only child of `node`, or the sentinel. */
  ghost predicate CanUnlink(s: State, node: Node, temp: Node) {
    && Geometry(s) && node in s.mem
    && (if s.mem[node].left == s.nil then temp == s.mem[node].right
        else s.mem[node].right == s.nil && temp == s.mem[node].left)
  }

  ghost function UnlinkRec(s: State, node: Node, temp: Node, n: Node): Rec
    requires CanUnlink(s, node, temp) && n in s.mem
  {
    var j, r := s.mem[node].idx, s.mem[n];
    r.(left := if r.left == node then temp else r.left,
       right := if r.right == node then temp else r.right,
       parent := if n == temp && node != s.root then s.mem[node].parent else r.parent,
       idx := Drop(r.idx, j), lo := Drop(r.lo, j), hi := Drop(r.hi, j))
  }

  ghost function Unlink(s: State, node: Node, temp: Node): State
    requires CanUnlink(s, node, temp) && 0 <= s.mem[node].idx < |s.order|
  {
    s.(root := if s.root == node then temp else s.root,
       mem := map n | n in s.mem.Keys - {node} :: UnlinkRec(s, node, temp, n),
       order := RemoveAt(s.order, s.mem[node].idx))
  }

  lemma UnlinkAround(s: State, node: Node, temp: Node, n: Node)
    requires CanUnlink(s, node, temp) && n in s.mem
    ensures Placed(s, node) && Placed(s, n)
    ensures s.mem[n].left == node || s.mem[n].right == node ==> node != s.root && s.mem[node].parent == n
    ensures !(s.mem[n].left == node && s.mem[n].right == node)
    ensures temp in s.mem ==> temp != node && temp != s.root && s.mem[temp].parent == node && Placed(s, temp)
    ensures temp in s.mem && (s.mem[n].left == temp || s.mem[n].right == temp) ==> n == node
  {
    assert Placed(s, node) && Placed(s, n);
    OnlyParent(s, node, n);
    if temp in s.mem { OnlyParent(s, temp, n); OnlyParent(s, temp, node); assert Placed(s, temp); }
  }

  lemma UnlinkPlacedTemp(s: State, node: Node, temp: Node)
    requires CanUnlink(s, node, temp) && 0 <= s.mem[node].idx < |s.order| && temp in s.mem
    ensures temp != node && Placed(Unlink(s, node, temp), temp)
  {
    UnlinkAround(s, node, temp, temp);
  }

  lemma UnlinkPlacedOther(s: State, node: Node, temp: Node, n: Node)
    requires CanUnlink(s, node, temp) && 0 <= s.mem[node].idx < |s.order| && n in s.mem && n != node && n != temp
    ensures Placed(Unlink(s, node, temp), n)
  {
    UnlinkAround(s, node, temp, n);
  }

  lemma UnlinkPlaced(s: State, node: Node, temp: Node, n: Node)
    requires CanUnlink(s, node, temp) && 0 <= s.mem[node].idx < |s.order| && n in s.mem && n != node
    ensures Placed(Unlink(s, node, temp), n)
  {
    if n == temp { UnlinkPlacedTemp(s, node, temp); } else { UnlinkPlacedOther(s, node, temp, n); }
  }

  lemma UnlinkGeometry(s: State, node: Node, temp: Node)
    requires CanUnlink(s, node, temp)
    ensures 0 <= s.mem[node].idx < |s.order| && Geometry(Unlink(s, node, temp))
  {
    assert Placed(s, node);
    var s' := Unlink(s, node, temp);
    forall n | n in s'.mem
      ensures Placed(s', n)
    {
      UnlinkPlaced(s, node, temp, n);
    }
    forall k | 0 <= k < |s'.order|
      ensures s'.order[k] in s'.mem && s'.mem[s'.order[k]].idx == k
    {
      UnlinkOrder(s, node, temp, k);
    }
  }

  lemma UnlinkOrder(s: State, node: Node, temp: Node, k: int)
    requires CanUnlink(s, node, temp) && 0 <= s.mem[node].idx < |s.order| && 0 <= k < |s.order| - 1
    ensures var s' := Unlink(s, node, temp);
      |s'.order| == |s.order| - 1 && s'.order[k] in s'.mem && s'.mem[s'.order[k]].idx == k
  {
    var j := s.mem[node].idx;
    var m := s.order[if k < j then k else k + 1];
    assert Placed(s, node);
    assert m in s.mem && m != node;
  }

  /** What every other node sees after the unlinking: its pointer to `node`, if it had
      one, now leads to `temp`. */
  lemma UnlinkLevel(s: State, node: Node, temp: Node, n: Node)
    requires CanUnlink(s, node, temp) && RedBlack(s) && 0 <= s.mem[node].idx < |s.order|
    requires n in s.mem && n != node
    ensures var s' := Unlink(s, node, temp);
      && n in s'.mem
      && (s.mem[node].color.Red? || node == s.root || s.mem[node].parent != n ==> Level(s', n))
      && (s.mem[node].color.Red? || node == s.root || s.mem[node].parent != n ==> Calm(s', n))
      && BH(s', temp) == BH(s, temp) == s.mem[node].bh - Weight(s.mem[node].color)
  {
    UnlinkAround(s, node, temp, n);
    assert Level(s, n) && Calm(s, n) && Level(s, node) && Calm(s, node);
  }

  /** Taking out a red node leaves a red-black tree. */
  lemma UnlinkRed(s: State, node: Node, temp: Node)
    requires CanUnlink(s, node, temp) && RedBlack(s) && s.mem[node].color.Red?
    ensures 0 <= s.mem[node].idx < |s.order| && RedBlack(Unlink(s, node, temp))
  {
    UnlinkGeometry(s, node, temp);
    var s' := Unlink(s, node, temp);
    forall n | n in s'.mem
      ensures Level(s', n) && Calm(s', n)
    {
      UnlinkLevel(s, node, temp, n);
    }
  }

  /** Taking out a black node below the root leaves its place one black node short. */
  lemma UnlinkBlack(s: State, node: Node, temp: Node)
    requires CanUnlink(s, node, temp) && RedBlack(s) && s.mem[node].color.Black? && node != s.root
    ensures 0 <= s.mem[node].idx < |s.order|
    ensures var p := s.mem[node].parent;
      p in s.mem && Short(Unlink(s, node, temp), temp, s.mem[p].left == node, p)
  {
    UnlinkGeometry(s, node, temp);
    var s' := Unlink(s, node, temp);
    assert Placed(s, node);
    var p := s.mem[node].parent;
    UnlinkAround(s, node, temp, p);
    assert Level(s, p) && Calm(s, p);
    forall n | n in s'.mem
      ensures n != p ==> Level(s', n)
      ensures n != p ==> Calm(s', n)
      ensures BH(s', temp) == s.mem[node].bh - 1
    {
      UnlinkLevel(s, node, temp, n);
    }
  }

  /** Taking out the root leaves its only child, if any, to be blackened. */
  lemma UnlinkRoot(s: State, node: Node, temp: Node)
    requires CanUnlink(s, node, temp) && RedBlack(s) && node == s.root
    ensures 0 <= s.mem[node].idx < |s.order|
    ensures var s' := Unlink(s, node, temp); if temp == s.nil then RedBlack(s') else ShortRoot(s')
  {
    UnlinkGeometry(s, node, temp);
    var s' := Unlink(s, node, temp);
    assert Placed(s, node);
    forall n | n in s'.mem
      ensures Level(s', n) && Calm(s', n)
    {
      UnlinkLevel(s, node, temp, n);
    }
  }

  // ---------- two nodes trade places ----------

  ghost function Other(a: Node, b: Node, n: Node): Node {
    if n == a then b else if n == b then a else n
  }

  /** `a` and `b` exchange their places in the tree, colours included. */
  ghost function Trade(s: State, a: Node, b: Node): State
    requires a in s.mem && b in s.mem
  {
    s.(root := Other(a, b, s.root),
       mem := map n | n in s.mem :: TradeRec(s, a, b, n),
       order := seq(|s.order|, k requires 0 <= k < |s.order| => Other(a, b, s.order[k])))
  }

  ghost function TradeRec(s: State, a: Node, b: Node, n: Node): Rec
    requires a in s.mem && b in s.mem && n in s.mem
  {
    var r := s.mem[Other(a, b, n)];
    r.(left := Other(a, b, r.left), right := Other(a, b, r.right),
       parent := if r.parent == null || Other(a, b, n) == s.root then r.parent else Other(a, b, r.parent))
  }

  lemma TradePlaced(s: State, a: Node, b: Node, n: Node)
    requires Geometry(s) && a in s.mem && b in s.mem && n in s.mem
    ensures Placed(Trade(s, a, b), n)
  {
    var s', m := Trade(s, a, b), Other(a, b, n);
    assert Placed(s, m);
    var r := s.mem[m];
    if r.left in s.mem { OnlyParent(s, r.left, m); }
    if r.right in s.mem { OnlyParent(s, r.right, m); }
    TradeKid(s, a, b, r.left, m, r.lo, r.idx);
    TradeKid(s, a, b, r.right, m, r.idx + 1, r.hi);
    if n != s'.root {
      assert s'.mem[Other(a, b, r.parent)] == TradeRec(s, a, b, Other(a, b, r.parent));
    }
  }

  lemma TradeKid(s: State, a: Node, b: Node, m: Node, p: Node, x: int, y: int)
    requires Geometry(s) && a in s.mem && b in s.mem && Kid(s, m, p, x, y) && (m in s.mem ==> m != s.root)
    ensures Kid(Trade(s, a, b), Other(a, b, m), Other(a, b, p), x, y)
  {
  }

  lemma TradeOrder(s: State, a: Node, b: Node, k: int)
    requires Geometry(s) && a in s.mem && b in s.mem && 0 <= k < |s.order|
    ensures var s' := Trade(s, a, b); s'.order[k] in s'.mem && s'.mem[s'.order[k]].idx == k
  {
    var m := s.order[k];
    assert m in s.mem && Other(a, b, Other(a, b, m)) == m;
  }

  lemma TradeRoot(s: State, a: Node, b: Node)
    requires Geometry(s) && a in s.mem && b in s.mem
    ensures var s' := Trade(s, a, b);
      s'.root in s'.mem && s'.root != s.nil && s'.mem[s'.root].lo == 0 && s'.mem[s'.root].hi == |s.order|
  {
    assert Placed(s, a);
    assert Other(a, b, Other(a, b, s.root)) == s.root;
  }

  lemma TradeGeometry(s: State, a: Node, b: Node)
    requires Geometry(s) && a in s.mem && b in s.mem
    ensures Geometry(Trade(s, a, b))
  {
    var s' := Trade(s, a, b);
    forall n | n in s'.mem
      ensures Placed(s', n)
    {
      TradePlaced(s, a, b, n);
    }
    forall k | 0 <= k < |s'.order|
      ensures s'.order[k] in s'.mem && s'.mem[s'.order[k]].idx == k
    {
      TradeOrder(s, a, b, k);
    }
    TradeRoot(s, a, b);
  }

  lemma TradePointer(s: State, a: Node, b: Node, m: Node)
    requires a in s.mem && b in s.mem
    ensures BH(Trade(s, a, b), Other(a, b, m)) == BH(s, m)
    ensures IsBlack(Trade(s, a, b), Other(a, b, m)) <==> IsBlack(s, m)
  {
  }

  lemma TradeRedBlack(s: State, a: Node, b: Node)
    requires RedBlack(s) && a in s.mem && b in s.mem
    ensures RedBlack(Trade(s, a, b))
  {
    TradeGeometry(s, a, b);
    var s' := Trade(s, a, b);
    TradePointer(s, a, b, s.root);
    forall n | n in s'.mem
      ensures Level(s', n) && Calm(s', n)
    {
      var m := Other(a, b, n);
      assert Level(s, m) && Calm(s, m);
      TradePointer(s, a, b, s.mem[m].left);
      TradePointer(s, a, b, s.mem[m].right);
    }
  }

  // ---------- taking a node with two children out ----------

  /** `subst` is the next node in order after `node`, which has two children; `temp` is
      the only child `subst` can have. */
  ghost predicate CanReplace(s: State, node: Node, subst: Node, temp: Node) {
    && Geometry(s) && node in s.mem && subst in s.mem
    && s.mem[node].left != s.nil && s.mem[node].right != s.nil
    && s.mem[subst].idx == s.mem[node].idx + 1
    && s.mem[subst].left == s.nil && temp == s.mem[subst].right
  }

  /** The next node hangs on the left somewhere, or directly on the right of `node`. */
  lemma ReplaceFacts(s: State, node: Node, subst: Node, temp: Node)
    requires CanReplace(s, node, subst, temp)
    ensures subst != node && subst != s.root && s.mem[subst].parent != null
    ensures var q := s.mem[subst].parent;
      && q in s.mem && q != subst
      && (if q == node then s.mem[node].right == subst && s.mem[node].left != subst
          else
            s.mem[q].left == subst && s.mem[q].right != subst && s.mem[node].right != subst
              && s.mem[node].left != subst)
    ensures temp == s.nil || (temp in s.mem && temp != subst && temp != node && temp != s.root
                              && s.mem[temp].parent == subst)
    ensures s.mem[node].left in s.mem && s.mem[node].right in s.mem && s.mem[node].left != node
      && s.mem[node].right != node
    ensures s.mem[s.mem[node].left].parent == node && s.mem[s.mem[node].right].parent == node
    ensures s.mem[subst].parent != temp
      && (node != s.root ==> s.mem[node].parent != subst && s.mem[node].parent != node)
  {
    assert Placed(s, node) && Placed(s, subst);
    OnlyParent(s, subst, node);
    OnlyParent(s, subst, subst);
    OnlyParent(s, node, node);
    OnlyParent(s, node, subst);
    var q := s.mem[subst].parent;
    assert subst != s.root;
    assert Placed(s, q);
    OnlyParent(s, subst, q);
    if temp in s.mem { assert Placed(s, temp); OnlyParent(s, temp, subst); OnlyParent(s, subst, temp); }
    if node != s.root { assert Placed(s, s.mem[node].parent); }
  }

  /** The tree after the node is replaced by the next one. */
  ghost function Replace(s: State, node: Node, subst: Node, temp: Node): State
    requires CanReplace(s, node, subst, temp)
  {
    ReplaceUnlink(s, node, subst, temp);
    Unlink(Trade(s, node, subst), node, temp)
  }

  lemma ReplaceUnlink(s: State, node: Node, subst: Node, temp: Node)
    requires CanReplace(s, node, subst, temp)
    ensures var s' := Trade(s, node, subst);
      && CanUnlink(s', node, temp) && s'.mem[node].idx == s.mem[subst].idx && 0 <= s.mem[subst].idx < |s'.order|
      && s'.root != node && s'.mem[node].color == s.mem[subst].color
  {
    ReplaceFacts(s, node, subst, temp);
    TradeGeometry(s, node, subst);
    assert Placed(s, subst);
  }

  /** The in-order sequence loses exactly `node`. */
  lemma ReplaceOrder(s: State, node: Node, subst: Node, temp: Node)
    requires CanReplace(s, node, subst, temp)
    ensures 0 <= s.mem[node].idx < |s.order|
    ensures Replace(s, node, subst, temp).order == RemoveAt(s.order, s.mem[node].idx)
  {
    assert Placed(s, node) && Placed(s, subst);
    var i := s.mem[node].idx;
    var q := Trade(s, node, subst).order;
    forall k | 0 <= k < |q|
      ensures q[k] == if k == i then subst else if k == i + 1 then node else s.order[k]
    {
      assert s.mem[s.order[k]].idx == k;
    }
    assert Replace(s, node, subst, temp).order == RemoveAt(q, i + 1);
    RemoveTraded(s.order, q, i);
  }

  /** Removing an element after its exchange with the next is removing it before. */
  lemma RemoveTraded<T>(order: seq<T>, q: seq<T>, i: int)
    requires |q| == |order| && 0 <= i && i + 1 < |q|
    requires forall k :: 0 <= k < |q| ==>
      q[k] == if k == i then order[i + 1] else if k == i + 1 then order[i] else order[k]
    ensures RemoveAt(q, i + 1) == RemoveAt(order, i)
  {
  }

  /** Whose child `temp` is afterwards. */
  lemma ReplaceParent(s: State, node: Node, subst: Node, temp: Node)
    requires CanReplace(s, node, subst, temp)
    ensures var s' := Replace(s, node, subst, temp);
      if temp in s.mem then
        temp in s'.mem && s'.mem[temp].parent == if s.mem[subst].parent == node then subst else s.mem[subst].parent
      else temp == s.nil && temp !in s'.mem
  {
    ReplaceFacts(s, node, subst, temp);
    if temp in s.mem { ReplaceRec(s, node, subst, temp, temp); }
  }

  lemma ReplaceTemp(s: State, node: Node, subst: Node, temp: Node)
    requires CanReplace(s, node, subst, temp)
    ensures (temp == s.nil || temp in s.mem) && node in s.mem && subst in s.mem
  {
    ReplaceFacts(s, node, subst, temp);
  }

  lemma ReplaceRec(s: State, node: Node, subst: Node, temp: Node, n: Node)
    requires CanReplace(s, node, subst, temp) && n in s.mem && n != node
    ensures n in Replace(s, node, subst, temp).mem
    ensures var x, r, r' := s.mem[node], s.mem[n], Replace(s, node, subst, temp).mem[n];
      r'.color == if n == subst then x.color else r.color
    ensures var x, r, r' := s.mem[node], s.mem[n], Replace(s, node, subst, temp).mem[n];
      r'.left ==
      if n == subst then x.left else if r.left == node then subst else if r.left == subst then temp else r.left
    ensures var x, r, r' := s.mem[node], s.mem[n], Replace(s, node, subst, temp).mem[n];
      r'.right == if n == subst then (if x.right == subst then temp else x.right)
                  else if r.right == node then subst else r.right
    ensures var x, r, r' := s.mem[node], s.mem[n], Replace(s, node, subst, temp).mem[n];
      r'.parent == if n == subst then x.parent
                   else if n == temp then (if s.mem[subst].parent == node then subst else s.mem[subst].parent)
                   else if n != s.root && r.parent == node then subst else r.parent
  {
    ReplaceFacts(s, node, subst, temp);
    OnlyParent(s, subst, n);
    OnlyParent(s, node, n);
    assert Placed(s, n);
  }

  /** What taking out a node with at most one child leaves to be done. */
  lemma UnlinkReady(s: State, node: Node, temp: Node) returns (s': State)
    requires CanUnlink(s, node, temp) && RedBlack(s)
    ensures 0 <= s.mem[node].idx < |s.order| && s' == Unlink(s, node, temp)
    ensures s'.mem.Keys == s.mem.Keys - {node} && s'.order == RemoveAt(s.order, s.mem[node].idx)
    ensures node == s.root ==> s'.root == temp && (if temp == s.nil then RedBlack(s') else ShortRoot(s'))
    ensures node != s.root && s.mem[node].color.Red? ==> RedBlack(s')
    ensures node != s.root && s.mem[node].color.Black? ==>
      var p := s.mem[node].parent; p != null && p in s'.mem && Short(s', temp, s'.mem[p].left == temp, p)
  {
    assert Placed(s, node);
    s' := Unlink(s, node, temp);
    if node == s.root {
      UnlinkRoot(s, node, temp);
    } else if s.mem[node].color.Red? {
      UnlinkRed(s, node, temp);
    } else {
      UnlinkBlack(s, node, temp);
      ShortSide(s', temp, s.mem[s.mem[node].parent].left == node, s.mem[node].parent);
    }
  }

  /** The same for a node with two children. */
  lemma ReplaceReadyBalance(s: State, node: Node, subst: Node, temp: Node) returns (s': State, p: Node)
    requires CanReplace(s, node, subst, temp) && RedBlack(s)
    ensures s' == Replace(s, node, subst, temp) && 0 <= s.mem[node].idx < |s.order|
    ensures s'.mem.Keys == s.mem.Keys - {node} && s'.order == RemoveAt(s.order, s.mem[node].idx)
    ensures p == if s.mem[subst].parent == node then subst else s.mem[subst].parent
    ensures s.mem[subst].color.Red? ==> RedBlack(s')
    ensures s.mem[subst].color.Black? ==> p in s'.mem && Short(s', temp, s'.mem[p].left == temp, p)
  {
    ReplaceFacts(s, node, subst, temp);
    ReplaceUnlink(s, node, subst, temp);
    ReplaceOrder(s, node, subst, temp);
    TradeRedBlack(s, node, subst);
    s' := UnlinkReady(Trade(s, node, subst), node, temp);
    p := if s.mem[subst].parent == node then subst else s.mem[subst].parent;
  }
}
