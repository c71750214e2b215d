/** The assignments of the tree code, one at a time and in program order, as operations
    on State values; and the proof that each sequence of them has the intended effect. */
module RbSteps {
  import opened RbShape
  import opened RbLinks
  import opened RbBalance
  import opened RbEdit

  // ---------- single assignments, as values ----------

  ghost function WithRoot(s: State, m: Node): State {
    s.(root := m)
  }

  ghost function WithLeft(s: State, n: Node, m: Node): State
    requires n in s.mem
  {
    s.(mem := s.mem[n := s.mem[n].(left := m)])
  }

  ghost function WithRight(s: State, n: Node, m: Node): State
    requires n in s.mem
  {
    s.(mem := s.mem[n := s.mem[n].(right := m)])
  }

  ghost function WithParent(s: State, n: Node, m: Node?): State {
    if n in s.mem then s.(mem := s.mem[n := s.mem[n].(parent := m)]) else s
  }

  ghost function WithColor(s: State, n: Node, c: Color): State {
    if n in s.mem then s.(mem := s.mem[n := s.mem[n].(color := c)]) else s
  }

  /** Two states with the same links and colours. */
  ghost predicate Agree(s: State, s': State) {
    && s'.nil == s.nil && s'.root == s.root && s'.mem.Keys <= s.mem.Keys
    && forall n :: n in s'.mem ==>
         && s'.mem[n].left == s.mem[n].left && s'.mem[n].right == s.mem[n].right
         && s'.mem[n].parent == s.mem[n].parent && s'.mem[n].color == s.mem[n].color
  }

  /** The pointer that led to `node`, in the tree head or in its parent, leads to `temp`. */
  ghost function WithLink(s: State, node: Node, temp: Node): State
    requires node in s.mem
  {
    var p := s.mem[node].parent;
    if node == s.root then WithRoot(s, temp)
    else if p == null || p !in s.mem then s
    else if s.mem[p].left == node then WithLeft(s, p, temp)
    else WithRight(s, p, temp)
  }

  ghost function WithNear(s: State, d: bool, n: Node, m: Node): State
    requires n in s.mem
  {
    if d then WithLeft(s, n, m) else WithRight(s, n, m)
  }

  /** The assignments of a rotation, in program order: first those below and at the
      two nodes, then the link from above and the new link between the two. */
  ghost function LowerSteps(s: State, d: bool, node: Node): State
    requires Pivot(s, d, node)
  {
    var temp := Far(s.mem[node], d);
    var b := Near(s.mem[temp], d);
    var s1 := WithNear(s, !d, node, b);
    WithParent(if b != s.nil then WithParent(s1, b, node) else s1, temp, s.mem[node].parent)
  }

  ghost function Steps(s: State, d: bool, node: Node): State
    requires Pivot(s, d, node)
  {
    var temp := Far(s.mem[node], d);
    var s4 := WithLink(LowerSteps(s, d, node), node, temp);
    WithParent(WithNear(s4, d, temp, node), node, temp)
  }

  lemma LowerStepsAt(s: State, d: bool, node: Node, n: Node)
    requires Pivot(s, d, node) && n in s.mem
    ensures var temp := Far(s.mem[node], d); var b := Near(s.mem[temp], d);
      var s3 := LowerSteps(s, d, node);
      && s3.mem.Keys == s.mem.Keys && s3.nil == s.nil && s3.root == s.root
      && s3.mem[n].color == s.mem[n].color
      && s3.mem[n].parent == (if n == temp then s.mem[node].parent else if n == b then node else s.mem[n].parent)
      && s3.mem[n].left == (if n == node && !d then b else s.mem[n].left)
      && s3.mem[n].right == (if n == node && d then b else s.mem[n].right)
  {
  }

  lemma LowerStepsLink(s: State, d: bool, node: Node)
    requires Pivot(s, d, node)
    ensures var s3 := LowerSteps(s, d, node); var p := s.mem[node].parent;
      && s3.mem.Keys == s.mem.Keys && s3.root == s.root && s3.mem[node].parent == p
      && (node != s.root ==> s3.mem[p].left == s.mem[p].left && s3.mem[p].right == s.mem[p].right)
  {
    LowerStepsAt(s, d, node, node);
    if node != s.root { LowerStepsAt(s, d, node, s.mem[node].parent); }
  }

  ghost predicate AgreeAt(s: State, s': State, n: Node)
    requires n in s.mem && n in s'.mem
  {
    && s'.mem[n].left == s.mem[n].left && s'.mem[n].right == s.mem[n].right
    && s'.mem[n].parent == s.mem[n].parent && s'.mem[n].color == s.mem[n].color
  }

  lemma StepsKeys(s: State, d: bool, node: Node)
    requires Pivot(s, d, node)
    ensures Steps(s, d, node).mem.Keys == s.mem.Keys
  {
    LowerStepsAt(s, d, node, node);
  }

  lemma StepsAt(s: State, d: bool, node: Node, n: Node)
    requires Pivot(s, d, node) && n in s.mem
    ensures n in Steps(s, d, node).mem && AgreeAt(Steps(s, d, node), Rotate(s, d, node), n)
  {
    StepsKeys(s, d, node);
    LowerStepsAt(s, d, node, n);
    LowerStepsAt(s, d, node, node);
    if node != s.root { LowerStepsAt(s, d, node, s.mem[node].parent); }
  }

  lemma StepsRotate(s: State, d: bool, node: Node)
    requires Pivot(s, d, node)
    ensures Agree(Steps(s, d, node), Rotate(s, d, node))
  {
    forall n | n in s.mem
      ensures n in Steps(s, d, node).mem && AgreeAt(Steps(s, d, node), Rotate(s, d, node), n)
    {
      StepsAt(s, d, node, n);
    }
    StepsKeys(s, d, node);
    LowerStepsAt(s, d, node, node);
  }

  lemma PaintSteps(s: State, x: Node, y: Node)
    requires x in s.mem && y in s.mem && x != y
    ensures Agree(WithColor(WithColor(s, y, s.mem[x].color), x, s.mem[y].color), Exchange(s, x, y))
  {
  }

  lemma RecolorUpSteps(s: State, p: Node, u: Node, g: Node)
    requires p in s.mem && u in s.mem && g in s.mem && g != p && g != u && p != u
    ensures Agree(WithColor(WithColor(WithColor(s, p, Black), u, Black), g, Red), RecolorUp(s, p, u, g))
  {
  }

  ghost function Planted(nil: Node, node: Node): State {
    State(nil, node, map[node := Rec(nil, nil, null, Black, 0, 0, 1, 1)], [node])
  }

  lemma PlantedRedBlack(nil: Node, node: Node)
    requires node != nil
    ensures RedBlack(Planted(nil, node))
  {
    var s := Planted(nil, node);
    forall n | n in s.mem
      ensures Placed(s, n) && Level(s, n) && Calm(s, n)
    {
    }
  }

  lemma NonEmptyTree(s: State)
    requires Geometry(s) && s.mem.Keys != {}
    ensures s.root != s.nil
  {
    var n :| n in s.mem;
    assert Placed(s, n);
  }

  lemma EmptyTree(s: State)
    requires Geometry(s) && s.root == s.nil
    ensures s.mem == map[] && s.order == []
  {
    if s.mem.Keys != {} { NonEmptyTree(s); }
  }

  lemma PaintStep(s: State, n: Node, c: Color, b: nat)
    requires n in s.mem
    ensures Agree(WithColor(s, n, c), Paint(s, n, c, b))
  {
  }

  ghost function WithLeaf(s: State, node: Node, temp: Node): State {
    s.(mem := s.mem[node := Rec(s.nil, s.nil, temp, Red, 0, 0, 0, 0)])
  }

  lemma LeafSteps(s: State, temp: Node, d: bool, node: Node)
    requires CanHang(s, temp, d, node) && 0 <= Slot(s, temp, d) <= |s.order|
    ensures Agree(WithLeaf(WithNear(s, d, temp, node), node, temp), Hang(s, temp, d, node))
  {
  }

  // ---------- the assignments of delete ----------

  lemma UnlinkSteps(s: State, node: Node, temp: Node)
    requires CanUnlink(s, node, temp) && 0 <= s.mem[node].idx < |s.order|
    ensures var s1 := WithLink(s, node, temp);
      Agree(if node == s.root then s1 else WithParent(s1, temp, s.mem[node].parent), Unlink(s, node, temp))
  {
    forall n | n in s.mem
      ensures s.mem[n].left == node || s.mem[n].right == node ==> node != s.root && s.mem[node].parent == n
      ensures !(s.mem[n].left == node && s.mem[n].right == node)
    {
      UnlinkAround(s, node, temp, n);
    }
    assert Placed(s, node);
  }

  /** `subst` gets the links and the colour of `node`. */
  ghost function CopyTo(s: State, subst: Node, node: Node): State
    requires subst in s.mem && node in s.mem
  {
    var s1 := WithLeft(s, subst, s.mem[node].left);
    var s2 := WithRight(s1, subst, s1.mem[node].right);
    var s3 := WithParent(s2, subst, s2.mem[node].parent);
    WithColor(s3, subst, s3.mem[node].color)
  }

  /** `subst` is taken out of its place and takes over the fields of `node` ... */
  ghost function TakeOver(s: State, node: Node, subst: Node, temp: Node): State
    requires CanReplace(s, node, subst, temp)
  {
    ReplaceFacts(s, node, subst, temp);
    var q := s.mem[subst].parent;
    var s1 := WithLink(s, subst, temp);
    CopyTo(WithParent(s1, temp, if q == node then subst else q), subst, node)
  }

  lemma TakeOverAt(s: State, node: Node, subst: Node, temp: Node, n: Node)
    requires CanReplace(s, node, subst, temp) && n in s.mem
    ensures var s6 := TakeOver(s, node, subst, temp); var x, r, q := s.mem[node], s.mem[n], s.mem[subst].parent;
      && s6.mem.Keys == s.mem.Keys && s6.root == s.root && s6.nil == s.nil
      && s6.mem[n].color == (if n == subst then x.color else r.color)
      && s6.mem[n].left == (if n == subst then x.left else if r.left == subst then temp else r.left)
      && s6.mem[n].right == (if n == subst then (if x.right == subst then temp else x.right)
                             else if r.right == subst then temp else r.right)
      && s6.mem[n].parent == (if n == subst then x.parent else if n == temp then (if q == node then subst else q)
                              else r.parent)
  {
    ReplaceFacts(s, node, subst, temp);
    OnlyParent(s, subst, n);
  }

  lemma TakeOverLink(s: State, node: Node, subst: Node, temp: Node, n: Node)
    requires CanReplace(s, node, subst, temp) && n in s.mem && n != node
    ensures TakeOver(s, node, subst, temp).mem.Keys == s.mem.Keys
    ensures var s6 := TakeOver(s, node, subst, temp); var s7 := WithLink(s6, node, subst);
      && s7.mem.Keys == s.mem.Keys && s7.nil == s.nil
      && s7.root == (if node == s.root then subst else s.root)
      && s7.mem[n].left == (if s.mem[n].left == node then subst else s6.mem[n].left)
      && s7.mem[n].right == (if s.mem[n].right == node then subst else s6.mem[n].right)
      && s7.mem[n].parent == s6.mem[n].parent && s7.mem[n].color == s6.mem[n].color
  {
    ReplaceFacts(s, node, subst, temp);
    TakeOverAt(s, node, subst, temp, node);
    TakeOverAt(s, node, subst, temp, n);
    OnlyParent(s, node, n);
    if node != s.root {
      assert Placed(s, node);
      TakeOverAt(s, node, subst, temp, s.mem[node].parent);
      OnlyParent(s, node, s.mem[node].parent);
    }
  }

  ghost function AdoptBoth(s: State, p: Node): State
    requires p in s.mem
  {
    var l := s.mem[p].left;
    var s1 := if l != s.nil then WithParent(s, l, p) else s;
    var r := s1.mem[p].right;
    if r != s.nil then WithParent(s1, r, p) else s1
  }

  lemma AdoptBothAt(s: State, p: Node, n: Node)
    requires p in s.mem && n in s.mem && s.nil !in s.mem
    ensures var s' := AdoptBoth(s, p);
      && s'.mem.Keys == s.mem.Keys && s'.root == s.root && s'.nil == s.nil
      && s'.mem[n] == s.mem[n].(parent := if n == s.mem[p].left || n == s.mem[p].right then p else s.mem[n].parent)
  {
  }

  /** ... and then everything that pointed at `node` is pointed at `subst`. */
  ghost function ReplaceSteps(s: State, node: Node, subst: Node, temp: Node): State
    requires CanReplace(s, node, subst, temp)
  {
    ReplaceFacts(s, node, subst, temp);
    TakeOverLink(s, node, subst, temp, subst);
    AdoptBoth(WithLink(TakeOver(s, node, subst, temp), node, subst), subst)
  }

  /** The pointers the replacement code follows half-way are where they should be. */
  lemma ReplaceReady(s: State, node: Node, subst: Node, temp: Node)
    requires CanReplace(s, node, subst, temp)
    ensures var s6 := TakeOver(s, node, subst, temp); var p := s.mem[node].parent;
      && s6.mem.Keys == s.mem.Keys && s6.root == s.root && s6.mem[node].parent == p
      && (node != s.root ==> p != null && p in s6.mem && (s6.mem[p].left == node || s6.mem[p].right == node))
      && var s7 := WithLink(s6, node, subst);
      && s7.mem.Keys == s.mem.Keys
      && s7.mem[subst].left in s7.mem
      && (s7.mem[subst].right == s.nil || s7.mem[subst].right in s7.mem)
  {
    ReplaceFacts(s, node, subst, temp);
    TakeOverAt(s, node, subst, temp, node);
    TakeOverAt(s, node, subst, temp, subst);
    TakeOverLink(s, node, subst, temp, subst);
    assert Placed(s, node);
    if node != s.root {
      TakeOverAt(s, node, subst, temp, s.mem[node].parent);
    }
  }

  lemma ReplaceStepsAt(s: State, node: Node, subst: Node, temp: Node, n: Node)
    requires CanReplace(s, node, subst, temp) && n in s.mem && n != node
    ensures ReplaceSteps(s, node, subst, temp).mem.Keys == s.mem.Keys
    ensures n in Replace(s, node, subst, temp).mem
    ensures AgreeAt(ReplaceSteps(s, node, subst, temp), Replace(s, node, subst, temp), n)
  {
    ReplaceFacts(s, node, subst, temp);
    ReplaceRec(s, node, subst, temp, n);
    TakeOverAt(s, node, subst, temp, n);
    TakeOverAt(s, node, subst, temp, subst);
    TakeOverLink(s, node, subst, temp, n);
    TakeOverLink(s, node, subst, temp, subst);
    AdoptBothAt(WithLink(TakeOver(s, node, subst, temp), node, subst), subst, n);
    if n != s.root { ReplaceChildren(s, node, subst, temp, n); } else { RootNotChild(s, node); }
  }

  lemma RootNotChild(s: State, node: Node)
    requires Geometry(s) && node in s.mem
    ensures s.mem[node].left != s.root && s.mem[node].right != s.root
  {
    assert Placed(s, node);
    OnlyParent(s, s.root, node);
  }

  /** The children of `node` are exactly the nodes whose parent it is. */
  lemma ReplaceChildren(s: State, node: Node, subst: Node, temp: Node, n: Node)
    requires CanReplace(s, node, subst, temp) && n in s.mem && n != s.root
    ensures s.mem[n].parent == node <==> n == s.mem[node].left || n == s.mem[node].right
  {
    assert Placed(s, n) && Placed(s, node);
  }

  lemma ReplaceStepsAgree(s: State, node: Node, subst: Node, temp: Node)
    requires CanReplace(s, node, subst, temp)
    ensures Agree(ReplaceSteps(s, node, subst, temp), Replace(s, node, subst, temp))
  {
    var s', t' := ReplaceSteps(s, node, subst, temp), Replace(s, node, subst, temp);
    forall n | n in t'.mem
      ensures n in s'.mem && AgreeAt(s', t', n)
    {
      ReplaceStepsAt(s, node, subst, temp, n);
    }
    ReplaceFacts(s, node, subst, temp);
    TakeOverLink(s, node, subst, temp, subst);
    AdoptBothAt(WithLink(TakeOver(s, node, subst, temp), node, subst), subst, subst);
  }

  lemma PushUpSteps(s: State, w: Node, p: Node)
    requires w in s.mem
    ensures Agree(WithColor(s, w, Red), PushUp(s, w, p))
  {
  }
}
