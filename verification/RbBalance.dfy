/** Why the rebalancing loops of insert and delete restore the red-black conditions. */
module RbBalance {
  import opened RbShape
  import opened RbLinks

  // ---------- after an insert ----------

  /** A red node has black children, `cur` not counted. */
  ghost predicate CalmBut(s: State, n: Node?, cur: Node) {
    n != null && n in s.mem && s.mem[n].color.Red? ==>
      && (s.mem[n].left != cur ==> IsBlack(s, s.mem[n].left))
      && (s.mem[n].right != cur ==> IsBlack(s, s.mem[n].right))
  }

  /** Everything holds except that the red node `cur` may hang under a red parent. */
  ghost predicate Inserting(s: State, cur: Node) {
    && Geometry(s)
    && cur in s.mem && s.mem[cur].color.Red?
    && (cur != s.root ==> IsBlack(s, s.root) && s.mem[cur].parent != null && s.mem[cur].parent in s.mem)
    && (forall n {:trigger Level(s, n)} :: n in s.mem ==> Level(s, n))
    && (cur != s.root ==> CalmBut(s, s.mem[cur].parent, cur))
    && (forall n {:trigger Calm(s, n)} :: n in s.mem && (cur == s.root || s.mem[cur].parent != n) ==> Calm(s, n))
  }

  /** `cur` has a red parent `p`, which is the child on side `d` of `g`. */
  ghost predicate RedRed(s: State, cur: Node, d: bool, p: Node, g: Node) {
    && Inserting(s, cur) && cur != s.root
    && p in s.mem && s.mem[cur].parent == p && s.mem[p].color.Red?
    && g in s.mem && s.mem[p].parent == g && Near(s.mem[g], d) == p
  }

  /** A red parent has a black parent of its own, on one of whose sides it hangs. */
  lemma RedParent(s: State, cur: Node)
    requires Inserting(s, cur) && cur != s.root
    ensures s.mem[cur].parent in s.mem
    ensures s.mem[s.mem[cur].parent].color.Red? ==>
      var p := s.mem[cur].parent; var g := s.mem[p].parent;
      g != null && RedRed(s, cur, g in s.mem && s.mem[g].left == p, p, g)
  {
    assert Placed(s, cur);
    var p := s.mem[cur].parent;
    if s.mem[p].color.Red? {
      assert Placed(s, p);
      assert Placed(s, s.mem[p].parent);
    }
  }

  /** What is left to do: zero when `cur` does not hang under a red parent, and less
      the larger the subtree of `cur` is. */
  ghost function Trouble(s: State, cur: Node): nat
    requires Inserting(s, cur)
  {
    assert Placed(s, cur);
    if cur == s.root || s.mem[s.mem[cur].parent].color.Black? then 0
    else |s.order| - (s.mem[cur].hi - s.mem[cur].lo) + 1
  }

  lemma RedRedFacts(s: State, cur: Node, d: bool, p: Node, g: Node)
    requires RedRed(s, cur, d, p, g)
    ensures p != s.root && s.mem[g].color.Black? && g != p && g != cur && p != cur
    ensures Far(s.mem[g], d) != p && Far(s.mem[g], d) != g && Far(s.mem[g], d) != cur
    ensures Near(s.mem[p], d) == cur <==> Far(s.mem[p], d) != cur
    ensures s.mem[p].bh == s.mem[cur].bh && s.mem[g].bh == s.mem[p].bh + 1 == BH(s, Far(s.mem[g], d)) + 1
    ensures Far(s.mem[g], d) == s.nil || Far(s.mem[g], d) in s.mem
    ensures Trouble(s, cur) > 0
  {
    assert Placed(s, p) && Placed(s, cur) && Placed(s, g) && Calm(s, g) && Level(s, g) && Level(s, p);
    OnlyParent(s, p, g);
    OnlyParent(s, g, g);
    OnlyParent(s, cur, g);
    OnlyParent(s, cur, p);
  }

  /** Uncle red: the parent and the uncle turn black, the grandparent red. */
  ghost function RecolorUp(s: State, p: Node, u: Node, g: Node): State {
    s.(mem := map n | n in s.mem ::
      if n == p || n == u then s.mem[n].(color := Black, bh := s.mem[n].bh + 1)
      else if n == g then s.mem[n].(color := Red)
      else s.mem[n])
  }

  ghost predicate RedUncle(s: State, cur: Node, d: bool, p: Node, u: Node, g: Node) {
    RedRed(s, cur, d, p, g) && u == Far(s.mem[g], d) && u in s.mem && s.mem[u].color.Red?
  }

  lemma RecolorUpLevel(s: State, cur: Node, d: bool, p: Node, u: Node, g: Node, n: Node)
    requires RedUncle(s, cur, d, p, u, g) && n in s.mem
    ensures Level(RecolorUp(s, p, u, g), n)
  {
    assert Level(s, n) && Placed(s, g);
    RedRedFacts(s, cur, d, p, g);
    OnlyParent(s, p, n);
    OnlyParent(s, u, n);
  }

  lemma RecolorUpCalm(s: State, cur: Node, d: bool, p: Node, u: Node, g: Node, n: Node)
    requires RedUncle(s, cur, d, p, u, g) && n in s.mem
    ensures CalmBut(RecolorUp(s, p, u, g), n, g)
    ensures g == s.root || s.mem[g].parent != n ==> Calm(RecolorUp(s, p, u, g), n)
  {
    RedRedFacts(s, cur, d, p, g);
    OnlyParent(s, g, n);
    if n != p { assert Calm(s, n); }
  }

  lemma UncleRed(s: State, cur: Node, d: bool, p: Node, u: Node, g: Node)
    requires RedUncle(s, cur, d, p, u, g)
    ensures Inserting(RecolorUp(s, p, u, g), g) && RecolorUp(s, p, u, g).mem.Keys == s.mem.Keys
  {
    var s' := RecolorUp(s, p, u, g);
    SameLinksGeometry(s, s');
    RedRedFacts(s, cur, d, p, g);
    assert Placed(s, g);
    forall n | n in s.mem
      ensures Level(s', n)
      ensures CalmBut(s', n, g)
      ensures g == s.root || s.mem[g].parent != n ==> Calm(s', n)
    {
      RecolorUpLevel(s, cur, d, p, u, g, n);
      RecolorUpCalm(s, cur, d, p, u, g, n);
    }
  }

  /** Uncle black, `cur` on the inner side: one rotation makes it the outer side. */
  lemma InnerPair(s: State, cur: Node, d: bool, p: Node, g: Node)
    requires RedRed(s, cur, d, p, g) && Far(s.mem[p], d) == cur
    ensures CanRotate(s, d, p)
    ensures var s' := Turn(s, d, p);
      p in s'.mem && cur in s'.mem && Level(s', p) && Level(s', cur) && Calm(s', p) && CalmBut(s', cur, p)
  {
    RedRedFacts(s, cur, d, p, g);
    TurnRecs(s, d, p);
    assert Level(s, p) && Level(s, cur) && Calm(s, cur);
    TurnPointer(s, d, p, Near(s.mem[p], d));
    TurnPointer(s, d, p, Near(s.mem[cur], d));
    TurnPointer(s, d, p, Far(s.mem[cur], d));
  }

  lemma InnerChild(s: State, cur: Node, d: bool, p: Node, g: Node)
    requires RedRed(s, cur, d, p, g) && Far(s.mem[p], d) == cur
    ensures CanRotate(s, d, p)
    ensures var s' := Rotate(s, d, p);
      && RedRed(s', p, d, cur, g) && Near(s'.mem[cur], d) == p
      && Far(s'.mem[g], d) == Far(s.mem[g], d) && s'.root == s.root
      && IsBlack(s', Far(s'.mem[g], d)) == IsBlack(s, Far(s.mem[g], d))
      && s'.mem.Keys == s.mem.Keys && s'.order == s.order
  {
    RedRedFacts(s, cur, d, p, g);
    assert Exchange(s, p, cur) == s;
    var s' := Turn(s, d, p);
    TurnGeometry(s, d, p);
    TurnRecs(s, d, p);
    TurnRecOther(s, d, p, g);
    TurnPointer(s, d, p, Far(s.mem[g], d));
    TurnPointer(s, d, p, s.root);
    InnerPair(s, cur, d, p, g);
    forall n | n in s.mem
      ensures Level(s', n)
      ensures n != cur ==> Calm(s', n)
    {
      assert Level(s, n) && (n != p ==> Calm(s, n));
      if n != p && n != cur {
        TurnOther(s, d, p, n);
      }
    }
  }

  /** Uncle black, `cur` on the outer side: one rotation at the grandparent ends the loop. */
  lemma OuterPair(s: State, cur: Node, d: bool, p: Node, g: Node)
    requires RedRed(s, cur, d, p, g) && Near(s.mem[p], d) == cur && IsBlack(s, Far(s.mem[g], d))
    ensures CanRotate(s, !d, g)
    ensures var s' := Turn(s, !d, g);
      p in s'.mem && g in s'.mem && Level(s', p) && Level(s', g) && Calm(s', p) && Calm(s', g)
  {
    RedRedFacts(s, cur, d, p, g);
    TurnRecs(s, !d, g);
    assert Level(s, p) && Level(s, g);
    TurnPointer(s, !d, g, Far(s.mem[g], d));
    TurnPointer(s, !d, g, Far(s.mem[p], d));
    TurnPointer(s, !d, g, cur);
  }

  lemma OuterChild(s: State, cur: Node, d: bool, p: Node, g: Node)
    requires RedRed(s, cur, d, p, g) && Near(s.mem[p], d) == cur && IsBlack(s, Far(s.mem[g], d))
    ensures CanRotate(s, !d, g)
    ensures var s' := Turn(s, !d, g);
      && Inserting(s', cur) && cur != s'.root
      && s'.mem[cur].parent == p && p in s'.mem && s'.mem[p].color.Black?
      && s'.mem.Keys == s.mem.Keys && s'.order == s.order && Trouble(s', cur) == 0
  {
    RedRedFacts(s, cur, d, p, g);
    var s' := Turn(s, !d, g);
    TurnGeometry(s, !d, g);
    TurnRecs(s, !d, g);
    TurnRecOther(s, !d, g, cur);
    OuterPair(s, cur, d, p, g);
    TurnPointer(s, !d, g, s.root);
    assert Placed(s, cur);
    forall n | n in s.mem
      ensures Level(s', n)
      ensures Calm(s', n)
    {
      assert Level(s, n) && (n != p ==> Calm(s, n));
      if n != p && n != g {
        TurnOther(s, !d, g, n);
      }
    }
  }

  /** The black height of a node once it is black. */
  ghost function Blackened(r: Rec): nat {
    if r.color.Red? then r.bh + 1 else r.bh
  }

  /** When the loop stops, blackening the root completes the insert. */
  lemma InsertDone(s: State, cur: Node)
    requires Inserting(s, cur)
    requires Trouble(s, cur) == 0
    ensures s.root in s.mem
    ensures RedBlack(Paint(s, s.root, Black, Blackened(s.mem[s.root])))
  {
    assert Placed(s, cur);
    var s' := Paint(s, s.root, Black, Blackened(s.mem[s.root]));
    SameLinksGeometry(s, s');
    forall n | n in s.mem
      ensures Level(s', n) && Calm(s', n)
    {
      assert Level(s, n);
      OnlyParent(s, s.root, n);
      if cur == s.root || s.mem[cur].parent != n { assert Calm(s, n); }
    }
  }

  lemma UncleRedProgress(s: State, cur: Node, d: bool, p: Node, u: Node, g: Node)
    requires RedUncle(s, cur, d, p, u, g) && Inserting(RecolorUp(s, p, u, g), g)
    ensures Trouble(RecolorUp(s, p, u, g), g) < Trouble(s, cur)
  {
    assert Placed(s, cur) && Placed(s, p) && Placed(s, g);
  }

  // ---------- after a delete ----------

  /** The child `temp` on side `d` of `p` is one black node short; its own colour
      conflicts, if it is red, are not counted.  Everything else holds. */
  ghost predicate Short(s: State, temp: Node, d: bool, p: Node) {
    && Geometry(s) && IsBlack(s, s.root)
    && p in s.mem && Near(s.mem[p], d) == temp
    && BH(s, temp) + 1 == BH(s, Far(s.mem[p], d))
    && s.mem[p].bh == BH(s, Far(s.mem[p], d)) + Weight(s.mem[p].color)
    && (s.mem[p].color.Red? ==> IsBlack(s, Far(s.mem[p], d)))
    && (forall n {:trigger Level(s, n)} :: n in s.mem && n != p ==> Level(s, n))
    && (forall n {:trigger Calm(s, n)} :: n in s.mem && n != p && n != temp ==> Calm(s, n))
  }

  /** The whole tree is level; only the colour of its root is not settled. */
  ghost predicate ShortRoot(s: State) {
    && Geometry(s) && s.root in s.mem
    && (forall n {:trigger Level(s, n)} :: n in s.mem ==> Level(s, n))
    && (forall n {:trigger Calm(s, n)} :: n in s.mem && n != s.root ==> Calm(s, n))
  }

  /** Around a short black child: the sibling is a real node, and the nodes differ. */
  lemma ShortFacts(s: State, temp: Node, d: bool, p: Node)
    requires Short(s, temp, d, p) && IsBlack(s, temp)
    ensures var w := Far(s.mem[p], d);
      && w in s.mem && w != p && w != temp && p != temp && w != s.root && CanRotate(s, d, p)
      && s.mem[w].parent == p && Level(s, w) && Calm(s, w)
      && Near(s.mem[w], d) != w && Far(s.mem[w], d) != w && Near(s.mem[w], d) != p && Far(s.mem[w], d) != p
      && (Near(s.mem[w], d) in s.mem ==> Near(s.mem[w], d) != Far(s.mem[w], d) && Near(s.mem[w], d) != temp)
      && (Far(s.mem[w], d) in s.mem ==> Far(s.mem[w], d) != temp)
      && (temp in s.mem || temp == s.nil)
  {
    var w := Far(s.mem[p], d);
    assert Placed(s, p) && Placed(s, w) && Level(s, w);
    OnlyParent(s, w, p); OnlyParent(s, p, p); OnlyParent(s, w, w); OnlyParent(s, p, w);
    if Near(s.mem[w], d) in s.mem { OnlyParent(s, Near(s.mem[w], d), w); OnlyParent(s, Near(s.mem[w], d), p); }
    if Far(s.mem[w], d) in s.mem { OnlyParent(s, Far(s.mem[w], d), w); OnlyParent(s, Far(s.mem[w], d), p); }
    assert Calm(s, w);
  }

  /** Sibling red: after one turn the sibling is black. */
  lemma RedSibling(s: State, temp: Node, d: bool, p: Node)
    requires Short(s, temp, d, p) && IsBlack(s, temp) && !IsBlack(s, Far(s.mem[p], d))
    ensures CanRotate(s, d, p)
    ensures var s' := Turn(s, d, p);
      && Short(s', temp, d, p) && IsBlack(s', temp) && s'.mem[p].color.Red?
      && IsBlack(s', Far(s'.mem[p], d))
  {
    ShortFacts(s, temp, d, p);
    var w := Far(s.mem[p], d);
    var s' := Turn(s, d, p);
    TurnGeometry(s, d, p);
    TurnRecs(s, d, p);
    TurnPointer(s, d, p, temp);
    TurnPointer(s, d, p, Near(s.mem[w], d));
    TurnPointer(s, d, p, Far(s.mem[w], d));
    TurnPointer(s, d, p, s.root);
    forall n | n in s.mem
      ensures n != p ==> Level(s', n)
      ensures n != p && n != temp ==> Calm(s', n)
    {
      if n != p && n != w {
        TurnOther(s, d, p, n);
        assert Level(s, n) && (n != temp ==> Calm(s, n));
      }
    }
  }

  /** Sibling and both nephews black: the sibling turns red and the shortage moves up. */
  ghost function PushUp(s: State, w: Node, p: Node): State {
    s.(mem := map n | n in s.mem ::
      if n == w then s.mem[n].(color := Red, bh := if s.mem[n].bh > 0 then s.mem[n].bh - 1 else 0)
      else if n == p then s.mem[n].(bh := if s.mem[n].bh > 0 then s.mem[n].bh - 1 else 0)
      else s.mem[n])
  }

  ghost predicate BlackFamily(s: State, temp: Node, d: bool, p: Node) {
    && Short(s, temp, d, p) && IsBlack(s, temp) && IsBlack(s, Far(s.mem[p], d))
    && Far(s.mem[p], d) in s.mem
    && IsBlack(s, s.mem[Far(s.mem[p], d)].left) && IsBlack(s, s.mem[Far(s.mem[p], d)].right)
  }

  lemma PushUpLevel(s: State, temp: Node, d: bool, p: Node, n: Node)
    requires BlackFamily(s, temp, d, p) && n in s.mem
    requires p == s.root || s.mem[p].parent != n
    ensures Level(PushUp(s, Far(s.mem[p], d), p), n)
  {
    ShortFacts(s, temp, d, p);
    OnlyParent(s, Far(s.mem[p], d), n);
    OnlyParent(s, p, n);
    if n != p { assert Level(s, n); }
  }

  lemma PushUpCalm(s: State, temp: Node, d: bool, p: Node, n: Node)
    requires BlackFamily(s, temp, d, p) && n in s.mem && n != p
    ensures Calm(PushUp(s, Far(s.mem[p], d), p), n)
  {
    ShortFacts(s, temp, d, p);
    OnlyParent(s, Far(s.mem[p], d), n);
    if n != temp { assert Calm(s, n); }
  }

  lemma BlackNephews(s: State, temp: Node, d: bool, p: Node)
    requires BlackFamily(s, temp, d, p)
    ensures var s' := PushUp(s, Far(s.mem[p], d), p);
      if p == s.root then ShortRoot(s')
      else s.mem[p].parent in s.mem && Short(s', p, s.mem[s.mem[p].parent].left == p, s.mem[p].parent)
  {
    ShortFacts(s, temp, d, p);
    var s' := PushUp(s, Far(s.mem[p], d), p);
    SameLinksGeometry(s, s');
    forall n | n in s.mem
      ensures p == s.root || s.mem[p].parent != n ==> Level(s', n)
      ensures n != p ==> Calm(s', n)
    {
      if p == s.root || s.mem[p].parent != n { PushUpLevel(s, temp, d, p, n); }
      if n != p { PushUpCalm(s, temp, d, p, n); }
    }
    if p != s.root {
      assert Placed(s, p);
      var g := s.mem[p].parent;
      assert Placed(s, g) && Level(s, g) && Calm(s, g);
      OnlyParent(s, p, g);
      OnlyParent(s, Far(s.mem[p], d), g);
    }
  }

  /** The near nephew is red and the far one black: one turn at the sibling. */
  lemma NearNephew(s: State, temp: Node, d: bool, p: Node)
    requires Short(s, temp, d, p) && IsBlack(s, temp) && IsBlack(s, Far(s.mem[p], d)) && Far(s.mem[p], d) in s.mem
    requires var w := Far(s.mem[p], d); !IsBlack(s, Near(s.mem[w], d)) && IsBlack(s, Far(s.mem[w], d))
    ensures var w := Far(s.mem[p], d);
      && CanRotate(s, !d, w)
      && var s' := Turn(s, !d, w); var z := Near(s.mem[w], d);
      && Short(s', temp, d, p) && IsBlack(s', temp)
      && Far(s'.mem[p], d) == z && z in s'.mem && IsBlack(s', z) && Far(s'.mem[z], d) == w && !IsBlack(s', w)
      && s'.root == s.root
  {
    ShortFacts(s, temp, d, p);
    var w := Far(s.mem[p], d);
    var z := Near(s.mem[w], d);
    var s' := Turn(s, !d, w);
    TurnGeometry(s, !d, w);
    TurnRecs(s, !d, w);
    TurnRecOther(s, !d, w, p);
    assert Level(s, z) && Calm(s, z);
    TurnPointer(s, !d, w, temp);
    TurnPointer(s, !d, w, w);
    TurnPointer(s, !d, w, Far(s.mem[w], d));
    TurnPointer(s, !d, w, Near(s.mem[z], d));
    TurnPointer(s, !d, w, Far(s.mem[z], d));
    TurnPointer(s, !d, w, s.root);
    forall n | n in s.mem
      ensures n != p ==> Level(s', n)
      ensures n != p && n != temp ==> Calm(s', n)
    {
      if n != p && n != w && n != z {
        TurnOther(s, !d, w, n);
        assert Level(s, n) && (n != temp ==> Calm(s, n));
      }
    }
  }

  ghost predicate RedFarNephew(s: State, temp: Node, d: bool, p: Node, w: Node, y: Node) {
    && Short(s, temp, d, p) && IsBlack(s, temp)
    && w in s.mem && w == Far(s.mem[p], d) && s.mem[w].color.Black?
    && y in s.mem && y == Far(s.mem[w], d) && s.mem[y].color.Red?
  }

  lemma FarNephewOther(s: State, temp: Node, d: bool, p: Node, w: Node, y: Node, n: Node)
    requires RedFarNephew(s, temp, d, p, w, y) && n in s.mem
    ensures var s1 := Paint(s, y, Black, s.mem[y].bh + 1);
      && (n != p && n != w ==> Level(s1, n))
      && (n != p && n != w && n != temp ==> Calm(s1, n))
  {
    ShortFacts(s, temp, d, p);
    OnlyParent(s, y, n);
    OnlyParent(s, y, w);
    if n != p && n != w { assert Level(s, n); }
    if n != p && n != w && n != temp { assert Calm(s, n); }
  }

  lemma FarNephewPair(s: State, temp: Node, d: bool, p: Node, w: Node, y: Node)
    requires RedFarNephew(s, temp, d, p, w, y)
    ensures var s1 := Paint(s, y, Black, s.mem[y].bh + 1);
      && CanRotate(s1, d, p)
      && var s' := Turn(s1, d, p);
      && p in s'.mem && w in s'.mem && Level(s', p) && Level(s', w) && Calm(s', p) && Calm(s', w)
      && IsBlack(s', s'.root) && IsBlack(s', temp)
  {
    ShortFacts(s, temp, d, p);
    var s1 := Paint(s, y, Black, s.mem[y].bh + 1);
    SameLinksGeometry(s, s1);
    TurnRecs(s1, d, p);
    TurnPointer(s1, d, p, temp);
    TurnPointer(s1, d, p, y);
    TurnPointer(s1, d, p, Near(s.mem[w], d));
    TurnPointer(s1, d, p, s.root);
  }

  /** The far nephew is red: one turn at the parent ends the loop. */
  lemma FarNephew(s: State, temp: Node, d: bool, p: Node, w: Node, y: Node)
    requires RedFarNephew(s, temp, d, p, w, y)
    ensures var s1 := Paint(s, y, Black, s.mem[y].bh + 1);
      CanRotate(s1, d, p) && RedBlack(Turn(s1, d, p))
  {
    var s1 := Paint(s, y, Black, s.mem[y].bh + 1);
    ShortFacts(s, temp, d, p);
    SameLinksGeometry(s, s1);
    FarNephewPair(s, temp, d, p, w, y);
    TurnGeometry(s1, d, p);
    TurnRecs(s1, d, p);
    var s' := Turn(s1, d, p);
    forall n | n in s'.mem
      ensures Level(s', n) && Calm(s', n)
    {
      if n != p && n != w {
        FarNephewOther(s, temp, d, p, w, y, n);
        TurnOther(s1, d, p, n);
      }
    }
  }

  /** When the loop stops, blackening `temp` completes the delete. */
  lemma DeleteDoneRoot(s: State)
    requires ShortRoot(s)
    ensures RedBlack(Paint(s, s.root, Black, Blackened(s.mem[s.root])))
  {
    var s' := Paint(s, s.root, Black, Blackened(s.mem[s.root]));
    SameLinksGeometry(s, s');
    forall n | n in s.mem
      ensures Level(s', n) && Calm(s', n)
    {
      assert Level(s, n);
      OnlyParent(s, s.root, n);
      if n != s.root { assert Calm(s, n); }
    }
  }

  lemma DeleteDoneRed(s: State, temp: Node, d: bool, p: Node)
    requires Short(s, temp, d, p) && !IsBlack(s, temp)
    ensures RedBlack(Paint(s, temp, Black, s.mem[temp].bh + 1))
  {
    var s' := Paint(s, temp, Black, s.mem[temp].bh + 1);
    SameLinksGeometry(s, s');
    assert Placed(s, p);
    OnlyParent(s, temp, p);
    OnlyParent(s, p, p);
    OnlyParent(s, temp, temp);
    forall n | n in s.mem
      ensures Level(s', n) && Calm(s', n)
    {
      OnlyParent(s, temp, n);
      if n != p { assert Level(s, n); }
      if n != p && n != temp { assert Calm(s, n); }
    }
  }

  /** The state of the delete loop: `temp` is the root, or a child of `p` that is short. */
  ghost predicate Fixing(s: State, temp: Node, p: Node) {
    if temp == s.root then ShortRoot(s)
    else p in s.mem && Short(s, temp, s.mem[p].left == temp, p)
  }

  ghost function Span(s: State, m: Node): int {
    if m in s.mem then s.mem[m].hi - s.mem[m].lo else 0
  }

  /** What is left to do in the delete loop. */
  ghost function Work(s: State, temp: Node): int {
    if temp == s.root || !IsBlack(s, temp) then 0 else |s.order| - Span(s, temp) + 1
  }

  /** The side on which a short child hangs can be read off the links. */
  lemma ShortSide(s: State, temp: Node, d: bool, p: Node)
    requires Short(s, temp, d, p)
    ensures d == (s.mem[p].left == temp)
    ensures temp != s.root && (temp in s.mem ==> s.mem[temp].parent == p)
  {
    assert Placed(s, p);
    if temp in s.mem { OnlyParent(s, temp, p); }
  }

  lemma ShortWork(s: State, temp: Node, d: bool, p: Node)
    requires Short(s, temp, d, p)
    ensures Span(s, temp) < Span(s, p) <= |s.order| && 0 <= Span(s, temp)
    ensures IsBlack(s, temp) ==> Work(s, temp) > Work(s, p)
    ensures IsBlack(s, temp) ==> Work(s, temp) >= 1 && Work(s, p) >= 0
  {
    assert Placed(s, p);
    ShortSide(s, temp, d, p);
    if temp in s.mem { assert Placed(s, temp); }
  }

  lemma RedBlackIsShortRoot(s: State)
    requires RedBlack(s) && s.mem.Keys != {}
    ensures ShortRoot(s) && Work(s, s.root) == 0
  {
    var n :| n in s.mem;
    assert Placed(s, n);
  }

  /** Moving the shortage up is progress. */
  lemma PushUpFixing(s: State, temp: Node, d: bool, p: Node)
    requires BlackFamily(s, temp, d, p)
    ensures var s' := PushUp(s, Far(s.mem[p], d), p);
      && s'.mem.Keys == s.mem.Keys && s'.order == s.order && s'.root == s.root
      && 0 <= Work(s', p) < Work(s, temp)
      && (if p == s.root then ShortRoot(s')
          else s.mem[p].parent != null && Fixing(s', p, s.mem[p].parent) && s'.mem[p].parent == s.mem[p].parent)
  {
    BlackNephews(s, temp, d, p);
    ShortWork(s, temp, d, p);
    ShortFacts(s, temp, d, p);
    ShortSide(s, temp, d, p);
    assert Placed(s, p);
  }

  lemma RedSiblingWork(s: State, temp: Node, d: bool, p: Node)
    requires Short(s, temp, d, p) && IsBlack(s, temp) && !IsBlack(s, Far(s.mem[p], d))
    ensures CanRotate(s, d, p) && Work(Turn(s, d, p), temp) == Work(s, temp)
  {
    ShortFacts(s, temp, d, p);
    TurnRecs(s, d, p);
    RedSibling(s, temp, d, p);
    ShortSide(s, temp, d, p);
    ShortSide(Turn(s, d, p), temp, d, p);
    if temp in s.mem { TurnRecOther(s, d, p, temp); }
  }

  lemma ShortTemp(s: State, temp: Node, d: bool, p: Node)
    requires Short(s, temp, d, p)
    ensures temp == s.nil || temp in s.mem
  {
    assert Placed(s, p);
  }

  /** All that the closing step needs, and the state `s2` it yields. */
  lemma FarNephewReady(s: State, temp: Node, d: bool, p: Node, w: Node, y: Node) returns (b: nat, s2: State)
    requires RedFarNephew(s, temp, d, p, w, y)
    ensures var s1 := Paint(s, y, Black, b);
      && CanRotate(s1, d, p) && Far(s1.mem[p], d) == w && s1.mem[w].color.Black? && y != p
      && s2 == Turn(s1, d, p)
    ensures s2.mem.Keys == s.mem.Keys && s2.order == s.order
    ensures RedBlack(s2) && ShortRoot(s2)
  {
    ShortFacts(s, temp, d, p);
    FarNephew(s, temp, d, p, w, y);
    b := s.mem[y].bh + 1;
    var s1 := Paint(s, y, Black, b);
    TurnRecs(s1, d, p);
    s2 := Turn(s1, d, p);
    RedBlackIsShortRoot(s2);
  }
}
