/** The linked red-black tree: nodes with parent pointers and one shared sentinel,
    changed in place. */
module RbTree {
  import opened Common
  import opened RbShape
  import opened RbLinks
  import opened RbBalance
  import opened RbEdit
  import opened RbSteps

  // ---------- keys ----------

  /** The comparison the descent uses: plain, or by the sign of the wrapped difference. */
  predicate Less(timer: bool, a: Word, b: Word) {
    if timer then (a - b) % MODULUS >= MODULUS / 2 else a < b
  }

  /** Distance of a key from `base`, counted upwards with wrap-around. */
  ghost function Rank(base: Word, k: Word): nat {
    (k - base) % MODULUS
  }

  /** Plain keys are ranked from zero; timer keys from any base that puts them all
      within half the counter range. */
  ghost predicate Fits(timer: bool, base: Word, k: Word) {
    if timer then Rank(base, k) < MODULUS / 2 else base == 0
  }

  /** Within such a window the descent compares by rank. */
  lemma LessIsRank(timer: bool, base: Word, a: Word, b: Word)
    requires Fits(timer, base, a) && Fits(timer, base, b)
    ensures Less(timer, a, b) <==> Rank(base, a) < Rank(base, b)
  {
    var x, y := Rank(base, a), Rank(base, b);
    if timer {
      assert (a - b) % MODULUS == (x - y) % MODULUS;
    }
  }

  /** The ranks of the keys of some nodes. */
  ghost function Ranks(order: seq<Node>, base: Word): (ranks: seq<int>)
    reads (set n | n in order)`key
    ensures |ranks| == |order|
    ensures forall i :: 0 <= i < |ranks| ==> ranks[i] == Rank(base, order[i].key)
  {
    if order == [] then []
    else Ranks(order[..|order| - 1], base) + [Rank(base, order[|order| - 1].key)]
  }

  /** `ranks` are the ranks of the keys. */
  ghost predicate RanksAre(order: seq<Node>, base: Word, ranks: seq<int>)
    reads (set n | n in order)`key
  {
    |ranks| == |order| && forall i :: 0 <= i < |ranks| ==> ranks[i] == Rank(base, order[i].key)
  }

  /** Keys do not decrease, counted from `base`. */
  ghost predicate Sorted(timer: bool, order: seq<Node>, base: Word)
    reads (set n | n in order)`key
  {
    Climbs(timer, base, Ranks(order, base))
  }

  ghost predicate Climbs(timer: bool, base: Word, ranks: seq<int>) {
    Nondecreasing(ranks) && forall i :: 0 <= i < |ranks| ==> RankFits(timer, base, ranks[i])
  }

  /** If `ok`, the ranks climb and the key fits among them. */
  ghost predicate CanPlace(ok: bool, timer: bool, base: Word, ranks: seq<int>, key: Word) {
    ok ==> Climbs(timer, base, ranks) && Fits(timer, base, key)
  }

  /** The same as Fits, said of the rank. */
  ghost predicate RankFits(timer: bool, base: Word, r: int) {
    if timer then r < MODULUS / 2 else base == 0
  }

  ghost predicate Nondecreasing(ranks: seq<int>) {
    forall a, b :: 0 <= a < b < |ranks| ==> ranks[a] <= ranks[b]
  }

  /** Ranks before `lo` are at most `r`, ranks from `hi` on are above it. */
  ghost predicate Splits(ranks: seq<int>, lo: int, hi: int, r: int) {
    && (forall k :: 0 <= k < |ranks| && k < lo ==> ranks[k] <= r)
    && (forall k :: 0 <= k < |ranks| && k >= hi ==> r < ranks[k])
  }

  lemma SplitsNarrow(ranks: seq<int>, lo: int, i: int, hi: int, r: int)
    requires Splits(ranks, lo, hi, r) && 0 <= lo <= i < hi <= |ranks|
    requires Nondecreasing(ranks)
    ensures r < ranks[i] ==> Splits(ranks, lo, i, r)
    ensures ranks[i] <= r ==> Splits(ranks, i + 1, hi, r)
  {
  }

  lemma SplitsInsert(ranks: seq<int>, i: int, r: int)
    requires 0 <= i <= |ranks| && Nondecreasing(ranks) && Splits(ranks, i, i, r)
    ensures Nondecreasing(ranks[..i] + [r] + ranks[i..])
  {
  }

  lemma ClimbsInsert(timer: bool, base: Word, ranks: seq<int>, i: int, r: int)
    requires Climbs(timer, base, ranks) && RankFits(timer, base, r) && 0 <= i <= |ranks| && Splits(ranks, i, i, r)
    ensures Climbs(timer, base, ranks[..i] + [r] + ranks[i..])
  {
    SplitsInsert(ranks, i, r);
  }

  lemma RanksInsert(order: seq<Node>, base: Word, i: int, node: Node, order': seq<Node>)
    requires 0 <= i <= |order| && order' == order[..i] + [node] + order[i..]
    ensures Ranks(order', base) == Ranks(order, base)[..i] + [Rank(base, node.key)] + Ranks(order, base)[i..]
  {
    var ranks, ranks' := Ranks(order, base), Ranks(order', base);
    forall k | 0 <= k < |order'|
      ensures ranks'[k] == (ranks[..i] + [Rank(base, node.key)] + ranks[i..])[k]
    {
      assert order'[k] == if k < i then order[k] else if k == i then node else order[k - 1];
    }
  }

  lemma SortedInsert(timer: bool, order: seq<Node>, base: Word, i: int, node: Node, order': seq<Node>)
    requires Sorted(timer, order, base) && Fits(timer, base, node.key)
    requires 0 <= i <= |order| && Splits(Ranks(order, base), i, i, Rank(base, node.key))
    requires order' == order[..i] + [node] + order[i..]
    ensures Sorted(timer, order', base)
  {
    RanksInsert(order, base, i, node, order');
    ClimbsInsert(timer, base, Ranks(order, base), i, Rank(base, node.key));
  }

  /** What an insertion does to the order, told from the ranks before it. */
  lemma InsertSorted(timer: bool, order: seq<Node>, base: Word, i: int, node: Node, order': seq<Node>, ok: bool,
                     ranks: seq<int>)
    requires RanksAre(order, base, ranks) && ok == (Climbs(timer, base, ranks) && Fits(timer, base, node.key))
    requires 0 <= i <= |order| && order' == order[..i] + [node] + order[i..]
    requires ok ==> Splits(ranks, i, i, Rank(base, node.key))
    ensures Ranks(order, base) == ranks
    ensures Sorted(timer, order, base) && Fits(timer, base, node.key) ==>
      Splits(Ranks(order, base), i, i, Rank(base, node.key)) && Sorted(timer, order', base)
  {
    assert Ranks(order, base) == ranks;
    if ok { SortedInsert(timer, order, base, i, node, order'); }
  }

  lemma SortedRemove(timer: bool, order: seq<Node>, base: Word, i: int)
    requires 0 <= i < |order|
    requires forall k :: 0 <= k < |order| && k != i ==> Fits(timer, base, order[k].key)
    requires forall a, b :: 0 <= a < b < |order| && a != i && b != i ==>
      Rank(base, order[a].key) <= Rank(base, order[b].key)
    ensures Sorted(timer, RemoveAt(order, i), base)
  {
    var q := RemoveAt(order, i);
    forall k | 0 <= k < |q|
      ensures q[k] == order[if k < i then k else k + 1]
    {
    }
  }

  class Tree {
    var root: Node
    const sentinel: Node
    const timer: bool     // which insert function the tree was initialised with
    ghost var st: State   // what the links are, and why they form a tree

    constructor (s: Node, isTimer: bool)
      modifies s`color
      ensures Valid() && st.order == [] && st.mem == map[] && sentinel == s && timer == isTimer
    {
      root, sentinel, timer := s, s, isTimer;
      st := State(s, s, map[], []);
      new;
      s.color := Black;
    }

    /** The heap is as `st` says. */
    ghost predicate InStep()
      reads this, sentinel, st.mem.Keys
    {
      && root == st.root && sentinel == st.nil && sentinel !in st.mem && sentinel.color.Black?
      && forall n {:trigger st.mem[n]} :: n in st.mem ==>
           && n.left == st.mem[n].left && n.right == st.mem[n].right
           && n.parent == st.mem[n].parent && n.color == st.mem[n].color
    }

    ghost predicate Valid()
      reads this, sentinel, st.mem.Keys
    {
      InStep() && RedBlack(st)
    }

    // ---------- assignments that keep `st` in step ----------

    method SetRoot(m: Node)
      requires InStep()
      modifies this`root, this`st
      ensures InStep() && st == WithRoot(old(st), m)
    {
      root := m;
      st := WithRoot(st, m);
    }

    method SetLeft(n: Node, m: Node)
      requires InStep() && n in st.mem
      modifies n`left, this`st
      ensures InStep() && st == WithLeft(old(st), n, m)
    {
      n.left := m;
      st := WithLeft(st, n, m);
    }

    method SetRight(n: Node, m: Node)
      requires InStep() && n in st.mem
      modifies n`right, this`st
      ensures InStep() && st == WithRight(old(st), n, m)
    {
      n.right := m;
      st := WithRight(st, n, m);
    }

    method SetParent(n: Node, m: Node?)
      requires InStep()
      modifies n`parent, this`st
      ensures InStep() && st == WithParent(old(st), n, m) && n.parent == m
    {
      n.parent := m;
      st := WithParent(st, n, m);
    }

    method SetColor(n: Node, c: Color)
      requires InStep() && (n == sentinel ==> c.Black?)
      modifies n`color, this`st
      ensures InStep() && st == WithColor(old(st), n, c)
    {
      n.color := c;
      st := WithColor(st, n, c);
    }

    /** Links and colours stay; positions and black heights are read anew. */
    ghost method Relabel(s: State)
      requires InStep() && Agree(st, s)
      modifies this`st
      ensures InStep() && st == s
    {
      st := s;
    }

    // ---------- rotations ----------

    /** The step both rotations and delete share: the pointer that leads to `node`,
        in the tree head or in its parent, is set to `temp`. */
    method Redirect(node: Node, temp: Node)
      requires InStep() && node in st.mem
      requires node != root ==>
        var p := st.mem[node].parent; p != null && p in st.mem && (st.mem[p].left == node || st.mem[p].right == node)
      modifies this`root, this`st, st.mem.Keys`left, st.mem.Keys`right
      ensures InStep() && st == WithLink(old(st), node, temp)
    {
      if node == root {
        SetRoot(temp);
      } else if node == node.parent.left {
        SetLeft(node.parent, temp);
      } else {
        SetRight(node.parent, temp);
      }
    }

    method LeftRotate(node: Node)
      requires InStep() && Pivot(st, true, node)
      modifies this`root, this`st, st.mem.Keys`left, st.mem.Keys`right, st.mem.Keys`parent
      ensures InStep() && st == Rotate(old(st), true, node)
    {
      var temp := node.right;
      SetRight(node, temp.left);
      if temp.left != sentinel {
        SetParent(temp.left, node);
      }
      SetParent(temp, node.parent);
      assert st == LowerSteps(old(st), true, node);
      LowerStepsLink(old(st), true, node);
      Redirect(node, temp);
      SetLeft(temp, node);
      SetParent(node, temp);
      assert st == Steps(old(st), true, node);
      StepsRotate(old(st), true, node);
      Relabel(Rotate(old(st), true, node));
    }

    method RightRotate(node: Node)
      requires InStep() && Pivot(st, false, node)
      modifies this`root, this`st, st.mem.Keys`left, st.mem.Keys`right, st.mem.Keys`parent
      ensures InStep() && st == Rotate(old(st), false, node)
    {
      var temp := node.left;
      SetLeft(node, temp.right);
      if temp.right != sentinel {
        SetParent(temp.right, node);
      }
      SetParent(temp, node.parent);
      assert st == LowerSteps(old(st), false, node);
      LowerStepsLink(old(st), false, node);
      Redirect(node, temp);
      SetRight(temp, node);
      SetParent(node, temp);
      assert st == Steps(old(st), false, node);
      StepsRotate(old(st), false, node);
      Relabel(Rotate(old(st), false, node));
    }

    method Recolor(d: bool, top: Node, rising: Color, sinking: Color)
      requires InStep() && CanRotate(st, d, top)
      requires rising == st.mem[top].color && sinking == st.mem[Far(st.mem[top], d)].color
      modifies this`st, st.mem.Keys`color
      ensures Far(old(st).mem[top], d) in old(st).mem && st == Exchange(old(st), top, Far(old(st).mem[top], d))
      ensures InStep() && Pivot(st, d, top)
    {
      var kid := if d then top.right else top.left;
      ghost var e := Exchange(st, top, kid);
      SameLinksGeometry(st, e);
      PivotHere(st, d, top);
      PivotHere(e, d, top);
      PaintSteps(st, top, kid);
      SetColor(kid, rising);
      SetColor(top, sinking);
      Relabel(e);
    }

    /** The step all rebalancing cases share: recolour a node and the child on the far
        side of it, then rotate the node towards side `d` (true is left). */
    method RecolorAndRotate(d: bool, top: Node, rising: Color, sinking: Color)
      requires InStep() && CanRotate(st, d, top)
      requires rising == st.mem[top].color && sinking == st.mem[Far(st.mem[top], d)].color
      modifies this`root, this`st, st.mem.Keys`left, st.mem.Keys`right, st.mem.Keys`parent, st.mem.Keys`color
      ensures InStep() && st == Turn(old(st), d, top)
    {
      Recolor(d, top, rising, sinking);
      if d {
        LeftRotate(top);
      } else {
        RightRotate(top);
      }
    }

    method BlackenAt(n: Node, ghost b: nat)
      requires InStep() && n in st.mem
      modifies this`st, n`color
      ensures InStep() && st == Paint(old(st), n, Black, b)
    {
      PaintStep(st, n, Black, b);
      SetColor(n, Black);
      Relabel(Paint(old(st), n, Black, b));
    }

    // ---------- insert ----------

    /** The uncle is red. */
    method RecolorFamily(cur: Node, uncle: Node, ghost d: bool, ghost p: Node, ghost g: Node) returns (next: Node)
      requires InStep() && RedUncle(st, cur, d, p, uncle, g)
      modifies this`st, st.mem.Keys`color
      ensures InStep() && st == RecolorUp(old(st), p, uncle, g) && next == g
    {
      RedRedFacts(st, cur, d, p, g);
      RecolorUpSteps(st, p, uncle, g);
      SetColor(cur.parent, Black);
      SetColor(uncle, Black);
      SetColor(cur.parent.parent, Red);
      next := cur.parent.parent;
      Relabel(RecolorUp(old(st), p, uncle, g));
    }

    /** One round of the rebalancing loop, the parent being a left child. */
    method InsertFixLeft(cur: Node, ghost p: Node, ghost g: Node) returns (next: Node)
      requires InStep() && RedRed(st, cur, true, p, g)
      modifies this`root, this`st, st.mem.Keys`left, st.mem.Keys`right, st.mem.Keys`parent, st.mem.Keys`color
      ensures InStep() && Inserting(st, next) && st.mem.Keys == old(st.mem.Keys) && st.order == old(st.order)
      ensures Trouble(st, next) < Trouble(old(st), cur)
    {
      RedRedFacts(st, cur, true, p, g);
      var temp := cur.parent.parent.right;
      if temp.color.Red? {
        UncleRed(st, cur, true, p, temp, g);
        UncleRedProgress(st, cur, true, p, temp, g);
        next := RecolorFamily(cur, temp, true, p, g);
      } else {
        next := cur;
        ghost var q := p;
        if next == next.parent.right {
          next := next.parent;
          InnerChild(st, cur, true, p, g);
          PivotHere(st, true, p);
          LeftRotate(next);
          q := cur;
        }
        OuterChild(st, next, true, q, g);
        RecolorAndRotate(false, next.parent.parent, Black, Red);
      }
    }

    /** One round of the rebalancing loop, the parent being a right child. */
    method InsertFixRight(cur: Node, ghost p: Node, ghost g: Node) returns (next: Node)
      requires InStep() && RedRed(st, cur, false, p, g)
      modifies this`root, this`st, st.mem.Keys`left, st.mem.Keys`right, st.mem.Keys`parent, st.mem.Keys`color
      ensures InStep() && Inserting(st, next) && st.mem.Keys == old(st.mem.Keys) && st.order == old(st.order)
      ensures Trouble(st, next) < Trouble(old(st), cur)
    {
      RedRedFacts(st, cur, false, p, g);
      var temp := cur.parent.parent.left;
      if temp.color.Red? {
        UncleRed(st, cur, false, p, temp, g);
        UncleRedProgress(st, cur, false, p, temp, g);
        next := RecolorFamily(cur, temp, false, p, g);
      } else {
        next := cur;
        ghost var q := p;
        if next == next.parent.left {
          next := next.parent;
          InnerChild(st, cur, false, p, g);
          PivotHere(st, false, p);
          RightRotate(next);
          q := cur;
        }
        OuterChild(st, next, false, q, g);
        RecolorAndRotate(true, next.parent.parent, Black, Red);
      }
    }

    /** The descent of both insert functions: a node with a free side, such that hanging
        `node` there puts it right after the last key not greater than its own. */
    method FindPlace(node: Node, ghost base: Word, ghost ok: bool, ghost ranks: seq<int>)
      returns (temp: Node, left: bool, ghost i: int)
      requires Valid() && root != sentinel
      requires RanksAre(st.order, base, ranks)
      requires CanPlace(ok, timer, base, ranks, node.key)
      ensures temp in st.mem && Near(st.mem[temp], left) == sentinel && i == Slot(st, temp, left)
      ensures ok ==> Splits(ranks, i, i, Rank(base, node.key))
    {
      ghost var r := Rank(base, node.key);
      temp := root;
      while true
        invariant temp in st.mem
        invariant ok ==> Splits(ranks, st.mem[temp].lo, st.mem[temp].hi, r)
        decreases st.mem[temp].hi - st.mem[temp].lo
      {
        assert Placed(st, temp);
        left := Less(timer, node.key, temp.key);
        if ok {
          LessIsRank(timer, base, node.key, temp.key);
          SplitsNarrow(ranks, st.mem[temp].lo, st.mem[temp].idx, st.mem[temp].hi, r);
        }
        var p := if left then temp.left else temp.right;
        if p == sentinel {
          break;
        }
        temp := p;
      }
      i := Slot(st, temp, left);
    }

    method InitLeaf(node: Node, temp: Node)
      requires InStep() && node !in st.mem && node != sentinel
      modifies this`st, node`left, node`right, node`parent, node`color
      ensures InStep() && st == WithLeaf(old(st), node, temp)
    {
      node.parent := temp;
      node.left := sentinel;
      node.right := sentinel;
      node.color := Red;
      st := WithLeaf(st, node, temp);
    }

    method LinkLeaf(temp: Node, left: bool, node: Node)
      requires InStep() && CanHang(st, temp, left, node) && 0 <= Slot(st, temp, left) <= |st.order|
      modifies this`st, temp`left, temp`right, node`left, node`right, node`parent, node`color
      ensures InStep() && st == Hang(old(st), temp, left, node)
    {
      if left {
        SetLeft(temp, node);
      } else {
        SetRight(temp, node);
      }
      InitLeaf(node, temp);
      LeafSteps(old(st), temp, left, node);
      Relabel(Hang(old(st), temp, left, node));
    }

    /** The first node of an empty tree. */
    method PlantRoot(node: Node)
      requires Valid() && root == sentinel && node != sentinel
      modifies this`root, this`st, node`left, node`right, node`parent, node`color
      ensures Valid() && st.order == [node] && st.mem.Keys == {node}
      ensures old(st.mem.Keys) == {} && old(st.order) == []
    {
      EmptyTree(st);
      PlantedRedBlack(sentinel, node);
      node.parent := null;
      node.left := sentinel;
      node.right := sentinel;
      node.color := Black;
      root := node;
      st := Planted(sentinel, node);
    }

    method FinishInsert(ghost cur: Node)
      requires InStep() && Inserting(st, cur) && Trouble(st, cur) == 0
      modifies this`st, st.mem.Keys`color
      ensures Valid() && st.mem.Keys == old(st.mem.Keys) && st.order == old(st.order)
    {
      InsertDone(st, cur);
      BlackenAt(root, Blackened(st.mem[st.root]));
    }

    /** The rebalancing loop. */
    method InsertFix(node: Node)
      requires InStep() && Inserting(st, node)
      modifies this`root, this`st, st.mem.Keys`left, st.mem.Keys`right, st.mem.Keys`parent, st.mem.Keys`color
      ensures Valid() && st.mem.Keys == old(st.mem.Keys) && st.order == old(st.order)
    {
      var cur := node;
      while cur != root && cur.parent.color.Red?
        invariant InStep() && Inserting(st, cur)
        invariant st.mem.Keys == old(st.mem.Keys) && st.order == old(st.order)
        decreases Trouble(st, cur)
      {
        RedParent(st, cur);
        ghost var p := cur.parent;
        ghost var g := cur.parent.parent;
        if cur.parent == cur.parent.parent.left {
          cur := InsertFixLeft(cur, p, g);
        } else {
          cur := InsertFixRight(cur, p, g);
        }
      }
      FinishInsert(cur);
    }

    method InsertAt(temp: Node, left: bool, node: Node, ghost i: int)
      requires Valid() && CanHang(st, temp, left, node) && i == Slot(st, temp, left)
      modifies this`root, this`st, (st.mem.Keys + {node})`left, (st.mem.Keys + {node})`right,
               (st.mem.Keys + {node})`parent, (st.mem.Keys + {node})`color
      ensures Valid() && st.mem.Keys == old(st.mem.Keys) + {node}
      ensures 0 <= i <= |old(st.order)| && st.order == old(st.order)[..i] + [node] + old(st.order)[i..]
    {
      HangInserting(st, temp, left, node);
      LinkLeaf(temp, left, node);
      assert st.mem.Keys == old(st.mem.Keys) + {node} && st.order == old(st.order)[..i] + [node] + old(st.order)[i..];
      InsertFix(node);
    }

    method InsertNode(node: Node, ghost base: Word, ghost ok: bool, ghost ranks: seq<int>) returns (ghost i: int)
      requires Valid() && node !in st.mem && node != sentinel && RanksAre(st.order, base, ranks)
      requires CanPlace(ok, timer, base, ranks, node.key)
      modifies this`root, this`st, (st.mem.Keys + {node})`left, (st.mem.Keys + {node})`right,
               (st.mem.Keys + {node})`parent, (st.mem.Keys + {node})`color
      ensures Valid() && st.mem.Keys == old(st.mem.Keys) + {node}
      ensures 0 <= i <= |old(st.order)| && st.order == old(st.order)[..i] + [node] + old(st.order)[i..]
      ensures ok ==> Splits(ranks, i, i, Rank(base, node.key))
      ensures RanksAre(old(st.order), base, ranks)
    {
      ghost var r, order := Rank(base, node.key), st.order;
      if root == sentinel {
        PlantRoot(node);
        i := 0;
      } else {
        i := InsertBelow(node, base, ok, ranks);
      }
      assert Rank(base, node.key) == r && RanksAre(order, base, ranks);
    }

    method InsertBelow(node: Node, ghost base: Word, ghost ok: bool, ghost ranks: seq<int>) returns (ghost i: int)
      requires Valid() && root != sentinel && node !in st.mem && node != sentinel && RanksAre(st.order, base, ranks)
      requires CanPlace(ok, timer, base, ranks, node.key)
      modifies this`root, this`st, (st.mem.Keys + {node})`left, (st.mem.Keys + {node})`right,
               (st.mem.Keys + {node})`parent, (st.mem.Keys + {node})`color
      ensures Valid() && st.mem.Keys == old(st.mem.Keys) + {node}
      ensures 0 <= i <= |old(st.order)| && st.order == old(st.order)[..i] + [node] + old(st.order)[i..]
      ensures ok ==> Splits(ranks, i, i, Rank(base, node.key))
    {
      var temp, left;
      temp, left, i := FindPlace(node, base, ok, ranks);
      ghost var r := Rank(base, node.key);
      InsertAt(temp, left, node, i);
      assert Rank(base, node.key) == r;
    }

    /** Inserts `node`: the tree stays a red-black tree, and the new node lands right after
        the last key not greater than its own. */
    method Insert(node: Node, ghost base: Word) returns (ghost i: int)
      requires Valid() && node !in st.mem && node != sentinel
      modifies this`root, this`st, (st.mem.Keys + {node})`left, (st.mem.Keys + {node})`right,
               (st.mem.Keys + {node})`parent, (st.mem.Keys + {node})`color
      ensures Valid() && st.mem.Keys == old(st.mem.Keys) + {node}
      ensures 0 <= i <= |old(st.order)| && st.order == old(st.order)[..i] + [node] + old(st.order)[i..]
      ensures Sorted(timer, old(st.order), base) && Fits(timer, base, node.key) ==>
        Splits(Ranks(old(st.order), base), i, i, Rank(base, node.key)) && Sorted(timer, st.order, base)
    {
      ghost var order := st.order;
      ghost var ok, ranks := Sorted(timer, order, base) && Fits(timer, base, node.key), Ranks(order, base);
      i := InsertNode(node, base, ok, ranks);
      ghost var order' := st.order;
      InsertSorted(timer, order, base, i, node, order', ok, ranks);
    }

    // ---------- delete ----------

    /** The leftmost node below `node`. */
    method Min(node: Node) returns (m: Node)
      requires InStep() && Geometry(st) && node in st.mem
      ensures m in st.mem && st.mem[m].left == sentinel && st.mem[m].idx == st.mem[node].lo
    {
      m := node;
      assert Placed(st, m);
      while m.left != sentinel
        invariant m in st.mem && st.mem[m].lo == st.mem[node].lo && Placed(st, m)
        decreases st.mem[m].hi
      {
        m := m.left;
        assert Placed(st, m);
      }
    }

    /** A node with at most one child leaves the tree. */
    method UnlinkNode(node: Node, temp: Node)
      requires InStep() && CanUnlink(st, node, temp) && 0 <= st.mem[node].idx < |st.order|
      modifies this`root, this`st, st.mem.Keys`left, st.mem.Keys`right, temp`parent
      ensures InStep() && st == Unlink(old(st), node, temp)
      ensures node != old(root) ==> temp.parent == old(node.parent)
    {
      assert Placed(st, node);
      UnlinkSteps(st, node, temp);
      var isRoot := node == root;
      Redirect(node, temp);
      if !isRoot {
        SetParent(temp, node.parent);
      }
      Relabel(Unlink(old(st), node, temp));
    }

    method CopyFields(subst: Node, node: Node)
      requires InStep() && subst in st.mem && node in st.mem && subst != node
      modifies this`st, subst`left, subst`right, subst`parent, subst`color
      ensures InStep() && st == CopyTo(old(st), subst, node)
    {
      assert node.left == st.mem[node].left && node.right == st.mem[node].right;
      SetLeft(subst, node.left);
      SetRight(subst, node.right);
      assert node.parent == st.mem[node].parent && node.color == st.mem[node].color;
      SetParent(subst, node.parent);
      SetColor(subst, node.color);
    }

    method TakeOverFields(node: Node, subst: Node, temp: Node)
      requires InStep() && CanReplace(st, node, subst, temp)
      modifies this`root, this`st, st.mem.Keys`left, st.mem.Keys`right, st.mem.Keys`parent, st.mem.Keys`color,
        sentinel`parent
      ensures InStep() && st == TakeOver(old(st), node, subst, temp)
      ensures temp.parent == if old(subst.parent) == node then subst else old(subst.parent)
    {
      ReplaceTemp(st, node, subst, temp);
      LinkBelow(node, subst, temp);
      CopyFields(subst, node);
    }

    /** The child of `subst` takes its place. */
    method LinkBelow(node: Node, subst: Node, temp: Node)
      requires InStep() && CanReplace(st, node, subst, temp)
      modifies this`root, this`st, st.mem.Keys`left, st.mem.Keys`right, temp`parent
      ensures InStep()
      ensures var q := old(subst.parent); var p := if q == node then subst else q;
        subst in old(st).mem && st == WithParent(WithLink(old(st), subst, temp), temp, p) && temp.parent == p
      ensures subst in st.mem && node in st.mem && subst != node && temp != subst
    {
      ReplaceFacts(st, node, subst, temp);
      Redirect(subst, temp);
      if subst.parent == node {
        SetParent(temp, subst);
      } else {
        SetParent(temp, subst.parent);
      }
    }

    /** Both children of `p`, unless they are the sentinel, get `p` as parent. */
    method AdoptChildren(p: Node)
      requires InStep() && p in st.mem
      requires st.mem[p].left == sentinel || st.mem[p].left in st.mem
      requires st.mem[p].right == sentinel || st.mem[p].right in st.mem
      modifies this`st, st.mem.Keys`parent
      ensures InStep() && st == AdoptBoth(old(st), p)
    {
      if p.left != sentinel {
        SetParent(p.left, p);
      }
      assert p.right == st.mem[p].right;
      if p.right != sentinel {
        SetParent(p.right, p);
      }
    }

    /** Everything around `node` is pointed at `subst`. */
    method PointAt(node: Node, subst: Node)
      requires InStep() && node in st.mem && subst in st.mem
      requires node != root ==>
        var p := st.mem[node].parent; p != null && p in st.mem && (st.mem[p].left == node || st.mem[p].right == node)
      requires var s7 := WithLink(st, node, subst);
        && s7.mem.Keys == st.mem.Keys && s7.mem[subst].left in s7.mem
        && (s7.mem[subst].right == sentinel || s7.mem[subst].right in s7.mem)
      modifies this`root, this`st, st.mem.Keys`left, st.mem.Keys`right, st.mem.Keys`parent
      ensures InStep() && st == AdoptBoth(WithLink(old(st), node, subst), subst)
    {
      Redirect(node, subst);
      AdoptChildren(subst);
    }

    /** A node with two children is replaced by the next one in order. */
    method ReplaceNode(node: Node, subst: Node, temp: Node)
      requires InStep() && CanReplace(st, node, subst, temp)
      modifies this`root, this`st, st.mem.Keys`left, st.mem.Keys`right, st.mem.Keys`parent, st.mem.Keys`color,
        sentinel`parent
      ensures InStep() && st == Replace(old(st), node, subst, temp)
      ensures temp.parent == if old(subst.parent) == node then subst else old(subst.parent)
    {
      ghost var s := st;
      TakeOverFields(node, subst, temp);
      ReplaceReady(s, node, subst, temp);
      PointAround(node, subst, temp, s);
    }

    /** The second half: what was around `node` is pointed at `subst`, which has its fields. */
    method PointAround(node: Node, subst: Node, temp: Node, ghost s: State)
      requires CanReplace(s, node, subst, temp) && InStep() && st == TakeOver(s, node, subst, temp)
      requires st.mem.Keys == s.mem.Keys && subst in s.mem
      requires temp.parent == if s.mem[subst].parent == node then subst else s.mem[subst].parent
      modifies this`root, this`st, st.mem.Keys`left, st.mem.Keys`right, st.mem.Keys`parent
      ensures InStep() && st == Replace(s, node, subst, temp)
      ensures temp.parent == if s.mem[subst].parent == node then subst else s.mem[subst].parent
    {
      ReplaceReady(s, node, subst, temp);
      ReplaceTemp(s, node, subst, temp);
      ReplaceStepsAgree(s, node, subst, temp);
      PointAt(node, subst);
      Relabel(Replace(s, node, subst, temp));
      ReplaceParent(s, node, subst, temp);
      assert temp in st.mem ==> temp.parent == st.mem[temp].parent;
    }

    /** Sibling and nephews black: the sibling turns red, the shortage moves to the parent. */
    method PushShortage(temp: Node, w: Node, ghost d: bool, ghost p: Node) returns (next: Node)
      requires InStep() && BlackFamily(st, temp, d, p) && w == Far(st.mem[p], d) && temp.parent == p
      modifies this`st, w`color
      ensures InStep() && st == PushUp(old(st), w, p) && next == p
    {
      ShortFacts(st, temp, d, p);
      PushUpSteps(st, w, p);
      SetColor(w, Red);
      Relabel(PushUp(old(st), w, p));
      next := temp.parent;
    }

    /** The far nephew `y` turns black, then one rotation at the parent. */
    method CloseShortage(d: bool, p: Node, y: Node, ghost w: Node, ghost b: nat)
      requires InStep() && p in st.mem && y in st.mem && y != p
      requires var s1 := Paint(st, y, Black, b); CanRotate(s1, d, p) && Far(s1.mem[p], d) == w && s1.mem[w].color.Black?
      modifies this`root, this`st, st.mem.Keys`left, st.mem.Keys`right, st.mem.Keys`parent, st.mem.Keys`color
      ensures InStep() && st == Turn(Paint(old(st), y, Black, b), d, p)
    {
      BlackenAt(y, b);
      assert p.color == st.mem[p].color;
      RecolorAndRotate(d, p, p.color, Black);
    }

    /** A red sibling is rotated away; the new sibling `w'` is black. */
    method SettleSibling(d: bool, temp: Node, w: Node, ghost p: Node) returns (w': Node)
      requires InStep() && Short(st, temp, d, p) && IsBlack(st, temp) && temp.parent == p && w == Far(st.mem[p], d)
      modifies this`root, this`st, st.mem.Keys`left, st.mem.Keys`right, st.mem.Keys`parent, st.mem.Keys`color
      ensures InStep() && st.mem.Keys == old(st.mem.Keys) && st.order == old(st.order)
      ensures Short(st, temp, d, p) && IsBlack(st, temp) && temp.parent == p
      ensures w' == Far(st.mem[p], d) && w' in st.mem && st.mem[w'].color.Black?
      ensures Work(st, temp) == Work(old(st), temp)
    {
      ShortFacts(st, temp, d, p);
      w' := w;
      if w.color.Red? {
        RedSibling(st, temp, d, p);
        RedSiblingWork(st, temp, d, p);
        TurnRecs(st, d, p);
        RecolorAndRotate(d, temp.parent, Black, Red);
        ShortFacts(st, temp, d, p);
        ShortSide(st, temp, d, p);
        assert temp in st.mem ==> temp.parent == st.mem[temp].parent;
        assert temp.parent.right == st.mem[p].right && temp.parent.left == st.mem[p].left;
        w' := if d then temp.parent.right else temp.parent.left;
      }
    }

    /** A red near nephew with a black far one is rotated into the far place. */
    method SettleNephew(d: bool, temp: Node, w: Node, ghost p: Node) returns (w': Node)
      requires InStep() && Short(st, temp, d, p) && IsBlack(st, temp) && temp.parent == p
      requires w == Far(st.mem[p], d) && w in st.mem && st.mem[w].color.Black?
      requires !IsBlack(st, st.mem[w].left) || !IsBlack(st, st.mem[w].right)
      modifies this`root, this`st, st.mem.Keys`left, st.mem.Keys`right, st.mem.Keys`parent, st.mem.Keys`color
      ensures InStep() && st.mem.Keys == old(st.mem.Keys) && st.order == old(st.order)
      ensures temp.parent == p && w' in st.mem && RedFarNephew(st, temp, d, p, w', Far(st.mem[w'], d))
    {
      ShortFacts(st, temp, d, p);
      assert Placed(st, w);
      w' := w;
      var far := if d then w.right else w.left;
      if far.color.Black? {
        w' := TurnNephew(d, temp, w, p);
      }
    }

    method TurnNephew(d: bool, temp: Node, w: Node, ghost p: Node) returns (w': Node)
      requires InStep() && Short(st, temp, d, p) && IsBlack(st, temp) && temp.parent == p
      requires w == Far(st.mem[p], d) && w in st.mem && st.mem[w].color.Black?
      requires IsBlack(st, Far(st.mem[w], d)) && !IsBlack(st, Near(st.mem[w], d))
      modifies this`root, this`st, st.mem.Keys`left, st.mem.Keys`right, st.mem.Keys`parent, st.mem.Keys`color
      ensures InStep() && st.mem.Keys == old(st.mem.Keys) && st.order == old(st.order)
      ensures temp.parent == p && w' in st.mem && RedFarNephew(st, temp, d, p, w', Far(st.mem[w'], d))
    {
      NearNephew(st, temp, d, p);
      TurnRecs(st, !d, w);
      RecolorAndRotate(!d, w, Black, Red);
      ShortSide(st, temp, d, p);
      assert temp in st.mem ==> temp.parent == st.mem[temp].parent;
      assert temp.parent.right == st.mem[p].right && temp.parent.left == st.mem[p].left;
      w' := if d then temp.parent.right else temp.parent.left;
    }

    /** The far nephew is red, or the near one and it is rotated into the far place:
        the shortage is closed. */
    method Close(d: bool, temp: Node, w: Node, ghost p: Node)
      requires InStep() && Short(st, temp, d, p) && IsBlack(st, temp) && temp.parent == p
      requires w == Far(st.mem[p], d) && w in st.mem && st.mem[w].color.Black?
      requires !IsBlack(st, st.mem[w].left) || !IsBlack(st, st.mem[w].right)
      modifies this`root, this`st, st.mem.Keys`left, st.mem.Keys`right, st.mem.Keys`parent, st.mem.Keys`color
      ensures Valid() && st.mem.Keys == old(st.mem.Keys) && st.order == old(st.order) && ShortRoot(st)
    {
      var w' := SettleNephew(d, temp, w, p);
      assert w'.left == st.mem[w'].left && w'.right == st.mem[w'].right;
      var y := if d then w'.right else w'.left;
      ghost var b, s2 := FarNephewReady(st, temp, d, p, w', y);
      CloseShortage(d, temp.parent, y, w', b);
      assert st == s2;
    }

    /** With a black sibling: move the shortage up, or close it. */
    method Repair(d: bool, temp: Node, w: Node, ghost p: Node) returns (next: Node)
      requires InStep() && Short(st, temp, d, p) && IsBlack(st, temp) && temp.parent == p
      requires w == Far(st.mem[p], d) && w in st.mem && st.mem[w].color.Black?
      modifies this`root, this`st, st.mem.Keys`left, st.mem.Keys`right, st.mem.Keys`parent, st.mem.Keys`color
      ensures InStep() && st.mem.Keys == old(st.mem.Keys) && st.order == old(st.order)
      ensures 0 <= Work(st, next) < Work(old(st), temp)
      ensures if next == root then ShortRoot(st) else next.parent != null && Fixing(st, next, next.parent)
    {
      ShortWork(st, temp, d, p);
      assert Placed(st, w);
      if w.left.color.Black? && w.right.color.Black? {
        PushUpFixing(st, temp, d, p);
        next := PushShortage(temp, w, d, p);
        assert next.parent == st.mem[next].parent;
      } else {
        Close(d, temp, w, p);
        next := root;
      }
    }

    /** The loop: `temp` is one black node short until it is the root or red. */
    method DeleteFix(start: Node, ghost q: Node)
      requires InStep() && q in st.mem && Short(st, start, st.mem[q].left == start, q) && start.parent == q
      modifies this`root, this`st, st.mem.Keys`left, st.mem.Keys`right, st.mem.Keys`parent, st.mem.Keys`color
      ensures Valid() && st.mem.Keys == old(st.mem.Keys) && st.order == old(st.order)
    {
      ShortSide(st, start, st.mem[q].left == start, q);
      var temp := start;
      ghost var p: Node := q;
      while temp != root && temp.color.Black?
        invariant InStep() && st.mem.Keys == old(st.mem.Keys) && st.order == old(st.order)
        invariant Fixing(st, temp, p) && (temp != root ==> temp.parent == p)
        decreases Work(st, temp)
      {
        ShortFacts(st, temp, st.mem[p].left == temp, p);
        ShortWork(st, temp, st.mem[p].left == temp, p);
        if temp == temp.parent.left {
          var w := temp.parent.right;
          w := SettleSibling(true, temp, w, p);
          temp := Repair(true, temp, w, p);
        } else {
          var w := temp.parent.left;
          w := SettleSibling(false, temp, w, p);
          temp := Repair(false, temp, w, p);
        }
        p := if temp == root then p else temp.parent;
      }
      if temp != root { ShortTemp(st, temp, st.mem[p].left == temp, p); }
      FinishDelete(temp, p);
    }

    method FinishDelete(temp: Node, ghost p: Node)
      requires InStep() && Fixing(st, temp, p) && (temp == root || temp.color.Red?)
        && (temp in st.mem || temp == sentinel)
      modifies this`st, st.mem.Keys`color
      ensures Valid() && st.mem.Keys == old(st.mem.Keys) && st.order == old(st.order)
    {
      if temp == st.root {
        DeleteDoneRoot(st);
      } else {
        DeleteDoneRed(st, temp, st.mem[p].left == temp, p);
      }
      BlackenAt(temp, Blackened(st.mem[temp]));
    }

    /** Takes out the root when it has at most one child. */
    method RemoveRoot(node: Node, temp: Node)
      requires Valid() && CanUnlink(st, node, temp) && node == root && (temp in st.mem || temp == sentinel)
      modifies this`root, this`st, st.mem.Keys`left, st.mem.Keys`right, st.mem.Keys`parent, st.mem.Keys`color,
               sentinel`parent, sentinel`color
      ensures Valid() && st.mem.Keys == old(st.mem.Keys) - {node}
      ensures 0 <= old(st.mem[node].idx) < |old(st.order)| && st.order == RemoveAt(old(st.order), old(st.mem[node].idx))
    {
      ghost var s' := UnlinkReady(st, node, temp);
      UnlinkNode(node, temp);
      assert st == s';
      if temp == sentinel {
        SetColor(temp, Black);
      } else {
        DeleteDoneRoot(st);
        BlackenAt(temp, Blackened(st.mem[temp]));
      }
    }

    /** Takes out a node below the root with at most one child. */
    method RemoveInner(node: Node, temp: Node)
      requires Valid() && CanUnlink(st, node, temp) && node != root && (temp in st.mem || temp == sentinel)
      modifies this`root, this`st, st.mem.Keys`left, st.mem.Keys`right, st.mem.Keys`parent, st.mem.Keys`color,
        sentinel`parent
      ensures Valid() && st.mem.Keys == old(st.mem.Keys) - {node}
      ensures 0 <= old(st.mem[node].idx) < |old(st.order)| && st.order == RemoveAt(old(st.order), old(st.mem[node].idx))
    {
      ghost var s' := UnlinkReady(st, node, temp);
      ghost var p := node.parent;
      var red := node.color.Red?;
      UnlinkNode(node, temp);
      assert st == s';
      if !red {
        DeleteFix(temp, p);
      }
    }

    /** Takes out a node with two children. */
    method RemoveTwo(node: Node, subst: Node, temp: Node)
      requires Valid() && CanReplace(st, node, subst, temp)
      modifies this`root, this`st, st.mem.Keys`left, st.mem.Keys`right, st.mem.Keys`parent, st.mem.Keys`color,
        sentinel`parent
      ensures Valid() && st.mem.Keys == old(st.mem.Keys) - {node}
      ensures 0 <= old(st.mem[node].idx) < |old(st.order)| && st.order == RemoveAt(old(st.order), old(st.mem[node].idx))
    {
      ghost var s', p := ReplaceReadyBalance(st, node, subst, temp);
      var red := subst.color.Red?;
      assert subst.parent == st.mem[subst].parent;
      ReplaceNode(node, subst, temp);
      assert st == s';
      if !red {
        DeleteFix(temp, p);
      }
    }

    method Remove(node: Node)
      requires Valid() && node in st.mem
      modifies this`root, this`st, st.mem.Keys`left, st.mem.Keys`right, st.mem.Keys`parent, st.mem.Keys`color,
               sentinel`parent, sentinel`color
      ensures Valid() && st.mem.Keys == old(st.mem.Keys) - {node}
      ensures 0 <= old(st.mem[node].idx) < |old(st.order)| && old(st.order)[old(st.mem[node].idx)] == node
      ensures st.order == RemoveAt(old(st.order), old(st.mem[node].idx))
    {
      assert Placed(st, node);
      if node.left == sentinel || node.right == sentinel {
        var temp := if node.left == sentinel then node.right else node.left;
        if node == root {
          RemoveRoot(node, temp);
        } else {
          RemoveInner(node, temp);
        }
      } else {
        // The leftmost node has no left child, so only its right child can move up.
        var subst := Min(node.right);
        assert Placed(st, subst);
        RemoveTwo(node, subst, subst.right);
      }
    }

    method RemoveSorted(node: Node, ghost base: Word)
      requires Valid() && node in st.mem
      modifies this`root, this`st, st.mem.Keys`left, st.mem.Keys`right, st.mem.Keys`parent, st.mem.Keys`color,
               sentinel`parent, sentinel`color
      ensures Valid() && st.mem.Keys == old(st.mem.Keys) - {node}
      ensures 0 <= old(st.mem[node].idx) < |old(st.order)| && old(st.order)[old(st.mem[node].idx)] == node
      ensures st.order == RemoveAt(old(st.order), old(st.mem[node].idx))
      ensures old(Sorted(timer, st.order, base)) ==> Sorted(timer, st.order, base)
    {
      ghost var order, i := st.order, st.mem[node].idx;
      ghost var ok := Sorted(timer, order, base);
      Remove(node);
      if ok {
        assert Sorted(timer, order, base);
        SortedRemove(timer, order, base, i);
      }
    }

    method Forget(node: Node, ghost base: Word)
      requires Valid() && node !in st.mem && node != sentinel
      modifies node
      ensures Valid() && node.left == null && node.right == null && node.parent == null && node.key == 0
      ensures Sorted(timer, st.order, base) == old(Sorted(timer, st.order, base))
    {
      assert node !in st.order;
      node.left := null;
      node.right := null;
      node.parent := null;
      node.key := 0;
    }

    /** Deletes `node`: the tree stays a red-black tree, its in-order sequence loses exactly
        this node, and so stays sorted if it was. */
    method Delete(node: Node, ghost base: Word)
      requires Valid() && node in st.mem
      modifies this`root, this`st, st.mem.Keys`left, st.mem.Keys`right, st.mem.Keys`parent, st.mem.Keys`color,
               sentinel`parent, sentinel`color, node
      ensures Valid() && st.mem.Keys == old(st.mem.Keys) - {node}
      ensures 0 <= old(st.mem[node].idx) < |old(st.order)| && old(st.order)[old(st.mem[node].idx)] == node
      ensures st.order == RemoveAt(old(st.order), old(st.mem[node].idx))
      ensures old(Sorted(timer, st.order, base)) ==> Sorted(timer, st.order, base)
      ensures node.left == null && node.right == null && node.parent == null && node.key == 0
    {
      RemoveSorted(node, base);
      Forget(node, base);
    }

    // ---------- traversal ----------

    /** The next node in order, or null after the last one. */
    method Next(node: Node) returns (r: Node?)
      requires Valid() && node in st.mem
      ensures var i := st.mem[node].idx;
        0 <= i < |st.order| && st.order[i] == node && r == if i + 1 < |st.order| then st.order[i + 1] else null
    {
      assert Placed(st, node);
      if node.right != sentinel {
        r := Min(node.right);
        assert Placed(st, r);
        return;
      }
      var cur := node;
      while true
        invariant cur in st.mem && st.mem[cur].hi == st.mem[node].idx + 1
        decreases |st.order| - (st.mem[cur].hi - st.mem[cur].lo)
      {
        assert Placed(st, cur);
        var parent := cur.parent;
        if cur == root {
          return null;
        }
        assert Placed(st, parent);
        if cur == parent.left {
          return parent;
        }
        cur := parent;
      }
    }

    /** Starting from the minimum, Next visits every node once, in order. */
    method Walk() returns (visited: seq<Node>)
      requires Valid()
      ensures visited == st.order
    {
      visited := [];
      if root == sentinel {
        return;
      }
      var first := Min(root);
      var cur: Node? := first;
      assert Placed(st, first);
      while cur != null
        invariant |visited| <= |st.order| && visited == st.order[..|visited|]
        invariant if cur == null then |visited| == |st.order|
                  else |visited| < |st.order| && cur in st.mem && cur == st.order[|visited|]
        decreases |st.order| - |visited|
      {
        visited := visited + [cur];
        cur := Next(cur);
      }
    }
  }
}
