/** A binary tree of address prefixes, held as node records by address, and the plain map
    of prefixes it stands for. */
module RadixModel {
  import opened Common

  const NO_VALUE: nat := 0xFFFF_FFFF_FFFF_FFFF
  const WIDTH: nat := 32

  datatype Node = Node(right: nat, left: nat, parent: nat, value: nat)

  type Path = seq<bool>

  /** `path` and `at` tell which node stands for which prefix, `list` the order of the free
      nodes, `spare` a node just taken that is in neither, and `stored` what the tree means. */
  datatype Tree = Tree(mem: map<nat, Node>, root: nat, free: nat,
                       path: map<nat, Path>, at: map<Path, nat>, list: seq<nat>, spare: set<nat>,
                         stored: map<Path, nat>)

  function Child(e: Node, b: bool): nat {
    if b then e.right else e.left
  }

  function WithChild(e: Node, b: bool, c: nat): Node {
    if b then e.(right := c) else e.(left := c)
  }

  /** The child of `n` on side `b` stands for the longer prefix, and there is one exactly when
      some node stands for that prefix. */
  ghost predicate ChildOk(t: Tree, n: nat, b: bool)
    requires n in t.path && n in t.mem
  {
    var c := Child(t.mem[n], b);
    if c == 0 then t.path[n] + [b] !in t.at else c in t.path && t.path[c] == t.path[n] + [b]
  }

  ghost predicate ParentOk(t: Tree, n: nat)
    requires n in t.path && n in t.mem
  {
    var p, q := t.mem[n].parent, t.path[n];
    if n == t.root then q == [] && p == 0
    else q != [] && p in t.path && p in t.mem && t.path[p] == q[..|q| - 1] && Child(t.mem[p], q[|q| - 1]) == n
  }

  ghost predicate ValueOk(t: Tree, n: nat)
    requires n in t.path && n in t.mem
  {
    && (t.mem[n].value != NO_VALUE <==> t.path[n] in t.stored)
    && (t.path[n] in t.stored ==> t.stored[t.path[n]] == t.mem[n].value)
  }

  ghost predicate NodeOk(t: Tree, n: nat)
    requires n in t.path
  {
    && n > 0 && n in t.mem && t.path[n] in t.at && t.at[t.path[n]] == n && |t.path[n]| <= WIDTH
    && ChildOk(t, n, false) && ChildOk(t, n, true) && ParentOk(t, n) && ValueOk(t, n)
  }

  ghost predicate FreeAt(t: Tree, k: int)
    requires 0 <= k < |t.list|
  {
    var x := t.list[k];
    x > 0 && x in t.mem && x !in t.path && x !in t.spare && t.mem[x].right == After(t.list, k)
  }

  /** Every node ever carved is in exactly one of the tree and the free list (or in hand). */
  ghost predicate Partition(t: Tree) {
    && (forall x :: x in t.mem ==> x in t.path || x in t.list || x in t.spare)
    && (forall x :: x in t.spare ==> x in t.mem && x > 0 && x !in t.path)
    && Distinct(t.list) && t.free == After(t.list, -1)
    && (forall k {:trigger FreeAt(t, k)} :: 0 <= k < |t.list| ==> FreeAt(t, k))
  }

  ghost predicate Good(t: Tree) {
    && t.root in t.path && t.path[t.root] == [] && 0 !in t.path
    && (forall n {:trigger NodeOk(t, n)} :: n in t.path ==> NodeOk(t, n))
    && (forall q {:trigger t.at[q]} :: q in t.at ==> t.at[q] in t.path && t.path[t.at[q]] == q)
    && (forall q {:trigger q in t.stored} :: q in t.stored ==> q in t.at)
    && Partition(t)
  }

  // ---------- changing a value ----------

  function SetValue(t: Tree, n: nat, v: nat): Tree
    requires n in t.mem && n in t.path
  {
    t.(mem := t.mem[n := t.mem[n].(value := v)],
       stored := if v == NO_VALUE then t.stored - {t.path[n]} else t.stored[t.path[n] := v])
  }

  lemma SetValueNode(t: Tree, n: nat, v: nat, x: nat)
    requires Good(t) && n in t.mem && n in t.path && x in t.path
    ensures NodeOk(SetValue(t, n, v), x)
  {
    assert NodeOk(t, n) && NodeOk(t, x);
  }

  lemma SetValueFree(t: Tree, n: nat, v: nat, k: int)
    requires Good(t) && n in t.mem && n in t.path && 0 <= k < |t.list|
    ensures FreeAt(SetValue(t, n, v), k)
  {
    assert FreeAt(t, k);
  }

  lemma SetValueGood(t: Tree, n: nat, v: nat)
    requires Good(t) && n in t.mem && n in t.path
    ensures Good(SetValue(t, n, v))
  {
    var t' := SetValue(t, n, v);
    forall x | x in t'.path
      ensures NodeOk(t', x)
    {
      SetValueNode(t, n, v, x);
    }
    forall k | 0 <= k < |t.list|
      ensures FreeAt(t', k)
    {
      SetValueFree(t, n, v, k);
    }
    SetValueRest(t, n, v);
    SameStructure(t, t');
  }

  /** Only values have changed. */
  lemma SameStructure(t: Tree, t': Tree)
    requires Good(t) && t'.root == t.root && t'.free == t.free && t'.path == t.path && t'.at == t.at
      && t'.list == t.list
    requires t'.spare == t.spare && t'.mem.Keys == t.mem.Keys
    requires forall n {:trigger NodeOk(t', n)} :: n in t'.path ==> NodeOk(t', n)
    requires forall k {:trigger FreeAt(t', k)} :: 0 <= k < |t'.list| ==> FreeAt(t', k)
    requires forall q {:trigger q in t'.stored} :: q in t'.stored ==> q in t'.at
    ensures Good(t')
  {
    forall x | x in t'.mem
      ensures x in t'.path || x in t'.list || x in t'.spare
    {
      assert x in t.mem;
    }
  }

  lemma SetValueRest(t: Tree, n: nat, v: nat)
    requires Good(t) && n in t.mem && n in t.path
    ensures var t' := SetValue(t, n, v);
      && t'.mem.Keys == t.mem.Keys && (forall q {:trigger q in t'.stored} :: q in t'.stored ==> q in t'.at)
      && (forall x :: x in t'.mem ==> x in t'.path || x in t'.list || x in t'.spare)
  {
    assert NodeOk(t, n);
    var t' := SetValue(t, n, v);
    forall q | q in t'.stored
      ensures q in t'.at
    {
      if q != t.path[n] { assert q in t.stored; }
    }
  }

  // ---------- a new leaf ----------

  function Attach(t: Tree, n: nat, b: bool, x: nat): Tree
    requires n in t.mem && n in t.path
  {
    var q := t.path[n] + [b];
    t.(mem := t.mem[n := WithChild(t.mem[n], b, x)][x := Node(0, 0, n, NO_VALUE)],
       path := t.path[x := q], at := t.at[q := x], spare := t.spare - {x})
  }

  ghost predicate CanAttach(t: Tree, n: nat, b: bool, x: nat) {
    && Good(t) && n in t.path && n in t.mem && x in t.spare && Child(t.mem[n], b) == 0 && |t.path[n]| < WIDTH
  }

  /** With a prefix the tree has all shorter ones. */
  lemma Shorter(t: Tree, q: Path, b: bool)
    requires Good(t) && q + [b] in t.at
    ensures q in t.at
  {
    var c := t.at[q + [b]];
    assert NodeOk(t, c);
    assert (q + [b])[..|q|] == q;
    assert NodeOk(t, t.mem[c].parent);
  }

  lemma NoLonger(t: Tree, q: Path, b: bool)
    requires Good(t) && q !in t.at
    ensures q + [b] !in t.at
  {
    if q + [b] in t.at { Shorter(t, q, b); }
  }

  lemma AttachOld(t: Tree, n: nat, b: bool, x: nat, y: nat)
    requires CanAttach(t, n, b, x) && y in t.path
    ensures NodeOk(Attach(t, n, b, x), y)
  {
    assert NodeOk(t, n) && NodeOk(t, y);
    var t' := Attach(t, n, b, x);
    var q := t.path[n] + [b];
    assert y != x;
    forall d: bool
      ensures ChildOk(t', y, d)
    {
      if t.path[y] + [d] == q {
        assert t.path[y] == q[..|q| - 1] == t.path[n];
        assert y == n && d == q[|q| - 1];
      }
    }
    assert ParentOk(t', y);
  }

  lemma AttachNew(t: Tree, n: nat, b: bool, x: nat)
    requires CanAttach(t, n, b, x)
    ensures x in Attach(t, n, b, x).path && NodeOk(Attach(t, n, b, x), x)
  {
    assert NodeOk(t, n);
    var t' := Attach(t, n, b, x);
    var q := t.path[n] + [b];
    NoLonger(t, q, false);
    NoLonger(t, q, true);
    assert q[..|q| - 1] == t.path[n];
    assert |q + [false]| > |q| && |q + [true]| > |q|;
    assert q !in t.stored;
  }

  lemma AttachGood(t: Tree, n: nat, b: bool, x: nat)
    requires CanAttach(t, n, b, x)
    ensures Good(Attach(t, n, b, x))
  {
    assert NodeOk(t, n);
    var t' := Attach(t, n, b, x);
    var q := t.path[n] + [b];
    forall y | y in t'.path
      ensures NodeOk(t', y)
    {
      if y == x { AttachNew(t, n, b, x); } else { AttachOld(t, n, b, x, y); }
    }
    forall k | 0 <= k < |t.list|
      ensures FreeAt(t', k)
    {
      assert FreeAt(t, k);
    }
  }

  // ---------- a leaf goes to the free list ----------

  ghost predicate CanPrune(t: Tree, x: nat) {
    && Good(t) && x in t.path && x != t.root && x in t.mem && t.mem[x].left == 0 && t.mem[x].right == 0
    && t.mem[x].parent in t.mem
  }

  /** Unlinked from its parent and put in front of the free nodes. */
  function PruneMem(t: Tree, x: nat): map<nat, Node>
    requires x in t.mem && t.mem[x].parent in t.mem
  {
    var p := t.mem[x].parent;
    var e := if t.mem[p].right == x then t.mem[p].(right := 0) else t.mem[p].(left := 0);
    var m := t.mem[p := e];
    m[x := m[x].(right := t.free)]
  }

  function Prune(t: Tree, x: nat): Tree
    requires x in t.mem && t.mem[x].parent in t.mem && x in t.path
  {
    var q := t.path[x];
    t.(mem := PruneMem(t, x), free := x, path := t.path - {x}, at := t.at - {q}, list := [x] + t.list,
       stored := t.stored - {q})
  }

  lemma PruneLink(t: Tree, x: nat)
    requires CanPrune(t, x)
    ensures var p, q := t.mem[x].parent, t.path[x];
      && p != x && p in t.path && q != [] && t.path[p] == q[..|q| - 1] && Child(t.mem[p], q[|q| - 1]) == x
      && (t.mem[p].right == x <==> q[|q| - 1])
      && q + [false] !in t.at && q + [true] !in t.at
  {
    assert NodeOk(t, x);
    var p, q := t.mem[x].parent, t.path[x];
    assert NodeOk(t, p);
    if t.mem[p].right == x { assert t.path[x] == t.path[p] + [true]; assert q[|q| - 1] == true; }
  }

  lemma PruneNode(t: Tree, x: nat, y: nat)
    requires CanPrune(t, x) && y in t.path && y != x
    ensures NodeOk(Prune(t, x), y)
  {
    PruneLink(t, x);
    assert NodeOk(t, x) && NodeOk(t, y);
    var t' := Prune(t, x);
    var q := t.path[x];
    assert t.path[y] != q;
    forall d: bool
      ensures ChildOk(t', y, d)
    {
      if t.path[y] + [d] == q {
        assert t.path[y] == q[..|q| - 1] && d == q[|q| - 1];
        assert NodeOk(t, t.mem[x].parent);
      }
    }
    PruneParent(t, x, y);
  }

  lemma PruneParent(t: Tree, x: nat, y: nat)
    requires CanPrune(t, x) && y in t.path && y != x && y in t.mem && NodeOk(t, y)
    ensures ParentOk(Prune(t, x), y)
  {
    PruneLink(t, x);
    var p := t.mem[y].parent;
    if y != t.root {
      var q := t.path[y];
      assert q == t.path[p] + [q[|q| - 1]];
      assert t.path[p] + [q[|q| - 1]] in t.at;
    }
  }

  lemma PruneFree(t: Tree, x: nat, k: int)
    requires CanPrune(t, x) && 0 <= k <= |t.list|
    ensures FreeAt(Prune(t, x), k)
  {
    PruneLink(t, x);
    assert NodeOk(t, x);
    if k > 0 { assert FreeAt(t, k - 1); }
  }

  lemma PruneGood(t: Tree, x: nat)
    requires CanPrune(t, x)
    ensures Good(Prune(t, x))
  {
    PruneLink(t, x);
    assert NodeOk(t, x) && NodeOk(t, t.root);
    var t' := Prune(t, x);
    forall y | y in t'.path
      ensures NodeOk(t', y)
    {
      PruneNode(t, x, y);
    }
    forall k | 0 <= k < |t'.list|
      ensures FreeAt(t', k)
    {
      PruneFree(t, x, k);
    }
    PrunePartition(t, x);
  }

  lemma PrunePartition(t: Tree, x: nat)
    requires CanPrune(t, x)
    ensures var t' := Prune(t, x); Distinct(t'.list) && forall y :: y in t'.mem ==>
      y in t'.path || y in t'.list || y in t'.spare
  {
    forall k | 0 <= k < |t.list|
      ensures t.list[k] != x
    {
      assert FreeAt(t, k);
    }
    var t' := Prune(t, x);
    forall y | y in t'.mem
      ensures y in t'.path || y in t'.list || y in t'.spare
    {
      assert t'.list[0] == x;
      if y in t.list {
        var k :| 0 <= k < |t.list| && t.list[k] == y;
        assert t'.list[k + 1] == y;
      }
    }
  }

  // ---------- a node for use ----------

  /** The first free node is taken off the list. */
  function TakeFree(t: Tree): Tree
    requires t.list != []
  {
    t.(free := After(t.list, 0), list := t.list[1..], spare := t.spare + {t.list[0]})
  }

  lemma TakeFreeGood(t: Tree)
    requires Good(t) && t.list != []
    ensures t.free == t.list[0] > 0 && t.free in t.mem && t.mem[t.free].right == After(t.list, 0)
    ensures Good(TakeFree(t)) && t.free !in t.path
  {
    assert FreeAt(t, 0);
    var t' := TakeFree(t);
    forall k | 0 <= k < |t'.list|
      ensures FreeAt(t', k)
    {
      assert FreeAt(t, k + 1);
      assert t.list[0] != t.list[k + 1];
    }
    forall n | n in t'.path
      ensures NodeOk(t', n)
    {
      assert NodeOk(t, n);
    }
    forall y | y in t'.mem
      ensures y in t'.path || y in t'.list || y in t'.spare
    {
      if y in t.list && y != t.list[0] {
        var k :| 0 <= k < |t.list| && t.list[k] == y;
        assert t'.list[k - 1] == y;
      }
    }
  }

  /** A node is carved from fresh memory. */
  function TakeNew(t: Tree, x: nat): Tree {
    t.(mem := t.mem[x := Node(0, 0, 0, 0)], spare := t.spare + {x})
  }

  lemma TakeNewGood(t: Tree, x: nat)
    requires Good(t) && x > 0 && x !in t.mem
    ensures Good(TakeNew(t, x))
  {
    var t' := TakeNew(t, x);
    forall n | n in t'.path
      ensures NodeOk(t', n)
    {
      assert NodeOk(t, n);
      if n != t.root { assert NodeOk(t, t.mem[n].parent); }
    }
    assert x !in t.path by {
      if x in t.path { OldNode(t, x); }
    }
    forall k | 0 <= k < |t.list|
      ensures FreeAt(t', k)
    {
      assert FreeAt(t, k);
    }
  }

  lemma OldNode(t: Tree, n: nat)
    requires Good(t) && n in t.path
    ensures n in t.mem
  {
    assert NodeOk(t, n);
  }
}
