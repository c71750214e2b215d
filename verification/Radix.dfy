/** The radix tree of 32-bit address prefixes. */
module Radix {
  import opened Arith
  import opened Words
  import opened RadixModel

  const NODE: nat := 32
  const PAGE: nat := 4096
  const TOP_BIT: nat := 0x8000_0000

  datatype Result = Ok | Busy | Error

  // ---------- keys and masks as words ----------

  /** Bit `d` of a key, counted from the front. */
  predicate KeyBit(key: nat, d: nat) {
    d < WIDTH && Bit(key, 31 - d)
  }

  /** The first `l` bits. */
  function Prefix(key: nat, l: nat): Path {
    seq(l, d requires d >= 0 => KeyBit(key, d))
  }

  /** A contiguous mask of `l` bits. */
  ghost predicate IsMask(mask: nat, l: nat) {
    l <= WIDTH && forall d: nat {:trigger KeyBit(mask, d)} :: d < WIDTH ==> (KeyBit(mask, d) <==> d < l)
  }

  function BitAt(d: nat): nat {
    if d < WIDTH then Pow(31 - d) else 0
  }

  lemma BitFacts(w: nat, d: nat)
    requires d <= WIDTH
    ensures And(w, BitAt(d)) != 0 <==> KeyBit(w, d)
    ensures BitAt(d) / 2 == BitAt(d + 1)
    ensures Prefix(w, d + 1) == Prefix(w, d) + [KeyBit(w, d)]
  {
    if d < WIDTH { TestBit(w, 31 - d); }
    assert Pow(0) == 1;
  }

  lemma FirstBit()
    ensures TOP_BIT == BitAt(0)
  {
    PowSmall();
  }

  // ---------- prefixes that are there and prefixes that are not ----------

  lemma {:induction false} Absent(t: Tree, key: nat, d: nat, l: nat)
    requires Good(t) && Prefix(key, d) !in t.at && d <= l
    ensures Prefix(key, l) !in t.at
    decreases l - d
  {
    if d < l {
      assert Prefix(key, d + 1) == Prefix(key, d) + [KeyBit(key, d)];
      NoLonger(t, Prefix(key, d), KeyBit(key, d));
      Absent(t, key, d + 1, l);
    }
  }

  /** `value` is what is stored for the longest prefix of `key` that has something stored. */
  ghost predicate Longest(stored: map<Path, nat>, key: nat, n: nat, value: nat) {
    || (value == NO_VALUE && forall l: nat {:trigger Prefix(key, l)} :: l < n ==> Prefix(key, l) !in stored)
    || (exists l: nat :: l < n && Prefix(key, l) in stored && stored[Prefix(key, l)] == value
          && forall k: nat {:trigger Prefix(key, k)} :: l < k < n ==> Prefix(key, k) !in stored)
  }

  lemma LongestNext(stored: map<Path, nat>, key: nat, d: nat, value: nat)
    requires Longest(stored, key, d, value)
    ensures Longest(stored, key, d + 1, if Prefix(key, d) in stored then stored[Prefix(key, d)] else value)
  {
  }

  lemma {:induction false} LongestRest(t: Tree, key: nat, d: nat, n: nat, value: nat)
    requires Good(t) && Longest(t.stored, key, d, value) && Prefix(key, d) !in t.at && d <= n
    ensures Longest(t.stored, key, n, value)
    decreases n - d
  {
    if d < n {
      assert Prefix(key, d) !in t.stored;
      LongestNext(t.stored, key, d, value);
      assert Prefix(key, d + 1) == Prefix(key, d) + [KeyBit(key, d)];
      NoLonger(t, Prefix(key, d), KeyBit(key, d));
      LongestRest(t, key, d + 1, n, value);
    }
  }

  /** What the walk finds below a node. */
  lemma Below(t: Tree, n: nat, key: nat, d: nat)
    requires Good(t) && n in t.path && t.path[n] == Prefix(key, d) && d <= WIDTH
    ensures n in t.mem && n > 0 && Prefix(key, d) in t.at
    ensures var c := Child(t.mem[n], KeyBit(key, d));
      && (c == 0 ==> Prefix(key, d + 1) !in t.at)
      && (c != 0 ==> c in t.path && t.path[c] == Prefix(key, d + 1) && d + 1 <= WIDTH)
    ensures (t.mem[n].value != NO_VALUE <==> Prefix(key, d) in t.stored)
      && (Prefix(key, d) in t.stored ==> t.stored[Prefix(key, d)] == t.mem[n].value)
  {
    assert NodeOk(t, n);
    assert Prefix(key, d + 1) == Prefix(key, d) + [KeyBit(key, d)];
    var c := Child(t.mem[n], KeyBit(key, d));
    if c != 0 { assert NodeOk(t, c); }
  }

  class Radix {
    var mem: map<nat, Node>
    var root: nat
    var free: nat
    var start: nat
    var size: nat
    var top: nat              // pages are handed out from here on
    var refusals: seq<bool>   // which of the next requests for a page are refused
    ghost var st: Tree

    ghost predicate InStep()
      reads this
    {
      mem == st.mem && root == st.root && free == st.free && Good(st)
    }

    /** The rest of the page being carved up holds no node yet. */
    ghost predicate Space()
      reads this
    {
      && start % NODE == 0 && size % NODE == 0 && start + size <= top && (size > 0 ==> start > 0)
      && forall x :: x in mem ==> x + NODE <= top && (x + NODE <= start || start + size <= x)
    }

    ghost predicate Valid()
      reads this
    {
      InStep() && Space() && st.spare == {}
    }

    /** A page, aligned to its size and apart from all nodes, or 0. */
    method NewPage() returns (p: nat)
      requires forall x :: x in mem ==> x + NODE <= top
      modifies this`top, this`refusals
      ensures top >= old(top) && (old(refusals) == [] ==> p != 0 && refusals == [])
      ensures p != 0 ==> p % PAGE == 0 && p + PAGE <= top && forall x :: x in mem ==> x + NODE <= p || p + PAGE <= x
    {
      var refused := refusals != [] && refusals[0];
      if refusals != [] { refusals := refusals[1..]; }
      if refused { return 0; }
      p := (top / PAGE + 1) * PAGE;
      top := p + PAGE;
    }

    /** A node from the free list, or the next one of the page, or of a new page. */
    method Alloc() returns (x: nat)
      requires Valid()
      modifies this`mem, this`free, this`start, this`size, this`top, this`refusals, this`st
      ensures InStep() && Space() && st.path == old(st).path && st.at == old(st).at && st.stored == old(st).stored
        && root == old(root)
      ensures x == 0 ==> st == old(st)
      ensures x != 0 ==> st.spare == {x} && forall n :: n in st.path ==>
        n in mem && n in old(mem) && mem[n] == old(mem)[n]
      ensures old(refusals) == [] ==> x != 0 && refusals == []
      ensures old(free) != 0 ==>
        x == old(free) && st.list == old(st).list[1..] && start == old(start) && size == old(size) && top == old(top)
      ensures old(free) == 0 && x != 0 ==>
        && st.list == old(st).list && start == x + NODE
        && if old(size) >= NODE then x == old(start) && size == old(size) - NODE && top == old(top)
           else x % PAGE == 0 && size == PAGE - NODE
    {
      if free != 0 {
        x := ReuseNode();
      } else {
        var ok := size >= NODE;
        if !ok {
          ok := NextPage();
        }
        if ok {
          x := CarveNode();
        } else {
          x := 0;
        }
      }
    }

    /** The first node of the free list. */
    method ReuseNode() returns (x: nat)
      requires Valid() && free != 0
      modifies this`free, this`st
      ensures InStep() && x == old(free) != 0 && st.list == old(st).list[1..] && st.spare == {x}
      ensures st.path == old(st).path && st.at == old(st).at && st.stored == old(st).stored
      ensures forall n :: n in st.path ==> n in mem
    {
      TakeFreeGood(st);
      Kept(st);
      x := free;
      free := mem[free].right;
      st := TakeFree(st);
    }

    /** The next page to carve up. */
    method NextPage() returns (ok: bool)
      requires Space() && size < NODE
      modifies this`start, this`size, this`top, this`refusals
      ensures Space() && (if ok then size == PAGE && start % PAGE == 0 else start == old(start) && size == old(size))
      ensures old(refusals) == [] ==> ok && refusals == []
    {
      var p := NewPage();
      ok := p != 0;
      if ok {
        PageStart(p);
        start, size := p, PAGE;
      }
    }

    /** The next node of the page. */
    method CarveNode() returns (x: nat)
      requires InStep() && st.spare == {} && Space() && size >= NODE
      modifies this`mem, this`start, this`size, this`st
      ensures InStep() && Space() && x == old(start) != 0 && st == TakeNew(old(st), x)
      ensures start == old(start) + NODE && size == old(size) - NODE
      ensures forall n :: n in st.path ==> n in mem && n in old(mem) && mem[n] == old(mem)[n]
    {
      x := start;
      assert x !in mem;
      TakeNewGood(st, x);
      Kept(st);
      start := start + NODE;
      size := size - NODE;
      mem := mem[x := Node(0, 0, 0, 0)];
      st := TakeNew(st, x);
    }

    /** The value for the longest stored prefix of the key. */
    method Find(key: nat) returns (value: nat)
      requires Valid()
      ensures Longest(st.stored, key, WIDTH + 1, value)
    {
      var bit := TOP_BIT;
      FirstBit();
      value := NO_VALUE;
      var node := root;
      ghost var d := 0;
      assert st.path[root] == Prefix(key, 0);
      while node != 0
        invariant d <= WIDTH + 1 && (d <= WIDTH ==> bit == BitAt(d)) && Longest(st.stored, key, d, value)
        invariant node != 0 ==> d <= WIDTH && node in st.path && st.path[node] == Prefix(key, d)
        invariant node == 0 ==> Prefix(key, d) !in st.at
        decreases WIDTH + 2 - d
      {
        Below(st, node, key, d);
        BitFacts(key, d);
        LongestNext(st.stored, key, d, value);
        if mem[node].value != NO_VALUE {
          value := mem[node].value;
        }
        if And(key, bit) != 0 {
          node := mem[node].right;
        } else {
          node := mem[node].left;
        }
        bit := bit / 2;
        d := d + 1;
      }
      LongestRest(st, key, d, WIDTH + 1, value);
    }

    /** Follows the key as far as there are nodes; `next` is 0 if they ended before the mask. */
    method Descend(key: nat, mask: nat, ghost l: nat) returns (node: nat, bit: nat, next: nat, ghost d: nat)
      requires Valid() && IsMask(mask, l)
      ensures d <= l && bit == BitAt(d) && node in st.path && node in mem && st.path[node] == Prefix(key, d)
      ensures next != 0 ==> d == l
      ensures next == 0 ==> d < l && Child(mem[node], KeyBit(key, d)) == 0 && Prefix(key, l) !in st.at
    {
      FirstBit();
      bit, node, next, d := TOP_BIT, root, root, 0;
      assert st.path[root] == Prefix(key, 0);
      Below(st, root, key, 0);
      BitFacts(mask, 0);
      while And(mask, bit) != 0
        invariant d <= l && bit == BitAt(d) && node in st.path && node in mem && st.path[node] == Prefix(key, d)
        invariant next == node != 0 && (And(mask, bit) != 0 <==> d < l)
        decreases l - d
      {
        Below(st, node, key, d);
        BitFacts(key, d);
        if And(key, bit) != 0 {
          next := mem[node].right;
        } else {
          next := mem[node].left;
        }
        if next == 0 {
          Absent(st, key, d + 1, l);
          return;
        }
        bit := bit / 2;
        node := next;
        d := d + 1;
        Below(st, node, key, d);
        BitFacts(mask, d);
      }
    }

    /** A new leaf under `node`, on the side the key goes. */
    method AddLeaf(node: nat, key: nat, bit: nat, ghost d: nat) returns (x: nat)
      requires Valid() && node in st.path && node in mem && st.path[node] == Prefix(key, d) && d < WIDTH
        && bit == BitAt(d)
      requires Child(mem[node], KeyBit(key, d)) == 0
      modifies this`mem, this`free, this`start, this`size, this`top, this`refusals, this`st
      ensures Valid() && st.stored == old(st).stored && root == old(root)
      ensures x == 0 ==> st == old(st)
      ensures x != 0 ==>
        x in st.path && x in mem && st.path[x] == Prefix(key, d + 1) && mem[x] == Node(0, 0, node, NO_VALUE)
      ensures x != 0 ==> st.at == old(st).at[Prefix(key, d + 1) := x]
      ensures old(refusals) == [] ==> x != 0 && refusals == []
    {
      x := Alloc();
      if x != 0 {
        HangLeaf(x, node, key, bit, d);
      }
    }

    /** The spare node `x` becomes the child of `node`. */
    method HangLeaf(x: nat, node: nat, key: nat, bit: nat, ghost d: nat)
      requires InStep() && Space() && st.spare == {x} && x != 0
      requires node in st.path && node in mem && st.path[node] == Prefix(key, d) && d < WIDTH && bit == BitAt(d)
      requires Child(mem[node], KeyBit(key, d)) == 0
      modifies this`mem, this`st
      ensures Valid() && st == Attach(old(st), node, KeyBit(key, d), x)
      ensures x in st.path && x in mem && st.path[x] == Prefix(key, d + 1) && mem[x] == Node(0, 0, node, NO_VALUE)
    {
      BitFacts(key, d);
      AttachGood(st, node, KeyBit(key, d), x);
      ghost var t := st;
      if And(key, bit) != 0 {
        mem := mem[node := mem[node].(right := x)];
      } else {
        mem := mem[node := mem[node].(left := x)];
      }
      mem := mem[x := Node(0, 0, node, NO_VALUE)];
      st := Attach(t, node, KeyBit(key, d), x);
    }

    /** Stores a value for a prefix: refused if there is one, or if memory runs out; then
        nothing that is stored has changed. */
    method Insert(key: nat, mask: nat, value: nat, ghost l: nat) returns (r: Result)
      requires Valid() && IsMask(mask, l)
      modifies this`mem, this`free, this`start, this`size, this`top, this`refusals, this`st
      ensures Valid() && root == old(root)
      ensures r.Busy? <==> Prefix(key, l) in old(st).stored
      ensures r.Ok? && value != NO_VALUE ==> st.stored == old(st).stored[Prefix(key, l) := value]
      ensures !r.Ok? || value == NO_VALUE ==> st.stored == old(st).stored
      ensures OnlyAlong(old(st), st, Prefix(key, l)) && (r.Ok? ==> Prefix(key, l) in st.at)
      ensures old(refusals) == [] ==> !r.Error? && refusals == []
    {
      var node, bit, next, d := Descend(key, mask, l);
      Below(st, node, key, d);
      if next != 0 {
        if mem[node].value != NO_VALUE {
          return Busy;
        }
        PutValue(node, value);
        return Ok;
      }
      node := Extend(node, key, mask, bit, l, d);
      if node == 0 {
        return Error;
      }
      Below(st, node, key, l);
      PutValue(node, value);
      r := Ok;
    }

    /** One node more along the key. */
    method ExtendStep(node: nat, key: nat, bit: nat, ghost t0: Tree, ghost l: nat, ghost d: nat) returns (x: nat)
      requires Valid() && node in st.path && node in mem && st.path[node] == Prefix(key, d) && d < l <= WIDTH
      requires bit == BitAt(d) && Child(mem[node], KeyBit(key, d)) == 0
      requires st.stored == t0.stored && OnlyAlong(t0, st, Prefix(key, l))
      modifies this`mem, this`free, this`start, this`size, this`top, this`refusals, this`st
      ensures Valid() && root == old(root) && st.stored == t0.stored && OnlyAlong(t0, st, Prefix(key, l))
      ensures old(refusals) == [] ==> x != 0 && refusals == []
      ensures bit / 2 == BitAt(d + 1)
      ensures x != 0 ==>
        x in st.path && x in mem && st.path[x] == Prefix(key, d + 1) && mem[x] == Node(0, 0, node, NO_VALUE)
    {
      BitFacts(key, d);
      ghost var t := st;
      x := AddLeaf(node, key, bit, d);
      BitFacts(key, d + 1);
      if x != 0 {
        AlongMore(t0, t, st, key, d + 1, l, x);
      }
    }

    /** The nodes for the rest of the prefix; 0 if memory runs out on the way. */
    method Extend(node0: nat, key: nat, mask: nat, bit0: nat, ghost l: nat, ghost d0: nat) returns (node: nat)
      requires Valid() && IsMask(mask, l) && d0 < l && bit0 == BitAt(d0)
      requires node0 in st.path && node0 in mem && st.path[node0] == Prefix(key, d0)
        && Child(mem[node0], KeyBit(key, d0)) == 0
      modifies this`mem, this`free, this`start, this`size, this`top, this`refusals, this`st
      ensures Valid() && root == old(root) && st.stored == old(st).stored && OnlyAlong(old(st), st, Prefix(key, l))
      ensures old(refusals) == [] ==> node != 0 && refusals == []
      ensures node != 0 ==>
        node in st.path && node in mem && st.path[node] == Prefix(key, l) && mem[node].value == NO_VALUE
    {
      ghost var t0 := st;
      node := node0;
      var bit := bit0;
      ghost var d := d0;
      BitFacts(mask, d);
      while And(mask, bit) != 0
        invariant Valid() && root == old(root) && st.stored == t0.stored && OnlyAlong(t0, st, Prefix(key, l))
        invariant old(refusals) == [] ==> refusals == []
        invariant d <= l && bit == BitAt(d) && node in st.path && node in mem && st.path[node] == Prefix(key, d)
        invariant And(mask, bit) != 0 <==> d < l
        invariant mem[node].value == NO_VALUE || d < l
        invariant d < l ==> Child(mem[node], KeyBit(key, d)) == 0
        decreases l - d
      {
        node := ExtendStep(node, key, bit, t0, l, d);
        if node == 0 {
          return;
        }
        bit := bit / 2;
        d := d + 1;
        BitFacts(mask, d);
      }
    }

    method PutValue(node: nat, value: nat)
      requires Valid() && node in st.path && node in mem
      modifies this`mem, this`st
      ensures Valid() && st == SetValue(old(st), node, value)
    {
      SetValueGood(st, node, value);
      ghost var t := st;
      mem := mem[node := mem[node].(value := value)];
      st := SetValue(t, node, value);
    }

    /** The node for a prefix, or 0. */
    method Locate(key: nat, mask: nat, ghost l: nat) returns (node: nat)
      requires Valid() && IsMask(mask, l)
      ensures node == 0 ==> Prefix(key, l) !in st.at
      ensures node != 0 ==> node in st.path && node in mem && st.path[node] == Prefix(key, l)
    {
      FirstBit();
      var bit := TOP_BIT;
      node := root;
      ghost var d := 0;
      assert st.path[root] == Prefix(key, 0);
      Below(st, root, key, 0);
      BitFacts(mask, 0);
      while node != 0 && And(mask, bit) != 0
        invariant d <= l && bit == BitAt(d) && (And(mask, bit) != 0 <==> d < l)
        invariant node != 0 ==> node in st.path && node in mem && st.path[node] == Prefix(key, d)
        invariant node == 0 ==> Prefix(key, d) !in st.at
        decreases l - d
      {
        Below(st, node, key, d);
        BitFacts(key, d);
        if And(key, bit) != 0 {
          node := mem[node].right;
        } else {
          node := mem[node].left;
        }
        bit := bit / 2;
        d := d + 1;
        BitFacts(mask, d);
        if node != 0 { Below(st, node, key, d); }
      }
      if node == 0 { Absent(st, key, d, l); }
    }

    /** One leaf goes from the tree to the free list. */
    method PruneLeaf(node: nat) returns (parent: nat)
      requires Valid() && CanPrune(st, node)
      modifies this`mem, this`free, this`st
      ensures Valid() && st == Prune(old(st), node) && parent == old(mem)[node].parent
      ensures parent in st.path && parent in mem
      ensures var q := old(st).path[node]; q != [] && st.path[parent] == q[..|q| - 1]
    {
      PruneGood(st, node);
      PruneLink(st, node);
      PruneSpace(st, node);
      ghost var t := st;
      parent := mem[node].parent;
      if mem[parent].right == node {
        mem := mem[parent := mem[parent].(right := 0)];
      } else {
        mem := mem[parent := mem[parent].(left := 0)];
      }
      mem := mem[node := mem[node].(right := free)];
      free := node;
      st := Prune(t, node);
    }

    /** Removes a prefix, and with its node all ancestors that are left without purpose. */
    method Delete(key: nat, mask: nat, ghost l: nat) returns (r: Result, ghost k: nat)
      requires Valid() && IsMask(mask, l)
      requires l == 0 ==> root in mem && (mem[root].left != 0 || mem[root].right != 0)
      modifies this`mem, this`free, this`st
      ensures Valid() && root == old(root) && !r.Busy?
      ensures st.stored == old(st).stored - {Prefix(key, l)}
      ensures r.Ok? <==> Prefix(key, l) in old(st).stored || IsLeaf(old(st), Prefix(key, l))
      ensures if IsLeaf(old(st), Prefix(key, l)) then Pruned(old(st), st, Prefix(key, l), k) else st.at == old(st).at
    {
      k := 0;
      var node := Locate(key, mask, l);
      if node == 0 {
        return Error, k;
      }
      Below(st, node, key, l);
      if mem[node].right != 0 || mem[node].left != 0 {
        LeafTest(st, node);
        if mem[node].value != NO_VALUE {
          PutValue(node, NO_VALUE);
          return Ok, k;
        }
        return Error, k;
      }
      LeafTest(st, node);
      k := PruneUp(node, Prefix(key, l));
      r := Ok;
    }

    /** One node goes; is its parent of no more use either? */
    method PruneStep(node: nat, ghost t0: Tree, ghost q: Path, ghost k: nat) returns (parent: nat, more: bool)
      requires Valid() && CanPrune(st, node) && k <= |q| && st.path[node] == q[..k] && CutBelow(t0, st, q, k)
      modifies this`mem, this`free, this`st
      ensures Valid() && root == old(root) && st.stored == old(st).stored - {q[..k]}
      ensures k > 0 && parent in st.path && st.path[parent] == q[..k - 1] && CutBelow(t0, st, q, k - 1)
      ensures more ==> CanPrune(st, parent) && q[..k - 1] !in st.stored
      ensures !more ==> Pruned(t0, st, q, k - 1)
    {
      ghost var t := st;
      parent := PruneLeaf(node);
      CutOneMore(t0, t, st, q, k);
      assert q[..k][..k - 1] == q[..k - 1];
      LeafTest(st, parent);
      ValueAt(st, parent);
      if mem[parent].right != 0 || mem[parent].left != 0 {
        return parent, false;
      }
      if mem[parent].value != NO_VALUE {
        return parent, false;
      }
      UpTest(st, parent);
      more := mem[parent].parent != 0;
    }

    /** One round of the walk up that has begun at `q` in `t0`. */
    method PruneRound(node: nat, ghost t0: Tree, ghost q: Path, ghost k: nat) returns (parent: nat, more: bool)
      requires Valid() && CanPrune(st, node) && k <= |q| && st.path[node] == q[..k] && CutBelow(t0, st, q, k)
      requires if k == |q| then st.stored == t0.stored else st.stored == t0.stored - {q} && q[..k] !in st.stored
      modifies this`mem, this`free, this`st
      ensures Valid() && root == old(root) && st.stored == t0.stored - {q}
      ensures k > 0 && (more ==> GoesOn(t0, st, q, k - 1, parent)) && (!more ==> Pruned(t0, st, q, k - 1))
    {
      assert q[..|q|] == q;
      NotThere(st.stored, q[..k]);
      parent, more := PruneStep(node, t0, q, k);
    }

    /** From a leaf upwards. */
    method PruneUp(leaf: nat, ghost q: Path) returns (ghost k: nat)
      requires Valid() && CanPrune(st, leaf) && q == st.path[leaf]
      modifies this`mem, this`free, this`st
      ensures Valid() && root == old(root) && st.stored == old(st).stored - {q} && Pruned(old(st), st, q, k)
    {
      var node, more := leaf, true;
      ghost var t0 := st;
      k := |q|;
      assert q[..k] == q;
      while more
        invariant Valid() && root == old(root) && k <= |q|
        invariant if k == |q| then st == t0 && more && CanPrune(st, node) && st.path[node] == q
          else st.stored == t0.stored - {q}
        invariant k < |q| && more ==> GoesOn(t0, st, q, k, node)
        invariant !more ==> Pruned(t0, st, q, k)
        decreases k
      {
        node, more := PruneRound(node, t0, q, k);
        k := k - 1;
      }
    }

    // ---------- making a tree ----------

    /** A tree of one node, the first of the page at `p`. */
    constructor (p: nat, refusals: seq<bool>)
      requires p > 0 && p % PAGE == 0
      ensures Valid() && st.stored == map[] && st.at.Keys == {[]} && this.refusals == refusals
    {
      PageOffset(p);
      mem, root, free := map[p := Node(0, 0, 0, NO_VALUE)], p, 0;
      start, size, top := p + NODE, PAGE - NODE, p + PAGE;
      this.refusals := refusals;
      ghost var t := Seed(p);
      st := t;
    }

    /** Nodes without values for all prefixes of up to `n` bits, unless memory runs out. */
    method Preallocate(n: nat) returns (ok: bool)
      requires Valid() && n <= WIDTH && st.stored == map[] && [] in st.at
      modifies this`mem, this`free, this`start, this`size, this`top, this`refusals, this`st
      ensures Valid() && st.stored == map[]
      ensures ok ==> forall q: Path {:trigger q in st.at} :: |q| <= n ==> q in st.at
      ensures AtMost(old(st), st, n)
      ensures old(refusals) == [] ==> ok && refusals == []
    {
      var mask, inc, left := 0, TOP_BIT, n;
      ghost var depth := 0;
      FirstBit();
      NoMask();
      while left > 0
        invariant Valid() && st.stored == map[] && depth + left == n && IsMask(mask, depth) && inc == BitAt(depth)
        invariant forall q: Path {:trigger q in st.at} :: |q| <= depth ==> q in st.at
        invariant AtMost(old(st), st, n)
        invariant old(refusals) == [] ==> refusals == []
      {
        MaskNext(mask, depth);
        mask := Or(mask / 2, TOP_BIT);
        var done := PreallocateLevel(mask, inc, depth + 1);
        if !done {
          return false;
        }
        BitFacts(0, depth);
        inc := inc / 2;
        depth := depth + 1;
        left := left - 1;
      }
      ok := true;
    }

    /** All prefixes of one length. */
    method PreallocateLevel(mask: nat, inc: nat, ghost depth: nat) returns (ok: bool)
      requires Valid() && st.stored == map[] && 1 <= depth <= WIDTH && IsMask(mask, depth) && inc == BitAt(depth - 1)
      modifies this`mem, this`free, this`start, this`size, this`top, this`refusals, this`st
      ensures Valid() && st.stored == map[] && forall q :: q in old(st).at ==> q in st.at
      ensures ok ==> forall q: Path {:trigger q in st.at} :: |q| == depth ==> q in st.at
      ensures AtMost(old(st), st, depth)
      ensures old(refusals) == [] ==> ok && refusals == []
    {
      var key := 0;
      ghost var j := 0;
      KeyWraps(0, depth);
      while true
        invariant Valid() && st.stored == map[] && Grown(old(st), st, depth)
        invariant 0 <= j < Pow(depth) && key == KeyAt(j, depth) && (old(refusals) == [] ==> refusals == [])
        invariant LevelDone(st.at, depth, j)
        decreases Pow(depth) - j
      {
        ghost var t := st;
        var r := Insert(key, mask, NO_VALUE, depth);
        LevelGrown(old(st), t, st, key, depth);
        if r != Ok {
          return false;
        }
        KeyWraps(j, depth);
        LevelMore(t, st, depth, j);
        key := (key + inc) % 0x1_0000_0000;
        j := j + 1;
        if key == 0 {
          break;
        }
      }
      WholeLevel(st.at, depth);
      ok := true;
    }
  }

  lemma Kept(t: Tree)
    requires Good(t)
    ensures forall n :: n in t.path ==> n in t.mem && n != t.free
  {
    forall n | n in t.path
      ensures n in t.mem && n != t.free
    {
      assert NodeOk(t, n);
      if t.list != [] { assert FreeAt(t, 0); }
    }
  }

  // ---------- deleting ----------

  /** Nodes have been added for prefixes of at most `n` bits only. */
  ghost predicate AtMost(t: Tree, t': Tree, n: nat) {
    forall p :: p in t'.at ==> p in t.at || |p| <= n
  }

  /** Nodes have been added for prefixes of `q` only, and none taken away. */
  ghost predicate OnlyAlong(t: Tree, t': Tree, q: Path) {
    && (forall p :: p in t.at ==> p in t'.at)
    && (forall p :: p in t'.at ==> p in t.at || p <= q)
  }

  lemma AlongMore(t: Tree, t1: Tree, t2: Tree, key: nat, d: nat, l: nat, x: nat)
    requires d <= l && OnlyAlong(t, t1, Prefix(key, l)) && t2.at == t1.at[Prefix(key, d) := x]
    ensures OnlyAlong(t, t2, Prefix(key, l))
  {
    assert Prefix(key, d) == Prefix(key, l)[..d];
  }

  /** The nodes for the prefixes of `q` longer than `k` are gone, all others are there. */
  ghost predicate CutBelow(t: Tree, t': Tree, q: Path, k: nat) {
    forall p :: p in t'.at <==> p in t.at && !(p <= q && |p| > k)
  }

  lemma NotThere(stored: map<Path, nat>, q: Path)
    ensures q !in stored ==> stored - {q} == stored
  {
  }

  lemma CutOneMore(t: Tree, t1: Tree, t2: Tree, q: Path, k: nat)
    requires 0 < k <= |q| && CutBelow(t, t1, q, k) && t2.at == t1.at - {q[..k]}
    ensures CutBelow(t, t2, q, k - 1)
  {
    forall p: Path
      ensures p in t2.at <==> p in t.at && !(p <= q && |p| > k - 1)
    {
      if p <= q && |p| == k { assert p == q[..k]; }
    }
  }

  /** The nodes longer than `k` are gone and the one of length `k`, `node`, goes next. */
  ghost predicate GoesOn(t: Tree, t': Tree, q: Path, k: nat, node: nat) {
    && k <= |q| && CutBelow(t, t', q, k) && CanPrune(t', node)
    && node in t'.path && t'.path[node] == q[..k] && q[..k] !in t'.stored
  }

  /** The leaf `q` and its ancestors down from length `k` are gone; the first that stays is the
      root, or has a value, or another child. */
  ghost predicate Pruned(t: Tree, t': Tree, q: Path, k: nat) {
    && k < |q| && CutBelow(t, t', q, k) && q[..k] in t'.at
    && (k == 0 || q[..k] in t'.stored || !IsLeaf(t', q[..k]))
  }

  lemma ValueAt(t: Tree, n: nat)
    requires Good(t) && n in t.path
    ensures n in t.mem && t.path[n] in t.at && (t.mem[n].value != NO_VALUE <==> t.path[n] in t.stored)
    ensures n == t.root <==> t.path[n] == []
  {
    assert NodeOk(t, n) && NodeOk(t, t.root);
  }

  ghost predicate IsLeaf(t: Tree, q: Path) {
    q in t.at && q + [false] !in t.at && q + [true] !in t.at
  }

  lemma LeafTest(t: Tree, n: nat)
    requires Good(t) && n in t.path
    ensures n in t.mem && (IsLeaf(t, t.path[n]) <==> t.mem[n].left == 0 && t.mem[n].right == 0)
    ensures n != t.root ==> t.mem[n].parent in t.mem
  {
    assert NodeOk(t, n);
    if t.mem[n].left != 0 { assert NodeOk(t, t.mem[n].left); }
    if t.mem[n].right != 0 { assert NodeOk(t, t.mem[n].right); }
  }

  /** Only the root has no parent; a node without a value stores nothing. */
  lemma UpTest(t: Tree, n: nat)
    requires Good(t) && n in t.path && n in t.mem && t.mem[n].value == NO_VALUE
    ensures t.mem[n].parent == 0 <==> n == t.root
    ensures t.path[n] !in t.stored && (n != t.root ==> t.mem[n].parent in t.mem)
  {
    assert NodeOk(t, n);
  }

  lemma PruneSpace(t: Tree, x: nat)
    requires CanPrune(t, x)
    ensures PruneMem(t, x).Keys == t.mem.Keys
  {
  }

  // ---------- making a tree ----------

  /** One node, without a value, standing for the empty prefix. */
  lemma Seed(p: nat) returns (t: Tree)
    requires p > 0
    ensures Good(t) && t.mem == map[p := Node(0, 0, 0, NO_VALUE)] && t.root == p && t.free == 0
    ensures t.spare == {} && t.stored == map[] && t.at.Keys == {[]}
  {
    t := Tree(map[p := Node(0, 0, 0, NO_VALUE)], p, 0, map[p := []], map[[] := p], [], {}, map[]);
    assert [] + [false] != [] && [] + [true] != [];
    assert NodeOk(t, p);
  }

  lemma PageStart(p: nat)
    requires p % PAGE == 0
    ensures p % NODE == 0 && PAGE % NODE == 0
  {
    DivMod(p, PAGE);
    Quotient(p, 128 * (p / PAGE), 0, NODE);
  }

  lemma PageOffset(p: nat)
    requires p % PAGE == 0
    ensures (p + NODE) % NODE == 0 && (PAGE - NODE) % NODE == 0
  {
    DivMod(p, PAGE);
    Quotient(p + NODE, 128 * (p / PAGE) + 1, 0, NODE);
  }

  lemma NoMask()
    ensures IsMask(0, 0)
  {
    forall d: nat | d < WIDTH
      ensures !KeyBit(0, d)
    {
      ZeroBit(31 - d);
    }
  }

  /** Moving a mask down by one and setting its top bit makes it one bit longer. */
  lemma MaskNext(mask: nat, l: nat)
    requires IsMask(mask, l) && l < WIDTH
    ensures IsMask(Or(mask / 2, TOP_BIT), l + 1)
  {
    FirstBit();
    forall d: nat | d < WIDTH
      ensures KeyBit(Or(mask / 2, TOP_BIT), d) <==> d < l + 1
    {
      OrBit(mask / 2, Pow(31), 31 - d);
      PowBit(31, 31 - d);
      if d > 0 {
        assert KeyBit(mask, d - 1) <==> d - 1 < l;
        assert Bit(mask, 32 - d) == Bit(mask / 2, 31 - d);
      }
    }
  }

  /** The `j`-th prefix of `depth` bits, as a key and as a path. */
  function KeyAt(j: nat, depth: nat): nat
    requires depth <= WIDTH
  {
    j * Pow(32 - depth)
  }

  function Level(j: nat, depth: nat): Path
    requires depth <= WIDTH
  {
    Prefix(KeyAt(j, depth), depth)
  }

  lemma KeyWraps(j: nat, depth: nat)
    requires 1 <= depth <= WIDTH && j < Pow(depth)
    ensures KeyAt(0, depth) == 0
    ensures var next := (KeyAt(j, depth) + BitAt(depth - 1)) % 0x1_0000_0000;
      && (next == 0 <==> j + 1 == Pow(depth))
      && (next != 0 ==> next == KeyAt(j + 1, depth))
  {
    PowSmall();
    PowAdd(depth, 32 - depth);
    Steps(j, Pow(depth), Pow(32 - depth), 0x1_0000_0000);
    Wraps(KeyAt(j, depth) + BitAt(depth - 1));
  }

  lemma Steps(j: nat, n: nat, u: nat, m: nat)
    requires j < n && n * u == m && u > 0
    ensures j * u + u == (j + 1) * u && 0 < (j + 1) * u <= m && ((j + 1) * u == m <==> j + 1 == n)
  {
    if j + 1 < n { Multiply(j + 1, n, u); }
  }

  lemma Wraps(x: nat)
    requires 0 < x <= 0x1_0000_0000
    ensures x % 0x1_0000_0000 == if x == 0x1_0000_0000 then 0 else x
  {
  }

  /** The first `j` prefixes of `depth` bits have nodes. */
  ghost predicate LevelDone(at: map<Path, nat>, depth: nat, j: nat)
    requires depth <= WIDTH
  {
    forall i: nat {:trigger Level(i, depth)} :: i < j ==> Level(i, depth) in at
  }

  /** Nodes have been added for prefixes of at most `depth` bits, and none taken away. */
  ghost predicate Grown(t: Tree, t': Tree, depth: nat) {
    (forall q :: q in t.at ==> q in t'.at) && AtMost(t, t', depth)
  }

  lemma LevelGrown(t0: Tree, t: Tree, t': Tree, key: nat, depth: nat)
    requires Grown(t0, t, depth) && OnlyAlong(t, t', Prefix(key, depth))
    ensures Grown(t0, t', depth)
  {
    assert |Prefix(key, depth)| == depth;
  }

  lemma LevelMore(t: Tree, t': Tree, depth: nat, j: nat)
    requires depth <= WIDTH && LevelDone(t.at, depth, j) && Level(j, depth) in t'.at
      && OnlyAlong(t, t', Level(j, depth))
    ensures LevelDone(t'.at, depth, j + 1)
  {
  }

  lemma WholeLevel(at: map<Path, nat>, depth: nat)
    requires 1 <= depth <= WIDTH && LevelDone(at, depth, Pow(depth))
    ensures forall q: Path {:trigger q in at} :: |q| == depth ==> q in at
  {
    forall q: Path | |q| == depth
      ensures q in at
    {
      var i := LevelOf(q);
      assert Level(i, depth) in at;
    }
  }

  lemma Multiply(a: nat, b: nat, u: nat)
    requires 0 < a < b && u > 0
    ensures 0 < a * u < b * u
  {
  }

  function Number(q: Path): nat {
    if q == [] then 0 else 2 * Number(q[..|q| - 1]) + if q[|q| - 1] then 1 else 0
  }

  lemma HalfBack(x: nat, b: nat)
    requires b <= 1
    ensures (2 * x + b) / 2 == x && (2 * x + b) % 2 == b
  {
  }

  lemma {:induction false} NumberBits(q: Path, i: nat)
    requires i < |q|
    ensures Bit(Number(q), i) <==> q[|q| - 1 - i]
    decreases |q|
  {
    var rest := Number(q[..|q| - 1]);
    HalfBack(rest, if q[|q| - 1] then 1 else 0);
    if i > 0 { NumberBits(q[..|q| - 1], i - 1); }
  }

  lemma {:induction false} NumberBound(q: Path)
    ensures Number(q) < Pow(|q|)
    decreases |q|
  {
    if q != [] { NumberBound(q[..|q| - 1]); }
  }

  /** Every prefix has its number. */
  lemma LevelOf(q: Path) returns (j: nat)
    requires 1 <= |q| <= WIDTH
    ensures j < Pow(|q|) && Level(j, |q|) == q
  {
    j := Number(q);
    NumberBound(q);
    var u := 32 - |q|;
    forall d | 0 <= d < |q|
      ensures Level(j, |q|)[d] == q[d]
    {
      ShiftBit(j, u, 31 - d);
      NumberBits(q, |q| - 1 - d);
    }
  }

  /** A leaf that was only preallocated: deleting its prefix answers Ok, although nothing was
      ever stored. */
  method DeletePreallocated(p: nat) returns (r: Result, tree: Radix)
    requires p > 0 && p % PAGE == 0
    ensures r == Ok && tree.st.stored == map[]
  {
    tree := new Radix(p, []);
    var ok := tree.Preallocate(1);
    NoMask();
    MaskNext(0, 0);
    assert Or(0 / 2, TOP_BIT) == TOP_BIT;
    assert |Prefix(0, 1)| == 1;
    assert IsLeaf(tree.st, Prefix(0, 1));
    ghost var k;
    r, k := tree.Delete(0, TOP_BIT, 1);
  }
}
