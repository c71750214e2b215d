/** Page descriptors and the circular doubly linked lists they form: one list of free
    runs and one list of partly used pages for each chunk size. */
module SlabLists {
  import opened Common

  /** A pointer to a descriptor: a list head or an entry of the page table. */
  datatype Ref = Null | FreeList | SlotList(slot: nat) | Page(i: nat)

  /** `prev` is kept with its two low bits split off: descriptors are aligned, so the
      source stores the page type there. */
  datatype Entry = Entry(slab: nat, next: Ref, prev: Ref, tag: nat)

  type Table = map<Ref, Entry>

  // ---------- lists ----------

  /** The k-th member of the list, the head standing on both sides of it. */
  function At(h: Ref, q: seq<nat>, k: int): Ref {
    if 0 <= k < |q| then Page(q[k]) else h
  }

  ghost predicate NextOk(m: Table, h: Ref, q: seq<nat>, k: int) {
    At(h, q, k - 1) in m && m[At(h, q, k - 1)].next == At(h, q, k)
  }

  ghost predicate PrevOk(m: Table, h: Ref, q: seq<nat>, k: int) {
    At(h, q, k) in m && m[At(h, q, k)].prev == At(h, q, k - 1)
  }

  /** The list with head `h` holds the pages `q`, in this order.  The head's own `prev`
      is not used. */
  ghost predicate List(m: Table, h: Ref, q: seq<nat>) {
    && !h.Page? && !h.Null? && Distinct(q)
    && (forall k {:trigger NextOk(m, h, q, k)} :: 0 <= k <= |q| ==> NextOk(m, h, q, k))
    && (forall k {:trigger PrevOk(m, h, q, k)} :: 0 <= k < |q| ==> PrevOk(m, h, q, k))
  }

  /** The descriptors whose links a list depends on. */
  ghost predicate OnList(h: Ref, q: seq<nat>, r: Ref) {
    r == h || (r.Page? && r.i in q)
  }

  /** A list is unaffected by changes to other descriptors. */
  lemma ListFrame(m: Table, m': Table, h: Ref, q: seq<nat>)
    requires List(m, h, q)
    requires forall r :: OnList(h, q, r) && r in m ==>
      r in m' && m'[r].next == m[r].next && (r != h ==> m'[r].prev == m[r].prev)
    ensures List(m', h, q)
  {
    forall k | 0 <= k <= |q|
      ensures NextOk(m', h, q, k)
    {
      assert NextOk(m, h, q, k);
      assert OnList(h, q, At(h, q, k - 1));
    }
    forall k | 0 <= k < |q|
      ensures PrevOk(m', h, q, k)
    {
      assert PrevOk(m, h, q, k);
      assert OnList(h, q, At(h, q, k));
    }
  }

  // ---------- taking a page off a list ----------

  ghost predicate CanUnhook(m: Table, x: Ref) {
    x in m && m[x].prev in m && m[x].next in m
  }

  /** prev->next = x->next; x->next->prev = x->prev */
  function Unhook(m: Table, x: Ref): Table
    requires CanUnhook(m, x)
  {
    var e := m[x];
    var m1 := m[e.prev := m[e.prev].(next := e.next)];
    m1[e.next := m1[e.next].(prev := e.prev, tag := e.tag)]
  }

  lemma UnhookReady(m: Table, h: Ref, q: seq<nat>, k: nat)
    requires List(m, h, q) && k < |q|
    ensures CanUnhook(m, Page(q[k]))
    ensures m[Page(q[k])].prev == At(h, q, k - 1) && m[Page(q[k])].next == At(h, q, k + 1)
    ensures h in m
  {
    assert PrevOk(m, h, q, k) && NextOk(m, h, q, k + 1) && NextOk(m, h, q, k) && NextOk(m, h, q, 0);
    if k + 1 < |q| { assert PrevOk(m, h, q, k + 1); }
  }

  lemma UnhookNext(m: Table, h: Ref, q: seq<nat>, k: nat, j: int)
    requires List(m, h, q) && k < |q| && 0 <= j <= |q| - 1
    requires CanUnhook(m, Page(q[k]))
    ensures NextOk(Unhook(m, Page(q[k])), h, RemoveAt(q, k), j)
  {
    UnhookReady(m, h, q, k);
    var i := if j <= k then j else j + 1;
    assert NextOk(m, h, q, j) && NextOk(m, h, q, j + 1);
    var q' := RemoveAt(q, k);
    assert At(h, q', j - 1) == At(h, q, if j <= k then j - 1 else j);
    assert At(h, q', j) == At(h, q, if j < k then j else j + 1);
  }

  lemma UnhookPrev(m: Table, h: Ref, q: seq<nat>, k: nat, j: int)
    requires List(m, h, q) && k < |q| && 0 <= j < |q| - 1
    requires CanUnhook(m, Page(q[k]))
    ensures PrevOk(Unhook(m, Page(q[k])), h, RemoveAt(q, k), j)
  {
    UnhookReady(m, h, q, k);
    assert PrevOk(m, h, q, j) && PrevOk(m, h, q, j + 1);
    var q' := RemoveAt(q, k);
    assert At(h, q', j - 1) == At(h, q, if j <= k then j - 1 else j);
    assert At(h, q', j) == At(h, q, if j < k then j else j + 1);
  }

  lemma UnhookList(m: Table, h: Ref, q: seq<nat>, k: nat)
    requires List(m, h, q) && k < |q|
    ensures CanUnhook(m, Page(q[k])) && List(Unhook(m, Page(q[k])), h, RemoveAt(q, k))
  {
    UnhookReady(m, h, q, k);
    var m', q' := Unhook(m, Page(q[k])), RemoveAt(q, k);
    forall j | 0 <= j <= |q'|
      ensures NextOk(m', h, q', j)
    {
      UnhookNext(m, h, q, k, j);
    }
    forall j | 0 <= j < |q'|
      ensures PrevOk(m', h, q', j)
    {
      UnhookPrev(m, h, q, k, j);
    }
  }

  // ---------- one page takes the place of another ----------

  /** x->prev->next = y; x->next->prev = y, where `y` already carries the links of `x`. */
  function Supplant(m: Table, x: Ref, y: Ref): Table
    requires CanUnhook(m, x) && y in m
  {
    var e := m[x];
    var m0 := m[y := m[y].(next := e.next, prev := e.prev, tag := e.tag)];
    var m1 := m0[e.prev := m0[e.prev].(next := y)];
    m1[e.next := m1[e.next].(prev := y, tag := 0)]
  }

  lemma SupplantList(m: Table, h: Ref, q: seq<nat>, k: nat, y: nat)
    requires List(m, h, q) && k < |q| && y !in q && Page(y) in m
    ensures CanUnhook(m, Page(q[k])) && List(Supplant(m, Page(q[k]), Page(y)), h, q[k := y])
  {
    UnhookReady(m, h, q, k);
    var m', q' := Supplant(m, Page(q[k]), Page(y)), q[k := y];
    forall j | 0 <= j <= |q'|
      ensures NextOk(m', h, q', j)
    {
      assert NextOk(m, h, q, j);
    }
    forall j | 0 <= j < |q'|
      ensures PrevOk(m', h, q', j)
    {
      assert PrevOk(m, h, q, j);
    }
  }

  // ---------- putting a page at the front ----------

  /** x->prev = h; x->next = h->next; x->next->prev = x; h->next = x */
  function PushFront(m: Table, h: Ref, x: Ref, tag: nat): Table
    requires h in m && x in m && m[h].next in m
  {
    var n := m[h].next;
    var m1 := m[x := m[x].(next := n, prev := h, tag := tag)];
    var m2 := m1[n := m1[n].(prev := x, tag := tag)];
    m2[h := m2[h].(next := x)]
  }

  lemma PushFrontList(m: Table, h: Ref, q: seq<nat>, x: nat, tag: nat)
    requires List(m, h, q) && x !in q && Page(x) in m
    ensures h in m && m[h].next in m && m[h].next == At(h, q, 0)
    ensures List(PushFront(m, h, Page(x), tag), h, [x] + q)
  {
    assert NextOk(m, h, q, 0);
    if |q| > 0 { assert PrevOk(m, h, q, 0); }
    var m', q' := PushFront(m, h, Page(x), tag), [x] + q;
    forall j | 0 <= j <= |q'|
      ensures NextOk(m', h, q', j)
    {
      if j > 0 { assert NextOk(m, h, q, j - 1); }
      assert At(h, q', j) == if j == 0 then Page(x) else At(h, q, j - 1);
    }
    forall j | 0 <= j < |q'|
      ensures PrevOk(m', h, q', j)
    {
      if j > 0 { assert PrevOk(m, h, q, j - 1); }
      assert At(h, q', j) == if j == 0 then Page(x) else At(h, q, j - 1);
    }
  }
}
