/** The allocation pool: small requests are cut from blocks, large ones are passed on to
    malloc, and everything goes back at once when the pool is destroyed. */
module MemPool {
  import opened Common
  import opened PoolModel
  import opened PoolState
  import opened PoolReset

  /** The test for room fails in block `b`. */
  ghost predicate NoRoom(blocks: map<nat, Block>, b: nat, size: nat, align: bool) {
    b in blocks && !Fits(blocks[b].end, Place(blocks[b].last, align), size)
  }

  /** No block from `current` on has room. */
  ghost predicate NoneHasRoom(s: State, size: nat, align: bool) {
    forall j :: s.cur <= j < |s.m.chain| ==> NoRoom(s.m.blocks, s.m.chain[j], size, align)
  }

  /** A request is cut out of block `j`, the first from `current` on where it fits, at the lowest
      place, and only the fill mark of that block moves. */
  ghost predicate ServedFrom(s: State, s': State, j: nat, p: nat, size: nat, align: bool) {
    && s.cur <= j < |s.m.chain| && s.m.chain[j] in s.m.blocks
    && Spot(s.m.blocks[s.m.chain[j]], p, size, align)
    && (forall i :: s.cur <= i < j ==> s.m.chain[i] in s.m.blocks && NoSpot(s.m.blocks[s.m.chain[i]], size, align))
    && s'.m.chain == s.m.chain && s'.current == s.current && s'.cur == s.cur
    && s'.m.blocks == s.m.blocks[s.m.chain[j] := s.m.blocks[s.m.chain[j]].(last := p + size)]
  }

  /** It fits nowhere, and opens a new block unless malloc refuses. */
  ghost predicate ServedAnew(s: State, s': State, psize: nat, p: nat, size: nat, align: bool) {
    && (forall i :: s.cur <= i < |s.m.chain| ==>
        s.m.chain[i] in s.m.blocks && NoSpot(s.m.blocks[s.m.chain[i]], size, align))
    && (p != 0 ==> p >= DATA && Grown(s, s'.m, p - DATA, p + size, p - DATA + psize))
  }

  /** Where a small request goes. */
  ghost predicate WhereServed(s: State, s': State, psize: nat, p: nat, size: nat, align: bool) {
    (exists j :: ServedFrom(s, s', j, p, size, align)) || ServedAnew(s, s', psize, p, size, align)
  }

  lemma BlockBounds(m: Mem, head: nat, psize: nat, i: nat)
    requires MemOk(m, head, psize) && i < |m.chain|
    ensures m.chain[i] in m.blocks
    ensures var b := m.blocks[m.chain[i]]; b.last <= b.end < b.last + ADDRESSES && b.end % WORD == 0
  {
    BlockFacts(m, head, psize, i);
    assert BlockOk(m, head, psize, i);
  }

  lemma BlockFull(m: Mem, head: nat, psize: nat, i: nat, size: nat, align: bool)
    requires MemOk(m, head, psize) && i < |m.chain| && NoRoom(m.blocks, m.chain[i], size, align)
    ensures m.chain[i] in m.blocks && NoSpot(m.blocks[m.chain[i]], size, align)
  {
    BlockBounds(m, head, psize, i);
    RoomTest(m.blocks[m.chain[i]], size, align);
  }

  lemma BlocksFull(s: State, head: nat, psize: nat, k: nat, size: nat, align: bool)
    requires MemOk(s.m, head, psize) && k <= |s.m.chain|
    requires forall j :: s.cur <= j < k ==> NoRoom(s.m.blocks, s.m.chain[j], size, align)
    ensures forall i :: s.cur <= i < k ==>
      s.m.chain[i] in s.m.blocks && NoSpot(s.m.blocks[s.m.chain[i]], size, align)
  {
    forall i | s.cur <= i < k
      ensures s.m.chain[i] in s.m.blocks && NoSpot(s.m.blocks[s.m.chain[i]], size, align)
    {
      BlockFull(s.m, head, psize, i, size, align);
    }
  }

  /** A request served from block `k`, the first with room. */
  lemma CarvedWhere(s: State, head: nat, psize: nat, k: nat, size: nat, align: bool, kind: Kind) returns (s': State)
    requires Good(s, head, psize) && s.cur <= k < |s.m.chain| && s.m.chain[k] in s.m.blocks && !kind.Whole?
    requires forall j :: s.cur <= j < k ==> NoRoom(s.m.blocks, s.m.chain[j], size, align)
    requires !NoRoom(s.m.blocks, s.m.chain[k], size, align) && (kind != User(false) ==> align)
    requires var b := s.m.blocks[s.m.chain[k]]; Place(b.last, align) + size <= b.end
    ensures var at := Place(s.m.blocks[s.m.chain[k]].last, align);
      && s' == s.(m := Carve(s.m, k, at, size, kind, s.issued), issued := s.issued + 1)
      && Good(s', head, psize) && Served(s, s', at, s.issued, size, kind) && WhereServed(s, s', psize, at, size, align)
  {
    var at := Place(s.m.blocks[s.m.chain[k]].last, align);
    BlocksFull(s, head, psize, k, size, align);
    s' := Carved(s, head, psize, k, at, size, kind);
    BlockBounds(s.m, head, psize, k);
    RoomTest(s.m.blocks[s.m.chain[k]], size, align);
    assert ServedFrom(s, s', k, at, size, align);
  }

  lemma BlockWhere(s: State, s': State, head: nat, psize: nat, p: nat, size: nat, align: bool)
    requires Good(s, head, psize) && NoneHasRoom(s, size, align)
    requires p != 0 ==> p >= DATA && Grown(s, s'.m, p - DATA, p + size, p - DATA + psize)
    ensures WhereServed(s, s', psize, p, size, align)
  {
    BlocksFull(s, head, psize, |s.m.chain|, size, align);
  }

  lemma StillWhere(s: State, s1: State, s2: State, psize: nat, p: nat, size: nat, align: bool)
    requires WhereServed(s, s1, psize, p, size, align) && p != 0
    requires s2.m == s1.m && s2.cur == s1.cur && s2.current == s1.current
    ensures WhereServed(s, s2, psize, p, size, align)
  {
    if j :| ServedFrom(s, s1, j, p, size, align) {
      assert ServedFrom(s, s2, j, p, size, align);
    } else {
      assert ServedAnew(s, s2, psize, p, size, align);
    }
  }

  /** How many blocks a search looks at that stops at block `k`. */
  lemma ScanBound(s: State, k: nat)
    requires Pace(s) && s.cur <= k < |s.m.chain|
    ensures k + 1 - s.cur <= |s.m.chain| - s.cur && (!s.wasReset ==> k + 1 - s.cur <= 7)
  {
    if !s.wasReset { AtMostSeven(Fails(s.m.blocks, s.m.chain), s.cur); }
  }

  class MemPool {
    const head: nat                     // size of the first block's header
    const psize: nat                    // size of every block
    var pool: nat                       // address of the first block, 0 if it was refused
    var blocks: map<nat, Block>         // block headers by address
    var max: nat
    var current: nat
    var large: nat
    var larges: map<nat, Large>
    var cleanup: nat
    var cleanups: map<nat, Cleanup>

    var heap: Heap                      // the state of malloc
    var trace: seq<Event>

    ghost var st: State                 // what all this describes

    ghost predicate InStep()
      reads this
    {
      && heap.regions == st.m.regions && blocks == st.m.blocks && larges == st.lists.larges
         && cleanups == st.lists.cleanups
      && pool == st.pool && heap.top == st.top && max == st.max && current == st.current && large == st.large
         && cleanup == st.cleanup
    }

    ghost predicate Valid()
      reads this
    {
      InStep() && Good(st, head, psize)
    }

    /** free: only of a region that is held. */
    method Free(p: nat)
      requires p in heap.regions
      modifies this`heap, this`trace
      ensures heap == old(heap).(regions := old(heap).regions - {p}) && trace == old(trace) + [Freed(p)]
    {
      heap := heap.(regions := heap.regions - {p});
      trace := trace + [Freed(p)];
    }

    /** Creates a pool of one block. */
    constructor (head: nat, size: nat, refusals: seq<bool>)
      requires IsHead(head) && size % WORD == 0 && head + 2 * LARGE <= size < ADDRESSES
      ensures this.head == head && psize == size && trace == [] && (refusals == [] ==> pool != 0 && heap.refusals == [])
      ensures pool == 0 ==> heap.regions == map[]
      ensures pool != 0 ==> Valid() && st == OneBlock(head, size, pool, heap.top)
    {
      this.head, psize := head, size;
      heap := Heap(map[], 0, refusals);
      blocks, larges, cleanups := map[], map[], map[];
      max, current, large, cleanup, trace := 0, 0, 0, 0, [];
      pool := 0;
      st := Empty();
      new;
      CreatePool(size);
    }

    method CreatePool(size: nat)
      requires IsHead(head) && size % WORD == 0 && head + 2 * LARGE <= size == psize < ADDRESSES
        && pool == large == cleanup == 0
      requires heap.regions == map[] && blocks == map[] && larges == map[] && cleanups == map[]
      modifies this
      ensures trace == old(trace) && (pool == 0 ==> heap.regions == map[])
      ensures old(heap).refusals == [] ==> pool != 0 && heap.refusals == []
      ensures pool != 0 ==> Valid() && st == OneBlock(head, psize, pool, heap.top)
    {
      var p, h := Malloc(heap, size);
      heap := h;
      if p != 0 {
        Created(head, size, p, h.top);
        SetUpPool(p, size);
      }
    }

    method SetUpPool(p: nat, size: nat)
      requires size == psize && head <= size && large == cleanup == 0 && heap.regions == map[p := size]
      requires blocks == map[] && larges == map[] && cleanups == map[]
        && Good(OneBlock(head, size, p, heap.top), head, psize)
      modifies this`blocks, this`max, this`current, this`pool, this`st
      ensures Valid() && st == OneBlock(head, psize, p, heap.top) && pool == p
    {
      blocks := blocks[p := Block(p + head, p + size, 0, 0)];
      max := if size - head < MAX_FROM_POOL then size - head else MAX_FROM_POOL;
      current := p;
      pool := p;
      st := OneBlock(head, size, p, heap.top);
    }

    // ---------- small allocations ----------

    /** A further block, out of which the request is served. */
    method PallocBlock(size: nat, ghost kind: Kind) returns (p: nat, ghost id: nat)
      requires Valid() && size <= max && !kind.Whole?
      modifies this`heap, this`blocks, this`current, this`st
      ensures Valid() && Served(old(st), st, p, id, size, kind)
        && (p != 0 ==> p >= DATA && Grown(old(st), st.m, p - DATA, p + size, p - DATA + psize))
      ensures old(heap).refusals == [] ==> p != 0 && heap.refusals == []
    {
      FirstBlock(st.m, head, psize);
      var b, h := Malloc(heap, blocks[pool].end - pool);
      id := st.issued;
      if b != 0 {
        p := StartBlock(b, h, size, kind);
      } else {
        p := 0;
        Refused(st, head, psize, h.top);
        heap, st := h, st.(top := h.top);
      }
    }

    /** The block at `b` serves the request and goes to the end of the chain. */
    method StartBlock(b: nat, h: Heap, size: nat, ghost kind: Kind) returns (p: nat)
      requires Valid() && size <= max && !kind.Whole? && Fresh(st.m.regions, b, psize) && b + psize <= h.top
        && st.top <= h.top
      requires h.regions == heap.regions[b := psize]
      modifies this`heap, this`blocks, this`current, this`st
      ensures Valid() && p != 0 && Served(old(st), st, p, old(st).issued, size, kind)
      ensures p >= DATA && Grown(old(st), st.m, p - DATA, p + size, p - DATA + psize) && heap == h
    {
      ghost var s := st;
      var bs, c;
      p, bs, c, st := SetUpBlock(blocks, current, b, psize, size, s, head, kind, h.top);
      heap, blocks, current := h, bs, c;
    }

    /** The first block from `current` on with enough room. */
    method TryBlock(b: nat, size: nat, align: bool, ghost k: nat) returns (m: nat, fits: bool)
      requires Valid() && k < |st.m.chain| && b == st.m.chain[k]
      ensures b > 0 && b in blocks && (fits <==> !NoRoom(blocks, b, size, align))
      ensures fits ==> m == Place(blocks[b].last, align) && m + size <= blocks[b].end
      ensures blocks[b].next == 0 <==> k + 1 == |st.m.chain|
      ensures blocks[b].next != 0 ==> k + 1 < |st.m.chain| && blocks[b].next == st.m.chain[k + 1]
    {
      BlockFacts(st.m, head, psize, k);
      m := blocks[b].last;
      if align {
        m := AlignWord(m);
      }
      fits := Fits(blocks[b].end, m, size);
    }

    method FindRoom(size: nat, align: bool) returns (b: nat, m: nat, ghost k: nat)
      requires Valid()
      ensures st.cur <= k < |st.m.chain| && forall j :: st.cur <= j < k ==> NoRoom(blocks, st.m.chain[j], size, align)
      ensures b == 0 ==> k + 1 == |st.m.chain| && NoRoom(blocks, st.m.chain[k], size, align)
      ensures b != 0 ==> !NoRoom(blocks, b, size, align)
      ensures b != 0 ==>
        b == st.m.chain[k] && b in blocks && m == Place(blocks[b].last, align) && m + size <= blocks[b].end
    {
      b, k := current, st.cur;
      while true
        invariant st.cur <= k < |st.m.chain| && b == st.m.chain[k]
        invariant forall j :: st.cur <= j < k ==> NoRoom(blocks, st.m.chain[j], size, align)
        decreases |st.m.chain| - k
      {
        var fits;
        m, fits := TryBlock(b, size, align, k);
        if fits {
          return;
        }
        b := blocks[b].next;
        if b == 0 {
          return;
        }
        k := k + 1;
      }
    }

    /** A small request: served by the first block with enough room, or by a new one. */
    method PallocSmall(size: nat, align: bool, ghost kind: Kind) returns (p: nat, ghost id: nat, ghost scanned: nat)
      requires Valid() && size <= max && !kind.Whole? && (kind != User(false) ==> align)
      modifies this`heap, this`blocks, this`current, this`st
      ensures Valid() && Served(old(st), st, p, id, size, kind)
      ensures old(heap).refusals == [] ==> p != 0 && heap.refusals == []
      ensures scanned <= |old(st).m.chain| - old(st).cur && (!st.wasReset ==> scanned <= 7)
      ensures WhereServed(old(st), st, psize, p, size, align)
    {
      ghost var s := st;
      var b, m, k := FindRoom(size, align);
      ScanBound(s, k);
      scanned := k + 1 - st.cur;
      if b != 0 {
        p, id := m, st.issued;
        CutFrom(b, m, size, align, k, kind);
      } else {
        p, id := PallocBlock(size, kind);
        BlockWhere(s, st, head, psize, p, size, align);
      }
    }

    /** The request is cut from block `b` at `m`. */
    method CutFrom(b: nat, m: nat, size: nat, align: bool, ghost k: nat, ghost kind: Kind)
      requires Valid() && st.cur <= k < |st.m.chain| && b == st.m.chain[k] && b in blocks && !kind.Whole?
        && (kind != User(false) ==> align)
      requires forall j :: st.cur <= j < k ==> NoRoom(blocks, st.m.chain[j], size, align)
      requires !NoRoom(blocks, b, size, align) && m == Place(blocks[b].last, align) && m + size <= blocks[b].end
      modifies this`blocks, this`st
      ensures Valid() && m > 0 && Served(old(st), st, m, old(st).issued, size, kind)
        && WhereServed(old(st), st, psize, m, size, align)
    {
      st := CarvedWhere(st, head, psize, k, size, align, kind);
      blocks := blocks[b := blocks[b].(last := m + size)];
    }

    // ---------- large allocations ----------

    /** The first of the front five headers that holds no region. */
    method FindEmpty() returns (l: nat, ghost k: nat)
      requires Valid()
      ensures l != 0 ==>
        k < 5 && k < |st.lists.lchain| && l == st.lists.lchain[k] && l in larges && larges[l].alloc == 0
      ensures l == 0 ==> k == if |st.lists.lchain| < 5 then |st.lists.lchain| else 5
      ensures forall j :: 0 <= j < k && j < |st.lists.lchain| ==>
        st.lists.lchain[j] in larges && larges[st.lists.lchain[j]].alloc != 0
    {
      l, k := large, 0;
      var n := 0;
      while l != 0
        invariant n == k < 5 && k <= |st.lists.lchain| && l == After(st.lists.lchain, k - 1)
        invariant forall j :: 0 <= j < k ==> st.lists.lchain[j] in larges && larges[st.lists.lchain[j]].alloc != 0
        decreases |st.lists.lchain| - k
      {
        LargeFacts(st, k);
        if larges[l].alloc == 0 {
          return;
        }
        if n > 3 {
          return 0, k + 1;
        }
        n := n + 1;
        l := larges[l].next;
        k := k + 1;
      }
      LargeFacts(st, k);
    }

    /** A region of its own for the request, and a header for it on the list. */
    method PallocLarge(size: nat) returns (p: nat, ghost id: nat)
      requires Valid() && st.pending == 0 && size > 0
      modifies this`heap, this`trace, this`blocks, this`current, this`larges, this`large, this`st
      ensures Valid() && Granted(old(st), st, p, id, size, Whole) && Listed(old(st).lists, st.lists, p)
      ensures AtMostOneFree(old(trace), trace)
      ensures old(heap).refusals == [] ==> p != 0 && heap.refusals == []
    {
      ghost var s := st;
      id := s.issued;
      var h;
      p, h := Malloc(heap, size);
      heap := h;
      if p == 0 {
        Refused(s, head, psize, h.top);
        st := s.(top := h.top);
      } else {
        st := RegionAdded(s, head, psize, p, size, h.top);
        p := Hold(p, id, size, s);
      }
    }

    /** The region goes into a header that holds none, or into a new one. */
    method Hold(p: nat, ghost id: nat, ghost size: nat, ghost s: State) returns (p': nat)
      requires Valid() && Good(s, head, psize) && st.pending == p != 0 && s.pending == 0
        && WithRegion(s, st, p, size, id)
      modifies this`heap, this`trace, this`blocks, this`current, this`larges, this`large, this`st
      ensures Valid() && Granted(s, st, p', id, size, Whole) && Listed(s.lists, st.lists, p')
      ensures AtMostOneFree(old(trace), trace)
      ensures old(heap).refusals == [] ==> p' != 0 && heap.refusals == []
    {
      var l, k := FindEmpty();
      if l != 0 {
        FillHeader(l, p, k, id, size, s);
        p' := p;
      } else {
        p' := AddHeader(p, id, size, s);
      }
    }

    method FillHeader(l: nat, p: nat, ghost k: nat, ghost id: nat, ghost size: nat, ghost s: State)
      requires Valid() && Good(s, head, psize) && st.pending == p != 0 && s.pending == 0
        && WithRegion(s, st, p, size, id)
      requires k < 5 && k < |st.lists.lchain| && l == st.lists.lchain[k] && l in larges && larges[l].alloc == 0
      requires forall j :: 0 <= j < k ==> st.lists.lchain[j] in larges && larges[st.lists.lchain[j]].alloc != 0
      modifies this`larges, this`st
      ensures Valid() && Granted(s, st, p, id, size, Whole) && Listed(s.lists, st.lists, p)
    {
      st := Refilled(st, head, psize, k);
      larges := larges[l := larges[l].(alloc := p)];
      assert ReusedAt(s.lists, st.lists, k, p);
    }

    /** The region goes on the list with a new header, or back if there is no room for one. */
    method AddHeader(p: nat, ghost id: nat, ghost size: nat, ghost s: State) returns (p': nat)
      requires Valid() && Good(s, head, psize) && st.pending == p != 0 && s.pending == 0
        && WithRegion(s, st, p, size, id) && FrontFull(s.lists)
      modifies this`heap, this`trace, this`blocks, this`current, this`larges, this`large, this`st
      ensures Valid() && Granted(s, st, p', id, size, Whole) && Listed(s.lists, st.lists, p')
      ensures AtMostOneFree(old(trace), trace)
      ensures old(heap).refusals == [] ==> p' != 0 && heap.refusals == []
    {
      ghost var s1 := st;
      var h, hid, scanned := PallocSmall(LARGE, true, LargeHeader);
      p' := Conclude(h, hid, p, id, size, s, s1);
    }

    /** With a header the region goes on the list, without one back to malloc. */
    method Conclude(h: nat, ghost hid: nat, p: nat, ghost id: nat, ghost size: nat, ghost s: State, ghost s1: State)
      returns (p': nat)
      requires Valid() && Good(s, head, psize) && Good(s1, head, psize) && p != 0 && s.pending == 0
        && WithRegion(s, s1, p, size, id) && FrontFull(s.lists)
      requires Served(s1, st, h, hid, LARGE, LargeHeader)
      modifies this`heap, this`trace, this`larges, this`large, this`st
      ensures Valid() && Granted(s, st, p', id, size, Whole) && Listed(s.lists, st.lists, p')
      ensures AtMostOneFree(old(trace), trace)
      ensures h != 0 ==> p' != 0 && heap == old(heap)
    {
      if h == 0 {
        GiveBack(p, id, size, s, s1);
        p' := 0;
      } else {
        Enlist(h, hid, p, id, size, s, s1);
        p' := p;
      }
    }

    method GiveBack(p: nat, ghost id: nat, ghost size: nat, ghost s: State, ghost s1: State)
      requires Valid() && Good(s, head, psize) && p != 0 && s.pending == 0 && WithRegion(s, s1, p, size, id)
        && st == s1.(top := st.top)
      modifies this`heap, this`trace, this`st
      ensures Valid() && Granted(s, st, 0, id, size, Whole) && Listed(s.lists, st.lists, 0)
      ensures AtMostOneFree(old(trace), trace)
    {
      ghost var s' := Returned(s, s1, st, head, psize, p, size, id);
      Free(p);
      st := s';
    }

    method Enlist(h: nat, ghost hid: nat, p: nat, ghost id: nat, ghost size: nat, ghost s: State, ghost s1: State)
      requires Valid() && Good(s1, head, psize) && p != 0 && s.pending == 0 && WithRegion(s, s1, p, size, id)
      requires FrontFull(s.lists)
      requires h != 0 && Served(s1, st, h, hid, LARGE, LargeHeader)
      modifies this`larges, this`large, this`st
      ensures Valid() && Granted(s, st, p, id, size, Whole) && Listed(s.lists, st.lists, p)
    {
      ghost var s' := Pushed(s, s1, st, head, psize, h, hid, p, size, id);
      LinkHeader(h, hid, p, s');
      assert AddedFirst(s.lists, st.lists, p);
    }

    method LinkHeader(h: nat, ghost hid: nat, p: nat, ghost s': State)
      requires InStep() && large == After(st.lists.lchain, -1) && Good(s', head, psize)
      requires s' == st.(lists := PushLarge(st.lists, h, p, hid), large := h, pending := 0)
      modifies this`larges, this`large, this`st
      ensures Valid() && st == s'
    {
      larges := larges[h := Large(large, p)];
      large := h;
      st := s';
    }

    // ---------- the interface ----------

    /** Memory for a caller, aligned to a word; a request too large for a block gets a region
        of its own. */
    method Palloc(size: nat) returns (p: nat, ghost id: nat)
      requires Valid() && st.pending == 0
      modifies this`heap, this`trace, this`blocks, this`current, this`larges, this`large, this`st
      ensures Valid() && Granted(old(st), st, p, id, size, if size <= old(max) then User(true) else Whole)
      ensures size <= old(max) ==> WhereServed(old(st), st, psize, p, size, true)
      ensures size > old(max) ==> Listed(old(st).lists, st.lists, p)
      ensures AtMostOneFree(old(trace), trace)
      ensures old(heap).refusals == [] ==> p != 0 && heap.refusals == []
    {
      if size <= max {
        ghost var scanned;
        p, id, scanned := PallocSmall(size, true, User(true));
      } else {
        p, id := PallocLarge(size);
      }
    }

    /** The same without alignment. */
    method Pnalloc(size: nat) returns (p: nat, ghost id: nat)
      requires Valid() && st.pending == 0
      modifies this`heap, this`trace, this`blocks, this`current, this`larges, this`large, this`st
      ensures Valid() && Granted(old(st), st, p, id, size, if size <= old(max) then User(false) else Whole)
      ensures size <= old(max) ==> WhereServed(old(st), st, psize, p, size, false)
      ensures size > old(max) ==> Listed(old(st).lists, st.lists, p)
      ensures AtMostOneFree(old(trace), trace)
      ensures old(heap).refusals == [] ==> p != 0 && heap.refusals == []
    {
      if size <= max {
        ghost var scanned;
        p, id, scanned := PallocSmall(size, false, User(false));
      } else {
        p, id := PallocLarge(size);
      }
    }

    /** The header that holds region `p`. */
    method FindHolder(p: nat) returns (l: nat, ghost k: nat)
      requires Valid()
      ensures l != 0 ==> k < |st.lists.lchain| && l == st.lists.lchain[k] && l in larges && larges[l].alloc == p
      ensures l == 0 ==> !Held(st.lists, p)
    {
      l, k := large, 0;
      while l != 0
        invariant k <= |st.lists.lchain| && l == After(st.lists.lchain, k - 1)
        invariant forall j :: 0 <= j < k ==> st.lists.lchain[j] in larges && larges[st.lists.lchain[j]].alloc != p
        decreases |st.lists.lchain| - k
      {
        LargeFacts(st, k);
        if larges[l].alloc == p {
          return;
        }
        l := larges[l].next;
        k := k + 1;
      }
      LargeFacts(st, k);
    }

    /** A large region goes back; anything else is ignored. */
    method Pfree(p: nat)
      requires Valid() && st.pending == 0
      modifies this`heap, this`trace, this`larges, this`st
      ensures Valid() && st.pending == 0 && st.lists.cchain == old(st).lists.cchain
        && heap.refusals == old(heap).refusals
      ensures st.stale == old(st).stale
      ensures p != 0 && Held(old(st).lists, p) ==> st.m == DropRegion(old(st).m, p) && trace == old(trace) + [Freed(p)]
      ensures !(p != 0 && Held(old(st).lists, p)) ==> st == old(st) && trace == old(trace)
    {
      var l, k := FindHolder(p);
      if l != 0 && p != 0 {
        ghost var s' := Emptied(st, head, psize, k);
        Free(p);
        larges := larges[l := larges[l].(alloc := 0)];
        st := s';
      }
    }

    // ---------- giving everything back ----------

    /** The end: all handlers, then all large regions, then all blocks; each region that was
        held goes back exactly once. */
    method Destroy() returns (ghost freed: seq<nat>)
      requires Valid() && st.pending == 0 && !st.stale
      modifies this`heap, this`trace
      ensures heap.regions == map[] && Distinct(freed) && forall r :: r in freed <==> r in old(heap).regions
      ensures trace == old(trace) + Calls(st.lists.cchain, cleanups) + Frees(freed)
    {
      var calls := RunHandlers(cleanup, cleanups, st, head, psize);
      var h1, frees1, gone := FreeLarges(heap, large, larges, st, head, psize);
      var h2, frees2 := FreeBlocks(h1, pool, blocks, st, head, psize, gone);
      freed := gone + st.m.chain;
      EveryOne(st.m.regions, freed);
      FreesBoth(gone, st.m.chain);
      heap, trace := h2, trace + calls + frees1 + frees2;
    }

    /** All memory given out is taken back, the blocks are kept.  The list of cleanup actions is
        not cleared: it goes on exactly when all its headers lie where no request will reach. */
    method Reset() returns (ghost freed: seq<nat>)
      requires Valid() && st.pending == 0
      modifies this`heap, this`trace, this`blocks, this`current, this`large, this`st
      ensures Valid() && st.pending == 0 && st.wasReset && current == pool && st.m.chain == old(st).m.chain
      ensures FreedAll(old(heap).regions, heap.regions, freed) && (forall r :: r in heap.regions <==> r in st.m.chain)
      ensures trace == old(trace) + Frees(freed) && heap.refusals == old(heap).refusals
      ensures Rewound(old(blocks), blocks, st.m.chain, head, |st.m.chain|)
      ensures IsReset(old(st), head, psize, blocks, heap.regions, freed)
      ensures st == AfterReset(old(st), head, blocks, heap.regions)
      ensures st.stale <==> old(st).stale || !AllSheltered(old(st), head)
    {
      var h, frees;
      h, frees, freed := FreeLarges(heap, large, larges, st, head, psize);
      var bs := RewindBlocks(blocks, pool, head, st, psize);
      ResetGood(st, head, psize, bs, h.regions, freed);
      SettleReset(h, frees, bs, AfterReset(st, head, bs, h.regions));
    }

    method SettleReset(h: Heap, frees: seq<Event>, bs: map<nat, Block>, ghost s: State)
      requires InStep() && h.top == heap.top && s == AfterReset(st, head, bs, h.regions)
      modifies this`heap, this`trace, this`blocks, this`current, this`large, this`st
      ensures InStep() && st == s && trace == old(trace) + frees && heap == h && blocks == bs
    {
      heap, trace, blocks, current, large := h, trace + frees, bs, pool, 0;
      st := s;
    }

    // ---------- cleanup actions ----------

    /** A new cleanup action, first in line, with `size` bytes for its data. */
    method CleanupAdd(size: nat) returns (c: nat, ghost did: nat)
      requires Valid() && st.pending == 0 && !st.stale
      modifies this
      ensures Valid() && ActionAdded(old(st), st, c, did, size) && AtMostOneFree(old(trace), trace)
      ensures old(heap).refusals == [] ==> c != 0 && heap.refusals == []
      ensures size == 0 ==> WhereServed(old(st), st, psize, c, CLEANUP, true)
    {
      ghost var s := st;
      ghost var id, scanned;
      c, id, scanned := PallocSmall(CLEANUP, true, CleanupHeader);
      did := 0;
      if c != 0 {
        ghost var s1, h := st, c;
        CleanupFresh(s, s1, head, psize, h, id);
        c, did := AddData(c, id, size);
        ActionAfter(s, s1, st, h, id, c, did, size);
        if size == 0 { StillWhere(s, s1, st, psize, c, CLEANUP, true); }
      }
    }

    /** The header at `h` gets its data and its place on the list. */
    method AddData(h: nat, ghost id: nat, size: nat) returns (c: nat, ghost did: nat)
      requires Valid() && st.pending == 0 && !st.stale && h != 0 && h !in st.lists.cchain
      requires Housed(st.m, st.lists.cids[h := id], h, CLEANUP, CleanupHeader)
      modifies this
      ensures Valid() && ActionAdded(old(st), st, c, did, size) && AtMostOneFree(old(trace), trace)
      ensures size == 0 ==> c == h && st.m == old(st).m && current == old(current) && st.cur == old(st).cur
      ensures old(heap).refusals == [] ==> c != 0 && heap.refusals == []
    {
      c, did := h, 0;
      var data := 0;
      if size > 0 {
        data, did := Palloc(size);
      }
      if size > 0 && data == 0 {
        c := 0;
      } else {
        LinkCleanup(c, id, data);
      }
    }

    method LinkCleanup(c: nat, ghost id: nat, data: nat)
      requires Valid() && !st.stale && c !in st.lists.cchain
        && Housed(st.m, st.lists.cids[c := id], c, CLEANUP, CleanupHeader)
      modifies this`cleanups, this`cleanup, this`st
      ensures Valid() && st.lists.cchain == [c] + old(st).lists.cchain && st.pending == old(st).pending
      ensures c in cleanups && cleanups == old(cleanups)[c := Cleanup(0, data, old(cleanup))]
      ensures st.m == old(st).m && st.wasReset == old(st).wasReset && !st.stale
    {
      ghost var s' := CleanupPushed(st, head, psize, c, Cleanup(0, data, 0), id);
      cleanups := cleanups[c := Cleanup(0, data, cleanup)];
      cleanup := c;
      st := s';
    }

    /** The caller names the function to run in the end. */
    method SetHandler(c: nat, handler: nat)
      requires Valid() && c in st.lists.cchain && c in cleanups
      modifies this`cleanups, this`st
      ensures Valid() && cleanups == old(cleanups)[c := old(cleanups)[c].(handler := handler)]
      ensures st.lists.cchain == old(st).lists.cchain && st.pending == old(st).pending && st.m == old(st).m
      ensures st.wasReset == old(st).wasReset && st.stale == old(st).stale
    {
      ghost var s' := HandlerSet(st, head, psize, c, handler);
      cleanups := cleanups[c := cleanups[c].(handler := handler)];
      st := s';
    }

    // ---------- for a client that fills the first block up to its mark ----------

    /** The extent that ends at the first block's fill mark grows by `n` bytes. */
    method RaiseMark(n: nat, ghost id: nat)
      requires Valid() && st.pending == 0 && AtMark(st.m, id) && st.m.live[id].kind.User?
      requires pool in blocks && blocks[pool].last + n <= blocks[pool].end
      modifies this`blocks, this`st
      ensures Valid() && st == old(st).(m := Stretch(old(st).m, id, n))
    {
      ghost var s' := Stretched(st, head, psize, id, n);
      blocks := blocks[pool := blocks[pool].(last := blocks[pool].last + n)];
      st := s';
    }

    /** The extent that ends there goes back. */
    method LowerMark(to: nat, ghost id: nat)
      requires Valid() && st.pending == 0 && AtMark(st.m, id) && st.m.live[id].kind.User? && to == st.m.live[id].base
      requires pool in blocks
      modifies this`blocks, this`st
      ensures Valid() && st == old(st).(m := Retract(old(st).m, id))
    {
      ghost var s' := Retracted(st, head, psize, id);
      blocks := blocks[pool := blocks[pool].(last := to)];
      st := s';
    }
  }
}
