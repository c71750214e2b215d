/** The growable array whose elements live in a pool: it grows in place while it is the last
    allocation of the pool's first block, and moves otherwise. */
module PoolArray {
  import opened Common
  import opened Arith
  import opened PoolModel
  import opened PoolState
  import opened MemPool

  const ARRAY: nat := 40   // size of the array's own record

  /** The byte at address `a + k`; memory never written reads as zero. */
  function Byte(bytes: map<int, nat>, a: int, k: int): nat {
    if a + k in bytes then bytes[a + k] else 0
  }

  /** The `n` bytes at `a`. */
  function Bytes(bytes: map<int, nat>, a: int, n: nat): (s: seq<nat>)
    ensures |s| == n
  {
    seq(n, k => Byte(bytes, a, k))
  }

  ghost predicate SameRange(b: map<int, nat>, a: int, b': map<int, nat>, a': int, n: int) {
    forall k {:trigger Byte(b', a', k)} {:trigger Byte(b, a, k)} :: 0 <= k < n ==> Byte(b', a', k) == Byte(b, a, k)
  }

  /** Nothing outside [lo, hi) has been written. */
  ghost predicate WrittenWithin(b: map<int, nat>, b': map<int, nat>, lo: int, hi: int) {
    forall a: int :: !(lo <= a < hi) ==> (a in b' <==> a in b) && (a in b ==> b'[a] == b[a])
  }

  lemma Elsewhere(b: map<int, nat>, b': map<int, nat>, lo: int, hi: int, a: int, n: int)
    requires WrittenWithin(b, b', lo, hi) && (a + n <= lo || hi <= a || n <= 0)
    ensures SameRange(b, a, b', a, n)
  {
  }

  lemma WrittenTwice(b: map<int, nat>, b1: map<int, nat>, b2: map<int, nat>, lo: int, hi: int)
    requires WrittenWithin(b, b1, lo, hi) && WrittenWithin(b1, b2, lo, hi)
    ensures WrittenWithin(b, b2, lo, hi)
  {
  }

  /** memcpy between pieces of memory that do not overlap. */
  method Copy(bytes: map<int, nat>, to: nat, from: nat, n: nat) returns (bytes': map<int, nat>)
    requires Apart(to, n, from, n)
    ensures SameRange(bytes, from, bytes', to, n) && WrittenWithin(bytes, bytes', to, to + n)
  {
    bytes' := bytes;
    var k := 0;
    while k < n
      invariant k <= n && SameRange(bytes, from, bytes', to, k) && WrittenWithin(bytes, bytes', to, to + n)
    {
      Elsewhere(bytes, bytes', to, to + n, from, n);
      assert Byte(bytes', from, k) == Byte(bytes, from, k);
      bytes' := bytes'[to + k := Byte(bytes', from, k)];
      k := k + 1;
    }
  }

  /** Element `i` of the array at `elts`. */
  function Elem(bytes: map<int, nat>, elts: int, size: nat, i: nat): seq<nat> {
    Bytes(bytes, elts + i * size, size)
  }

  function ElemsOf(bytes: map<int, nat>, elts: int, size: nat, n: nat): (s: seq<seq<nat>>)
    ensures |s| == n
  {
    seq(n, i requires 0 <= i < n => Elem(bytes, elts, size, i))
  }

  lemma SameElem(b: map<int, nat>, e: int, b': map<int, nat>, e': int, size: nat, n: nat, i: nat)
    requires SameRange(b, e, b', e', n * size) && i < n
    ensures Elem(b', e', size, i) == Elem(b, e, size, i)
  {
    if size > 0 { Grows(i, n, size); }
    var x, y := Elem(b', e', size, i), Elem(b, e, size, i);
    var base := i * size;
    forall k | 0 <= k < size
      ensures x[k] == y[k]
    {
      assert Byte(b', e', base + k) == Byte(b, e, base + k);
      assert x[k] == Byte(b', e' + base, k) && y[k] == Byte(b, e + base, k);
    }
  }

  /** The same bytes make the same elements, wherever they are. */
  lemma SameElems(b: map<int, nat>, e: int, b': map<int, nat>, e': int, size: nat, n: nat)
    requires SameRange(b, e, b', e', n * size)
    ensures ElemsOf(b', e', size, n) == ElemsOf(b, e, size, n)
  {
    forall i: nat | i < n
      ensures Elem(b', e', size, i) == Elem(b, e, size, i)
    {
      SameElem(b, e, b', e', size, n, i);
    }
  }

  /** Extent `id` is the `n` bytes at `a`, for a caller. */
  ghost predicate Owns(m: Mem, id: nat, a: nat, n: nat) {
    && id in m.live && a > 0 && m.live[id].base == a && m.live[id].size == n
    && (m.live[id].kind == User(true) || m.live[id].kind == Whole)
  }

  /** Everybody else's memory is as it was. */
  ghost predicate OthersKept(m: Mem, m': Mem, id: nat) {
    forall x :: x in m.live && x != id ==> x in m'.live && m'.live[x] == m.live[x]
  }

  /** The memory once extent `id` has gone back, if it could. */
  ghost function Dropped(m: Mem, id: nat): Mem {
    if AtMark(m, id) then Retract(m, id) else m
  }

  /** What is in memory, for all who use it. */
  class Memory {
    var bytes: map<int, nat>

    constructor (bytes: map<int, nat>)
      ensures this.bytes == bytes
    {
      this.bytes := bytes;
    }
  }

  class Array {
    const pool: MemPool
    const memory: Memory
    const self: nat                 // where the array's record is
    const size: nat                 // bytes per element
    var elts: nat
    var nelts: nat
    var nalloc: nat
    ghost var id: nat               // the extent of the elements
    ghost var sid: nat              // the extent of the record

    ghost predicate Valid()
      reads this, pool
    {
      && pool.Valid() && pool.st.pending == 0
      && size >= 1 && nalloc >= 1 && nelts <= nalloc
      && Owns(pool.st.m, id, elts, nalloc * size) && Owns(pool.st.m, sid, self, ARRAY) && sid != id
    }

    /** The array is the last allocation of the first block, with `more` bytes behind it. */
    ghost predicate FitsHere(more: nat)
      reads this, pool
    {
      AtMark(pool.st.m, id) && pool.pool in pool.blocks
        && pool.blocks[pool.pool].last + more <= pool.blocks[pool.pool].end
    }

    /** The elements, first to last. */
    ghost function Elems(): seq<seq<nat>>
      reads this, memory
    {
      ElemsOf(memory.bytes, elts, size, nelts)
    }

    /** The array's extent is the one it had, or one given out since. */
    ghost predicate SameOrNew(m: Mem, before: nat)
      reads this
    {
      id == before || id !in m.live
    }

    /** Nothing outside the place of the elements has been written. */
    ghost predicate WroteHere(before: map<int, nat>)
      reads this, memory
    {
      WrittenWithin(before, memory.bytes, elts, elts + nalloc * size)
    }

    /** An empty array with room for `n` elements, or nothing if the pool has no memory. */
    static method Create(pool: MemPool, memory: Memory, n: nat, size: nat) returns (a: Array?)
      requires pool.Valid() && pool.st.pending == 0 && n >= 1 && size >= 1
      modifies pool
      ensures pool.Valid() && pool.st.pending == 0
      ensures a != null ==>
        fresh(a) && a.Valid() && a.pool == pool && a.memory == memory && a.size == size && a.nalloc == n
          && a.Elems() == []
      ensures a != null ==> a.id !in old(pool.st.m).live && a.sid !in old(pool.st.m).live
      ensures forall x :: x in old(pool.st.m).live ==>
        x in pool.st.m.live && pool.st.m.live[x] == old(pool.st.m).live[x]
      ensures old(pool.heap).refusals == [] ==> a != null && pool.heap.refusals == []
    {
      a := null;
      var p, sid := pool.Palloc(ARRAY);
      if p != 0 {
        a := InitArray(pool, memory, p, sid, n, size);
      }
    }

    /** The elements of the array whose record is at `p`. */
    static method InitArray(pool: MemPool, memory: Memory, p: nat, ghost sid: nat, n: nat, size: nat)
      returns (a: Array?)
      requires pool.Valid() && pool.st.pending == 0 && n >= 1 && size >= 1 && Owns(pool.st.m, sid, p, ARRAY)
      modifies pool
      ensures pool.Valid() && pool.st.pending == 0
      ensures a != null ==>
        fresh(a) && a.Valid() && a.pool == pool && a.memory == memory && a.size == size && a.nalloc == n
          && a.Elems() == []
      ensures a != null ==> a.id !in old(pool.st.m).live && a.sid == sid
      ensures forall x :: x in old(pool.st.m).live ==>
        x in pool.st.m.live && pool.st.m.live[x] == old(pool.st.m).live[x]
      ensures old(pool.heap).refusals == [] ==> a != null && pool.heap.refusals == []
    {
      a := null;
      var q, id := pool.Palloc(n * size);
      if q != 0 {
        a := new Array(pool, memory, p, size, q, n, sid, id);
      }
    }

    constructor (pool: MemPool, memory: Memory, self: nat, size: nat, elts: nat, n: nat, ghost sid: nat, ghost id: nat)
      ensures this.pool == pool && this.memory == memory && this.self == self && this.size == size && this.elts == elts
      ensures nalloc == n && nelts == 0 && this.sid == sid && this.id == id
    {
      this.pool, this.memory, this.self, this.size, this.elts := pool, memory, self, size, elts;
      nelts, nalloc, this.sid, this.id := 0, n, sid, id;
    }

    /** Does the array end at the fill mark of the first block, with `more` bytes to spare? */
    method CanGrow(more: nat) returns (yes: bool)
      requires Valid()
      ensures pool.pool in pool.blocks && (yes <==> FitsHere(more))
      ensures yes ==> pool.st.m.live[id].kind.User?
    {
      FirstBlock(pool.st.m, pool.head, pool.psize);
      var b := pool.blocks[pool.pool];
      yes := elts + size * nalloc == b.last && b.last + more <= b.end;
      Product(1, nalloc, size);
      if yes {
        MarkedHome(pool.st.m, pool.head, pool.psize, id);
      }
    }

    method GrowInPlace(n: nat)
      requires Valid() && FitsHere(n * size) && pool.st.m.live[id].kind.User?
      modifies this`nalloc, pool
      ensures Valid() && nalloc == old(nalloc) + n
        && pool.st == old(pool.st).(m := Stretch(old(pool.st.m), id, n * size))
      ensures OthersKept(old(pool.st.m), pool.st.m, id) && pool.heap == old(pool.heap)
    {
      pool.RaiseMark(n * size, id);
      assert (nalloc + n) * size == nalloc * size + n * size;
      nalloc := nalloc + n;
    }

    /** The elements move to a larger place. */
    method Move(count: nat) returns (ok: bool)
      requires Valid() && nalloc < count
      modifies this`elts, this`nalloc, this`id, memory, pool
      ensures Valid() && nelts == old(nelts) && Elems() == old(Elems())
        && OthersKept(old(pool.st.m), pool.st.m, old(id))
      ensures ok ==> nalloc == count && WroteHere(old(memory.bytes)) && id !in old(pool.st.m).live
      ensures !ok ==> elts == old(elts) && nalloc == old(nalloc) && memory.bytes == old(memory.bytes) && id == old(id)
      ensures old(pool.heap).refusals == [] ==> ok && pool.heap.refusals == []
    {
      var p, nid := pool.Palloc(count * size);
      ok := p != 0;
      if ok {
        Relocate(p, nid, count);
      }
    }

    method Relocate(p: nat, ghost nid: nat, count: nat)
      requires Valid() && nalloc < count && Owns(pool.st.m, nid, p, count * size) && nid != id && nid != sid
      modifies this`elts, this`nalloc, this`id, memory
      ensures Valid() && nelts == old(nelts) && Elems() == old(Elems())
      ensures nalloc == count && id == nid && WroteHere(old(memory.bytes))
    {
      Product(1, nalloc, size);
      Product(nalloc, count, size);
      Product(nelts, nalloc, size);
      Separate(pool.st.m, pool.head, pool.psize, nid, id);
      var b := Copy(memory.bytes, p, elts, nelts * size);
      SameElems(memory.bytes, elts, b, p, size, nelts);
      memory.bytes := b;
      elts, id, nalloc := p, nid, count;
    }

    /** Room for `n` more elements here, or else for `count` in a new place. */
    method Grow(n: nat, count: nat) returns (ok: bool)
      requires Valid() && nalloc < count
      modifies this`elts, this`nalloc, this`id, memory, pool
      ensures Valid() && nelts == old(nelts) && Elems() == old(Elems())
        && OthersKept(old(pool.st.m), pool.st.m, old(id))
      ensures WroteHere(old(memory.bytes)) && SameOrNew(old(pool.st.m), old(id))
      ensures old(FitsHere(n * size)) ==>
        ok && elts == old(elts) && memory.bytes == old(memory.bytes) && nalloc == old(nalloc) + n
      ensures !old(FitsHere(n * size)) && ok ==> nalloc == count
      ensures old(pool.heap).refusals == [] ==> ok && pool.heap.refusals == []
    {
      ok := CanGrow(n * size);
      if ok {
        GrowInPlace(n);
      } else {
        ok := Move(count);
      }
    }

    /** Room for one more element at the end; its address, or 0. */
    method Push() returns (elt: nat)
      requires Valid()
      modifies this`elts, this`nelts, this`nalloc, this`id, memory, pool
      ensures Valid() && OthersKept(old(pool.st.m), pool.st.m, old(id))
      ensures WroteHere(old(memory.bytes)) && SameOrNew(old(pool.st.m), old(id))
      ensures elt == 0 ==> Elems() == old(Elems())
      ensures elt != 0 ==>
        nelts == old(nelts) + 1 && elt == elts + old(nelts) * size && Elems()[..old(nelts)] == old(Elems())
      ensures old(nelts < nalloc || FitsHere(1 * size)) ==>
        elt != 0 && elts == old(elts) && memory.bytes == old(memory.bytes)
      ensures elt != 0 ==>
        nalloc == if old(nelts < nalloc) then old(nalloc) else if old(FitsHere(1 * size)) then old(nalloc) + 1
          else 2 * old(nalloc)
      ensures old(pool.heap).refusals == [] ==> elt != 0 && pool.heap.refusals == []
    {
      ghost var before := Elems();
      if nelts == nalloc {
        var ok := Grow(1, 2 * nalloc);
        if !ok {
          return 0;
        }
      }
      elt := elts + nelts * size;
      nelts := nelts + 1;
      assert Elems()[..nelts - 1] == before;
    }

    /** Room for `n` more elements at the end; the address of the first, or 0. */
    method PushN(n: nat) returns (elt: nat)
      requires Valid()
      modifies this`elts, this`nelts, this`nalloc, this`id, memory, pool
      ensures Valid() && OthersKept(old(pool.st.m), pool.st.m, old(id))
      ensures WroteHere(old(memory.bytes)) && SameOrNew(old(pool.st.m), old(id))
      ensures elt == 0 ==> Elems() == old(Elems())
      ensures elt != 0 ==>
        nelts == old(nelts) + n && elt == elts + old(nelts) * size && Elems()[..old(nelts)] == old(Elems())
      ensures old(nelts + n <= nalloc || FitsHere(n * size)) ==>
        elt != 0 && elts == old(elts) && memory.bytes == old(memory.bytes)
      ensures elt != 0 ==>
        nalloc == if old(nelts + n <= nalloc) then old(nalloc) else if old(FitsHere(n * size)) then old(nalloc) + n
                  else 2 * if n >= old(nalloc) then n else old(nalloc)
      ensures old(pool.heap).refusals == [] ==> elt != 0 && pool.heap.refusals == []
    {
      ghost var before := Elems();
      if nelts + n > nalloc {
        var ok := Grow(n, 2 * if n >= nalloc then n else nalloc);
        if !ok {
          return 0;
        }
      }
      assert elts > 0;
      elt := elts + nelts * size;
      nelts := nelts + n;
      assert Elems()[..nelts - n] == before;
    }

    /** The caller stores an element. */
    method Store(i: nat, value: seq<nat>)
      requires Valid() && i < nelts && |value| == size
      modifies memory
      ensures Valid() && Elems() == old(Elems())[i := value] && WroteHere(old(memory.bytes))
    {
      Product(i + 1, nalloc, size);
      var b := Put(memory.bytes, elts, size, nelts, i, value);
      memory.bytes := b;
    }

    /** The caller stores the element just pushed. */
    method StoreLast(value: seq<nat>, ghost before: seq<seq<nat>>)
      requires Valid() && |value| == size && nelts == |before| + 1 && Elems()[..|before|] == before
      modifies memory
      ensures Valid() && Elems() == before + [value] && WroteHere(old(memory.bytes))
    {
      ghost var pushed := Elems();
      assert pushed == before + [pushed[|before|]];
      Store(nelts - 1, value);
    }

    /** Appending a value: the array is a sequence that only grows. */
    method Append(value: seq<nat>) returns (ok: bool)
      requires Valid() && |value| == size
      modifies this`elts, this`nelts, this`nalloc, this`id, memory, pool
      ensures Valid() && OthersKept(old(pool.st.m), pool.st.m, old(id))
      ensures WroteHere(old(memory.bytes)) && SameOrNew(old(pool.st.m), old(id))
      ensures Elems() == if ok then old(Elems()) + [value] else old(Elems())
      ensures old(pool.heap).refusals == [] ==> ok && pool.heap.refusals == []
    {
      ghost var before, b0 := Elems(), memory.bytes;
      var elt := Push();
      ok := elt != 0;
      if ok {
        ghost var b1 := memory.bytes;
        StoreLast(value, before);
        WrittenTwice(b0, b1, memory.bytes, elts, elts + nalloc * size);
      }
    }

    /** The elements and the record go back if they are the last in the first block. */
    method Destroy()
      requires Valid()
      modifies pool
      ensures pool.Valid() && pool.st.pending == 0
      ensures pool.st.m == Dropped(Dropped(old(pool.st.m), id), sid)
      ensures forall x :: x in old(pool.st.m).live && x != id && x != sid ==>
        x in pool.st.m.live && pool.st.m.live[x] == old(pool.st.m).live[x]
    {
      BlockFacts(pool.st.m, pool.head, pool.psize, 0);
      var here := CanGrow(0);
      if here {
        pool.LowerMark(elts, id);
      }
      FirstBlock(pool.st.m, pool.head, pool.psize);
      if self + ARRAY == pool.blocks[pool.pool].last {
        MarkedHome(pool.st.m, pool.head, pool.psize, sid);
        pool.LowerMark(self, sid);
      }
    }
  }

  method StoreBytes(bytes: map<int, nat>, base: nat, value: seq<nat>) returns (bytes': map<int, nat>)
    ensures Bytes(bytes', base, |value|) == value && WrittenWithin(bytes, bytes', base, base + |value|)
  {
    bytes' := bytes;
    var k := 0;
    while k < |value|
      invariant k <= |value| && WrittenWithin(bytes, bytes', base, base + |value|)
      invariant forall j {:trigger value[j]} :: 0 <= j < k ==> Byte(bytes', base, j) == value[j]
    {
      bytes' := bytes'[base + k := value[k]];
      k := k + 1;
    }
  }

  /** An element is stored byte by byte. */
  method Put(bytes: map<int, nat>, elts: nat, size: nat, n: nat, i: nat, value: seq<nat>)
    returns (bytes': map<int, nat>)
    requires i < n && |value| == size
    ensures ElemsOf(bytes', elts, size, n) == ElemsOf(bytes, elts, size, n)[i := value]
    ensures WrittenWithin(bytes, bytes', elts + i * size, elts + i * size + size)
  {
    bytes' := StoreBytes(bytes, elts + i * size, value);
    forall j: nat | j < n
      ensures Elem(bytes', elts, size, j) == if j == i then value else Elem(bytes, elts, size, j)
    {
      if j != i { OtherElem(bytes, bytes', elts, size, i, j); }
    }
  }

  lemma OtherElem(b: map<int, nat>, b': map<int, nat>, elts: nat, size: nat, i: nat, j: nat)
    requires WrittenWithin(b, b', elts + i * size, elts + i * size + size) && i != j
    ensures Elem(b', elts, size, j) == Elem(b, elts, size, j)
  {
    if size > 0 {
      if i < j { Grows(i, j, size); } else { Grows(j, i, size); }
    }
    Elsewhere(b, b', elts + i * size, elts + i * size + size, elts + j * size, size);
  }
}
