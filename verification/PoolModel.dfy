/** The memory behind an allocation pool, as a value: regions obtained from malloc, blocks
    that are filled from the front, and the extents that have been carved out of them. */
module PoolModel {
  import opened Common

  // ---------- sizes on a 64-bit machine ----------

  const WORD: nat := 8
  const DATA: nat := 32        // header of a further block
  const LARGE: nat := 16       // header of a large allocation
  const CLEANUP: nat := 24     // header of a cleanup action
  const MAX_FROM_POOL: nat := 4095

  /** Header of the first block: 64 bytes in the C++ port, 80 in the C original. */
  predicate IsHead(head: nat) {
    head == 64 || head == 80
  }

  function AlignWord(p: nat): (m: nat)
    ensures p <= m < p + WORD && m % WORD == 0
  {
    (p + 7) / 8 * 8
  }

  /** Sizes and addresses are words of 64 bits. */
  const ADDRESSES: nat := 0x1_0000_0000_0000_0000

  /** (size_t) (end - m) >= size */
  predicate Fits(end: nat, m: nat, size: nat) {
    (end - m) % ADDRESSES >= size
  }

  /** Where in a block a request goes. */
  function Place(last: nat, align: bool): (m: nat)
    ensures last <= m && (align ==> m % WORD == 0)
  {
    if align then AlignWord(last) else last
  }

  ghost predicate TestSound(end: nat) {
    forall last: nat, size: nat :: last <= end && 1 <= size <= MAX_FROM_POOL && Fits(end, AlignWord(last), size) ==>
      AlignWord(last) + size <= end
  }

  /** The unsigned comparison is sound exactly for blocks that end at a word boundary. */
  lemma TestNeedsAlignedEnd(end: nat)
    requires WORD <= end < ADDRESSES - WORD
    ensures TestSound(end) <==> end % WORD == 0
  {
    if end % WORD != 0 {
      assert AlignWord(end) > end;
      assert Fits(end, AlignWord(end), 1);
    }
  }

  // ---------- memory ----------

  datatype Block = Block(last: nat, end: nat, next: nat, failed: nat)

  /** What a piece of memory was given out for. */
  datatype Kind = User(aligned: bool) | LargeHeader | CleanupHeader | Whole

  /** A piece of memory in the region `home`. */
  datatype Extent = Extent(home: nat, base: nat, size: nat, kind: Kind)

  datatype Mem = Mem(regions: map<nat, nat>, blocks: map<nat, Block>, chain: seq<nat>, live: map<nat, Extent>)

  ghost predicate RegionOk(regions: map<nat, nat>, r: nat, q: nat)
    requires r in regions && q in regions
  {
    r > 0 && r % 16 == 0 && regions[r] > 0 && (r != q ==> Apart(r, regions[r], q, regions[q]))
  }

  ghost predicate RegionsOk(regions: map<nat, nat>) {
    forall r, q {:trigger RegionOk(regions, r, q)} :: r in regions && q in regions ==> RegionOk(regions, r, q)
  }

  /** Block `i` of the chain. */
  ghost predicate BlockOk(m: Mem, head: nat, psize: nat, i: int)
    requires 0 <= i < |m.chain|
  {
    var b := m.chain[i];
    && b in m.blocks && b in m.regions && m.regions[b] == psize
    && m.blocks[b].end == b + psize
    && b + (if i == 0 then head else DATA) <= m.blocks[b].last <= m.blocks[b].end
    && m.blocks[b].next == if i + 1 < |m.chain| then m.chain[i + 1] else 0
  }

  /** Extent `id`: behind the header of its block and before the block's fill mark, or a
      whole region of its own. */
  ghost predicate ExtentOk(m: Mem, head: nat, id: nat)
    requires id in m.live
  {
    var e := m.live[id];
    && (e.kind.Whole? ==> e.home in m.regions && e.home !in m.chain && e.base == e.home && e.size == m.regions[e.home])
    && (!e.kind.Whole? ==>
         && e.home in m.chain && e.home in m.blocks
         && e.home + (if |m.chain| > 0 && e.home == m.chain[0] then head else DATA) <= e.base
         && (e.size > 0 ==> e.base + e.size <= m.blocks[e.home].last))
    && (e.kind != User(false) ==> e.base % WORD == 0)
  }

  ghost predicate ApartOk(m: Mem, id: nat, jd: nat)
    requires id in m.live && jd in m.live
  {
    var e, f := m.live[id], m.live[jd];
    id != jd && e.home == f.home ==> Apart(e.base, e.size, f.base, f.size) || e.size == 0 || f.size == 0
  }

  ghost predicate MemOk(m: Mem, head: nat, psize: nat) {
    && IsHead(head) && psize % WORD == 0 && head + 2 * LARGE <= psize < ADDRESSES
    && RegionsOk(m.regions) && m.chain != [] && Distinct(m.chain)
    && (forall i {:trigger BlockOk(m, head, psize, i)} :: 0 <= i < |m.chain| ==> BlockOk(m, head, psize, i))
    && (forall id {:trigger ExtentOk(m, head, id)} :: id in m.live ==> ExtentOk(m, head, id))
    && (forall id, jd {:trigger ApartOk(m, id, jd)} :: id in m.live && jd in m.live ==> ApartOk(m, id, jd))
  }

  // ---------- what it means ----------

  /** An extent lies inside a region that malloc has given and that was not freed. */
  lemma InBounds(m: Mem, head: nat, psize: nat, id: nat)
    requires MemOk(m, head, psize) && id in m.live && m.live[id].size > 0
    ensures var e := m.live[id];
      e.home in m.regions && e.home <= e.base && e.base + e.size <= e.home + m.regions[e.home]
  {
    assert ExtentOk(m, head, id);
    var e := m.live[id];
    if !e.kind.Whole? {
      var i :| 0 <= i < |m.chain| && m.chain[i] == e.home;
      assert BlockOk(m, head, psize, i);
    }
  }

  /** No two extents overlap. */
  lemma Separate(m: Mem, head: nat, psize: nat, id: nat, jd: nat)
    requires MemOk(m, head, psize) && id in m.live && jd in m.live && id != jd
    requires m.live[id].size > 0 && m.live[jd].size > 0
    ensures Apart(m.live[id].base, m.live[id].size, m.live[jd].base, m.live[jd].size)
  {
    assert ApartOk(m, id, jd);
    InBounds(m, head, psize, id);
    InBounds(m, head, psize, jd);
    var e, f := m.live[id], m.live[jd];
    if e.home != f.home { assert RegionOk(m.regions, e.home, f.home); }
  }

  /** No extent touches the header of a block. */
  lemma ClearOfHeaders(m: Mem, head: nat, psize: nat, id: nat, i: nat)
    requires MemOk(m, head, psize) && id in m.live && m.live[id].size > 0 && i < |m.chain|
    ensures Apart(m.live[id].base, m.live[id].size, m.chain[i], if i == 0 then head else DATA)
  {
    InBounds(m, head, psize, id);
    assert ExtentOk(m, head, id) && BlockOk(m, head, psize, i);
    var e := m.live[id];
    if e.home != m.chain[i] { assert RegionOk(m.regions, e.home, m.chain[i]); }
  }

  // ---------- carving an extent out of a block ----------

  function Carve(m: Mem, i: nat, at: nat, size: nat, kind: Kind, id: nat): Mem
    requires i < |m.chain| && m.chain[i] in m.blocks
  {
    var b := m.chain[i];
    m.(blocks := m.blocks[b := m.blocks[b].(last := at + size)], live := m.live[id := Extent(b, at, size, kind)])
  }

  ghost predicate CanCarve(m: Mem, head: nat, psize: nat, i: nat, at: nat, size: nat, kind: Kind, id: nat) {
    && MemOk(m, head, psize) && i < |m.chain| && m.chain[i] in m.blocks && id !in m.live && !kind.Whole?
    && m.blocks[m.chain[i]].last <= at && at + size <= m.blocks[m.chain[i]].end
    && (kind != User(false) ==> at % WORD == 0)
  }

  lemma CarveExtent(m: Mem, head: nat, psize: nat, i: nat, at: nat, size: nat, kind: Kind, id: nat, x: nat)
    requires CanCarve(m, head, psize, i, at, size, kind, id) && x in Carve(m, i, at, size, kind, id).live
    ensures ExtentOk(Carve(m, i, at, size, kind, id), head, x)
  {
    assert BlockOk(m, head, psize, i);
    if x != id { assert ExtentOk(m, head, x); }
  }

  lemma CarveApart(m: Mem, head: nat, psize: nat, i: nat, at: nat, size: nat, kind: Kind, id: nat, x: nat, y: nat)
    requires CanCarve(m, head, psize, i, at, size, kind, id)
    requires x in Carve(m, i, at, size, kind, id).live && y in Carve(m, i, at, size, kind, id).live
    ensures ApartOk(Carve(m, i, at, size, kind, id), x, y)
  {
    if x != id { assert ExtentOk(m, head, x); }
    if y != id { assert ExtentOk(m, head, y); }
    if x != id && y != id { assert ApartOk(m, x, y); }
  }

  lemma CarveOk(m: Mem, head: nat, psize: nat, i: nat, at: nat, size: nat, kind: Kind, id: nat)
    requires CanCarve(m, head, psize, i, at, size, kind, id)
    ensures MemOk(Carve(m, i, at, size, kind, id), head, psize)
  {
    var m' := Carve(m, i, at, size, kind, id);
    forall x | x in m'.live
      ensures ExtentOk(m', head, x)
    {
      CarveExtent(m, head, psize, i, at, size, kind, id, x);
    }
    forall x, y | x in m'.live && y in m'.live
      ensures ApartOk(m', x, y)
    {
      CarveApart(m, head, psize, i, at, size, kind, id, x, y);
    }
    forall j | 0 <= j < |m'.chain|
      ensures BlockOk(m', head, psize, j)
    {
      assert BlockOk(m, head, psize, i) && BlockOk(m, head, psize, j);
    }
  }

  // ---------- a further block ----------

  /** The answer of malloc: aligned, and apart from everything held. */
  ghost predicate Fresh(regions: map<nat, nat>, p: nat, size: nat) {
    p > 0 && p % 16 == 0 && size > 0 && forall r :: r in regions ==> Apart(p, size, r, regions[r])
  }

  lemma RegionSize(regions: map<nat, nat>, r: nat)
    requires RegionsOk(regions) && r in regions
    ensures r > 0 && regions[r] > 0
  {
    assert RegionOk(regions, r, r);
  }

  lemma FreshRegions(regions: map<nat, nat>, p: nat, size: nat)
    requires RegionsOk(regions) && Fresh(regions, p, size)
    ensures p !in regions && RegionsOk(regions[p := size])
  {
    if p in regions { RegionSize(regions, p); }
    var regions' := regions[p := size];
    forall r, q | r in regions' && q in regions'
      ensures RegionOk(regions', r, q)
    {
      if r != p { assert RegionOk(regions, r, r); }
      if r != p && q != p { assert RegionOk(regions, r, q); }
    }
  }

  function Extend(m: Mem, b: nat, psize: nat): Mem
    requires m.chain != [] && m.chain[|m.chain| - 1] in m.blocks
  {
    var t := m.chain[|m.chain| - 1];
    m.(regions := m.regions[b := psize], chain := m.chain + [b],
       blocks := m.blocks[t := m.blocks[t].(next := b)][b := Block(b + DATA, b + psize, 0, 0)])
  }

  lemma ExtendBlock(m: Mem, head: nat, psize: nat, b: nat, j: int)
    requires MemOk(m, head, psize) && b !in m.regions && b > 0 && m.chain[|m.chain| - 1] in m.blocks
      && 0 <= j <= |m.chain|
    ensures BlockOk(Extend(m, b, psize), head, psize, j)
  {
    var n := |m.chain|;
    assert BlockOk(m, head, psize, n - 1);
    if j < n { assert BlockOk(m, head, psize, j); }
    if j + 1 < n { assert BlockOk(m, head, psize, j + 1); }
  }

  lemma ExtendOk(m: Mem, head: nat, psize: nat, b: nat)
    requires MemOk(m, head, psize) && Fresh(m.regions, b, psize)
    ensures m.chain[|m.chain| - 1] in m.blocks && b !in m.regions && b !in m.chain
    ensures MemOk(Extend(m, b, psize), head, psize)
  {
    var n := |m.chain|;
    assert BlockOk(m, head, psize, n - 1);
    FreshRegions(m.regions, b, psize);
    var m' := Extend(m, b, psize);
    forall j | 0 <= j < n
      ensures m.chain[j] != b
    {
      assert BlockOk(m, head, psize, j);
    }
    forall j | 0 <= j < |m'.chain|
      ensures BlockOk(m', head, psize, j)
    {
      ExtendBlock(m, head, psize, b, j);
    }
    forall x | x in m'.live
      ensures ExtentOk(m', head, x)
    {
      assert ExtentOk(m, head, x);
    }
    forall x, y | x in m'.live && y in m'.live
      ensures ApartOk(m', x, y)
    {
      assert ApartOk(m, x, y);
    }
  }

  /** The failure counters have no bearing on the layout. */
  /** The lowest place where a request fits into what block `b` has left. */
  ghost predicate Spot(b: Block, at: nat, size: nat, align: bool) {
    && b.last <= at && at + size <= b.end
    && if align then at % 8 == 0 && at < b.last + 8 else at == b.last
  }

  ghost predicate NoSpot(b: Block, size: nat, align: bool) {
    forall at :: !Spot(b, at, size, align)
  }

  /** With the end at a word boundary the test for room is exact. */
  lemma RoomTest(b: Block, size: nat, align: bool)
    requires b.last <= b.end < b.last + ADDRESSES && b.end % WORD == 0
    ensures Fits(b.end, Place(b.last, align), size) ==> Spot(b, Place(b.last, align), size, align)
    ensures !Fits(b.end, Place(b.last, align), size) ==> NoSpot(b, size, align)
  {
    var m := Place(b.last, align);
    assert m <= b.end;
    forall at | Spot(b, at, size, align)
      ensures at == m
    {
    }
  }

  ghost predicate SameLayout(a: map<nat, Block>, b: map<nat, Block>) {
    a.Keys == b.Keys && forall x :: x in a ==> a[x].last == b[x].last && a[x].end == b[x].end && a[x].next == b[x].next
  }

  lemma LayoutOk(m: Mem, head: nat, psize: nat, blocks: map<nat, Block>)
    requires MemOk(m, head, psize) && SameLayout(m.blocks, blocks)
    ensures MemOk(m.(blocks := blocks), head, psize)
  {
    var m' := m.(blocks := blocks);
    forall j | 0 <= j < |m'.chain|
      ensures BlockOk(m', head, psize, j)
    {
      assert BlockOk(m, head, psize, j);
    }
    forall x | x in m'.live
      ensures ExtentOk(m', head, x)
    {
      assert ExtentOk(m, head, x);
    }
    forall x, y | x in m'.live && y in m'.live
      ensures ApartOk(m', x, y)
    {
      assert ApartOk(m, x, y);
    }
  }

  // ---------- whole regions ----------

  function AddRegion(m: Mem, p: nat, size: nat, id: nat): Mem {
    m.(regions := m.regions[p := size], live := m.live[id := Extent(p, p, size, Whole)])
  }

  lemma AddRegionOk(m: Mem, head: nat, psize: nat, p: nat, size: nat, id: nat)
    requires MemOk(m, head, psize) && Fresh(m.regions, p, size) && id !in m.live
    ensures p !in m.regions && p !in m.chain && MemOk(AddRegion(m, p, size, id), head, psize)
  {
    FreshRegions(m.regions, p, size);
    var m' := AddRegion(m, p, size, id);
    forall j | 0 <= j < |m.chain|
      ensures m.chain[j] != p && BlockOk(m', head, psize, j)
    {
      assert BlockOk(m, head, psize, j);
    }
    forall x | x in m'.live
      ensures ExtentOk(m', head, x)
    {
      if x != id { assert ExtentOk(m, head, x); }
    }
    forall x, y | x in m'.live && y in m'.live
      ensures ApartOk(m', x, y)
    {
      if x != id { assert ExtentOk(m, head, x); HomeHeld(m, head, psize, x); }
      if y != id { assert ExtentOk(m, head, y); HomeHeld(m, head, psize, y); }
      if x != id && y != id { assert ApartOk(m, x, y); }
    }
  }

  lemma HomeHeld(m: Mem, head: nat, psize: nat, x: nat)
    requires MemOk(m, head, psize) && x in m.live
    ensures m.live[x].home in m.regions
  {
    assert ExtentOk(m, head, x);
    var e := m.live[x];
    if !e.kind.Whole? {
      var i :| 0 <= i < |m.chain| && m.chain[i] == e.home;
      assert BlockOk(m, head, psize, i);
    }
  }

  function DropRegion(m: Mem, p: nat): Mem {
    m.(regions := m.regions - {p}, live := map id | id in m.live && m.live[id].home != p :: m.live[id])
  }

  lemma DropRegionOk(m: Mem, head: nat, psize: nat, p: nat)
    requires MemOk(m, head, psize) && p !in m.chain
    ensures MemOk(DropRegion(m, p), head, psize)
  {
    var m' := DropRegion(m, p);
    forall r, q | r in m'.regions && q in m'.regions
      ensures RegionOk(m'.regions, r, q)
    {
      assert RegionOk(m.regions, r, q);
    }
    forall j | 0 <= j < |m.chain|
      ensures BlockOk(m', head, psize, j)
    {
      assert BlockOk(m, head, psize, j);
    }
    forall x | x in m'.live
      ensures ExtentOk(m', head, x)
    {
      assert ExtentOk(m, head, x);
    }
    forall x, y | x in m'.live && y in m'.live
      ensures ApartOk(m', x, y)
    {
      assert ApartOk(m, x, y);
    }
  }

  // ---------- failure counters ----------

  function FailedAt(blocks: map<nat, Block>, b: nat): nat {
    if b in blocks then blocks[b].failed else 0
  }

  function Fails(blocks: map<nat, Block>, chain: seq<nat>): (f: seq<nat>)
    ensures |f| == |chain|
  {
    seq(|chain|, i requires 0 <= i < |chain| => FailedAt(blocks, chain[i]))
  }

  /** Counters never rise along the chain, and `cur` is the first block whose counter is at
      most 5; the last block has never failed. */
  ghost predicate Paced(f: seq<nat>, cur: nat) {
    && cur < |f| && f[|f| - 1] == 0
    && (forall i :: 0 <= i < cur ==> f[i] == 6)
    && (forall i :: cur <= i < |f| ==> f[i] <= 5)
    && (forall i, j :: cur <= i < j < |f| ==> f[i] >= f[j])
  }

  /** Without a reset the counters count down to the end of the chain. */
  ghost predicate CountingDown(f: seq<nat>, cur: nat) {
    forall i :: cur <= i < |f| ==> f[i] == if i == |f| - 1 then 0 else |f| - 2 - i
  }

  lemma AtMostSeven(f: seq<nat>, cur: nat)
    requires Paced(f, cur) && CountingDown(f, cur)
    ensures |f| - cur <= 7
  {
    assert f[cur] <= 5;
  }

  /** After a search that failed in all blocks from `cur` on: every counter but the last is
      raised, and a block is appended. */
  ghost predicate Raised(f: seq<nat>, cur: nat, f': seq<nat>, cur': nat) {
    && cur < |f| && |f'| == |f| + 1 && f'[|f|] == 0 && f'[|f| - 1] == f[|f| - 1]
    && (forall i :: 0 <= i < |f| - 1 ==> f'[i] == f[i] + if i < cur then 0 else 1)
    && cur <= cur' < |f|
    && (forall i :: cur <= i < cur' ==> f[i] == 5) && (forall i :: cur' <= i < |f| - 1 ==> f[i] <= 4)
  }

  lemma RaisedPaced(f: seq<nat>, cur: nat, f': seq<nat>, cur': nat)
    requires Paced(f, cur) && Raised(f, cur, f', cur')
    ensures Paced(f', cur')
    ensures CountingDown(f, cur) ==> CountingDown(f', cur')
  {
  }

  // ---------- the lists of large allocations and of cleanup actions ----------

  datatype Large = Large(next: nat, alloc: nat)

  datatype Cleanup = Cleanup(handler: nat, data: nat, next: nat)

  /** The two lists: headers by address, their order, and the extents they stand in. */
  datatype Lists = Lists(
    larges: map<nat, Large>, lchain: seq<nat>, lids: map<nat, nat>,
    cleanups: map<nat, Cleanup>, cchain: seq<nat>, cids: map<nat, nat>)

  /** The header at `h` stands in an extent of its own. */
  ghost predicate Housed(m: Mem, ids: map<nat, nat>, h: nat, size: nat, kind: Kind) {
    h > 0 && h in ids && ids[h] in m.live && m.live[ids[h]].base == h && m.live[ids[h]].size == size
      && m.live[ids[h]].kind == kind
  }

  ghost predicate LargeOk(m: Mem, s: Lists, k: int)
    requires 0 <= k < |s.lchain|
  {
    var h := s.lchain[k];
    && Housed(m, s.lids, h, LARGE, LargeHeader) && h in s.larges && s.larges[h].next == After(s.lchain, k)
    && (s.larges[h].alloc != 0 ==> s.larges[h].alloc in m.regions && s.larges[h].alloc !in m.chain)
  }

  ghost predicate CleanupOk(m: Mem, s: Lists, k: int)
    requires 0 <= k < |s.cchain|
  {
    var h := s.cchain[k];
    Housed(m, s.cids, h, CLEANUP, CleanupHeader) && h in s.cleanups && s.cleanups[h].next == After(s.cchain, k)
  }

  /** Two headers do not hold the same region. */
  ghost predicate AllocOk(s: Lists, j: int, k: int)
    requires 0 <= j < |s.lchain| && 0 <= k < |s.lchain|
  {
    && s.lchain[j] in s.larges && s.lchain[k] in s.larges
    && (j != k && s.larges[s.lchain[j]].alloc != 0 ==> s.larges[s.lchain[j]].alloc != s.larges[s.lchain[k]].alloc)
  }

  /** The region `r` is held by some header. */
  ghost predicate Held(s: Lists, r: nat) {
    exists k :: 0 <= k < |s.lchain| && s.lchain[k] in s.larges && s.larges[s.lchain[k]].alloc == r
  }

  ghost predicate ListsOk(m: Mem, s: Lists) {
    && Distinct(s.lchain) && Distinct(s.cchain)
    && (forall k {:trigger LargeOk(m, s, k)} :: 0 <= k < |s.lchain| ==> LargeOk(m, s, k))
    && (forall j, k {:trigger AllocOk(s, j, k)} :: 0 <= j < |s.lchain| && 0 <= k < |s.lchain| ==> AllocOk(s, j, k))
    && (forall k {:trigger CleanupOk(m, s, k)} :: 0 <= k < |s.cchain| ==> CleanupOk(m, s, k))
    && (forall r :: r in m.regions && r !in m.chain ==> Held(s, r))
  }

  ghost predicate Keeps(m: Mem, m': Mem) {
    && (forall id :: id in m.live ==> id in m'.live && m'.live[id] == m.live[id])
    && (forall r :: r in m.regions ==> r in m'.regions)
    && (forall b :: b in m'.chain ==> b in m.chain || b !in m.regions)
    && (forall b :: b in m.chain ==> b in m'.chain)
  }

  /** More memory does not disturb the lists. */
  lemma ListsKept(m: Mem, m': Mem, s: Lists)
    requires ListsOk(m, s) && Keeps(m, m')
    requires forall r :: r in m'.regions && r !in m'.chain ==> r in m.regions
    ensures ListsOk(m', s)
  {
    forall k | 0 <= k < |s.lchain|
      ensures LargeOk(m', s, k)
    {
      assert LargeOk(m, s, k);
    }
    forall k | 0 <= k < |s.cchain|
      ensures CleanupOk(m', s, k)
    {
      assert CleanupOk(m, s, k);
    }
  }

  /** A new header is not on the list. */
  lemma HeaderNew(m: Mem, head: nat, psize: nat, ids: map<nat, nat>, q: seq<nat>, h: nat, id: nat, size: nat,
                  kind: Kind)
    requires MemOk(m, head, psize) && id in m.live && m.live[id].base == h && m.live[id].size == size > 0
    requires forall k :: 0 <= k < |q| ==> Housed(m, ids, q[k], size, kind) && ids[q[k]] != id
    ensures h !in q
  {
    if h in q {
      var k :| 0 <= k < |q| && q[k] == h;
      Separate(m, head, psize, id, ids[h]);
    }
  }

  /** A large region goes into an empty header. */
  function Refill(s: Lists, k: nat, p: nat): Lists
    requires k < |s.lchain| && s.lchain[k] in s.larges
  {
    s.(larges := s.larges[s.lchain[k] := s.larges[s.lchain[k]].(alloc := p)])
  }

  lemma RefillOk(m: Mem, m': Mem, s: Lists, k: nat, p: nat)
    requires ListsOk(m, s) && Keeps(m, m') && m'.chain == m.chain && m'.regions.Keys == m.regions.Keys + {p}
      && p !in m.regions && p !in m.chain && p != 0
    requires 0 !in m.regions && k < |s.lchain| && s.lchain[k] in s.larges && s.larges[s.lchain[k]].alloc == 0
    ensures ListsOk(m', Refill(s, k, p))
  {
    var s' := Refill(s, k, p);
    forall j | 0 <= j < |s.lchain|
      ensures LargeOk(m', s', j)
    {
      assert LargeOk(m, s, j);
    }
    forall i, j | 0 <= i < |s.lchain| && 0 <= j < |s.lchain|
      ensures AllocOk(s', i, j)
    {
      assert AllocOk(s, i, j) && LargeOk(m, s, i) && LargeOk(m, s, j);
    }
    forall j | 0 <= j < |s.cchain|
      ensures CleanupOk(m', s', j)
    {
      assert CleanupOk(m, s, j);
    }
    forall r | r in m'.regions && r !in m'.chain
      ensures Held(s', r)
    {
      if r != p {
        assert Held(s, r);
        var j :| 0 <= j < |s.lchain| && s.lchain[j] in s.larges && s.larges[s.lchain[j]].alloc == r;
        assert LargeOk(m, s, j);
        assert s'.larges[s'.lchain[j]].alloc == r;
      } else {
        assert s'.larges[s'.lchain[k]].alloc == r;
      }
    }
  }

  /** A new header for a large region goes to the front. */
  function PushLarge(s: Lists, h: nat, p: nat, id: nat): Lists {
    s.(larges := s.larges[h := Large(After(s.lchain, -1), p)], lchain := [h] + s.lchain, lids := s.lids[h := id])
  }

  lemma PushLargeOk(m: Mem, s: Lists, h: nat, p: nat, id: nat)
    requires ListsOk(m.(regions := m.regions - {p}), s) && p in m.regions && p !in m.chain && p != 0
    requires h !in s.lchain && Housed(m, s.lids[h := id], h, LARGE, LargeHeader)
    ensures ListsOk(m, PushLarge(s, h, p, id))
  {
    var m0, s' := m.(regions := m.regions - {p}), PushLarge(s, h, p, id);
    forall j | 0 <= j < |s'.lchain|
      ensures LargeOk(m, s', j)
    {
      if j > 0 { assert LargeOk(m0, s, j - 1); }
    }
    forall i, j | 0 <= i < |s'.lchain| && 0 <= j < |s'.lchain|
      ensures AllocOk(s', i, j)
    {
      if i > 0 { assert LargeOk(m0, s, i - 1); }
      if j > 0 { assert LargeOk(m0, s, j - 1); }
      if i > 0 && j > 0 { assert AllocOk(s, i - 1, j - 1); }
    }
    forall j | 0 <= j < |s'.cchain|
      ensures CleanupOk(m, s', j)
    {
      assert CleanupOk(m0, s, j);
    }
    forall r | r in m.regions && r !in m.chain
      ensures Held(s', r)
    {
      if r == p {
        assert s'.larges[s'.lchain[0]].alloc == r;
      } else {
        assert Held(s, r);
        var j :| 0 <= j < |s.lchain| && s.lchain[j] in s.larges && s.larges[s.lchain[j]].alloc == r;
        assert s'.larges[s'.lchain[j + 1]].alloc == r;
      }
    }
  }

  /** The region of header `k` has been freed. */
  lemma EmptyOk(m: Mem, head: nat, psize: nat, s: Lists, k: nat)
    requires MemOk(m, head, psize) && ListsOk(m, s) && k < |s.lchain| && s.lchain[k] in s.larges
      && s.larges[s.lchain[k]].alloc != 0
    ensures ListsOk(DropRegion(m, s.larges[s.lchain[k]].alloc), Refill(s, k, 0))
  {
    var p := s.larges[s.lchain[k]].alloc;
    var m', s' := DropRegion(m, p), Refill(s, k, 0);
    assert LargeOk(m, s, k);
    forall j | 0 <= j < |s.lchain|
      ensures LargeOk(m', s', j)
    {
      assert LargeOk(m, s, j) && AllocOk(s, k, j);
      assert ExtentOk(m, head, s.lids[s.lchain[j]]);
      HousedAfter(m, p, s.lids, s.lchain[j], LARGE, LargeHeader);
    }
    forall i, j | 0 <= i < |s.lchain| && 0 <= j < |s.lchain|
      ensures AllocOk(s', i, j)
    {
      assert AllocOk(s, i, j);
    }
    forall j | 0 <= j < |s.cchain|
      ensures CleanupOk(m', s', j)
    {
      assert CleanupOk(m, s, j);
      assert ExtentOk(m, head, s.cids[s.cchain[j]]);
      HousedAfter(m, p, s.cids, s.cchain[j], CLEANUP, CleanupHeader);
    }
    forall r | r in m'.regions && r !in m'.chain
      ensures Held(s', r)
    {
      assert Held(s, r);
      var j :| 0 <= j < |s.lchain| && s.lchain[j] in s.larges && s.larges[s.lchain[j]].alloc == r;
      assert s'.larges[s'.lchain[j]].alloc == r;
    }
  }

  lemma HousedAfter(m: Mem, p: nat, ids: map<nat, nat>, h: nat, size: nat, kind: Kind)
    requires Housed(m, ids, h, size, kind) && m.live[ids[h]].home != p
    ensures Housed(DropRegion(m, p), ids, h, size, kind)
  {
  }

  /** A new cleanup action goes to the front. */
  function PushCleanup(s: Lists, h: nat, c: Cleanup, id: nat): Lists {
    s.(cleanups := s.cleanups[h := c.(next := After(s.cchain, -1))], cchain := [h] + s.cchain, cids := s.cids[h := id])
  }

  lemma PushCleanupOk(m: Mem, s: Lists, h: nat, c: Cleanup, id: nat)
    requires ListsOk(m, s) && h !in s.cchain && Housed(m, s.cids[h := id], h, CLEANUP, CleanupHeader)
    ensures ListsOk(m, PushCleanup(s, h, c, id))
  {
    var s' := PushCleanup(s, h, c, id);
    forall j | 0 <= j < |s'.lchain|
      ensures LargeOk(m, s', j)
    {
      assert LargeOk(m, s, j);
    }
    forall i, j | 0 <= i < |s'.lchain| && 0 <= j < |s'.lchain|
      ensures AllocOk(s', i, j)
    {
      assert AllocOk(s, i, j);
    }
    forall j | 0 <= j < |s'.cchain|
      ensures CleanupOk(m, s', j)
    {
      if j > 0 { assert CleanupOk(m, s, j - 1); }
    }
    forall r | r in m.regions && r !in m.chain
      ensures Held(s', r)
    {
      assert Held(s, r);
      var j :| 0 <= j < |s.lchain| && s.lchain[j] in s.larges && s.larges[s.lchain[j]].alloc == r;
      assert s'.larges[s'.lchain[j]].alloc == r;
    }
  }

  // ---------- reading headers ----------

  /** The `n` bytes at `a` lie in a region that is held. */
  ghost predicate Mapped(regions: map<nat, nat>, a: nat, n: nat) {
    exists r :: r in regions && r <= a && a + n <= r + regions[r]
  }

  /** A header stays readable as long as the blocks are held. */
  lemma HousedMapped(m: Mem, head: nat, psize: nat, ids: map<nat, nat>, h: nat, size: nat, kind: Kind,
                     left: map<nat, nat>)
    requires MemOk(m, head, psize) && Housed(m, ids, h, size, kind) && size > 0 && !kind.Whole?
    requires forall b :: b in m.chain ==> b in left && b in m.regions && left[b] == m.regions[b]
    ensures Mapped(left, h, size)
  {
    assert ExtentOk(m, head, ids[h]);
    InBounds(m, head, psize, ids[h]);
  }

  // ---------- an extent at the fill mark of the first block grows or goes ----------

  ghost predicate AtMark(m: Mem, id: nat) {
    && id in m.live && m.chain != [] && m.chain[0] in m.blocks
    && m.live[id].size > 0 && m.live[id].base + m.live[id].size == m.blocks[m.chain[0]].last
  }

  /** Only an extent of the first block can end at its fill mark. */
  lemma MarkedHome(m: Mem, head: nat, psize: nat, id: nat)
    requires MemOk(m, head, psize) && AtMark(m, id)
    ensures m.live[id].home == m.chain[0] && !m.live[id].kind.Whole? && m.chain[0] + head <= m.live[id].base
  {
    assert BlockOk(m, head, psize, 0) && ExtentOk(m, head, id);
    InBounds(m, head, psize, id);
    var e := m.live[id];
    assert RegionOk(m.regions, e.home, m.chain[0]);
  }

  function Stretch(m: Mem, id: nat, n: nat): Mem
    requires id in m.live && m.chain != [] && m.chain[0] in m.blocks
  {
    var b := m.chain[0];
    m.(blocks := m.blocks[b := m.blocks[b].(last := m.blocks[b].last + n)],
       live := m.live[id := m.live[id].(size := m.live[id].size + n)])
  }

  lemma StretchOk(m: Mem, head: nat, psize: nat, id: nat, n: nat)
    requires MemOk(m, head, psize) && AtMark(m, id) && m.blocks[m.chain[0]].last + n <= m.blocks[m.chain[0]].end
    ensures MemOk(Stretch(m, id, n), head, psize)
  {
    MarkedHome(m, head, psize, id);
    var m' := Stretch(m, id, n);
    forall j | 0 <= j < |m.chain|
      ensures BlockOk(m', head, psize, j)
    {
      assert BlockOk(m, head, psize, j) && BlockOk(m, head, psize, 0);
    }
    forall x | x in m'.live
      ensures ExtentOk(m', head, x)
    {
      assert ExtentOk(m, head, x);
    }
    forall x, y | x in m'.live && y in m'.live
      ensures ApartOk(m', x, y)
    {
      assert ApartOk(m, x, y) && ExtentOk(m, head, x) && ExtentOk(m, head, y);
    }
  }

  function Retract(m: Mem, id: nat): Mem
    requires id in m.live && m.chain != [] && m.chain[0] in m.blocks
  {
    var b := m.chain[0];
    m.(blocks := m.blocks[b := m.blocks[b].(last := m.live[id].base)], live := m.live - {id})
  }

  lemma RetractOk(m: Mem, head: nat, psize: nat, id: nat)
    requires MemOk(m, head, psize) && AtMark(m, id)
    ensures MemOk(Retract(m, id), head, psize)
  {
    MarkedHome(m, head, psize, id);
    var m' := Retract(m, id);
    forall j | 0 <= j < |m.chain|
      ensures BlockOk(m', head, psize, j)
    {
      assert BlockOk(m, head, psize, j) && BlockOk(m, head, psize, 0);
    }
    forall x | x in m'.live
      ensures ExtentOk(m', head, x)
    {
      assert ExtentOk(m, head, x) && ApartOk(m, x, id);
    }
    forall x, y | x in m'.live && y in m'.live
      ensures ApartOk(m', x, y)
    {
      assert ApartOk(m, x, y);
    }
  }
}
