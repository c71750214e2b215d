/** How page descriptors encode what the pages are used for, and why taking a run of
    pages and giving it back keep the encoding. */
module SlabPages {
  import opened Common
  import opened Words
  import opened SlabModel
  import opened SlabLists

  const PAGE_BUSY: nat := 0xFFFF_FFFF_FFFF_FFFF
  const PAGE_START: nat := 0x8000_0000_0000_0000

  const TAG_PAGE: nat := 0
  const TAG_BIG: nat := 1
  const TAG_EXACT: nat := 2
  const TAG_SMALL: nat := 3

  function TagOf(sh: nat): nat {
    if sh < EXACT_SHIFT then TAG_SMALL else if sh == EXACT_SHIFT then TAG_EXACT else TAG_BIG
  }

  /** The in-page bitmap, the bitmap in `slab`, or the bitmap in its high half. */
  ghost predicate ChunkBit(slab: nat, w: seq<nat>, sh: nat, c: nat)
    requires IsShift(sh)
  {
    if sh < EXACT_SHIFT then c / 64 < |w| && Bit(w[c / 64], c % 64)
    else if sh == EXACT_SHIFT then Bit(slab, c)
    else Bit(slab, 32 + c)
  }

  /** The bitmap of a chunk page marks the reserved chunks and those in use, no others. */
  ghost predicate BitmapOk(slab: nat, w: seq<nat>, sh: nat, used: set<nat>)
    requires IsShift(sh)
  {
    && slab < MODULUS && |w| == PAGE_WORDS && (forall x :: 0 <= x < PAGE_WORDS ==> w[x] < MODULUS)
    && (sh < EXACT_SHIFT ==> slab == sh)
    && (sh > EXACT_SHIFT ==> forall b: nat :: b < 32 ==> (Bit(slab, b) <==> Bit(sh, b)))
    && (forall c: nat :: c < (if sh > EXACT_SHIFT then 32 else Cap(sh)) ==>
         (ChunkBit(slab, w, sh, c) <==> c < Reserved(sh) || c in used))
  }

  ghost predicate Full(sh: nat, used: set<nat>)
    requires IsShift(sh)
  {
    forall c :: Reserved(sh) <= c < Cap(sh) ==> c in used
  }

  /** A pool at one moment: descriptors, the words of every page, and what
      they stand for. */
  datatype Pool = Pool(m: Table, w: seq<seq<nat>>, v: seq<View>, free: seq<nat>, slots: seq<seq<nat>>)

  ghost predicate PageOk(s: Pool, i: int)
    requires 0 <= i < |s.v| && |s.w| == |s.v|
  {
    && Page(i) in s.m
    && var e := s.m[Page(i)];
    match s.v[i]
    case FreeHead(len) => e.slab == len && e.tag == TAG_PAGE && e.next != Null
    case FreeBody(h) =>
      && e.slab == 0 && e.tag == TAG_PAGE && e.next == Null
      && (0 <= h < |s.v| && s.v[h].FreeHead? && i + 1 == h + s.v[h].len && i + 1 < |s.v| ==> e.prev == Page(h))
    case RunHead(len) => e.slab == len + PAGE_START && e.tag == TAG_PAGE && e.next == Null
    case RunBody(h) => e.slab == PAGE_BUSY && e.tag == TAG_PAGE && e.next == Null
    case Chunks(sh, used) =>
      IsShift(sh) && e.tag == TagOf(sh) && (e.next == Null <==> Full(sh, used)) && BitmapOk(e.slab, s.w[i], sh, used)
  }

  /** The free list holds exactly the heads of the free runs. */
  ghost predicate FreeExact(s: Pool) {
    && (forall k :: 0 <= k < |s.free| ==> s.free[k] < |s.v| && s.v[s.free[k]].FreeHead?)
    && (forall i :: 0 <= i < |s.v| && s.v[i].FreeHead? ==> i in s.free)
  }

  ghost predicate Partial(w: View, slot: nat) {
    w.Chunks? && IsShift(w.shift) && w.shift - MIN_SHIFT == slot && !Full(w.shift, w.used)
  }

  /** A slot list holds exactly the pages of its class with a free chunk. */
  ghost predicate SlotExact(s: Pool, slot: nat)
    requires slot < |s.slots|
  {
    && (forall k :: 0 <= k < |s.slots[slot]| ==> s.slots[slot][k] < |s.v| && Partial(s.v[s.slots[slot][k]], slot))
    && (forall i :: 0 <= i < |s.v| && Partial(s.v[i], slot) ==> i in s.slots[slot])
  }

  ghost predicate SlotOk(s: Pool, slot: nat)
    requires slot < |s.slots|
  {
    List(s.m, SlotList(slot), s.slots[slot]) && SlotExact(s, slot)
  }

  ghost predicate Domain(s: Pool) {
    && |s.slots| == SLOTS && |s.w| == |s.v| && |s.v| < PAGE_START - 1
    && Null !in s.m
    && (forall r :: r in s.m && r.Page? ==> r.i < |s.v|)
  }

  ghost predicate Conforms(s: Pool) {
    && Domain(s) && Tiled(s.v)
    && (forall i {:trigger PageOk(s, i)} :: 0 <= i < |s.v| ==> PageOk(s, i))
    && List(s.m, FreeList, s.free) && FreeExact(s)
    && (forall slot {:trigger SlotOk(s, slot)} :: 0 <= slot < SLOTS ==> SlotOk(s, slot))
  }

  // ---------- taking pages ----------

  /** The descriptors of the `k` pages that become an allocated run. */
  ghost function Claimed(i: nat, k: nat, r: Ref): Entry {
    if r == Page(i) then Entry(k + PAGE_START, Null, Null, TAG_PAGE) else Entry(PAGE_BUSY, Null, Null, TAG_PAGE)
  }

  ghost function Claim(m: Table, i: nat, k: nat): Table {
    map r | r in m :: if r.Page? && i <= r.i < i + k then Claimed(i, k, r) else m[r]
  }

  /** The free run at `i` of length `len` loses its first `k` pages: the list of free runs
      goes on with the rest of the run, or without it. */
  ghost function Shorten(m: Table, i: nat, k: nat, len: nat): Table
    requires 1 <= k <= len && Page(i + len - 1) in m && CanUnhook(m, Page(i))
    requires k < len ==> Page(i + k) in m
  {
    if k < len then
      var m0 := m[Page(i + len - 1) := m[Page(i + len - 1)].(prev := Page(i + k), tag := TAG_PAGE)];
      var m1 := m0[Page(i + k) := m0[Page(i + k)].(slab := len - k)];
      assert m1[Page(i)] == m[Page(i)];
      Supplant(m1, Page(i), Page(i + k))
    else
      Unhook(m, Page(i))
  }

  ghost predicate CanTake(s: Pool, p: nat, k: nat) {
    && Conforms(s) && p < |s.free| && s.free[p] < |s.v| && s.v[s.free[p]].FreeHead?
    && 1 <= k <= s.v[s.free[p]].len
  }

  ghost function Shortened(s: Pool, p: nat, k: nat): Table
    requires CanTake(s, p, k)
  {
    TakeReady(s, p, k);
    Shorten(s.m, s.free[p], k, s.v[s.free[p]].len)
  }

  ghost function TakePages(s: Pool, p: nat, k: nat): Pool
    requires CanTake(s, p, k)
  {
    var i := s.free[p];
    var len := s.v[i].len;
    Pool(Claim(Shortened(s, p, k), i, k), s.w, Take(s.v, i, k),
         if k < len then s.free[p := i + k] else RemoveAt(s.free, p), s.slots)
  }

  lemma TakeReady(s: Pool, p: nat, k: nat)
    requires CanTake(s, p, k)
    ensures var i := s.free[p]; var len := s.v[i].len;
      && i + len <= |s.v|
      && Page(i + len - 1) in s.m && CanUnhook(s.m, Page(i)) && (k < len ==> Page(i + k) in s.m)
      && s.m[Page(i)].slab == len
      && s.m[Page(i)].prev == At(FreeList, s.free, p - 1) && s.m[Page(i)].next == At(FreeList, s.free, p + 1)
      && s.m[Page(i)].tag == TAG_PAGE
  {
    var i := s.free[p];
    assert TileOk(s.v, i) && PageOk(s, i);
    assert PageOk(s, i + s.v[i].len - 1);
    if k < s.v[i].len { assert PageOk(s, i + k); }
    UnhookReady(s.m, FreeList, s.free, p);
  }

  /** What happens to each descriptor. */
  lemma ShortenAt(s: Pool, p: nat, k: nat, r: Ref)
    requires CanTake(s, p, k) && r in s.m
    ensures var i := s.free[p]; var len := s.v[i].len;
      var before, after := At(FreeList, s.free, p - 1), At(FreeList, s.free, p + 1);
      var m' := Shortened(s, p, k);
      && m'.Keys == s.m.Keys
      && (r != Page(i) && !(r.Page? && i + k <= r.i < i + len) ==>
           && m'[r].slab == s.m[r].slab
           && m'[r].next == (if r == before then (if k < len then Page(i + k) else after) else s.m[r].next)
           && m'[r].prev == (if r == after then (if k < len then Page(i + k) else before) else s.m[r].prev)
           && m'[r].tag == (if r == after then TAG_PAGE else s.m[r].tag))
      && (r == Page(i + k) && k < len ==> m'[r] == Entry(len - k, after, before, TAG_PAGE))
      && (r.Page? && i + k < r.i < i + len ==>
           m'[r] == if r.i == i + len - 1 then s.m[r].(prev := Page(i + k), tag := TAG_PAGE) else s.m[r])
  {
    TakeReady(s, p, k);
    TakeApart(s, p);
  }

  /** The neighbours on the list of free runs lie outside the run. */
  lemma TakeApart(s: Pool, p: nat)
    requires Conforms(s) && p < |s.free| && s.free[p] < |s.v| && s.v[s.free[p]].FreeHead?
    ensures var i := s.free[p]; var len := s.v[i].len;
      var before, after := At(FreeList, s.free, p - 1), At(FreeList, s.free, p + 1);
      && (before.Page? ==> !(i <= before.i < i + len)) && (after.Page? ==> !(i <= after.i < i + len))
  {
    var i := s.free[p];
    assert TileOk(s.v, i);
  }

  lemma TakePageOk(s: Pool, p: nat, k: nat, j: int)
    requires CanTake(s, p, k) && 0 <= j < |s.v|
    ensures PageOk(TakePages(s, p, k), j)
  {
    if s.free[p] <= j < s.free[p] + s.v[s.free[p]].len {
      TakePageInside(s, p, k, j);
    } else {
      TakePageOutside(s, p, k, j);
    }
  }

  lemma TakePageInside(s: Pool, p: nat, k: nat, j: int)
    requires CanTake(s, p, k) && 0 <= j < |s.v| && s.free[p] <= j < s.free[p] + s.v[s.free[p]].len
    ensures PageOk(TakePages(s, p, k), j)
  {
    assert PageOk(s, j) && TileOk(s.v, s.free[p]);
    ShortenAt(s, p, k, Page(j));
    TakeNeighbours(s, p);
  }

  lemma TakePageOutside(s: Pool, p: nat, k: nat, j: int)
    requires CanTake(s, p, k) && 0 <= j < |s.v| && !(s.free[p] <= j < s.free[p] + s.v[s.free[p]].len)
    ensures PageOk(TakePages(s, p, k), j)
  {
    assert PageOk(s, j) && TileOk(s.v, s.free[p]) && TileOk(s.v, j);
    ShortenAt(s, p, k, Page(j));
    TakeNeighbours(s, p);
    TakeBodyApart(s.v, s.free[p], j);
  }

  /** The neighbours of a free run on the list are heads of free runs, or the list head. */
  lemma TakeNeighbours(s: Pool, p: nat)
    requires Conforms(s) && p < |s.free|
    ensures var before, after := At(FreeList, s.free, p - 1), At(FreeList, s.free, p + 1);
      && (before.Page? ==> before.i < |s.v| && s.v[before.i].FreeHead?)
      && (after.Page? ==> after.i < |s.v| && s.v[after.i].FreeHead?)
      && before != Null && after != Null
  {
  }

  /** A page outside a free run belongs to another run. */
  lemma TakeBodyApart(v: seq<View>, i: nat, j: int)
    requires Tiled(v) && i < |v| && v[i].FreeHead? && 0 <= j < |v| && !(i <= j < i + v[i].len)
    ensures v[j].FreeBody? ==> v[j].head < i || v[j].head >= i + v[i].len
  {
    Runs(v, i, j);
    Runs(v, j, i);
    Runs(v, i, Head(v, j));
  }

  lemma TakeFreeList(s: Pool, p: nat, k: nat)
    requires CanTake(s, p, k)
    ensures List(TakePages(s, p, k).m, FreeList, TakePages(s, p, k).free)
  {
    var s' := TakePages(s, p, k);
    ShortenedList(s, p, k);
    TakeFreeMembers(s, p, k);
    ListFrame(Shortened(s, p, k), s'.m, FreeList, s'.free);
  }

  /** The list once the run has been shortened, or taken off it. */
  lemma ShortenedList(s: Pool, p: nat, k: nat)
    requires CanTake(s, p, k)
    ensures List(Shortened(s, p, k), FreeList, TakePages(s, p, k).free)
  {
    var i, len := s.free[p], s.v[s.free[p]].len;
    TakeReady(s, p, k);
    if k < len {
      RestListed(s, p, k);
    } else {
      UnhookList(s.m, FreeList, s.free, p);
    }
  }

  lemma RestListed(s: Pool, p: nat, k: nat)
    requires CanTake(s, p, k) && k < s.v[s.free[p]].len
    ensures List(Shortened(s, p, k), FreeList, s.free[p := s.free[p] + k])
  {
    var i, len := s.free[p], s.v[s.free[p]].len;
    TakeReady(s, p, k);
    TakeApart(s, p);
    assert TileOk(s.v, i);
    assert s.v[i + k] == FreeBody(i) && s.v[i + len - 1] == FreeBody(i);
    var m0 := Remarked(s.m, i + k, i + len - 1, len - k);
    RemarkedList(s, p, k);
    SupplantList(m0, FreeList, s.free, p, i + k);
  }

  /** The first and the last descriptor of the run that is left. */
  ghost function Remarked(m: Table, first: nat, last: nat, len: nat): Table
    requires Page(first) in m && Page(last) in m
  {
    var m0 := m[Page(last) := m[Page(last)].(prev := Page(first), tag := TAG_PAGE)];
    m0[Page(first) := m0[Page(first)].(slab := len)]
  }

  lemma RemarkedList(s: Pool, p: nat, k: nat)
    requires CanTake(s, p, k) && k < s.v[s.free[p]].len
    ensures var i, len := s.free[p], s.v[s.free[p]].len;
      && Page(i + k) in s.m && Page(i + len - 1) in s.m
      && List(Remarked(s.m, i + k, i + len - 1, len - k), FreeList, s.free)
  {
    var i, len := s.free[p], s.v[s.free[p]].len;
    TakeReady(s, p, k);
    assert TileOk(s.v, i);
    assert s.v[i + k] == FreeBody(i) && s.v[i + len - 1] == FreeBody(i);
    ListFrame(s.m, Remarked(s.m, i + k, i + len - 1, len - k), FreeList, s.free);
  }

  /** No remaining free run lies in the pages taken. */
  lemma TakeFreeMembers(s: Pool, p: nat, k: nat)
    requires CanTake(s, p, k)
    ensures var i := s.free[p];
      forall x :: x in TakePages(s, p, k).free ==> !(i <= x < i + k) && (x in s.free || x == i + k)
  {
    var i := s.free[p];
    assert TileOk(s.v, i);
    var q := TakePages(s, p, k).free;
    forall x | x in q
      ensures !(i <= x < i + k) && (x in s.free || x == i + k)
    {
      var a :| 0 <= a < |q| && q[a] == x;
      if k < s.v[i].len {
        assert a == p || x == s.free[a];
      } else {
        assert x == s.free[if a < p then a else a + 1];
      }
    }
  }

  lemma TakeFreeExact(s: Pool, p: nat, k: nat)
    requires CanTake(s, p, k)
    ensures FreeExact(TakePages(s, p, k))
  {
    var i := s.free[p];
    assert TileOk(s.v, i);
    var s' := TakePages(s, p, k);
    TakeFreeMembers(s, p, k);
    forall a | 0 <= a < |s'.free|
      ensures s'.free[a] < |s'.v| && s'.v[s'.free[a]].FreeHead?
    {
      assert s'.free[a] in s'.free;
    }
    forall x | 0 <= x < |s'.v| && s'.v[x].FreeHead?
      ensures x in s'.free
    {
      HeadListed(s, p, k, x);
    }
  }

  /** Every free run is still listed. */
  lemma HeadListed(s: Pool, p: nat, k: nat, x: nat)
    requires CanTake(s, p, k) && x < |s.v| && Take(s.v, s.free[p], k)[x].FreeHead?
    ensures x in TakePages(s, p, k).free
  {
    var i, free := s.free[p], TakePages(s, p, k).free;
    assert TileOk(s.v, i);
    if x == i + k && k < s.v[i].len {
      assert free[p] == x;
    } else {
      assert x in s.free && x != i;
      var a :| 0 <= a < |s.free| && s.free[a] == x;
      if k < s.v[i].len { assert free[a] == x; } else { assert free[if a < p then a else a - 1] == x; }
    }
  }

  lemma TakeSlotOk(s: Pool, p: nat, k: nat, slot: nat)
    requires CanTake(s, p, k) && slot < SLOTS
    ensures SlotOk(TakePages(s, p, k), slot)
  {
    var i := s.free[p];
    assert TileOk(s.v, i) && SlotOk(s, slot);
    var s' := TakePages(s, p, k);
    TakeNeighbours(s, p);
    forall r | OnList(SlotList(slot), s.slots[slot], r) && r in s.m
      ensures r in s'.m && s'.m[r].next == s.m[r].next && s'.m[r].prev == s.m[r].prev
    {
      ShortenAt(s, p, k, r);
    }
    ListFrame(s.m, s'.m, SlotList(slot), s.slots[slot]);
  }

  /** Taking pages keeps descriptors, lists and page uses in agreement. */
  lemma TakeConforms(s: Pool, p: nat, k: nat)
    requires CanTake(s, p, k)
    ensures Conforms(TakePages(s, p, k))
  {
    var s' := TakePages(s, p, k);
    TakeTiled(s.v, s.free[p], k);
    forall j | 0 <= j < |s.v|
      ensures PageOk(s', j)
    {
      TakePageOk(s, p, k, j);
    }
    TakeFreeList(s, p, k);
    TakeFreeExact(s, p, k);
    forall slot | 0 <= slot < SLOTS
      ensures SlotOk(s', slot)
    {
      TakeSlotOk(s, p, k, slot);
    }
    TakeKeys(s, p, k);
  }

  lemma TakeKeys(s: Pool, p: nat, k: nat)
    requires CanTake(s, p, k)
    ensures TakePages(s, p, k).m.Keys == s.m.Keys
  {
    TakeReady(s, p, k);
    ShortenAt(s, p, k, Page(s.free[p]));
  }
}
