/** Facts about conforming slab pools that the operations of the pool rest on: what its
    descriptors tell, what one block more or less means for the counters, and which
    addresses are blocks. */
module SlabFacts {
  import opened Arith
  import opened Words
  import opened SlabModel
  import opened SlabLists
  import opened SlabPages
  import opened SlabGive
  import opened SlabBits
  import opened SlabChunks
  import opened SlabBlocks
  import opened SlabCounts

  datatype Outcome = Freed | OutsidePool | WrongChunk | AlreadyFree | PageFree | WrongPage

  /** The address of a chunk: that of its page plus c << sh. */
  function ChunkAddr(start: nat, i: nat, c: nat, sh: nat): (p: nat)
    requires IsShift(sh)
    ensures p >= start
  {
    start + i * PAGE + c * Size(sh)
  }

  /** Nine list heads and nine statistics stand before the descriptors. */
  const DESCRIPTOR: nat := 24
  const HEADERS: nat := 504

  function AlignUp(p: nat): nat {
    (p + PAGE - 1) / PAGE * PAGE
  }

  /** The number of pages that fit: the descriptors are paid for first, then the aligned
      page area may have room for one page less. */
  function PoolPages(at: nat, limit: nat): int
  {
    if limit < at + HEADERS then 0
    else
      var pages := (limit - at - HEADERS) / (PAGE + DESCRIPTOR);
      var room := (limit - AlignUp(at + HEADERS + pages * DESCRIPTOR)) / PAGE;
      if pages > room then room else pages
  }

  /** The machine words of a page. */
  ghost predicate Row(w: seq<nat>) {
    |w| == PAGE_WORDS && forall x :: 0 <= x < PAGE_WORDS ==> w[x] < MODULUS
  }

  // ---------- loops over descriptors, as values ----------

  ghost function ClaimUpTo(m: Table, i: nat, k: nat, p: nat): Table {
    map r | r in m :: if r.Page? && i <= r.i < p then Claimed(i, k, r) else m[r]
  }

  lemma ClaimStart(m: Table, i: nat, k: nat)
    requires Page(i) in m
    ensures ClaimUpTo(m, i, k, i + 1) == m[Page(i) := Entry(k + PAGE_START, Null, Null, TAG_PAGE)]
  {
  }

  lemma ClaimNext(m: Table, i: nat, k: nat, p: nat)
    requires Page(p) in m && i < p
    ensures ClaimUpTo(m, i, k, p + 1) == ClaimUpTo(m, i, k, p)[Page(p) := Entry(PAGE_BUSY, Null, Null, TAG_PAGE)]
  {
  }

  lemma ClaimEnd(m: Table, i: nat, k: nat)
    ensures ClaimUpTo(m, i, k, i + k) == Claim(m, i, k)
  {
  }

  ghost predicate Relisted(m: Table, page: nat, pages: nat, m': Table) {
    && Page(page + pages) in m
    && var m1 := Seal(m, page, pages + 1);
    && FreeList in m1 && m1[FreeList].next in m1 && Page(page) in m1
    && m' == PushFront(m1, FreeList, Page(page), TAG_PAGE)
  }

  lemma FinishedPool(s: Pool, m: Table, i: nat, k: nat, q: seq<nat>, sl: seq<seq<nat>>, w: seq<seq<nat>>, page: nat,
                     pages: nat)
    returns (s': Pool)
    requires CanFinish(s, m, i, k, q, sl) && |w| == |s.v| && forall j :: 0 <= j < |w| && j != i ==> w[j] == s.w[j]
    requires page == MergeLo(s.v, i) && page + pages + 1 == MergeHi(s.v, i, k)
    ensures Relisted(m, page, pages, s'.m)
    ensures s'.w == w && s'.v == Give(s.v, i, k) && s'.slots == sl
    ensures Conforms(s')
  {
    FinishConforms(s, m, i, k, q, sl);
    FinishedTable(s, m, i, k, q, sl, page, pages);
    var f := Finished(s, m, i, k, q, sl);
    FinishedWords(s, m, i, k, q, sl, w);
    s' := f.(w := w);
  }

  lemma FinishedTable(s: Pool, m: Table, i: nat, k: nat, q: seq<nat>, sl: seq<seq<nat>>, page: nat, pages: nat)
    requires CanFinish(s, m, i, k, q, sl) && page == MergeLo(s.v, i) && page + pages + 1 == MergeHi(s.v, i, k)
    ensures Relisted(m, page, pages, Finished(s, m, i, k, q, sl).m)
  {
    FinishReady(s, m, i, k, q, sl);
  }

  lemma FinishedWords(s: Pool, m: Table, i: nat, k: nat, q: seq<nat>, sl: seq<seq<nat>>, w: seq<seq<nat>>)
    requires CanFinish(s, m, i, k, q, sl) && |w| == |s.v| && forall j :: 0 <= j < |w| && j != i ==> w[j] == s.w[j]
    ensures Conforms(Finished(s, m, i, k, q, sl).(w := w))
  {
    FinishConforms(s, m, i, k, q, sl);
    MergeBounds(s.v, i, k);
    WordsOnly(Finished(s, m, i, k, q, sl), w);
  }

  /** Only pages of chunks keep bitmap words. */
  lemma WordsOnly(s: Pool, w: seq<seq<nat>>)
    requires Conforms(s) && |w| == |s.v| && forall j :: 0 <= j < |w| && s.v[j].Chunks? ==> w[j] == s.w[j]
    ensures Conforms(s.(w := w))
  {
    var s' := s.(w := w);
    forall j | 0 <= j < |s.v|
      ensures PageOk(s', j)
    {
      assert PageOk(s, j);
    }
    forall slot | 0 <= slot < SLOTS
      ensures SlotOk(s', slot)
    {
      assert SlotOk(s, slot);
    }
  }

  /** Taking pages keeps the pool conforming and the counters right. */
  lemma TakenPages(s: Pool, stats: seq<Stat>, p: nat, k: nat) returns (s': Pool)
    requires CanTake(s, p, k) && Tally(s.v, stats)
    ensures s' == TakePages(s, p, k) && Conforms(s') && |s'.v| == |s.v|
    ensures Sum(FreeCount, s'.v) == Sum(FreeCount, s.v) - k
    ensures Tally(s'.v, stats)
  {
    s' := TakePages(s, p, k);
    TakeConforms(s, p, k);
    TakeCounts(s.v, s.free[p], k, 0);
    TakeTally(s.v, stats, s.free[p], k);
  }

  /** Where a walk along the list of free runs stands. */
  lemma FreeAt(s: Pool, p: nat)
    requires Conforms(s) && p <= |s.free|
    ensures FreeList in s.m && At(FreeList, s.free, p) in s.m
    ensures p == 0 ==> s.m[FreeList].next == At(FreeList, s.free, 0)
    ensures p > 0 ==> Page(s.free[p - 1]) in s.m && s.m[Page(s.free[p - 1])].next == At(FreeList, s.free, p)
    ensures p < |s.free| ==>
      s.free[p] < |s.v| && s.v[s.free[p]].FreeHead? && s.m[Page(s.free[p])].slab == s.v[s.free[p]].len
  {
    assert NextOk(s.m, FreeList, s.free, 0) && NextOk(s.m, FreeList, s.free, p);
    if p < |s.free| {
      assert PrevOk(s.m, FreeList, s.free, p);
      assert PageOk(s, s.free[p]);
    }
  }

  lemma ClaimPresent(s: Pool, i: nat, k: nat)
    requires Conforms(s) && i < |s.v| && s.v[i].FreeHead? && k <= s.v[i].len
    ensures forall j: nat {:trigger Page(j)} :: i <= j < i + k ==> Page(j) in s.m
  {
    assert TileOk(s.v, i);
    forall j: nat {:trigger Page(j)} | i <= j < i + k
      ensures Page(j) in s.m
    {
      assert PageOk(s, j);
    }
  }

  /** The pages to be claimed have descriptors, also after the run has been shortened. */
  lemma ClaimReady(s: Pool, p: nat, k: nat)
    requires CanTake(s, p, k)
    ensures forall j: nat {:trigger Page(j)} :: s.free[p] <= j < s.free[p] + k ==> Page(j) in Shortened(s, p, k)
  {
    TakeReady(s, p, k);
    ShortenAt(s, p, k, Page(s.free[p]));
    ClaimPresent(s, s.free[p], k);
  }

  /** The first page on a slot list. */
  lemma FrontPage(s: Pool, slot: nat)
    requires Conforms(s) && slot < SLOTS && s.slots[slot] != []
    ensures var i := s.slots[slot][0];
      && i < |s.v| && Page(i) in s.m && Partial(s.v[i], slot) && |s.w| == |s.v|
      && BitmapOk(s.m[Page(i)].slab, s.w[i], s.v[i].shift, s.v[i].used) && GoodChunks(s.v[i].shift, s.v[i].used)
  {
    assert SlotOk(s, slot);
    assert PageOk(s, s.slots[slot][0]) && TileOk(s.v, s.slots[slot][0]);
  }

  /** What the test `page->next != page` on the first page of a slot list tells. */
  lemma SlotTest(s: Pool, slot: nat)
    requires Conforms(s) && slot < SLOTS
    ensures SlotList(slot) in s.m && s.m[SlotList(slot)].next in s.m
    ensures var page := s.m[SlotList(slot)].next;
      && (s.m[page].next != page <==> s.slots[slot] != [])
      && (s.slots[slot] != [] ==> page == Page(s.slots[slot][0]))
  {
    assert SlotOk(s, slot);
    var h, q := SlotList(slot), s.slots[slot];
    assert NextOk(s.m, h, q, 0);
    if q != [] { assert NextOk(s.m, h, q, 1) && PrevOk(s.m, h, q, 0); }
  }

  lemma MarkBefore(w: seq<nat>, sh: nat, c: nat)
    requires sh < EXACT_SHIFT ==> c / 64 < |w| && forall x :: 0 <= x < c / 64 ==> w[x] == PAGE_BUSY
    ensures sh < EXACT_SHIFT ==> c / 64 < |MarkWords(w, sh, c)| && forall x :: 0 <= x < c / 64 ==>
      MarkWords(w, sh, c)[x] == PAGE_BUSY
  {
  }

  /** No memory for a request: no page of the class has a free chunk, and no free run is
      long enough. */
  ghost predicate Exhausted(v: seq<View>, size: nat) {
    if size > MAX_SIZE then forall i :: 0 <= i < |v| && v[i].FreeHead? ==> v[i].len * PAGE < size
    else
      && (forall i :: 0 <= i < |v| ==> !Partial(v[i], Fit(size) - MIN_SHIFT))
      && (forall i :: 0 <= i < |v| ==> !v[i].FreeHead?)
  }

  /** `p` is the address of the new block `id`, of the smallest size that holds `size`
      bytes; all other blocks stay. */
  ghost predicate Granted(start: nat, v: seq<View>, v': seq<View>, size: nat, p: nat, id: Id) {
    && Gains(start, v, v', id) && p == Address(start, v', id)
    && (size <= MAX_SIZE ==> id.Chunk? && BlockSize(v', id) == Size(Fit(size)))
    && (size > MAX_SIZE ==> id.Run? && BlockSize(v', id) < size + PAGE)
    && size <= BlockSize(v', id)
  }

  lemma RunGranted(start: nat, v: seq<View>, i: nat, size: nat)
    requires Tiled(v) && i < |v| && v[i].FreeHead? && 1 <= PagesFor(size) <= v[i].len && size > MAX_SIZE
    ensures Granted(start, v, Take(v, i, PagesFor(size)), size, start + i * PAGE, Run(i))
  {
    TakeGains(start, v, i, PagesFor(size));
  }

  /** A free run is too short for a request exactly when it holds fewer bytes. */
  lemma TooShort(len: nat, size: nat)
    ensures len < PagesFor(size) <==> len * PAGE < size
  {
  }

  lemma NoRunLeft(v: seq<View>, size: nat)
    requires size > MAX_SIZE
    ensures Exhausted(v, size) <==> forall i :: 0 <= i < |v| && v[i].FreeHead? ==> v[i].len < PagesFor(size)
  {
    forall i | 0 <= i < |v| && v[i].FreeHead?
      ensures v[i].len < PagesFor(size) <==> v[i].len * PAGE < size
    {
      TooShort(v[i].len, size);
    }
  }

  lemma UsedChunk(start: nat, s: Pool, stats: seq<Stat>, i: nat, c: nat, size: nat)
    requires CanUse(s, i, 0, c) && Tally(s.v, stats) && size <= MAX_SIZE && s.v[i].shift == Fit(size)
    requires forall j :: 0 <= j < |s.w| ==> Row(s.w[j])
    ensures var s' := Use(s, i, 0, c); var sh := Fit(size);
      && Conforms(s') && |s'.v| == |s.v| && Sum(FreeCount, s'.v) == Sum(FreeCount, s.v)
      && (forall j :: 0 <= j < |s'.w| ==> Row(s'.w[j]))
      && Tally(s'.v, Bump(stats, SlotOf(sh), 1, 0))
      && Granted(start, s.v, s'.v, size, ChunkAddr(start, i, c, sh), Chunk(i, c))
      && !Exhausted(s.v, size)
  {
    UseConforms(s, i, 0, c);
    UsedPage(s, stats, i, c);
    UsedGranted(start, s, i, c, size);
  }

  /** The first word of a fresh in-page bitmap. */
  lemma FirstWord(sh: nat)
    requires IsShift(sh) && sh < EXACT_SHIFT
    ensures 2 * Pow(Reserved(sh)) - 1 == Pow(Reserved(sh) + 1) - 1 && 0 <= 2 * Pow(Reserved(sh)) - 1 < MODULUS
  {
    PowSmall();
    BitmapFits(sh);
    PowMonotone(Reserved(sh) + 1, 64);
  }

  /** Without a page on the slot list and without a free page a request cannot be served. */
  lemma NoChunk(s: Pool, sh: nat, size: nat)
    requires Conforms(s) && size <= MAX_SIZE && sh == Fit(size) && s.slots[SlotOf(sh)] == []
    requires forall i :: 0 <= i < |s.v| && s.v[i].FreeHead? ==> s.v[i].len < 1
    ensures Exhausted(s.v, size)
  {
    NoPartial(s, SlotOf(sh));
    NoFree(s.v);
  }

  /** What the use of a chunk means for counters and words. */
  lemma UsedPage(s: Pool, stats: seq<Stat>, i: nat, c: nat)
    requires CanUse(s, i, 0, c) && Tally(s.v, stats) && forall j :: 0 <= j < |s.w| ==> Row(s.w[j])
    ensures var s' := Use(s, i, 0, c);
      && IsShift(s.v[i].shift) && Sum(FreeCount, s'.v) == Sum(FreeCount, s.v) && |s'.v| == |s.v|
      && (forall j :: 0 <= j < |s'.w| ==> Row(s'.w[j])) && Tally(s'.v, Bump(stats, SlotOf(s.v[i].shift), 1, 0))
  {
    var s' := Use(s, i, 0, c);
    UseConforms(s, i, 0, c);
    assert PageOk(s', i) && TileOk(s'.v, i);
    SwapTally(s.v, stats, i, s'.v[i]);
    SwapCounts(s.v, i, s'.v[i], 0);
  }

  lemma UsedGranted(start: nat, s: Pool, i: nat, c: nat, size: nat)
    requires CanUse(s, i, 0, c) && size <= MAX_SIZE && s.v[i].shift == Fit(size)
    ensures Granted(start, s.v, Use(s, i, 0, c).v, size, ChunkAddr(start, i, c, Fit(size)), Chunk(i, c))
      && !Exhausted(s.v, size)
  {
    UseConforms(s, i, 0, c);
    UseGains(start, s.v, i, c);
    assert SlotOk(s, SlotOf(s.v[i].shift));
  }

  lemma CutGranted(start: nat, v: seq<View>, i: nat, sh: nat, size: nat)
    requires Tiled(v) && i < |v| && v[i].FreeHead? && 1 <= v[i].len && size <= MAX_SIZE && sh == Fit(size)
    requires Tiled(Take(v, i, 1)[i := Chunks(sh, {Reserved(sh)})])
    ensures Granted(start, v, Take(v, i, 1)[i := Chunks(sh, {Reserved(sh)})], size,
                    ChunkAddr(start, i, Reserved(sh), sh), Chunk(i, Reserved(sh)))
    ensures !Exhausted(v, size)
  {
    CutGains(start, v, i, sh, Reserved(sh));
  }

  lemma CutFresh(t: Pool, stats: seq<Stat>, i: nat, sh: nat, w: seq<nat>)
    requires CanCut(t, i, sh, w) && Tally(t.v, stats) && forall j :: 0 <= j < |t.w| ==> Row(t.w[j])
    ensures var s' := Cut(t, i, sh, w);
      && Conforms(s') && |s'.v| == |t.v| && Sum(FreeCount, s'.v) == Sum(FreeCount, t.v)
      && s'.v == t.v[i := Chunks(sh, {Reserved(sh)})]
      && (forall j :: 0 <= j < |s'.w| ==> Row(s'.w[j]))
      && Tally(s'.v, Bump(stats, SlotOf(sh), 1, Room(sh)))
  {
    var s' := Cut(t, i, sh, w);
    CutConforms(t, i, sh, w);
    SwapTally(t.v, stats, i, s'.v[i]);
    SwapCounts(t.v, i, s'.v[i], 0);
  }

  lemma NoPartial(s: Pool, slot: nat)
    requires Conforms(s) && slot < SLOTS && s.slots[slot] == []
    ensures forall i :: 0 <= i < |s.v| ==> !Partial(s.v[i], slot)
  {
    assert SlotOk(s, slot);
  }

  lemma NoFree(v: seq<View>)
    requires Tiled(v) && forall i :: 0 <= i < |v| && v[i].FreeHead? ==> v[i].len < 1
    ensures forall i :: 0 <= i < |v| ==> !v[i].FreeHead?
  {
    forall i | 0 <= i < |v|
      ensures !v[i].FreeHead?
    {
      assert TileOk(v, i);
    }
  }

  // ---------- freeing ----------

  /** `p` points into the chunks that hold the bitmap of a page: an address that was never
      handed out, and that freeing would not notice. */
  ghost predicate InBitmap(v: seq<View>, p: nat, start: nat)
    requires start <= p && (p - start) / PAGE < |v|
  {
    var w := v[(p - start) / PAGE];
    w.Chunks? && IsShift(w.shift) && p % PAGE < Reserved(w.shift) * Size(w.shift)
  }

  /** What freeing address `p` should come to, told from the uses of the pages alone. */
  ghost function Verdict(start: nat, end: nat, v: seq<View>, p: nat): Outcome
    requires Tiled(v) && (start <= p <= end ==> (p - start) / PAGE < |v|)
  {
    if p < start || p > end then OutsidePool
    else
      var i := (p - start) / PAGE;
      assert TileOk(v, i);
      match v[i]
      case Chunks(sh, used) =>
        if p % Size(sh) != 0 then WrongChunk else if (p % PAGE) / Size(sh) in used then Freed else AlreadyFree
      case _ =>
        if p % PAGE != 0 then WrongChunk
        else if IsFree(v[i]) then PageFree
        else if v[i].RunBody? then WrongPage else Freed
  }

  /** The test of a chunk's bit: bitmap[n] & m, or slab & m. */
  predicate Marked(slab: nat, w: seq<nat>, sh: nat, c: nat)
    requires IsShift(sh) && (sh < EXACT_SHIFT ==> c / 64 < |w|)
  {
    if sh < EXACT_SHIFT then And(w[c / 64], Pow(c % 64)) != 0
    else if sh == EXACT_SHIFT then And(slab, Pow(c)) != 0
    else And(slab, Pow(32 + c)) != 0
  }

  lemma ChunkTest(slab: nat, w: seq<nat>, sh: nat, used: set<nat>, c: nat)
    requires IsShift(sh) && BitmapOk(slab, w, sh, used) && c < Cap(sh)
    ensures sh < EXACT_SHIFT ==> c / 64 < |w|
    ensures Marked(slab, w, sh, c) <==> c < Reserved(sh) || c in used
  {
    BitmapFits(sh);
    assert ChunkBit(slab, w, sh, c) <==> c < Reserved(sh) || c in used;
    if sh < EXACT_SHIFT { TestBit(w[c / 64], c % 64); }
    TestBit(slab, c);
    TestBit(slab, 32 + c);
  }

  /** The top bit of a run's word says that it is allocated, the rest is its length. */
  lemma RunWord(slab: nat)
    requires slab < MODULUS
    ensures And(slab, PAGE_START) == 0 <==> slab < PAGE_START
    ensures slab >= PAGE_START ==> AndNot(slab, PAGE_START) == slab - PAGE_START
  {
    PowSmall();
    assert Pow(63) == PAGE_START;
    TestBit(slab, 63);
    if slab < PAGE_START {
      HighZero(slab, 63, 63);
    } else {
      var lo := slab - PAGE_START;
      JoinBit(1, lo, 63, 63);
      AndNotBound(slab, PAGE_START);
      forall b: nat | b < 64
        ensures Bit(AndNot(slab, PAGE_START), b) <==> Bit(lo, b)
      {
        JoinBit(1, lo, 63, b);
        AndNotBit(slab, PAGE_START, b);
        PowBit(63, b);
        if b == 63 { HighZero(lo, 63, 63); }
      }
      SameBits(AndNot(slab, PAGE_START), lo, 64);
    }
  }

  /** What the descriptor of a page tells about it. */
  lemma PageFacts(s: Pool, i: nat)
    requires Conforms(s) && i < |s.v|
    ensures Page(i) in s.m && i < |s.w|
    ensures var e := s.m[Page(i)];
      && (e.tag == TAG_PAGE <==> !s.v[i].Chunks?)
      && (e.tag == TAG_PAGE ==> e.slab < MODULUS)
      && (e.tag == TAG_PAGE && e.slab < PAGE_START ==> IsFree(s.v[i]))
      && (e.tag == TAG_PAGE && e.slab == PAGE_BUSY ==> s.v[i].RunBody?)
      && (e.tag == TAG_PAGE && e.slab >= PAGE_START && e.slab != PAGE_BUSY ==> s.v[i] == RunHead(e.slab - PAGE_START))
      && (e.tag != TAG_PAGE ==> IsShift(s.v[i].shift) && BitmapOk(e.slab, s.w[i], s.v[i].shift, s.v[i].used))
      && (e.tag != TAG_PAGE ==> s.v[i].shift == if e.tag == TAG_EXACT then EXACT_SHIFT else And(e.slab, SHIFT_MASK))
  {
    assert PageOk(s, i) && TileOk(s.v, i);
    if s.v[i].Chunks? {
      var sh := s.v[i].shift;
      if sh != EXACT_SHIFT { ShiftField(s.m[Page(i)].slab, s.w[i], sh, s.v[i].used); }
    }
  }

  lemma Outside(start: nat, end: nat, v: seq<View>, p: nat)
    requires Tiled(v) && start + |v| * PAGE <= end && (p < start || p > end)
    ensures forall x: Id :: Live(v, x) ==> Address(start, v, x) != p
  {
    forall x: Id | Live(v, x)
      ensures Address(start, v, x) != p
    {
      InsidePool(start, v, x);
    }
  }

  /** An address in the page area, by page and offset. */
  lemma Split(start: nat, p: nat)
    requires start % PAGE == 0 && start <= p
    ensures p == start + (p - start) / PAGE * PAGE + p % PAGE
  {
  }

  /** A block starts in its own page. */
  lemma OwnPage(start: nat, v: seq<View>, x: Id)
    requires Tiled(v) && Live(v, x) && start % PAGE == 0
    ensures var p := Address(start, v, x); start <= p && (p - start) / PAGE == x.page
    ensures x.Run? ==> Address(start, v, x) % PAGE == 0
    ensures x.Chunk? ==> IsShift(v[x.page].shift) && Address(start, v, x) % PAGE == x.c * Size(v[x.page].shift)
  {
    assert TileOk(v, x.page);
    var o := if x.Chunk? then x.c * Size(v[x.page].shift) else 0;
    if x.Chunk? { ChunkInside(v[x.page].shift, x.c); }
    InPage(start, x.page, o);
  }

  lemma InPage(start: nat, i: nat, o: nat)
    requires start % PAGE == 0 && o < PAGE
    ensures (i * PAGE + o) / PAGE == i && (start + i * PAGE + o) % PAGE == o
  {
  }

  /** In a page that is not cut into chunks, only the start of a run is a block. */
  lemma PageAddress(start: nat, v: seq<View>, p: nat)
    requires Tiled(v) && start % PAGE == 0 && start <= p && (p - start) / PAGE < |v| && !v[(p - start) / PAGE].Chunks?
    ensures var i := (p - start) / PAGE;
      && (p % PAGE == 0 && v[i].RunHead? ==> Live(v, Run(i)) && Address(start, v, Run(i)) == p)
      && (!(p % PAGE == 0 && v[i].RunHead?) ==> forall x: Id :: Live(v, x) ==> Address(start, v, x) != p)
  {
    Split(start, p);
    forall x: Id | Live(v, x) && Address(start, v, x) == p
      ensures p % PAGE == 0 && v[(p - start) / PAGE].RunHead?
    {
      OwnPage(start, v, x);
    }
  }

  lemma Offset(p: nat, sh: nat)
    requires IsShift(sh)
    ensures var o := p % PAGE;
      && (p % Size(sh) == 0 <==> o % Size(sh) == 0) && o / Size(sh) < Cap(sh)
      && o == o / Size(sh) * Size(sh) + o % Size(sh)
  {
    var o, d := p % PAGE, Size(sh);
    BitmapFits(sh);
    DivMod(o, d);
    ModMod(p, PAGE, d, Cap(sh));
    if o / d >= Cap(sh) { Product(Cap(sh), o / d, d); }
  }

  lemma OffsetOf(c: nat, sh: nat)
    requires IsShift(sh)
    ensures c * Size(sh) % Size(sh) == 0 && c * Size(sh) / Size(sh) == c
  {
    Quotient(c * Size(sh), c, 0, Size(sh));
  }

  /** In a page of chunks, the starts of the chunks in use are the blocks. */
  lemma ChunkAddress(start: nat, v: seq<View>, p: nat)
    requires Tiled(v) && start % PAGE == 0 && start <= p && (p - start) / PAGE < |v| && v[(p - start) / PAGE].Chunks?
    ensures var i := (p - start) / PAGE; var sh := v[i].shift;
      && IsShift(sh) && (p % PAGE) / Size(sh) < Cap(sh)
      && var c := (p % PAGE) / Size(sh); var hit := p % Size(sh) == 0 && c in v[i].used;
      && (hit ==> Live(v, Chunk(i, c)) && Address(start, v, Chunk(i, c)) == p)
      && (!hit ==> forall x: Id :: Live(v, x) ==> Address(start, v, x) != p)
      && (!InBitmap(v, p, start) && p % Size(sh) == 0 ==> Reserved(sh) <= c)
  {
    var i := (p - start) / PAGE;
    assert TileOk(v, i);
    var sh := v[i].shift;
    Split(start, p);
    Offset(p, sh);
    var c := (p % PAGE) / Size(sh);
    forall x: Id | Live(v, x) && Address(start, v, x) == p
      ensures p % Size(sh) == 0 && c in v[i].used
    {
      OwnPage(start, v, x);
      OffsetOf(x.c, sh);
    }
    if c < Reserved(sh) { ChunksApart(sh, c, Reserved(sh)); }
  }

  lemma ChunkReady(s: Pool, i: nat)
    requires Conforms(s) && i < |s.v| && s.v[i].Chunks? && IsShift(s.v[i].shift)
    ensures var sh := s.v[i].shift; var h := SlotList(SlotOf(sh));
      && Page(i) in s.m && i < |s.w| && h in s.m && s.m[h].next in s.m
      && (Full(sh, s.v[i].used) <==>
          if sh == EXACT_SHIFT then s.m[Page(i)].slab == PAGE_BUSY else s.m[Page(i)].next == Null)
  {
    assert PageOk(s, i);
    SlotTest(s, SlotOf(s.v[i].shift));
    if s.v[i].shift == EXACT_SHIFT { ExactFull(s.m[Page(i)].slab, s.w[i], s.v[i].used); }
  }

  lemma ChunkCleared(s: Pool, i: nat, c: nat)
    requires Conforms(s) && i < |s.v| && s.v[i].Chunks? && IsShift(s.v[i].shift) && c in s.v[i].used
    ensures var sh, used := s.v[i].shift, s.v[i].used;
      && Page(i) in s.m && i < |s.w|
      && var m' := ReleaseTable(s.m, i, sh, c, Full(sh, used));
      && Page(i) in m' && BitmapOk(m'[Page(i)].slab, ClearWords(s.w[i], sh, c), sh, used - {c})
      && (forall x :: x in used - {c} ==> Reserved(sh) <= x < Cap(sh))
  {
    assert PageOk(s, i) && TileOk(s.v, i);
    SlotTest(s, SlotOf(s.v[i].shift));
    ClearOk(s.m[Page(i)].slab, s.w[i], s.v[i].shift, s.v[i].used, c);
  }

  lemma NotFull(sh: nat, c: nat)
    requires IsShift(sh)
    ensures !Full(sh, {c})
  {
    BitmapFits(sh);
    assert Reserved(sh) + 1 < Cap(sh);
    var used := {c};
    var other := if c == Reserved(sh) then c + 1 else Reserved(sh);
    assert other !in used;
  }

  lemma LastChunk(s: Pool, m: Table, i: nat, c: nat) returns (pos: nat)
    requires Conforms(s) && i < |s.v| && s.v[i].Chunks? && IsShift(s.v[i].shift) && s.v[i].used == {c}
    requires Page(i) in s.m && m == ReleaseTable(s.m, i, s.v[i].shift, c, Full(s.v[i].shift, s.v[i].used))
    ensures Leaving(s, m, i, 1, pos)
  {
    var sh := s.v[i].shift;
    NotFull(sh, c);
    assert SlotOk(s, SlotOf(sh));
    assert i in s.slots[SlotOf(sh)];
    pos :| 0 <= pos < |s.slots[SlotOf(sh)]| && s.slots[SlotOf(sh)][pos] == i;
  }

  lemma LastGone(start: nat, v: seq<View>, stats: seq<Stat>, i: nat, c: nat)
    requires Tiled(v) && i < |v| && v[i].Chunks? && IsShift(v[i].shift) && v[i].used == {c} && Tally(v, stats)
    ensures Gains(start, Give(v, i, 1), v, Chunk(i, c)) && |Give(v, i, 1)| == |v|
    ensures Tally(Give(v, i, 1), Bump(stats, SlotOf(v[i].shift), -1, 0 - Room(v[i].shift)))
    ensures Sum(FreeCount, Give(v, i, 1)) == Sum(FreeCount, v) + 1
  {
    GiveGains(start, v, i, 1, Chunk(i, c));
    GiveTally(v, stats, i, 1);
    GiveCounts(v, i, 1, 0);
  }

  lemma RunGone(start: nat, s: Pool, stats: seq<Stat>, i: nat, k: nat)
    requires Conforms(s) && i < |s.v| && s.v[i] == RunHead(k) && Tally(s.v, stats)
    ensures Leaving(s, s.m, i, k, 0)
    ensures Gains(start, Give(s.v, i, k), s.v, Run(i)) && |Give(s.v, i, k)| == |s.v|
    ensures Tally(Give(s.v, i, k), stats) && Sum(FreeCount, Give(s.v, i, k)) == Sum(FreeCount, s.v) + k
  {
    assert PageOk(s, i) && TileOk(s.v, i);
    GiveGains(start, s.v, i, k, Run(i));
    GiveTally(s.v, stats, i, k);
    GiveCounts(s.v, i, k, 0);
  }

  lemma Released(start: nat, s: Pool, stats: seq<Stat>, i: nat, c: nat)
    requires CanRelease(s, i, c) && Tally(s.v, stats) && forall j :: 0 <= j < |s.w| ==> Row(s.w[j])
    ensures var s' := Release(s, i, c);
      && Conforms(s') && |s'.v| == |s.v| && Sum(FreeCount, s'.v) == Sum(FreeCount, s.v)
      && (forall j :: 0 <= j < |s'.w| ==> Row(s'.w[j]))
      && Tally(s'.v, Bump(stats, SlotOf(s.v[i].shift), -1, 0))
      && Gains(start, s'.v, s.v, Chunk(i, c))
  {
    var s' := Release(s, i, c);
    ReleaseConforms(s, i, c);
    assert PageOk(s', i);
    ReleaseGains(start, s.v, i, c);
    SwapTally(s.v, stats, i, s'.v[i]);
    SwapCounts(s.v, i, s'.v[i], 0);
  }

  // ---------- the pool at the start ----------

  lemma InitPages(at: nat, limit: nat)
    requires PoolPages(at, limit) >= 1
    ensures limit >= at + HEADERS
    ensures var pages := (limit - at - HEADERS) / (PAGE + DESCRIPTOR);
      var first := AlignUp(at + HEADERS + pages * DESCRIPTOR);
      && at + HEADERS + pages * DESCRIPTOR <= first && first % PAGE == 0
      && 0 < PoolPages(at, limit) <= pages && pages <= PoolPages(at, limit) + 1
      && first + PoolPages(at, limit) * PAGE <= limit
      && first < at + HEADERS + pages * DESCRIPTOR + PAGE
    ensures limit - at - HEADERS < (PoolPages(at, limit) + 2) * (PAGE + DESCRIPTOR)
  {
  }

  lemma InitConforms(s: Pool)
    requires |s.v| >= 1 && s.v == AllFree(|s.v|) && |s.w| == |s.v| < PAGE_START - 1
    requires s.free == [0] && s.slots == seq(SLOTS, _ => [])
    requires forall r :: r in s.m <==> r == FreeList || (r.SlotList? && r.slot < SLOTS) || (r.Page? && r.i < |s.v|)
    requires s.m[FreeList].next == Page(0) && s.m[Page(0)] == Entry(|s.v|, FreeList, FreeList, TAG_PAGE)
    requires forall r :: r in s.m && r.SlotList? ==> s.m[r].next == r
    requires forall r :: r in s.m && r.Page? && r.i != 0 ==> s.m[r] == BLANK
    ensures Conforms(s)
  {
    AllFreeTiled(|s.v|);
    forall i | 0 <= i < |s.v|
      ensures PageOk(s, i)
    {
      assert Page(i) in s.m;
    }
    forall k | 0 <= k <= 1
      ensures NextOk(s.m, FreeList, s.free, k)
    {
    }
    assert PrevOk(s.m, FreeList, s.free, 0);
    forall slot | 0 <= slot < SLOTS
      ensures SlotOk(s, slot)
    {
      assert NextOk(s.m, SlotList(slot), [], 0);
    }
  }

  lemma InitTally(n: nat)
    ensures Tally(AllFree(n), seq(SLOTS, _ => Stat(0, 0, 0, 0))) && Sum(FreeCount, AllFree(n)) == n
  {
    var v, stats := AllFree(n), seq(SLOTS, _ => Stat(0, 0, 0, 0));
    SumConstant(FreeCount, v, 1);
    forall slot | 0 <= slot < SLOTS
      ensures Counted(v, stats, slot)
    {
      SumConstant(UsedCount(slot), v, 0);
      SumConstant(RoomCount(slot), v, 0);
    }
  }

  // ---------- using the memory ----------

  function Put(w: seq<nat>, o: nat, value: nat): seq<nat>
    requires o < |w|
  {
    w[o := value]
  }

  /** A word of a block lies in a page, and not in a bitmap. */
  lemma StoreClear(start: nat, v: seq<View>, id: Id, x: nat)
    requires Tiled(v) && Live(v, id) && 8 * x + 8 <= BlockSize(v, id) && start % PAGE == 0
    ensures var a := Address(start, v, id) + 8 * x; var j := (a - start) / PAGE;
      && start <= a && j < |v| && !IsFree(v[j])
      && (v[j].Chunks? ==> IsShift(v[j].shift) && (v[j].shift < EXACT_SHIFT ==> MapWords(v[j].shift) <= a % PAGE / 8))
  {
    WithinPages(start, v, id);
    var a := Address(start, v, id) + 8 * x;
    var j := (a - start) / PAGE;
    Split(start, a);
    assert TileOk(v, id.page);
    if id.Run? {
      assert id.page <= j < id.page + v[id.page].len;
    } else {
      assert j == id.page;
      if v[j].shift < EXACT_SHIFT { ClearOfBitmap(start, v, id); }
    }
  }

  /** The word at address `a`. */
  function WordAt(start: nat, w: seq<seq<nat>>, a: nat): nat
    requires start <= a && (a - start) / PAGE < |w| && |w[(a - start) / PAGE]| == PAGE_WORDS
  {
    w[(a - start) / PAGE][a % PAGE / 8]
  }

  /** Page `j` has not been written, apart from its own bitmap; or it is free. */
  ghost predicate RowKept(v: View, row: seq<nat>, row': seq<nat>) {
    || row' == row || IsFree(v)
    || (v.Chunks? && IsShift(v.shift) && v.shift < EXACT_SHIFT && |row'| == |row|
        && forall o :: MapWords(v.shift) <= o < |row| ==> row'[o] == row[o])
  }

  /** Nothing has been written but bitmaps and free pages. */
  ghost predicate OnlyBitmaps(v: seq<View>, w: seq<seq<nat>>, w': seq<seq<nat>>) {
    |w'| == |w| == |v| && forall j {:trigger RowKept(v[j], w[j], w'[j])} :: 0 <= j < |v| ==> RowKept(v[j], w[j], w'[j])
  }

  /** So every block holds what it held. */
  lemma ContentsKept(start: nat, v: seq<View>, w: seq<seq<nat>>, w': seq<seq<nat>>, id: Id, x: nat)
    requires OnlyBitmaps(v, w, w') && Tiled(v) && Live(v, id) && 8 * x + 8 <= BlockSize(v, id) && start % PAGE == 0
    requires forall j :: 0 <= j < |w| ==> |w[j]| == PAGE_WORDS == |w'[j]|
    ensures var a := Address(start, v, id) + 8 * x;
      && start <= a && (a - start) / PAGE < |w| && WordAt(start, w', a) == WordAt(start, w, a)
  {
    StoreClear(start, v, id, x);
    var j := (Address(start, v, id) + 8 * x - start) / PAGE;
    assert RowKept(v[j], w[j], w'[j]);
  }

  lemma MarkKept(w: seq<nat>, sh: nat, used: set<nat>, c: nat)
    requires IsShift(sh) && c < Cap(sh)
    ensures RowKept(Chunks(sh, used), w, MarkWords(w, sh, c)) && RowKept(Chunks(sh, used), w, ClearWords(w, sh, c))
  {
    BitmapFits(sh);
    if sh < EXACT_SHIFT { assert c / 64 < MapWords(sh); }
  }

  /** One page is written. */
  lemma OneRow(v: seq<View>, w: seq<seq<nat>>, w': seq<seq<nat>>, i: nat)
    requires |w'| == |w| == |v| && i < |v| && RowKept(v[i], w[i], w'[i])
    requires forall j :: 0 <= j < |w| && j != i ==> w'[j] == w[j]
    ensures OnlyBitmaps(v, w, w')
  {
  }

  lemma RowAfterClear(w: seq<seq<nat>>, w': seq<seq<nat>>, i: nat, sh: nat, c: nat)
    requires i < |w| && w' == w[i := ClearWords(w[i], sh, c)] && forall j :: 0 <= j < |w| ==> Row(w[j])
    ensures forall j :: 0 <= j < |w'| ==> Row(w'[j])
  {
    AndNotBound(if c / 64 < |w[i]| then w[i][c / 64] else 0, Pow(c % 64));
  }

  /** A page taken, cut up and used. */
  lemma CutOutcome(start: nat, s: Pool, w: seq<seq<nat>>, i: nat, sh: nat, size: nat)
    requires Tiled(s.v) && i < |s.v| && s.v[i].FreeHead? && 1 <= s.v[i].len && size <= MAX_SIZE && sh == Fit(size)
    requires Tiled(Take(s.v, i, 1)[i := Chunks(sh, {Reserved(sh)})])
    requires |w| == |s.w| == |s.v| && forall j :: 0 <= j < |w| && j != i ==> w[j] == s.w[j]
    ensures Granted(start, s.v, Take(s.v, i, 1)[i := Chunks(sh, {Reserved(sh)})], size,
                    ChunkAddr(start, i, Reserved(sh), sh), Chunk(i, Reserved(sh)))
    ensures !Exhausted(s.v, size) && OnlyBitmaps(s.v, s.w, w)
  {
    CutGranted(start, s.v, i, sh, size);
    OneRow(s.v, s.w, w, i);
  }

  /** After a chunk was cleared only its page's bitmap is different; or the page is free. */
  lemma ClearedOnly(s: Pool, v: seq<View>, w: seq<seq<nat>>, i: nat, sh: nat, c: nat)
    requires i < |s.w| == |v| && w == s.w[i := ClearWords(s.w[i], sh, c)] && IsShift(sh) && c < Cap(sh)
    requires v[i].Chunks? && v[i].shift == sh
    ensures OnlyBitmaps(v, s.w, w)
  {
    MarkKept(s.w[i], sh, v[i].used, c);
    OneRow(v, s.w, w, i);
  }

  lemma FreedOnly(s: Pool, v: seq<View>, w: seq<seq<nat>>, i: nat, sh: nat, c: nat)
    requires i < |s.w| == |s.v| && w == s.w[i := ClearWords(s.w[i], sh, c)] && v == Give(s.v, i, 1) && Tiled(s.v)
      && Givable(s.v, i, 1)
    ensures OnlyBitmaps(v, s.w, w)
  {
    MergeBounds(s.v, i, 1);
    assert IsFree(v[i]);
    OneRow(v, s.w, w, i);
  }

  lemma StoreConforms(s: Pool, j: nat, o: nat, value: nat)
    requires Conforms(s) && j < |s.w| && Row(s.w[j]) && o < PAGE_WORDS && value < MODULUS
    requires s.v[j].Chunks? ==> IsShift(s.v[j].shift) && (s.v[j].shift < EXACT_SHIFT ==> MapWords(s.v[j].shift) <= o)
    ensures Conforms(s.(w := s.w[j := Put(s.w[j], o, value)]))
  {
    var w := Put(s.w[j], o, value);
    var s' := s.(w := s.w[j := w]);
    forall i | 0 <= i < |s.v|
      ensures PageOk(s', i)
    {
      assert PageOk(s, i);
      if i == j && s.v[j].Chunks? {
        BitmapFits(s.v[j].shift);
        StoreBitmap(s.m[Page(j)].slab, s.w[j], s.v[j].shift, s.v[j].used, o, value);
      }
    }
    forall slot | 0 <= slot < SLOTS
      ensures SlotOk(s', slot)
    {
      assert SlotOk(s, slot);
    }
  }

  lemma StoreBitmap(slab: nat, w: seq<nat>, sh: nat, used: set<nat>, o: nat, value: nat)
    requires IsShift(sh) && BitmapOk(slab, w, sh, used) && o < PAGE_WORDS && value < MODULUS
    requires sh < EXACT_SHIFT ==> MapWords(sh) <= o
    ensures BitmapOk(slab, Put(w, o, value), sh, used)
  {
    BitmapFits(sh);
    forall c: nat | c < (if sh > EXACT_SHIFT then 32 else Cap(sh))
      ensures ChunkBit(slab, Put(w, o, value), sh, c) <==> c < Reserved(sh) || c in used
    {
      assert ChunkBit(slab, w, sh, c) <==> c < Reserved(sh) || c in used;
    }
  }
}
