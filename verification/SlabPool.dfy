/** The slab pool itself. */
module SlabPool {
  import opened Arith
  import opened Common
  import opened Words
  import opened SlabModel
  import opened SlabLists
  import opened SlabPages
  import opened SlabGive
  import opened SlabBits
  import opened SlabChunks
  import opened SlabBlocks
  import opened SlabCounts
  import opened SlabScan
  import opened SlabFacts

  class SlabPool {
    const start: nat  // address of the first page
    const end: nat
    const n: nat      // number of pages
    var mem: Table                  // page descriptors and list heads
    var words: seq<seq<nat>>        // what is in the pages
    var stats: seq<Stat>
    var pfree: int

    ghost var view: seq<View>
    ghost var free: seq<nat>
    ghost var slots: seq<seq<nat>>

    ghost function State(): Pool
      reads this
    {
      Pool(mem, words, view, free, slots)
    }

    ghost predicate Valid()
      reads this
    {
      && Conforms(State())
      && 0 < start && start % PAGE == 0 && start + n * PAGE <= end && |view| == n
      && (forall j :: 0 <= j < |words| ==> Row(words[j]))
      && pfree == Sum(FreeCount, view)
      && Tally(view, stats)
    }

    /** The list heads, the zeroed descriptors, and all pages as one free run. */
    static method InitTable(pages: nat) returns (m: Table)
      requires pages >= 1
      ensures forall r :: r in m <==> r == FreeList || (r.SlotList? && r.slot < SLOTS) || (r.Page? && r.i < pages)
      ensures m[FreeList].next == Page(0) && m[Page(0)] == Entry(pages, FreeList, FreeList, TAG_PAGE)
      ensures forall r :: r in m && r.SlotList? ==> m[r].next == r
      ensures forall r :: r in m && r.Page? && r.i != 0 ==> m[r] == BLANK
    {
      m := map[];
      var i := 0;
      while i < SLOTS
        invariant 0 <= i <= SLOTS && (forall r :: r in m <==> r.SlotList? && r.slot < i)
        invariant forall r :: r in m ==> m[r] == Entry(0, r, Null, TAG_PAGE)
      {
        m := m[SlotList(i) := Entry(0, SlotList(i), Null, TAG_PAGE)];
        i := i + 1;
      }
      i := 0;
      while i < pages
        invariant 0 <= i <= pages
        invariant forall r :: r in m <==> (r.SlotList? && r.slot < SLOTS) || (r.Page? && r.i < i)
        invariant forall r :: r in m ==> m[r] == if r.Page? then BLANK else Entry(0, r, Null, TAG_PAGE)
      {
        m := m[Page(i) := BLANK];
        i := i + 1;
      }
      m := m[FreeList := Entry(0, Page(0), Null, TAG_PAGE)];
      m := m[Page(0) := Entry(pages, FreeList, FreeList, TAG_PAGE)];
    }

    /** Sets up the pool in the memory from `at` to `end`: list heads and statistics, the
        descriptors, and behind them as many whole pages as there are descriptors for. */
    constructor (at: nat, limit: nat, memory: seq<seq<nat>>)
      requires PoolPages(at, limit) >= 1 && limit < MODULUS
      requires |memory| == PoolPages(at, limit) && forall j :: 0 <= j < |memory| ==> Row(memory[j])
      ensures Valid() && end == limit && n == PoolPages(at, limit)
      ensures view == AllFree(n) && pfree == n && words == memory
      ensures at + HEADERS + n * DESCRIPTOR <= start < at + HEADERS + (n + 1) * DESCRIPTOR + PAGE
      ensures limit - at - HEADERS < (n + 2) * (PAGE + DESCRIPTOR)
    {
      var p := at + HEADERS;
      var pages: int := (limit - p) / (PAGE + DESCRIPTOR);
      var first := AlignUp(p + pages * DESCRIPTOR);
      var d := pages - (limit - first) / PAGE;
      InitPages(at, limit);
      if d > 0 {
        pages := pages - d;
      }
      var m := InitTable(pages);
      start, end, n, mem, words, pfree := first, limit, pages, m, memory, pages;
      stats := seq(SLOTS, _ => Stat(0, 0, 0, 0));
      view, free, slots := AllFree(pages), [0], seq(SLOTS, _ => []);
      InitConforms(Pool(m, memory, AllFree(pages), [0], seq(SLOTS, _ => [])));
      InitTally(pages);
    }

    /** The ghost description is brought in line with the descriptors and words. */
    ghost method Adopt(s: Pool)
      requires mem == s.m && words == s.w
      modifies this`view, this`free, this`slots
      ensures State() == s
    {
      view, free, slots := s.v, s.free, s.slots;
    }

    // ---------- pages ----------

    /** The rest of the run, if any, takes the run's place on the list. */
    method ShortenRun(i: nat, k: nat, len: nat)
      requires 1 <= k <= len && Page(i + len - 1) in mem && CanUnhook(mem, Page(i))
      requires k < len ==> Page(i + k) in mem
      modifies this`mem
      ensures mem == Shorten(old(mem), i, k, len)
    {
      if len > k {
        mem := mem[Page(i + len - 1) := mem[Page(i + len - 1)].(prev := Page(i + k), tag := TAG_PAGE)];
        mem := mem[Page(i + k) := mem[Page(i + k)].(slab := len - k)];
        mem := Supplant(mem, Page(i), Page(i + k));
      } else {
        mem := Unhook(mem, Page(i));
      }
    }

    method MarkRun(i: nat, k: nat)
      requires 1 <= k && forall j: nat {:trigger Page(j)} :: i <= j < i + k ==> Page(j) in mem
      modifies this`mem
      ensures mem == Claim(old(mem), i, k)
    {
      ghost var m1 := mem;
      mem := mem[Page(i) := Entry(k + PAGE_START, Null, Null, TAG_PAGE)];
      ClaimStart(m1, i, k);
      var q := i + 1;
      while q < i + k
        invariant i < q <= i + k
        invariant mem == ClaimUpTo(m1, i, k, q)
      {
        ClaimNext(m1, i, k, q);
        mem := mem[Page(q) := Entry(PAGE_BUSY, Null, Null, TAG_PAGE)];
        q := q + 1;
      }
      ClaimEnd(m1, i, k);
    }

    /** The first `k` pages of the free run at position `p` of the list are taken. */
    method ClaimPages(i: nat, k: nat, ghost p: nat)
      requires CanTake(State(), p, k) && i == free[p]
      modifies this`mem, this`view, this`free, this`slots
      ensures State() == TakePages(old(State()), p, k)
    {
      ghost var s := State();
      TakeReady(s, p, k);
      ClaimReady(s, p, k);
      ShortenRun(i, k, mem[Page(i)].slab);
      MarkRun(i, k);
      Adopt(TakePages(s, p, k));
    }

    /** The first free run on the list that is long enough. */
    method FindRun(k: nat) returns (r: Option<nat>, ghost p: nat)
      requires Valid()
      ensures r.None? ==> forall i :: 0 <= i < |view| && view[i].FreeHead? ==> view[i].len < k
      ensures r.Some? ==> p < |free| && r.value == free[p] < |view| && view[free[p]].FreeHead? && k <= view[free[p]].len
      ensures r.Some? ==> forall x :: 0 <= x < p ==>
        free[x] < |view| && view[free[x]].FreeHead? && view[free[x]].len < k
    {
      p := 0;
      FreeAt(State(), 0);
      var page := mem[FreeList].next;
      while page != FreeList
        invariant p <= |free| && page == At(FreeList, free, p)
        invariant forall x :: 0 <= x < p ==> free[x] < |view| && view[free[x]].FreeHead? && view[free[x]].len < k
        decreases |free| - p
      {
        FreeAt(State(), p);
        FreeAt(State(), p + 1);
        if mem[page].slab >= k {
          return Some(page.i), p;
        }
        page := mem[page].next;
        p := p + 1;
      }
      forall i | 0 <= i < |view| && view[i].FreeHead?
        ensures view[i].len < k
      {
        assert i in free;
      }
      r := None;
    }

    /** A run of `k` pages from the first free run that is long enough. */
    method AllocPages(k: nat) returns (r: Option<nat>, ghost p: nat)
      requires Valid() && k >= 1
      modifies this`mem, this`view, this`free, this`slots, this`pfree
      ensures Valid()
      ensures r.None? ==> State() == old(State()) && forall i :: 0 <= i < |view| && view[i].FreeHead? ==>
        view[i].len < k
      ensures r.Some? ==>
        CanTake(old(State()), p, k) && r.value == old(free)[p] && State() == TakePages(old(State()), p, k)
    {
      r, p := FindRun(k);
      if r.Some? {
        ghost var s' := TakenPages(State(), stats, p, k);
        ClaimPages(r.value, k, p);
        pfree := pfree - k;
        assert State() == s';
      }
    }

    /** A free run that begins right behind the pages is joined to them. */
    method JoinBehind(i: nat, k: nat, ghost s: Pool, ghost q: seq<nat>, ghost sl: seq<seq<nat>>)
      returns (pages: nat, ghost q': seq<nat>)
      requires Stage(s, mem, i, i, i + k, q, sl) && Givable(s.v, i, k) && n == |s.v|
      modifies this`mem
      ensures Stage(s, mem, i, i, MergeHi(s.v, i, k), q', sl) && pages == MergeHi(s.v, i, k) - i - 1
    {
      pages, q' := k - 1, q;
      var join := i + k;
      if join < n {
        NextTest(s, mem, i, k, q, sl);
        if mem[Page(join)].tag == TAG_PAGE && mem[Page(join)].next != Null {
          var len;
          len, q' := JoinNext(join, i, s, q, sl);
          pages := pages + len;
        }
      }
    }

    /** The free run at `j`, where the pages end, is added to them. */
    method JoinNext(j: nat, i: nat, ghost s: Pool, ghost q: seq<nat>, ghost sl: seq<seq<nat>>)
      returns (len: nat, ghost q': seq<nat>)
      requires Stage(s, mem, i, i, j, q, sl) && j < |s.v| && s.v[j].FreeHead? && j in q
      modifies this`mem
      ensures Stage(s, mem, i, i, j + s.v[j].len, q', sl) && len == s.v[j].len
    {
      ghost var pos :| 0 <= pos < |q| && q[pos] == j;
      JoinReady(s, mem, i, i, j, q, sl, pos);
      JoinStage(s, mem, i, i, j, q, sl, pos);
      len := mem[Page(j)].slab;
      mem := Join(mem, i, j, j, mem[Page(i)].slab + mem[Page(j)].slab);
      q' := RemoveAt(q, pos);
    }

    /** The free run at `j`, which ends right before the pages, takes them in. */
    method JoinTo(j: nat, i: nat, ghost b: nat, ghost s: Pool, ghost q: seq<nat>, ghost sl: seq<seq<nat>>)
      returns (len: nat, ghost q': seq<nat>)
      requires Stage(s, mem, i, i, b, q, sl) && j < i && s.v[j] == FreeHead(i - j) && j in q
      modifies this`mem
      ensures Stage(s, mem, i, j, b, q', sl) && len == i - j
    {
      ghost var pos :| 0 <= pos < |q| && q[pos] == j;
      JoinReady(s, mem, i, i, b, q, sl, pos);
      JoinStage(s, mem, i, i, b, q, sl, pos);
      len := mem[Page(j)].slab;
      mem := Join(mem, j, j, i, mem[Page(j)].slab + mem[Page(i)].slab);
      q' := RemoveAt(q, pos);
    }

    /** A free run that ends right before the pages is joined to them. */
    method JoinBefore(i: nat, p: nat, ghost k: nat, ghost b: nat, ghost s: Pool, ghost q: seq<nat>,
                      ghost sl: seq<seq<nat>>)
      returns (page: nat, pages: nat, ghost q': seq<nat>)
      requires Stage(s, mem, i, i, b, q, sl) && Givable(s.v, i, k) && p == b - i - 1
      modifies this`mem
      ensures page == MergeLo(s.v, i) <= i && Stage(s, mem, i, page, b, q', sl) && pages == b - page - 1
    {
      page, pages, q' := i, p, q;
      if i > 0 {
        PrevTest(s, mem, i, k, b, q, sl);
        var join := Page(i - 1);
        if mem[join].tag == TAG_PAGE {
          if mem[join].slab == 0 {
            join := mem[join].prev;
          }
          if mem[join].next != Null {
            var len;
            len, q' := JoinTo(join.i, i, b, s, q, sl);
            page, pages := join.i, pages + len;
          }
        }
      }
    }

    /** The pages go back, joined with the free runs on both sides.  `s` is the pool before
        its last chunk, if it was a page of chunks, was cleared. */
    method FreePages(i: nat, k: nat, ghost s: Pool, ghost pos: nat)
      requires Leaving(s, mem, i, k, pos) && n == |s.v| == |words|
      requires forall j :: 0 <= j < n && j != i ==> words[j] == s.w[j]
      modifies this`mem, this`view, this`free, this`slots, this`pfree
      ensures Conforms(State()) && view == Give(s.v, i, k) && slots == LeaveSlots(s, i, pos)
      ensures pfree == old(pfree) + k
    {
      pfree := pfree + k;
      StartStage(s, mem, i, k, pos);
      mem := WipeOff(mem, i, k);
      ghost var sl := LeaveSlots(s, i, pos);
      var pages, q1 := JoinBehind(i, k, s, s.free, sl);
      ghost var b := MergeHi(s.v, i, k);
      var page, pages', q2 := JoinBefore(i, pages, k, b, s, q1, sl);
      ghost var s' := FinishedPool(s, mem, i, k, q2, sl, words, page, pages');
      Relist(page, pages', s'.m);
      Adopt(s');
    }

    // ---------- allocating ----------

    /** A free chunk of page `i`, the first on its slot list, is marked; a page with no
        free chunk left leaves the list. */
    method UseChunk(i: nat, sh: nat) returns (c: nat)
      requires Valid() && IsShift(sh) && slots[SlotOf(sh)] != [] && slots[SlotOf(sh)][0] == i
      modifies this`mem, this`words, this`view, this`free, this`slots
      ensures CanUse(old(State()), i, 0, c) && sh == old(view)[i].shift && State() == Use(old(State()), i, 0, c)
    {
      ghost var s := State();
      FrontPage(s, SlotOf(sh));
      ghost var used := view[i].used;
      c := FindChunk(mem[Page(i)].slab, words[i], sh, used);
      UseReady(s, i, 0, c);
      MarkOk(mem[Page(i)].slab, words[i], sh, used, c);
      MarkBefore(words[i], sh, c);
      mem := mem[Page(i) := mem[Page(i)].(slab := MarkSlab(mem[Page(i)].slab, sh, c))];
      words := words[i := MarkWords(words[i], sh, c)];
      var full := IsFull(mem[Page(i)].slab, words[i], sh, c, used + {c});
      if full {
        mem := Unhook(mem, Page(i));
        mem := mem[Page(i) := mem[Page(i)].(next := Null, prev := Null, tag := TagOf(sh))];
      }
      Adopt(Use(s, i, 0, c));
    }

    /** The bitmap of a fresh page, with the reserved chunks and the first other marked. */
    static method FreshBitmap(row: seq<nat>, sh: nat) returns (w: seq<nat>)
      requires IsShift(sh) && Row(row)
      ensures FreshWords(w, sh)
    {
      w := row;
      if sh < EXACT_SHIFT {
        BitmapFits(sh);
        FirstWord(sh);
        var first := 2 * Pow(Reserved(sh)) - 1;
        w := w[0 := first];
        var x := 1;
        while x < MapWords(sh)
          invariant 1 <= x <= MapWords(sh) && Row(w) && w[0] == first
          invariant forall y :: 1 <= y < x ==> w[y] == 0
        {
          w := w[x := 0];
          x := x + 1;
        }
      }
    }

    /** A page just taken is cut into chunks and its first free chunk handed out. */
    method CutPage(i: nat, sh: nat)
      requires Conforms(State()) && i < |view| && view[i] == RunHead(1) && IsShift(sh) && slots[SlotOf(sh)] == []
      requires Row(words[i])
      modifies this`mem, this`words, this`view, this`free, this`slots
      ensures |words| == |old(words)| && CanCut(old(State()), i, sh, words[i])
        && State() == Cut(old(State()), i, sh, words[i])
    {
      ghost var s := State();
      var w := FreshBitmap(words[i], sh);
      words := words[i := w];
      CutReady(s, i, sh, words[i]);
      var h := SlotList(SlotOf(sh));
      mem := mem[Page(i) := Entry(FreshSlab(sh), h, h, TagOf(sh))];
      mem := mem[h := mem[h].(next := Page(i))];
      Adopt(Cut(s, i, sh, words[i]));
    }

    /** A request larger than any chunk. */
    method AllocRun(size: nat) returns (p: nat, ghost id: Id)
      requires Valid() && size > MAX_SIZE
      modifies this`mem, this`view, this`free, this`slots, this`pfree
      ensures Valid()
      ensures p == 0 ==> view == old(view) && Exhausted(view, size)
      ensures p != 0 ==> Granted(start, old(view), view, size, p, id) && !Exhausted(old(view), size)
    {
      ghost var v := view;
      NoRunLeft(v, size);
      var r, q := AllocPages(PagesFor(size));
      if r.Some? {
        p := start + r.value * PAGE;
        id := Run(r.value);
        RunGranted(start, v, r.value, size);
      } else {
        p := 0;
        id := Run(0);
      }
    }

    /** A request that is served by a chunk of class `sh`. */
    method AllocChunk(sh: nat, ghost size: nat) returns (p: nat, ghost id: Id)
      requires Valid() && size <= MAX_SIZE && sh == Fit(size)
      modifies this
      ensures Valid()
      ensures p == 0 ==> view == old(view) && Exhausted(view, size)
      ensures p != 0 ==> Granted(start, old(view), view, size, p, id) && !Exhausted(old(view), size)
      ensures |stats| == SLOTS && stats[SlotOf(sh)].reqs == old(stats)[SlotOf(sh)].reqs
      ensures stats[SlotOf(sh)].fails == old(stats)[SlotOf(sh)].fails + if p == 0 then 1 else 0
      ensures forall x :: 0 <= x < SLOTS && x != SlotOf(sh) ==> stats[x] == old(stats)[x]
      ensures OnlyBitmaps(old(view), old(words), words)
    {
      var slot := SlotOf(sh);
      SlotTest(State(), slot);
      var page := mem[SlotList(slot)].next;
      if mem[page].next != page {
        p, id := AllocUsed(page.i, sh, size);
      } else {
        p, id := AllocFresh(sh, size);
        if p == 0 {
          SameTally(view, stats, slot, stats[slot].reqs, stats[slot].fails + 1);
          stats := stats[slot := stats[slot].(fails := stats[slot].fails + 1)];
        }
      }
    }

    /** A chunk of a page that has others in use. */
    method AllocUsed(i: nat, sh: nat, ghost size: nat) returns (p: nat, ghost id: Id)
      requires Valid() && size <= MAX_SIZE && sh == Fit(size) && slots[SlotOf(sh)] != [] && slots[SlotOf(sh)][0] == i
      modifies this
      ensures Valid() && p != 0
      ensures Granted(start, old(view), view, size, p, id) && !Exhausted(old(view), size)
      ensures stats == Bump(old(stats), SlotOf(sh), 1, 0) && OnlyBitmaps(old(view), old(words), words)
    {
      ghost var s := State();
      FrontPage(s, SlotOf(sh));
      var c := UseChunk(i, sh);
      UsedChunk(start, s, stats, i, c, size);
      MarkKept(s.w[i], sh, s.v[i].used, c);
      OneRow(s.v, s.w, words, i);
      stats := Bump(stats, SlotOf(sh), 1, 0);
      p := ChunkAddr(start, i, c, sh);
      id := Chunk(i, c);
    }

    /** A chunk of a page that is free now. */
    method AllocFresh(sh: nat, ghost size: nat) returns (p: nat, ghost id: Id)
      requires Valid() && size <= MAX_SIZE && sh == Fit(size) && slots[SlotOf(sh)] == []
      modifies this
      ensures Valid()
      ensures p == 0 ==> view == old(view) && stats == old(stats) && Exhausted(view, size)
      ensures p != 0 ==> Granted(start, old(view), view, size, p, id) && !Exhausted(old(view), size)
      ensures p != 0 ==> stats == Bump(old(stats), SlotOf(sh), 1, Room(sh))
      ensures OnlyBitmaps(old(view), old(words), words)
    {
      ghost var s := State();
      var r, q := AllocPages(1);
      if r.Some? {
        ghost var t := State();
        var i := r.value;
        CutPage(i, sh);
        CutFresh(t, stats, i, sh, words[i]);
        CutOutcome(start, s, words, i, sh, size);
        stats := Bump(stats, SlotOf(sh), 1, Room(sh));
        p := ChunkAddr(start, i, Reserved(sh), sh);
        id := Chunk(i, Reserved(sh));
      } else {
        NoChunk(s, sh, size);
        p := 0;
        id := Run(0);
      }
    }

    /** Allocation: a new block that holds `size` bytes, or 0 exactly when there is neither
        a free chunk of the class nor a free run long enough. */
    method Alloc(size: nat) returns (p: nat, ghost id: Id)
      requires Valid()
      modifies this
      ensures Valid()
      ensures p == 0 <==> Exhausted(old(view), size)
      ensures p == 0 ==> view == old(view)
      ensures p != 0 ==> Granted(start, old(view), view, size, p, id)
      ensures OnlyBitmaps(old(view), old(words), words)
      ensures |stats| == SLOTS && forall x :: 0 <= x < SLOTS ==>
        var mine := size <= MAX_SIZE && x == SlotOf(Fit(size));
        && stats[x].reqs == old(stats)[x].reqs + (if mine then 1 else 0)
        && stats[x].fails == old(stats)[x].fails + (if mine && p == 0 then 1 else 0)
    {
      if size > MAX_SIZE {
        p, id := AllocRun(size);
      } else {
        var sh := ClassOf(size);
        var slot := SlotOf(sh);
        SameTally(view, stats, slot, stats[slot].reqs + 1, stats[slot].fails);
        stats := stats[slot := stats[slot].(reqs := stats[slot].reqs + 1)];
        p, id := AllocChunk(sh, size);
      }
    }

    // ---------- freeing ----------

    /** Chunk `c` of page `i` is cleared; a page that had no free chunk goes to the front of
        its slot list. */
    method ClearChunk(i: nat, sh: nat, c: nat)
      requires Conforms(State()) && i < |view| && view[i].Chunks? && view[i].shift == sh && IsShift(sh)
        && c in view[i].used
      modifies this`mem, this`words
      ensures Page(i) in old(mem) && i < |old(words)|
      ensures mem == ReleaseTable(old(mem), i, sh, c, Full(sh, view[i].used))
      ensures words == old(words)[i := ClearWords(old(words)[i], sh, c)]
    {
      ChunkReady(State(), i);
      var h := SlotList(SlotOf(sh));
      var full := if sh == EXACT_SHIFT then mem[Page(i)].slab == PAGE_BUSY else mem[Page(i)].next == Null;
      if full {
        mem := PushFront(mem, h, Page(i), TagOf(sh));
      }
      words := words[i := ClearWords(words[i], sh, c)];
      mem := mem[Page(i) := mem[Page(i)].(slab := ClearSlab(mem[Page(i)].slab, sh, c))];
    }

    /** The page goes back whose last chunk in use was just cleared. */
    method FreeLast(i: nat, sh: nat, ghost c: nat, ghost s: Pool)
      requires Conforms(s) && i < |s.v| && s.v[i] == Chunks(sh, {c}) && IsShift(sh) && Tally(s.v, stats)
      requires Page(i) in s.m && mem == ReleaseTable(s.m, i, sh, c, Full(sh, {c}))
      requires 0 < start && start % PAGE == 0 && start + n * PAGE <= end && pfree == Sum(FreeCount, s.v)
      requires n == |s.v| == |words| && forall j :: 0 <= j < n ==> Row(words[j]) && (j != i ==> words[j] == s.w[j])
      modifies this
      ensures Valid() && Gains(start, view, s.v, Chunk(i, c)) && SameRequests(old(stats), stats)
      ensures words == old(words) && view == Give(s.v, i, 1)
    {
      ghost var pos := LastChunk(s, mem, i, c);
      FreePages(i, 1, s, pos);
      LastGone(start, s.v, stats, i, c);
      stats := Bump(stats, SlotOf(sh), -1, 0 - Room(sh));
    }

    /** A chunk in use is given back, and its page with it if it was the last. */
    method FreeChunk(i: nat, sh: nat, c: nat)
      requires Valid() && i < |view| && view[i].Chunks? && view[i].shift == sh && IsShift(sh) && c in view[i].used
      modifies this
      ensures Valid() && Gains(start, view, old(view), Chunk(i, c)) && SameRequests(old(stats), stats)
      ensures OnlyBitmaps(view, old(words), words)
    {
      ghost var s := State();
      ClearChunk(i, sh, c);
      ChunkCleared(s, i, c);
      assert TileOk(s.v, i);
      SettlePage(i, sh, c, s);
    }

    /** After chunk `c` has been cleared: the page stays, or goes back if it was the last one. */
    method SettlePage(i: nat, sh: nat, ghost c: nat, ghost s: Pool)
      requires Conforms(s) && i < |s.v| && s.v[i].Chunks? && s.v[i].shift == sh && IsShift(sh) && c in s.v[i].used
        && c < Cap(sh)
      requires Page(i) in s.m && mem == ReleaseTable(s.m, i, sh, c, Full(sh, s.v[i].used)) && Page(i) in mem
      requires i < |s.w| && words == s.w[i := ClearWords(s.w[i], sh, c)] && view == s.v && free == s.free
        && slots == s.slots
      requires BitmapOk(mem[Page(i)].slab, words[i], sh, s.v[i].used - {c})
      requires forall x :: x in s.v[i].used - {c} ==> Reserved(sh) <= x < Cap(sh)
      requires 0 < start && start % PAGE == 0 && start + n * PAGE <= end && pfree == Sum(FreeCount, s.v)
        && Tally(s.v, stats)
      requires n == |s.v| && forall j :: 0 <= j < |s.w| ==> Row(s.w[j])
      modifies this
      ensures Valid() && Gains(start, view, s.v, Chunk(i, c)) && SameRequests(old(stats), stats)
      ensures OnlyBitmaps(view, s.w, words)
    {
      var empty := IsEmpty(mem[Page(i)].slab, words[i], sh, s.v[i].used - {c});
      RowAfterClear(s.w, words, i, sh, c);
      if empty {
        FreeLast(i, sh, c, s);
        FreedOnly(s, view, words, i, sh, c);
      } else {
        Released(start, s, stats, i, c);
        Adopt(Release(s, i, c));
        stats := Bump(stats, SlotOf(sh), -1, 0);
        ClearedOnly(s, view, words, i, sh, c);
      }
    }

    /** A page run is given back. */
    method FreeRun(i: nat, k: nat)
      requires Valid() && i < |view| && view[i] == RunHead(k)
      modifies this`mem, this`view, this`free, this`slots, this`pfree
      ensures Valid() && Gains(start, view, old(view), Run(i))
    {
      ghost var s := State();
      RunGone(start, s, stats, i, k);
      FreePages(i, k, s, 0);
    }

    /** Freeing: gives back exactly the block at address `p`; if no block starts there, the
        pool is left alone and the answer says why. */
    method Free(p: nat) returns (r: Outcome, ghost id: Id)
      requires Valid() && (start <= p <= end ==> (p - start) / PAGE < n && !InBitmap(view, p, start))
      modifies this
      ensures Valid()
      ensures r.Freed? <==> exists x: Id :: Live(old(view), x) && Address(start, old(view), x) == p
      ensures r.Freed? ==>
        Live(old(view), id) && Address(start, old(view), id) == p && Gains(start, view, old(view), id)
      ensures !r.Freed? ==> State() == old(State()) && stats == old(stats) && pfree == old(pfree)
      ensures r == Verdict(start, end, old(view), p)
      ensures SameRequests(old(stats), stats) && OnlyBitmaps(view, old(words), words)
    {
      id := Run(0);
      if p < start || p > end {
        Outside(start, end, view, p);
        r := OutsidePool;
      } else {
        var i := (p - start) / PAGE;
        PageFacts(State(), i);
        if mem[Page(i)].tag == TAG_PAGE {
          r, id := FreeInRun(p, i);
        } else {
          r, id := FreeInChunks(p, i);
        }
      }
    }

    /** ... in a page that is not cut into chunks */
    method FreeInRun(p: nat, i: nat) returns (r: Outcome, ghost id: Id)
      requires Valid() && start <= p <= end && i == (p - start) / PAGE && i < n && Page(i) in mem
        && mem[Page(i)].tag == TAG_PAGE
      modifies this
      ensures Valid() && r == Verdict(start, end, old(view), p) && SameRequests(old(stats), stats)
      ensures r.Freed? <==> exists x: Id :: Live(old(view), x) && Address(start, old(view), x) == p
      ensures r.Freed? ==>
        Live(old(view), id) && Address(start, old(view), id) == p && Gains(start, view, old(view), id)
      ensures !r.Freed? ==> State() == old(State()) && stats == old(stats) && pfree == old(pfree)
      ensures OnlyBitmaps(view, old(words), words)
    {
      id := Run(0);
      var slab := mem[Page(i)].slab;
      PageFacts(State(), i);
      PageAddress(start, view, p);
      RunWord(slab);
      if p % PAGE != 0 {
        r := WrongChunk;
      } else if And(slab, PAGE_START) == 0 {
        r := PageFree;
      } else if slab == PAGE_BUSY {
        r := WrongPage;
      } else {
        id := Run(i);
        FreeRun(i, AndNot(slab, PAGE_START));
        r := Freed;
      }
    }

    /** ... in a page of chunks */
    method FreeInChunks(p: nat, i: nat) returns (r: Outcome, ghost id: Id)
      requires Valid() && start <= p <= end && i == (p - start) / PAGE && i < n && Page(i) in mem
        && mem[Page(i)].tag != TAG_PAGE
      requires !InBitmap(view, p, start)
      modifies this
      ensures Valid() && r == Verdict(start, end, old(view), p) && SameRequests(old(stats), stats)
      ensures r.Freed? <==> exists x: Id :: Live(old(view), x) && Address(start, old(view), x) == p
      ensures r.Freed? ==>
        Live(old(view), id) && Address(start, old(view), id) == p && Gains(start, view, old(view), id)
      ensures !r.Freed? ==> State() == old(State()) && stats == old(stats) && pfree == old(pfree)
      ensures OnlyBitmaps(view, old(words), words)
    {
      id := Run(0);
      var slab := mem[Page(i)].slab;
      PageFacts(State(), i);
      var sh := if mem[Page(i)].tag == TAG_EXACT then EXACT_SHIFT else And(slab, SHIFT_MASK);
      ChunkAddress(start, view, p);
      QuotientNat(p % PAGE, Size(sh));
      var c: nat := (p % PAGE) / Size(sh);
      ChunkTest(slab, words[i], sh, view[i].used, c);
      if p % Size(sh) != 0 {
        r := WrongChunk;
      } else if !Marked(slab, words[i], sh, c) {
        r := AlreadyFree;
      } else {
        id := Chunk(i, c);
        FreeChunk(i, sh, c);
        r := Freed;
      }
    }

    // ---------- using the memory ----------

    /** The holder of a block writes its `x`-th word. */
    method Store(ghost id: Id, ghost x: nat, a: nat, value: nat)
      requires Valid() && Live(view, id) && 8 * x + 8 <= BlockSize(view, id) && a == Address(start, view, id) + 8 * x
      requires value < MODULUS
      modifies this`words
      ensures Valid() && |old(words)| == n
      ensures var j, o := (a - start) / PAGE, a % PAGE / 8;
        0 <= j < n && |old(words)[j]| == PAGE_WORDS && words == old(words)[j := Put(old(words)[j], o, value)]
    {
      var j, o := (a - start) / PAGE, a % PAGE / 8;
      ghost var s := State();
      StoreClear(start, view, id, x);
      words := words[j := Put(words[j], o, value)];
      StoreConforms(s, j, o, value);
    }

    /** The run goes to the front of the list of free runs. */
    method Relist(page: nat, pages: nat, ghost m': Table)
      requires Relisted(mem, page, pages, m')
      modifies this`mem
      ensures mem == m'
    {
      if pages > 0 {
        mem := mem[Page(page + pages) := mem[Page(page + pages)].(prev := Page(page), tag := TAG_PAGE)];
      }
      mem := PushFront(mem, FreeList, Page(page), TAG_PAGE);
    }
  }
}
