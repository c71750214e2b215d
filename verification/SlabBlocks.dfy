/** The memory blocks a slab pool has handed out, and the counters it keeps about them. */
module SlabBlocks {
  import opened Common
  import opened Arith
  import opened SlabModel

  /** A block is named by its page and, within a page of chunks, its chunk. */
  datatype Id = Chunk(page: nat, c: nat) | Run(page: nat)

  ghost predicate Live(v: seq<View>, id: Id) {
    match id
    case Chunk(i, c) => i < |v| && v[i].Chunks? && c in v[i].used
    case Run(i) => i < |v| && v[i].RunHead?
  }

  ghost function BlockSize(v: seq<View>, id: Id): nat
    requires Tiled(v) && Live(v, id)
  {
    assert TileOk(v, id.page);
    if id.Chunk? then Size(v[id.page].shift) else v[id.page].len * PAGE
  }

  ghost function Address(start: nat, v: seq<View>, id: Id): nat
    requires Tiled(v) && Live(v, id)
  {
    assert TileOk(v, id.page);
    if id.Chunk? then start + id.page * PAGE + id.c * Size(v[id.page].shift) else start + id.page * PAGE
  }

  /** The pages a block touches. */
  ghost function Pages(v: seq<View>, id: Id): nat
    requires Tiled(v) && Live(v, id)
  {
    if id.Chunk? then 1 else v[id.page].len
  }

  lemma ChunkInside(sh: nat, c: nat)
    requires IsShift(sh) && c < Cap(sh)
    ensures c * Size(sh) + Size(sh) <= PAGE
  {
    assert Size(sh) * Cap(sh) == PAGE;
  }

  /** A block lies within its pages. */
  lemma WithinPages(start: nat, v: seq<View>, id: Id)
    requires Tiled(v) && Live(v, id)
    ensures start + id.page * PAGE <= Address(start, v, id)
    ensures Address(start, v, id) + BlockSize(v, id) <= start + (id.page + Pages(v, id)) * PAGE
    ensures id.page + Pages(v, id) <= |v| && BlockSize(v, id) > 0
  {
    assert TileOk(v, id.page);
    if id.Chunk? { ChunkInside(v[id.page].shift, id.c); }
  }

  /** Every block lies inside the page area. */
  lemma InsidePool(start: nat, v: seq<View>, id: Id)
    requires Tiled(v) && Live(v, id)
    ensures start <= Address(start, v, id) && Address(start, v, id) + BlockSize(v, id) <= start + |v| * PAGE
  {
    WithinPages(start, v, id);
  }

  lemma ChunksApart(sh: nat, c: nat, d: nat)
    requires IsShift(sh) && c < d
    ensures c * Size(sh) + Size(sh) <= d * Size(sh)
  {
  }

  lemma PagesApart(v: seq<View>, x: Id, y: Id)
    requires Tiled(v) && Live(v, x) && Live(v, y) && x.page < y.page
    ensures x.page + Pages(v, x) <= y.page
  {
    Runs(v, x.page, y.page);
  }

  /** No two blocks overlap. */
  lemma Disjoint(start: nat, v: seq<View>, x: Id, y: Id)
    requires Tiled(v) && Live(v, x) && Live(v, y) && x != y
    ensures Apart(Address(start, v, x), BlockSize(v, x), Address(start, v, y), BlockSize(v, y))
  {
    WithinPages(start, v, x);
    WithinPages(start, v, y);
    if x.page < y.page {
      PagesApart(v, x, y);
    } else if y.page < x.page {
      PagesApart(v, y, x);
    } else {
      var sh := v[x.page].shift;
      assert TileOk(v, x.page);
      if x.c < y.c { ChunksApart(sh, x.c, y.c); } else { ChunksApart(sh, y.c, x.c); }
    }
  }

  /** A chunk does not overlap the bitmap kept at the start of its page. */
  lemma ClearOfBitmap(start: nat, v: seq<View>, id: Id)
    requires Tiled(v) && Live(v, id) && id.Chunk? && MIN_SHIFT <= v[id.page].shift < EXACT_SHIFT
    ensures start + id.page * PAGE + MapWords(v[id.page].shift) * 8 <= Address(start, v, id)
  {
    assert TileOk(v, id.page);
    BitmapFits(v[id.page].shift);
  }

  lemma ChunkAligned(base: nat, c: nat, sh: nat)
    requires IsShift(sh) && base % PAGE == 0
    ensures (base + c * Size(sh)) % Size(sh) == 0
  {
    BitmapFits(sh);
    ModMod(base, PAGE, Size(sh), Cap(sh));
    AddMultiple(c, base, Size(sh));
  }

  /** A chunk is aligned to its size, a run to the page size. */
  lemma Aligned(start: nat, v: seq<View>, id: Id)
    requires Tiled(v) && Live(v, id) && start % PAGE == 0
    ensures id.Chunk? ==> IsShift(v[id.page].shift) && Address(start, v, id) % Size(v[id.page].shift) == 0
    ensures id.Run? ==> Address(start, v, id) % PAGE == 0
  {
    assert TileOk(v, id.page);
    var base := start + id.page * PAGE;
    assert base % PAGE == 0;
    if id.Chunk? {
      ChunkAligned(base, id.c, v[id.page].shift);
    }
  }

  // ---------- counters ----------

  ghost function Sum(f: View -> int, v: seq<View>): int {
    if v == [] then 0 else Sum(f, v[..|v| - 1]) + f(v[|v| - 1])
  }

  lemma OneTimesMore(d: int, m: int)
    ensures d * (m + 1) == d * m + d
  {
  }

  /** Where two tables differ by `d` per page on [a, b) and nowhere else. */
  lemma {:induction false} SumShift(f: View -> int, v: seq<View>, v': seq<View>, a: int, b: int, d: int)
    requires |v| == |v'| && 0 <= a <= b <= |v|
    requires forall j :: a <= j < b ==> f(v'[j]) == f(v[j]) + d
    requires forall j :: 0 <= j < |v| && !(a <= j < b) ==> f(v'[j]) == f(v[j])
    ensures Sum(f, v') == Sum(f, v) + d * (b - a)
    decreases |v|
  {
    if v != [] {
      var n := |v| - 1;
      assert v'[..n] == v'[..|v'| - 1];
      if b == |v| && a < b {
        SumShift(f, v[..n], v'[..n], a, n, d);
        OneTimesMore(d, n - a);
      } else if a == b == |v| {
        SumShift(f, v[..n], v'[..n], n, n, d);
      } else {
        SumShift(f, v[..n], v'[..n], a, b, d);
      }
    }
  }

  /** Where two tables differ at one page only. */
  lemma SumOne(f: View -> int, v: seq<View>, v': seq<View>, i: nat)
    requires |v| == |v'| && i < |v|
    requires forall j :: 0 <= j < |v| && j != i ==> f(v'[j]) == f(v[j])
    ensures Sum(f, v') == Sum(f, v) + f(v'[i]) - f(v[i])
  {
    SumShift(f, v, v', i, i + 1, f(v'[i]) - f(v[i]));
  }

  ghost function FreeCount(w: View): int {
    if IsFree(w) then 1 else 0
  }

  ghost function UsedCount(slot: nat): View -> int {
    (w: View) => if w.Chunks? && w.shift == slot + MIN_SHIFT then |w.used| else 0
  }

  ghost function RoomCount(slot: nat): View -> int {
    (w: View) => if w.Chunks? && IsShift(w.shift) && w.shift == slot + MIN_SHIFT then Room(w.shift) else 0
  }

  /** A table of free pages only. */
  ghost function AllFree(n: nat): seq<View> {
    seq(n, j => if j == 0 then FreeHead(n) else FreeBody(0))
  }

  lemma SomeLive(v: seq<View>, i: nat) returns (id: Id)
    requires Tiled(v) && i < |v| && !IsFree(v[i])
    ensures Live(v, id)
  {
    assert TileOk(v, i);
    match v[i]
    case RunBody(h) => id := Run(h);
    case Chunks(_, used) =>
      var c :| c in used;
      id := Chunk(i, c);
    case _ => id := Run(i);
  }

  /** When no block is left, the whole table is one free run. */
  lemma NothingLive(v: seq<View>)
    requires Tiled(v) && forall id: Id :: !Live(v, id)
    ensures v == AllFree(|v|)
  {
    forall i | 0 <= i < |v|
      ensures IsFree(v[i])
    {
      if !IsFree(v[i]) { var id := SomeLive(v, i); }
    }
    if |v| > 0 { assert TileOk(v, 0); }
  }

  lemma AllFreeTiled(n: nat)
    ensures Tiled(AllFree(n))
  {
  }

  lemma {:induction false} SumConstant(f: View -> int, v: seq<View>, d: int)
    requires forall j :: 0 <= j < |v| ==> f(v[j]) == d
    ensures Sum(f, v) == d * |v|
    decreases |v|
  {
    if v != [] {
      SumConstant(f, v[..|v| - 1], d);
      assert d * |v| == d * (|v| - 1) + d;
    }
  }

  lemma TakeViews(v: seq<View>, i: nat, k: nat)
    requires Tiled(v) && i < |v| && v[i].FreeHead? && 1 <= k <= v[i].len
    ensures var v' := Take(v, i, k);
      && i + k <= |v|
      && (forall j :: i <= j < i + k ==> IsFree(v[j]) && !IsFree(v'[j]) && !v'[j].Chunks?)
      && (forall j :: 0 <= j < |v| && !(i <= j < i + k) ==> v'[j] == v[j] || (IsFree(v[j]) && IsFree(v'[j])))
  {
    assert TileOk(v, i);
  }

  /** Taking `k` pages: `k` fewer free pages, nothing else counted changes. */
  lemma TakeCounts(v: seq<View>, i: nat, k: nat, slot: nat)
    requires Tiled(v) && i < |v| && v[i].FreeHead? && 1 <= k <= v[i].len
    ensures Sum(FreeCount, Take(v, i, k)) == Sum(FreeCount, v) - k
    ensures Sum(UsedCount(slot), Take(v, i, k)) == Sum(UsedCount(slot), v)
    ensures Sum(RoomCount(slot), Take(v, i, k)) == Sum(RoomCount(slot), v)
  {
    TakeViews(v, i, k);
    var v' := Take(v, i, k);
    SumShift(FreeCount, v, v', i, i + k, -1);
    SumShift(UsedCount(slot), v, v', 0, 0, 0);
    SumShift(RoomCount(slot), v, v', 0, 0, 0);
  }

  /** Giving `k` pages back: `k` more free pages; a page of chunks takes its chunks with it. */
  lemma GiveCounts(v: seq<View>, i: nat, k: nat, slot: nat)
    requires Tiled(v) && Givable(v, i, k)
    ensures Sum(FreeCount, Give(v, i, k)) == Sum(FreeCount, v) + k
    ensures Sum(UsedCount(slot), Give(v, i, k)) == Sum(UsedCount(slot), v) - UsedCount(slot)(v[i])
    ensures Sum(RoomCount(slot), Give(v, i, k)) == Sum(RoomCount(slot), v) - RoomCount(slot)(v[i])
  {
    MergeBounds(v, i, k);
    MergeViews(v, i, k);
    var v' := Give(v, i, k);
    SumShift(FreeCount, v, v', i, i + k, 1);
    SumOne(UsedCount(slot), v, v', i);
    SumOne(RoomCount(slot), v, v', i);
  }

  lemma MergeViews(v: seq<View>, i: nat, k: nat)
    requires Tiled(v) && Givable(v, i, k)
    ensures var v' := Give(v, i, k);
      && (forall j :: 0 <= j < |v| && !(i <= j < i + k) ==>
          IsFree(v'[j]) == IsFree(v[j]) && (v'[j] == v[j] || (IsFree(v[j]) && IsFree(v'[j]))))
      && (forall j :: i <= j < i + k ==> IsFree(v'[j]) && !IsFree(v[j]))
      && (forall j :: i < j < i + k ==> v[j] == RunBody(i))
  {
    var v' := Give(v, i, k);
    forall j | 0 <= j < |v|
      ensures if i <= j < i + k then IsFree(v'[j]) && !IsFree(v[j])
        else IsFree(v'[j]) == IsFree(v[j]) && (v'[j] == v[j] || (IsFree(v[j]) && IsFree(v'[j])))
    {
      MergeView(v, i, k, j);
    }
    GivablePages(v, i, k);
  }

  ghost predicate MergedView(v: seq<View>, i: nat, k: nat, j: nat)
    requires i < |v| && j < |v|
  {
    var w, w' := v[j], Give(v, i, k)[j];
    if i <= j < i + k then IsFree(w') && !IsFree(w)
    else IsFree(w') == IsFree(w) && (w' == w || (IsFree(w) && IsFree(w')))
  }

  lemma MergeView(v: seq<View>, i: nat, k: nat, j: nat)
    requires Tiled(v) && Givable(v, i, k) && j < |v|
    ensures MergedView(v, i, k, j)
  {
    MergeBounds(v, i, k);
    GivablePages(v, i, k);
    assert TileOk(v, MergeLo(v, i));
    if i + k < |v| { assert TileOk(v, i + k); }
  }

  lemma GivablePages(v: seq<View>, i: nat, k: nat)
    requires Tiled(v) && Givable(v, i, k)
    ensures (forall j :: i < j < i + k ==> v[j] == RunBody(i)) && !IsFree(v[i])
  {
    assert TileOk(v, i);
  }

  lemma SwapCounts(v: seq<View>, i: nat, x: View, slot: nat)
    requires i < |v| && !IsFree(v[i]) && !IsFree(x)
    ensures Sum(FreeCount, v[i := x]) == Sum(FreeCount, v)
    ensures Sum(UsedCount(slot), v[i := x]) == Sum(UsedCount(slot), v) + UsedCount(slot)(x) - UsedCount(slot)(v[i])
    ensures Sum(RoomCount(slot), v[i := x]) == Sum(RoomCount(slot), v) + RoomCount(slot)(x) - RoomCount(slot)(v[i])
  {
    SumOne(FreeCount, v, v[i := x], i);
    SumOne(UsedCount(slot), v, v[i := x], i);
    SumOne(RoomCount(slot), v, v[i := x], i);
  }

  // ---------- one block more, one block less ----------

  /** Block `x` exists in both or in neither, at the same place and of the same size. */
  ghost predicate SameBlock(start: nat, v: seq<View>, v': seq<View>, x: Id)
    requires Tiled(v) && Tiled(v')
  {
    && (Live(v', x) <==> Live(v, x))
    && (Live(v, x) ==> Address(start, v', x) == Address(start, v, x) && BlockSize(v', x) == BlockSize(v, x))
  }

  /** `v'` has the blocks of `v` and in addition `id`. */
  ghost predicate Gains(start: nat, v: seq<View>, v': seq<View>, id: Id) {
    && Tiled(v) && Tiled(v') && !Live(v, id) && Live(v', id)
    && forall x: Id {:trigger SameBlock(start, v, v', x)} :: x != id ==> SameBlock(start, v, v', x)
  }

  /** Views of one page that agree on its blocks other than `id`. */
  ghost predicate SameUse(w: View, w': View, id: Id, j: nat) {
    || w' == w
    || (!w.Chunks? && !w.RunHead? && !w'.Chunks? && !w'.RunHead?)
    || (id == Run(j) && w'.RunHead? && !w.RunHead? && !w.Chunks?)
    || (id.Chunk? && id.page == j && w'.Chunks? && w.Chunks? && w.shift == w'.shift && w'.used == w.used + {id.c})
    || (id.Chunk? && id.page == j && w'.Chunks? && !w.RunHead? && !w.Chunks? && w'.used == {id.c})
  }

  lemma GainsByPage(start: nat, v: seq<View>, v': seq<View>, id: Id)
    requires Tiled(v) && Tiled(v') && |v'| == |v| && !Live(v, id) && Live(v', id)
    requires forall j {:trigger v'[j]} :: 0 <= j < |v| ==> SameUse(v[j], v'[j], id, j)
    ensures Gains(start, v, v', id)
  {
    forall x: Id | x != id
      ensures SameBlock(start, v, v', x)
    {
      if x.page < |v| { assert SameUse(v[x.page], v'[x.page], id, x.page); }
    }
  }

  /** A page run taken from a free run is a new block; nothing else changes. */
  lemma TakeGains(start: nat, v: seq<View>, i: nat, k: nat)
    requires Tiled(v) && i < |v| && v[i].FreeHead? && 1 <= k <= v[i].len
    ensures Gains(start, v, Take(v, i, k), Run(i))
  {
    TakeTiled(v, i, k);
    assert TileOk(v, i);
    GainsByPage(start, v, Take(v, i, k), Run(i));
  }

  /** So is a chunk of a page that has just been taken and cut up. */
  lemma CutGains(start: nat, v: seq<View>, i: nat, sh: nat, c: nat)
    requires Tiled(v) && i < |v| && v[i].FreeHead? && 1 <= v[i].len && Tiled(Take(v, i, 1)[i := Chunks(sh, {c})])
    ensures Gains(start, v, Take(v, i, 1)[i := Chunks(sh, {c})], Chunk(i, c))
  {
    assert TileOk(v, i);
    GainsByPage(start, v, Take(v, i, 1)[i := Chunks(sh, {c})], Chunk(i, c));
  }

  lemma UseGains(start: nat, v: seq<View>, i: nat, c: nat)
    requires Tiled(v) && i < |v| && v[i].Chunks? && c !in v[i].used
    requires Tiled(v[i := Chunks(v[i].shift, v[i].used + {c})])
    ensures Gains(start, v, v[i := Chunks(v[i].shift, v[i].used + {c})], Chunk(i, c))
  {
    GainsByPage(start, v, v[i := Chunks(v[i].shift, v[i].used + {c})], Chunk(i, c));
  }

  /** Taking a chunk back loses exactly that block. */
  lemma ReleaseGains(start: nat, v: seq<View>, i: nat, c: nat)
    requires Tiled(v) && i < |v| && v[i].Chunks? && c in v[i].used
    requires Tiled(v[i := Chunks(v[i].shift, v[i].used - {c})])
    ensures Gains(start, v[i := Chunks(v[i].shift, v[i].used - {c})], v, Chunk(i, c))
  {
    assert v[i].used - {c} + {c} == v[i].used;
    GainsByPage(start, v[i := Chunks(v[i].shift, v[i].used - {c})], v, Chunk(i, c));
  }

  /** Giving pages back loses exactly the block they held. */
  lemma GiveGains(start: nat, v: seq<View>, i: nat, k: nat, id: Id)
    requires Tiled(v) && Givable(v, i, k) && (id == Run(i) || (id.Chunk? && id.page == i))
    requires v[i] == RunHead(k) ==> id == Run(i)
    requires v[i].Chunks? ==> id.Chunk? && v[i].used == {id.c}
    ensures Gains(start, Give(v, i, k), v, id)
  {
    GiveTiled(v, i, k);
    MergeBounds(v, i, k);
    MergeViews(v, i, k);
    var v' := Give(v, i, k);
    forall j | 0 <= j < |v|
      ensures SameUse(v'[j], v[j], id, j)
    {
      if i < j < i + k { assert v[j] == RunBody(i); }
    }
    GainsByPage(start, v', v, id);
  }
}
