/** The slab allocator as a value: which pages are free, which form page runs, which are
    cut into chunks and what chunks of them are in use; and the memory blocks this
    describes. */
module SlabModel {

  // ---------- the configuration that is built: 64-bit words, 4096-byte pages ----------

  const PAGE: nat := 4096
  const PAGE_WORDS: nat := 512
  const MIN_SHIFT: nat := 3
  const EXACT_SHIFT: nat := 6
  const MAX_SHIFT: nat := 11
  const SLOTS: nat := 9
  const MAX_SIZE: nat := 2048

  predicate IsShift(sh: nat) {
    MIN_SHIFT <= sh <= MAX_SHIFT
  }

  /** 1 << sh */
  function Size(sh: nat): nat
    requires IsShift(sh)
  {
    if sh == 3 then 8 else if sh == 4 then 16 else if sh == 5 then 32 else if sh == 6 then 64
    else if sh == 7 then 128 else if sh == 8 then 256 else if sh == 9 then 512 else if sh == 10 then 1024 else 2048
  }

  /** The smallest class whose chunks hold `size` bytes. */
  function Fit(size: nat): (sh: nat)
    requires size <= MAX_SIZE
    ensures IsShift(sh) && size <= Size(sh) && (sh > MIN_SHIFT ==> Size(sh - 1) < size)
  {
    if size <= 8 then 3 else if size <= 16 then 4 else if size <= 32 then 5 else if size <= 64 then 6
    else if size <= 128 then 7 else if size <= 256 then 8 else if size <= 512 then 9
    else if size <= 1024 then 10 else 11
  }

  /** The pages needed for a request larger than any chunk. */
  function PagesFor(size: nat): (k: nat)
    ensures size <= k * PAGE < size + PAGE
  {
    size / PAGE + if size % PAGE != 0 then 1 else 0
  }

  /** Chunks per page: PAGE >> sh */
  function Cap(sh: nat): nat
    requires IsShift(sh)
  {
    PAGE / Size(sh)
  }

  /** Chunks at the start of a page that hold the page's own bitmap. */
  function Reserved(sh: nat): nat
    requires IsShift(sh)
  {
    if sh >= EXACT_SHIFT then 0
    else if Cap(sh) / (Size(sh) * 8) == 0 then 1 else Cap(sh) / (Size(sh) * 8)
  }

  /** Words of in-page bitmap. */
  function MapWords(sh: nat): nat
    requires IsShift(sh)
  {
    Cap(sh) / 64
  }

  /** The reserved chunks are enough to hold the bitmap, and leave room for others. */
  lemma BitmapFits(sh: nat)
    requires IsShift(sh)
    ensures Size(sh) * Cap(sh) == PAGE && Reserved(sh) < Cap(sh)
    ensures sh < EXACT_SHIFT ==> MapWords(sh) * 64 == Cap(sh) && MapWords(sh) * 8 <= Reserved(sh) * Size(sh)
    ensures sh == EXACT_SHIFT ==> Cap(sh) == 64
    ensures sh > EXACT_SHIFT ==> Cap(sh) <= 32
    ensures Reserved(sh) + 1 < 64
  {
  }

  /** And they are no more than needed. */
  lemma BitmapTight(sh: nat)
    requires IsShift(sh)
    ensures sh < EXACT_SHIFT ==> (Reserved(sh) - 1) * Size(sh) < MapWords(sh) * 8
    ensures sh >= EXACT_SHIFT ==> Reserved(sh) == 0
  {
  }

  // ---------- pages ----------

  datatype View =
    | FreeHead(len: nat)                 // first page of a free run
    | FreeBody(head: nat)                // further page of the free run that starts at `head`
    | RunHead(len: nat)                  // first page of an allocated page run
    | RunBody(head: nat)
    | Chunks(shift: nat, used: set<nat>) // cut into chunks; `used` are the ones handed out

  predicate IsFree(w: View) {
    w.FreeHead? || w.FreeBody?
  }

  /** Room for callers' chunks in a page of this class. */
  function Room(sh: nat): nat
    requires IsShift(sh)
  {
    if Reserved(sh) <= Cap(sh) then Cap(sh) - Reserved(sh) else 0
  }

  ghost predicate GoodChunks(sh: nat, used: set<nat>) {
    && IsShift(sh) && used != {}
    && forall c :: c in used ==> Reserved(sh) <= c < Cap(sh)
  }

  /** The room is the number of chunks that a page of the class can have in use. */
  lemma RoomCounts(sh: nat)
    requires IsShift(sh)
    ensures Room(sh) == |set c: nat | c < Cap(sh) && GoodChunks(sh, {c})|
  {
    BitmapFits(sh);
    RoomBelow(sh, Cap(sh));
  }

  lemma {:induction false} RoomBelow(sh: nat, hi: nat)
    requires IsShift(sh) && Reserved(sh) <= hi <= Cap(sh)
    ensures |set c: nat | c < hi && GoodChunks(sh, {c})| == hi - Reserved(sh)
    decreases hi
  {
    var chunks := set c: nat | c < hi && GoodChunks(sh, {c});
    if hi == Reserved(sh) {
      forall c: nat | c < hi
        ensures !GoodChunks(sh, {c})
      {
        assert c in {c};
      }
      assert chunks == {};
    } else {
      RoomBelow(sh, hi - 1);
      assert GoodChunks(sh, {hi - 1});
      assert chunks == (set c: nat | c < hi - 1 && GoodChunks(sh, {c})) + {hi - 1};
    }
  }

  /** Page `i` fits into a tiling of the table by allocated runs and maximal free runs. */
  ghost predicate TileOk(v: seq<View>, i: int)
    requires 0 <= i < |v|
  {
    match v[i]
    case FreeHead(len) =>
      && 1 <= len && i + len <= |v|
      && (forall j :: i < j < i + len ==> v[j] == FreeBody(i))
      && (i + len < |v| ==> !IsFree(v[i + len]))
    case FreeBody(h) => h < i && v[h].FreeHead? && i < h + v[h].len
    case RunHead(len) =>
      && 1 <= len && i + len <= |v|
      && (forall j :: i < j < i + len ==> v[j] == RunBody(i))
    case RunBody(h) => h < i && v[h].RunHead? && i < h + v[h].len
    case Chunks(sh, used) => GoodChunks(sh, used)
  }

  ghost predicate Tiled(v: seq<View>) {
    forall i {:trigger TileOk(v, i)} :: 0 <= i < |v| ==> TileOk(v, i)
  }

  // ---------- taking a run of pages out of a free run ----------

  /** The first `k` pages of the free run at `i` become an allocated run; what is left of
      the run stays free. */
  ghost function TakeAt(v: seq<View>, i: nat, k: nat, j: int): View
    requires i < |v| && v[i].FreeHead? && 0 <= j < |v|
  {
    var len := v[i].len;
    if j == i then RunHead(k)
    else if i < j < i + k then RunBody(i)
    else if j == i + k && k < len then FreeHead(len - k)
    else if i + k < j < i + len then FreeBody(i + k)
    else v[j]
  }

  ghost function Take(v: seq<View>, i: nat, k: nat): seq<View>
    requires i < |v| && v[i].FreeHead?
  {
    seq(|v|, j requires 0 <= j < |v| => TakeAt(v, i, k, j))
  }

  /** The head of the run that page `j` belongs to, and the run's length. */
  ghost function Head(v: seq<View>, j: int): int
    requires 0 <= j < |v|
  {
    if v[j].FreeBody? || v[j].RunBody? then v[j].head else j
  }

  ghost function Len(v: seq<View>, j: int): int
    requires 0 <= j < |v|
  {
    if v[j].FreeHead? || v[j].RunHead? then v[j].len else 1
  }

  /** Every page lies in the run of its head; two runs do not overlap. */
  lemma Runs(v: seq<View>, i: int, j: int)
    requires Tiled(v) && 0 <= i < |v| && 0 <= j < |v|
    ensures 0 <= Head(v, j) <= j < Head(v, j) + Len(v, Head(v, j)) <= |v|
    ensures Head(v, i) == i && i < j < i + Len(v, i) ==> Head(v, j) == i && v[i].FreeHead? == v[j].FreeBody?
    ensures Head(v, i) == i && Head(v, j) == j && i < j ==> i + Len(v, i) <= j
    ensures v[j].FreeBody? ==> v[v[j].head].FreeHead?
    ensures v[j].RunBody? ==> v[v[j].head].RunHead?
  {
    assert TileOk(v, i) && TileOk(v, j);
    assert TileOk(v, Head(v, j));
  }

  lemma TakeTileInside(v: seq<View>, i: nat, k: nat, j: int)
    requires Tiled(v) && i < |v| && v[i].FreeHead? && 1 <= k <= v[i].len && i <= j < i + v[i].len && j < |v|
    ensures TileOk(Take(v, i, k), j)
  {
    assert TileOk(v, i);
  }

  lemma TakeTileOutside(v: seq<View>, i: nat, k: nat, j: int)
    requires Tiled(v) && i < |v| && v[i].FreeHead? && 1 <= k <= v[i].len && 0 <= j < |v| && !(i <= j < i + v[i].len)
    ensures TileOk(Take(v, i, k), j)
  {
    assert TileOk(v, i) && TileOk(v, j);
    Runs(v, i, j);
    Runs(v, j, i);
    Runs(v, i, Head(v, j));
    Runs(v, Head(v, j), i);
  }

  lemma TakeTile(v: seq<View>, i: nat, k: nat, j: int)
    requires Tiled(v) && i < |v| && v[i].FreeHead? && 1 <= k <= v[i].len && 0 <= j < |v|
    ensures TileOk(Take(v, i, k), j)
  {
    if i <= j < i + v[i].len { TakeTileInside(v, i, k, j); } else { TakeTileOutside(v, i, k, j); }
  }

  lemma TakeTiled(v: seq<View>, i: nat, k: nat)
    requires Tiled(v) && i < |v| && v[i].FreeHead? && 1 <= k <= v[i].len
    ensures Tiled(Take(v, i, k))
  {
    forall j | 0 <= j < |v|
      ensures TileOk(Take(v, i, k), j)
    {
      TakeTile(v, i, k, j);
    }
  }

  // ---------- giving a run of pages back ----------

  /** Where the free run that results from freeing pages [i, i+k) starts and ends. */
  ghost function MergeLo(v: seq<View>, i: nat): nat
    requires i < |v|
  {
    if i > 0 && v[i - 1].FreeHead? then i - 1
    else if i > 0 && v[i - 1].FreeBody? then v[i - 1].head
    else i
  }

  ghost function MergeHi(v: seq<View>, i: nat, k: nat): nat {
    if i + k < |v| && v[i + k].FreeHead? then i + k + v[i + k].len else i + k
  }

  ghost function GiveAt(v: seq<View>, a: nat, b: nat, j: int): View
    requires 0 <= j < |v|
  {
    if j == a && a < b then FreeHead(b - a)
    else if a < j < b then FreeBody(a)
    else v[j]
  }

  ghost function Give(v: seq<View>, i: nat, k: nat): seq<View>
    requires i < |v|
  {
    seq(|v|, j requires 0 <= j < |v| => GiveAt(v, MergeLo(v, i), MergeHi(v, i, k), j))
  }

  /** Pages [i, i+k) are an allocated run, or one page of chunks. */
  ghost predicate Givable(v: seq<View>, i: nat, k: nat) {
    && i < |v| && 1 <= k && i + k <= |v|
    && (v[i] == RunHead(k) || (v[i].Chunks? && k == 1))
  }

  /** After a free page comes the rest of its run or a page that is not free. */
  lemma AfterFree(v: seq<View>, x: int)
    requires Tiled(v) && 0 <= x && x + 1 < |v| && IsFree(v[x])
    ensures !v[x + 1].FreeHead?
    ensures v[x + 1].FreeBody? ==> v[x + 1].head == Head(v, x)
  {
    assert TileOk(v, x) && TileOk(v, x + 1);
    assert TileOk(v, Head(v, x)) && TileOk(v, Head(v, x + 1));
  }

  lemma MergeBounds(v: seq<View>, i: nat, k: nat)
    requires Tiled(v) && Givable(v, i, k)
    ensures MergeLo(v, i) <= i && i + k <= MergeHi(v, i, k) <= |v|
    ensures MergeLo(v, i) < i ==> v[MergeLo(v, i)] == FreeHead(i - MergeLo(v, i))
    ensures MergeLo(v, i) > 0 ==> !IsFree(v[MergeLo(v, i) - 1])
    ensures MergeHi(v, i, k) < |v| ==> !IsFree(v[MergeHi(v, i, k)])
    ensures i + k < |v| ==> !v[i + k].FreeBody? && !v[i + k].RunBody?
    ensures MergeHi(v, i, k) > i + k ==> v[i + k] == FreeHead(MergeHi(v, i, k) - (i + k))
  {
    assert TileOk(v, i);
    var a := MergeLo(v, i);
    if i > 0 { assert TileOk(v, i - 1); }
    assert TileOk(v, a);
    if a > 0 && IsFree(v[a - 1]) { AfterFree(v, a - 1); }
    if i + k < |v| { assert TileOk(v, i + k); Runs(v, i, i + k); Runs(v, Head(v, i + k), i); }
  }

  lemma GiveTileInside(v: seq<View>, i: nat, k: nat, j: int)
    requires Tiled(v) && Givable(v, i, k) && MergeLo(v, i) <= j < MergeHi(v, i, k) && j < |v|
    ensures TileOk(Give(v, i, k), j)
  {
    MergeBounds(v, i, k);
  }

  /** A run outside the merged stretch does not reach into it. */
  lemma GiveApart(v: seq<View>, i: nat, k: nat, j: int)
    requires Tiled(v) && Givable(v, i, k) && 0 <= j < |v| && !(MergeLo(v, i) <= j < MergeHi(v, i, k))
    ensures var h := Head(v, j); var a, b := MergeLo(v, i), MergeHi(v, i, k);
      0 <= h < |v| && (h + Len(v, h) <= a || b <= h)
  {
    MergeBounds(v, i, k);
    var h, a, b := Head(v, j), MergeLo(v, i), MergeHi(v, i, k);
    Runs(v, j, j);
    Runs(v, h, h);
    assert TileOk(v, i);
    Runs(v, h, a); Runs(v, a, h);
    Runs(v, h, i); Runs(v, i, h);
    Runs(v, a, j); Runs(v, i, j);
    if b > i + k { Runs(v, h, i + k); Runs(v, i + k, h); Runs(v, i + k, j); }
  }

  lemma GiveTileOutside(v: seq<View>, i: nat, k: nat, j: int)
    requires Tiled(v) && Givable(v, i, k) && 0 <= j < |v| && !(MergeLo(v, i) <= j < MergeHi(v, i, k))
    ensures TileOk(Give(v, i, k), j)
  {
    MergeBounds(v, i, k);
    GiveApart(v, i, k, j);
    assert TileOk(v, j);
    Runs(v, j, j);
  }

  lemma GiveTile(v: seq<View>, i: nat, k: nat, j: int)
    requires Tiled(v) && Givable(v, i, k) && 0 <= j < |v|
    ensures TileOk(Give(v, i, k), j)
  {
    if MergeLo(v, i) <= j < MergeHi(v, i, k) { GiveTileInside(v, i, k, j); } else { GiveTileOutside(v, i, k, j); }
  }

  lemma GiveTiled(v: seq<View>, i: nat, k: nat)
    requires Tiled(v) && Givable(v, i, k)
    ensures Tiled(Give(v, i, k))
  {
    forall j | 0 <= j < |v|
      ensures TileOk(Give(v, i, k), j)
    {
      GiveTile(v, i, k, j);
    }
  }
}
