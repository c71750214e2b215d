/** The statistics of a slab pool: for each class the number of chunks its pages hold and
    the number of them in use. */
module SlabCounts {
  import opened SlabModel
  import opened SlabBlocks

  datatype Stat = Stat(total: int, used: int, reqs: nat, fails: nat)

  /** The statistics of one class agree with the pages. */
  ghost predicate Counted(v: seq<View>, stats: seq<Stat>, slot: int)
    requires |stats| == SLOTS && 0 <= slot < SLOTS
  {
    stats[slot].used == Sum(UsedCount(slot), v) && stats[slot].total == Sum(RoomCount(slot), v)
  }

  ghost predicate Tally(v: seq<View>, stats: seq<Stat>) {
    |stats| == SLOTS && forall slot {:trigger Counted(v, stats, slot)} :: 0 <= slot < SLOTS ==> Counted(v, stats, slot)
  }

  /** Only the counters matter, not the numbers of requests and failures. */
  lemma SameTally(v: seq<View>, stats: seq<Stat>, slot: nat, reqs: nat, fails: nat)
    requires Tally(v, stats) && slot < SLOTS
    ensures Tally(v, stats[slot := stats[slot].(reqs := reqs, fails := fails)])
  {
    var stats' := stats[slot := stats[slot].(reqs := reqs, fails := fails)];
    forall x | 0 <= x < SLOTS
      ensures Counted(v, stats', x)
    {
      assert Counted(v, stats, x);
    }
  }

  lemma TakeTally(v: seq<View>, stats: seq<Stat>, i: nat, k: nat)
    requires Tiled(v) && i < |v| && v[i].FreeHead? && 1 <= k <= v[i].len && Tally(v, stats)
    ensures Tally(Take(v, i, k), stats)
  {
    var v' := Take(v, i, k);
    forall slot | 0 <= slot < SLOTS
      ensures Counted(v', stats, slot)
    {
      assert Counted(v, stats, slot);
      TakeCounts(v, i, k, slot);
    }
  }

  /** The counters of a class, `used` and `total` changed by these amounts. */
  function Bump(stats: seq<Stat>, slot: nat, used: int, total: int): seq<Stat>
    requires slot < |stats|
  {
    var t := stats[slot];
    stats[slot := t.(used := t.used + used, total := t.total + total)]
  }

  /** The numbers of requests and failures are the same. */
  ghost predicate SameRequests(stats: seq<Stat>, stats': seq<Stat>) {
    |stats'| == |stats| && forall x :: 0 <= x < |stats| ==>
      stats'[x].reqs == stats[x].reqs && stats'[x].fails == stats[x].fails
  }

  /** A page changes its chunks, or becomes a page of chunks. */
  lemma SwapTally(v: seq<View>, stats: seq<Stat>, i: nat, x: View)
    requires i < |v| && !IsFree(v[i]) && x.Chunks? && IsShift(x.shift) && Tally(v, stats)
    requires v[i].Chunks? ==> v[i].shift == x.shift
    ensures var slot := x.shift - MIN_SHIFT;
      Tally(v[i := x], Bump(stats, slot, |x.used| - (if v[i].Chunks? then |v[i].used| else 0),
                            if v[i].Chunks? then 0 else Room(x.shift)))
  {
    var slot := x.shift - MIN_SHIFT;
    var stats' := Bump(stats, slot, |x.used| - (if v[i].Chunks? then |v[i].used| else 0),
                       if v[i].Chunks? then 0 else Room(x.shift));
    var v' := v[i := x];
    forall y | 0 <= y < SLOTS
      ensures Counted(v', stats', y)
    {
      assert Counted(v, stats, y);
      SwapCounts(v, i, x, y);
    }
  }

  /** A page goes back; if its last chunk was just cleared, the class loses its room. */
  lemma GiveTally(v: seq<View>, stats: seq<Stat>, i: nat, k: nat)
    requires Tiled(v) && Givable(v, i, k) && Tally(v, stats)
    requires v[i].Chunks? ==> IsShift(v[i].shift)
    ensures v[i].Chunks? ==>
      Tally(Give(v, i, k), Bump(stats, v[i].shift - MIN_SHIFT, 0 - |v[i].used|, 0 - Room(v[i].shift)))
    ensures !v[i].Chunks? ==> Tally(Give(v, i, k), stats)
  {
    var v' := Give(v, i, k);
    var stats' :=
      if v[i].Chunks? then Bump(stats, v[i].shift - MIN_SHIFT, 0 - |v[i].used|, 0 - Room(v[i].shift)) else stats;
    forall y | 0 <= y < SLOTS
      ensures Counted(v', stats', y)
    {
      assert Counted(v, stats, y);
      GiveCounts(v, i, k, y);
    }
  }
}
