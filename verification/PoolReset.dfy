/** The reset of an allocation pool: all blocks are rewound, and the list of cleanup actions is
    left as it is.  When that list survives, and when not. */
module PoolReset {
  import opened Common
  import opened PoolModel
  import opened PoolState

  /** Blocks up to `k` of the chain are empty again. */
  ghost predicate Rewound(before: map<nat, Block>, after: map<nat, Block>, chain: seq<nat>, head: nat, k: nat) {
    && after.Keys == before.Keys && k <= |chain|
    && (forall i :: 0 <= i < k ==>
        chain[i] in before && after[chain[i]] == before[chain[i]].(last := chain[i] + head, failed := 0))
    && (forall b :: b in before && b !in chain[..k] ==> after[b] == before[b])
  }

  lemma RewoundMore(before: map<nat, Block>, after: map<nat, Block>, chain: seq<nat>, head: nat, k: nat)
    requires Rewound(before, after, chain, head, k) && k < |chain| && Distinct(chain) && chain[k] in before
    ensures after[chain[k]] == before[chain[k]]
    ensures Rewound(before, after[chain[k] := before[chain[k]].(last := chain[k] + head, failed := 0)], chain, head,
                    k + 1)
  {
    assert chain[..k + 1] == chain[..k] + [chain[k]];
  }

  lemma RewindAt(s: State, head: nat, psize: nat, k: nat)
    requires MemOk(s.m, head, psize) && k < |s.m.chain|
    ensures var b := s.m.chain[k];
      b in s.m.blocks && b > 0 && s.m.blocks[b].next == After(s.m.chain, k)
        && (k + 1 < |s.m.chain| ==> After(s.m.chain, k) != 0)
  {
    BlockFacts(s.m, head, psize, k);
    assert BlockOk(s.m, head, psize, k);
  }

  /** Block `k` is rewound next. */
  lemma RewindNext(s: State, head: nat, psize: nat, after: map<nat, Block>, k: nat)
    requires Good(s, head, psize) && k < |s.m.chain| && Rewound(s.m.blocks, after, s.m.chain, head, k)
    ensures var p := s.m.chain[k];
      && p in after && after[p].next == After(s.m.chain, k) && (k + 1 < |s.m.chain| ==> After(s.m.chain, k) != 0)
      && Rewound(s.m.blocks, after[p := after[p].(last := p + head, failed := 0)], s.m.chain, head, k + 1)
  {
    RewindAt(s, head, psize, k);
    RewoundMore(s.m.blocks, after, s.m.chain, head, k);
  }

  /** Every block is set back to just behind the place of a full header. */
  method RewindBlocks(before: map<nat, Block>, pool: nat, head: nat, ghost s: State, ghost psize: nat)
    returns (after: map<nat, Block>)
    requires Good(s, head, psize) && before == s.m.blocks && pool == s.pool
    ensures Rewound(before, after, s.m.chain, head, |s.m.chain|)
  {
    after := before;
    var p := pool;
    ghost var k := 0;
    RewindAt(s, head, psize, 0);
    while p != 0
      invariant k <= |s.m.chain| && p == After(s.m.chain, k - 1) && Rewound(before, after, s.m.chain, head, k)
      invariant k < |s.m.chain| ==> p != 0
      decreases |s.m.chain| - k
    {
      RewindNext(s, head, psize, after, k);
      after := after[p := after[p].(last := p + head, failed := 0)];
      p := after[p].next;
      k := k + 1;
    }
  }

  /** The header at `h` lies in the part of a further block that the rewind leaves out: there
      the header of a block is smaller than the place a reset keeps free for one. */
  ghost predicate Sheltered(m: Mem, head: nat, h: nat) {
    exists i :: 1 <= i < |m.chain| && m.chain[i] <= h && h + CLEANUP <= m.chain[i] + head
  }

  ghost predicate AllSheltered(s: State, head: nat) {
    forall k :: 0 <= k < |s.lists.cchain| ==> Sheltered(s.m, head, s.lists.cchain[k])
  }

  /** The extents of the headers on the list. */
  ghost function ListHeaders(s: State): map<nat, Extent> {
    map id | id in s.m.live && OnList(s.lists, id) :: s.m.live[id]
  }

  ghost predicate OnList(lists: Lists, id: nat) {
    exists k :: 0 <= k < |lists.cchain| && lists.cchain[k] in lists.cids && lists.cids[lists.cchain[k]] == id
  }

  /** A pool with all blocks rewound that has given out `live` and goes on with its list of
      cleanup actions. */
  ghost function KeepList(s: State, blocks: map<nat, Block>, left: map<nat, nat>, live: map<nat, Extent>): State {
    s.(m := Mem(left, blocks, s.m.chain, live), lists := s.lists.(lchain := []),
       current := s.pool, cur := 0, large := 0, wasReset := true)
  }

  /** A reset: the list goes on if all its headers are sheltered, and is given up otherwise. */
  ghost function AfterReset(s: State, head: nat, blocks: map<nat, Block>, left: map<nat, nat>): State {
    if AllSheltered(s, head) then KeepList(s, blocks, left, ListHeaders(s))
    else
      var s' := KeepList(s, blocks, left, map[]);
      s'.(lists := s'.lists.(cchain := []), stale := true)
  }

  /** All blocks have been rewound, and they are all that is held. */
  ghost predicate IsReset(s: State, head: nat, psize: nat, blocks: map<nat, Block>, left: map<nat, nat>,
                          freed: seq<nat>) {
    && Good(s, head, psize) && s.pending == 0 && Rewound(s.m.blocks, blocks, s.m.chain, head, |s.m.chain|)
    && FreedAll(s.m.regions, left, freed) && (forall r :: r in left <==> r in s.m.chain)
  }

  /** A header on the list lies in its home block, behind the block's own header. */
  lemma HeaderHome(s: State, head: nat, psize: nat, k: nat) returns (id: nat, i: nat)
    requires Good(s, head, psize) && s.pending == 0 && k < |s.lists.cchain|
    ensures var h := s.lists.cchain[k];
      && id in s.m.live && s.m.live[id] == Extent(s.m.live[id].home, h, CLEANUP, CleanupHeader)
      && h in s.lists.cids && id == s.lists.cids[h]
      && i < |s.m.chain| && s.m.live[id].home == s.m.chain[i]
      && s.m.chain[i] + (if i == 0 then head else DATA) <= h && h + CLEANUP <= s.m.chain[i] + psize
  {
    NonePending(s, head, psize);
    assert CleanupOk(s.m, s.lists, k);
    id := s.lists.cids[s.lists.cchain[k]];
    assert ExtentOk(s.m, head, id);
    i :| 0 <= i < |s.m.chain| && s.m.chain[i] == s.m.live[id].home;
    assert BlockOk(s.m, head, psize, i);
    assert BlockOk(s.m, head, psize, 0);
  }

  /** Only one block holds a given address. */
  lemma OneHome(m: Mem, head: nat, psize: nat, i: nat, j: nat, h: nat)
    requires MemOk(m, head, psize) && i < |m.chain| && j < |m.chain|
    requires m.chain[i] <= h < m.chain[i] + psize && m.chain[j] <= h < m.chain[j] + psize
    ensures i == j
  {
    assert BlockOk(m, head, psize, i) && BlockOk(m, head, psize, j);
    assert RegionOk(m.regions, m.chain[i], m.chain[j]);
  }

  /** A sheltered header, seen from its home block. */
  lemma ShelteredHome(s: State, head: nat, psize: nat, k: nat) returns (id: nat, i: nat)
    requires Good(s, head, psize) && s.pending == 0 && k < |s.lists.cchain|
    ensures var h := s.lists.cchain[k];
      && id in s.m.live && s.m.live[id] == Extent(s.m.live[id].home, h, CLEANUP, CleanupHeader)
      && h in s.lists.cids && id == s.lists.cids[h]
      && i < |s.m.chain| && s.m.live[id].home == s.m.chain[i]
      && s.m.chain[i] + (if i == 0 then head else DATA) <= h && h + CLEANUP <= s.m.chain[i] + psize
      && (Sheltered(s.m, head, h) <==> h + CLEANUP <= s.m.chain[i] + head)
  {
    id, i := HeaderHome(s, head, psize, k);
    var h := s.lists.cchain[k];
    if Sheltered(s.m, head, h) {
      var j :| 1 <= j < |s.m.chain| && s.m.chain[j] <= h && h + CLEANUP <= s.m.chain[j] + head;
      OneHome(s.m, head, psize, i, j, h);
    }
  }

  lemma ResetBlocks(s: State, head: nat, psize: nat, blocks: map<nat, Block>, left: map<nat, nat>, freed: seq<nat>,
                    live: map<nat, Extent>)
    requires IsReset(s, head, psize, blocks, left, freed)
    ensures RegionsOk(left)
    ensures forall i {:trigger BlockOk(Mem(left, blocks, s.m.chain, live), head, psize, i)} ::
      0 <= i < |s.m.chain| ==> BlockOk(Mem(left, blocks, s.m.chain, live), head, psize, i)
  {
    var m' := Mem(left, blocks, s.m.chain, live);
    forall r, q | r in left && q in left
      ensures RegionOk(left, r, q)
    {
      assert RegionOk(s.m.regions, r, q);
    }
    forall i | 0 <= i < |m'.chain|
      ensures BlockOk(m', head, psize, i)
    {
      assert BlockOk(s.m, head, psize, i);
    }
  }

  lemma ResetPace(blocks: map<nat, Block>, before: map<nat, Block>, chain: seq<nat>, head: nat)
    requires Rewound(before, blocks, chain, head, |chain|) && chain != []
    ensures Paced(Fails(blocks, chain), 0)
  {
    var f := Fails(blocks, chain);
    forall i | 0 <= i < |f|
      ensures f[i] == 0
    {
      assert f[i] == FailedAt(blocks, chain[i]);
    }
  }

  /** A sheltered header stays where it is. */
  lemma ShelteredExtent(s: State, head: nat, psize: nat, blocks: map<nat, Block>, left: map<nat, nat>, freed: seq<nat>,
                        id: nat)
    requires IsReset(s, head, psize, blocks, left, freed) && AllSheltered(s, head) && id in ListHeaders(s)
    ensures ExtentOk(Mem(left, blocks, s.m.chain, ListHeaders(s)), head, id)
  {
    var k :| 0 <= k < |s.lists.cchain| && s.lists.cchain[k] in s.lists.cids && s.lists.cids[s.lists.cchain[k]] == id;
    var id', i := ShelteredHome(s, head, psize, k);
    var b := s.m.chain[i];
    assert ExtentOk(s.m, head, id);
    assert Sheltered(s.m, head, s.lists.cchain[k]);
    assert b in blocks && blocks[b].last == b + head;
    assert i > 0 && b != s.m.chain[0];
  }

  lemma ShelteredMem(s: State, head: nat, psize: nat, blocks: map<nat, Block>, left: map<nat, nat>, freed: seq<nat>)
    requires IsReset(s, head, psize, blocks, left, freed) && AllSheltered(s, head)
    ensures MemOk(Mem(left, blocks, s.m.chain, ListHeaders(s)), head, psize)
  {
    var m' := Mem(left, blocks, s.m.chain, ListHeaders(s));
    ResetBlocks(s, head, psize, blocks, left, freed, ListHeaders(s));
    forall id | id in m'.live
      ensures ExtentOk(m', head, id)
    {
      ShelteredExtent(s, head, psize, blocks, left, freed, id);
    }
    forall id, jd | id in m'.live && jd in m'.live
      ensures ApartOk(m', id, jd)
    {
      assert ApartOk(s.m, id, jd);
    }
  }

  lemma LeftBelow(regions: map<nat, nat>, left: map<nat, nat>, freed: seq<nat>, top: nat)
    requires FreedAll(regions, left, freed) && forall r :: r in regions ==> r + regions[r] <= top
    ensures forall r :: r in left ==> r + left[r] <= top
  {
  }

  lemma ListHousing(m: Mem, lists: Lists, live: map<nat, Extent>, m': Mem, lists': Lists)
    requires ListsOk(m, lists) && m'.live == live && lists' == lists.(lchain := [])
      && (forall r :: r in m'.regions ==> r in m'.chain)
    requires forall k :: 0 <= k < |lists.cchain| && lists.cchain[k] in lists.cids ==>
      var id := lists.cids[lists.cchain[k]]; id in m.live ==> id in live && live[id] == m.live[id]
    ensures ListsOk(m', lists')
  {
    forall k | 0 <= k < |lists.cchain|
      ensures CleanupOk(m', lists', k)
    {
      assert CleanupOk(m, lists, k);
    }
  }

  lemma ShelteredLists(s: State, head: nat, psize: nat, blocks: map<nat, Block>, left: map<nat, nat>, freed: seq<nat>)
    requires IsReset(s, head, psize, blocks, left, freed) && AllSheltered(s, head)
    ensures Headers(KeepList(s, blocks, left, ListHeaders(s)))
  {
    var live := ListHeaders(s);
    var s' := KeepList(s, blocks, left, live);
    NonePending(s, head, psize);
    ShelteredMem(s, head, psize, blocks, left, freed);
    NonePending(s', head, psize);
    forall k | 0 <= k < |s.lists.cchain| && s.lists.cchain[k] in s.lists.cids
      && s.lists.cids[s.lists.cchain[k]] in s.m.live
      ensures s.lists.cids[s.lists.cchain[k]] in live
    {
      assert OnList(s.lists, s.lists.cids[s.lists.cchain[k]]);
    }
    ListHousing(s.m, s.lists, live, s'.m, s'.lists);
  }

  /** After every reset allocation can go on. */
  lemma ResetGood(s: State, head: nat, psize: nat, blocks: map<nat, Block>, left: map<nat, nat>, freed: seq<nat>)
    requires IsReset(s, head, psize, blocks, left, freed)
    ensures Good(AfterReset(s, head, blocks, left), head, psize)
  {
    if AllSheltered(s, head) {
      KeptGood(s, head, psize, blocks, left, freed);
    } else {
      DroppedGood(s, head, psize, blocks, left, freed);
    }
  }

  lemma KeptGood(s: State, head: nat, psize: nat, blocks: map<nat, Block>, left: map<nat, nat>, freed: seq<nat>)
    requires IsReset(s, head, psize, blocks, left, freed) && AllSheltered(s, head)
    ensures Good(KeepList(s, blocks, left, ListHeaders(s)), head, psize)
  {
    ResetPace(blocks, s.m.blocks, s.m.chain, head);
    LeftBelow(s.m.regions, left, freed, s.top);
    ShelteredMem(s, head, psize, blocks, left, freed);
    ShelteredLists(s, head, psize, blocks, left, freed);
  }

  lemma EmptyMem(s: State, head: nat, psize: nat, blocks: map<nat, Block>, left: map<nat, nat>, freed: seq<nat>)
    requires IsReset(s, head, psize, blocks, left, freed)
    ensures MemOk(Mem(left, blocks, s.m.chain, map[]), head, psize)
  {
    ResetBlocks(s, head, psize, blocks, left, freed, map[]);
  }

  lemma NoHeaders(s: State)
    requires s.lists.lchain == [] && s.lists.cchain == [] && s.large == 0 && s.stale && s.pending == 0
    requires Settled(s) == s.m && forall r :: r in s.m.regions ==> r in s.m.chain
    ensures Headers(s)
  {
  }

  lemma DroppedGood(s: State, head: nat, psize: nat, blocks: map<nat, Block>, left: map<nat, nat>, freed: seq<nat>)
    requires IsReset(s, head, psize, blocks, left, freed) && !AllSheltered(s, head)
    ensures Good(AfterReset(s, head, blocks, left), head, psize)
  {
    ResetPace(blocks, s.m.blocks, s.m.chain, head);
    LeftBelow(s.m.regions, left, freed, s.top);
    EmptyMem(s, head, psize, blocks, left, freed);
    var s' := AfterReset(s, head, blocks, left);
    NonePending(s', head, psize);
    NoHeaders(s');
  }

  /** If the pool could keep its list after a reset, whatever it counts as given out, then the
      headers on the list are sheltered. */
  lemma KeptSheltered(s: State, head: nat, psize: nat, blocks: map<nat, Block>, left: map<nat, nat>, freed: seq<nat>,
                      live: map<nat, Extent>, k: nat)
    requires IsReset(s, head, psize, blocks, left, freed) && k < |s.lists.cchain|
    requires Good(KeepList(s, blocks, left, live), head, psize)
    ensures Sheltered(s.m, head, s.lists.cchain[k])
  {
    var s' := KeepList(s, blocks, left, live);
    var id, i := HeaderHome(s', head, psize, k);
    assert BlockOk(s.m, head, psize, i) && ExtentOk(s'.m, head, id);
  }

  /** The list of cleanup actions can be kept over a reset if and only if all its headers are
      sheltered. */
  lemma ListSurvives(s: State, head: nat, psize: nat, blocks: map<nat, Block>, left: map<nat, nat>, freed: seq<nat>)
    requires IsReset(s, head, psize, blocks, left, freed)
    ensures (exists live :: Good(KeepList(s, blocks, left, live), head, psize)) <==> AllSheltered(s, head)
  {
    if AllSheltered(s, head) {
      KeptGood(s, head, psize, blocks, left, freed);
      assert Good(KeepList(s, blocks, left, ListHeaders(s)), head, psize);
    }
    forall live, k | Good(KeepList(s, blocks, left, live), head, psize) && 0 <= k < |s.lists.cchain|
      ensures Sheltered(s.m, head, s.lists.cchain[k])
    {
      KeptSheltered(s, head, psize, blocks, left, freed, live, k);
    }
  }

  /** The `size` bytes at `at` are what a later request can be given: free in some block, or in
      memory that malloc has not given yet. */
  ghost predicate CanBeGiven(m: Mem, at: nat, size: nat) {
    && size > 0
    && ((exists i ::
          0 <= i < |m.chain| && m.chain[i] in m.blocks && m.blocks[m.chain[i]].last <= at &&
          at + size <= m.blocks[m.chain[i]].end)
        || (forall r :: r in m.regions ==> Apart(at, size, r, m.regions[r])))
  }

  /** After a reset no later request can be given memory of a header on the list, if and only if
      the header is sheltered. */
  lemma GivenAgain(s: State, head: nat, psize: nat, blocks: map<nat, Block>, left: map<nat, nat>, freed: seq<nat>,
                   k: nat)
    requires IsReset(s, head, psize, blocks, left, freed) && k < |s.lists.cchain|
    ensures (forall at, size {:trigger CanBeGiven(Mem(left, blocks, s.m.chain, map[]), at, size)} ::
               CanBeGiven(Mem(left, blocks, s.m.chain, map[]), at, size) ==>
                 Apart(s.lists.cchain[k], CLEANUP, at, size))
      <==> Sheltered(s.m, head, s.lists.cchain[k])
  {
    var m' := Mem(left, blocks, s.m.chain, map[]);
    var h := s.lists.cchain[k];
    var id, i := ShelteredHome(s, head, psize, k);
    assert BlockOk(s.m, head, psize, i);
    if Sheltered(s.m, head, h) {
      forall at, size | CanBeGiven(m', at, size)
        ensures Apart(h, CLEANUP, at, size)
      {
        NotGiven(s, head, psize, blocks, left, freed, i, h, at, size);
      }
    } else {
      var at := if h < s.m.chain[i] + head then s.m.chain[i] + head else h;
      assert m'.blocks[m'.chain[i]].last <= at && at + 1 <= m'.blocks[m'.chain[i]].end;
      assert CanBeGiven(m', at, 1) && !Apart(h, CLEANUP, at, 1);
    }
  }

  lemma NotGiven(s: State, head: nat, psize: nat, blocks: map<nat, Block>, left: map<nat, nat>, freed: seq<nat>, i: nat,
                 h: nat, at: nat, size: nat)
    requires IsReset(s, head, psize, blocks, left, freed) && i < |s.m.chain|
    requires s.m.chain[i] <= h && h + CLEANUP <= s.m.chain[i] + head
    requires CanBeGiven(Mem(left, blocks, s.m.chain, map[]), at, size)
    ensures Apart(h, CLEANUP, at, size)
  {
    var b := s.m.chain[i];
    assert BlockOk(s.m, head, psize, i);
    assert b in left && left[b] == psize;
    if j :|
      0 <= j < |s.m.chain| && s.m.chain[j] in blocks && blocks[s.m.chain[j]].last <= at
        && at + size <= blocks[s.m.chain[j]].end {
      assert BlockOk(s.m, head, psize, j);
      assert RegionOk(s.m.regions, b, s.m.chain[j]);
    }
  }
}
