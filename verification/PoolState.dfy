/** An allocation pool at one moment, as a value: its memory, its lists, where searches
    start; what every operation does to it, and the loops that only walk over it. */
module PoolState {
  import opened Common
  import opened PoolModel

  datatype Event = Called(handler: nat, data: nat) | Freed(base: nat)

  // ---------- malloc ----------

  /** What malloc has given and not got back, where it gives from next, and which of the next
      requests it refuses. */
  datatype Heap = Heap(regions: map<nat, nat>, top: nat, refusals: seq<bool>)

  /** A fresh region, aligned to 16 bytes and apart from all others, or 0. */
  method Malloc(h: Heap, size: nat) returns (p: nat, h': Heap)
    requires size > 0 && forall r :: r in h.regions ==> r + h.regions[r] <= h.top
    ensures h'.top >= h.top && (h.refusals == [] ==> p != 0 && h'.refusals == [])
    ensures p == 0 ==> h'.regions == h.regions
    ensures p != 0 ==> Fresh(h.regions, p, size) && h'.regions == h.regions[p := size] && p + size <= h'.top
  {
    var rest := if h.refusals == [] then [] else h.refusals[1..];
    if h.refusals != [] && h.refusals[0] {
      return 0, h.(refusals := rest);
    }
    p := (h.top / 16 + 1) * 16;
    h' := Heap(h.regions[p := size], p + size, rest);
  }

  // ---------- the walk over the blocks that could not serve a request ----------

  ghost predicate Linked(blocks: map<nat, Block>, chain: seq<nat>, i: int)
    requires 0 <= i < |chain|
  {
    chain[i] in blocks && chain[i] > 0 && blocks[chain[i]].next == After(chain, i)
  }

  ghost predicate AllLinked(blocks: map<nat, Block>, chain: seq<nat>) {
    Distinct(chain) && forall i {:trigger Linked(blocks, chain, i)} :: 0 <= i < |chain| ==> Linked(blocks, chain, i)
  }

  /** Blocks `cur` to `k` of the chain have had their counters raised, and `c` is where
      searches start now. */
  ghost predicate Raising(blocks: map<nat, Block>, blocks': map<nat, Block>, chain: seq<nat>, cur: nat, k: nat,
                          c: nat) {
    && SameLayout(blocks, blocks') && cur <= c <= k < |chain|
    && (forall x :: x in blocks && x !in chain ==> blocks'[x] == blocks[x])
    && (forall i :: 0 <= i < |chain| ==>
        FailedAt(blocks', chain[i]) == FailedAt(blocks, chain[i]) + if cur <= i < k then 1 else 0)
    && (forall i :: cur <= i < c ==> FailedAt(blocks, chain[i]) == 5)
    && (forall i :: c <= i < k ==> FailedAt(blocks, chain[i]) <= 4)
  }

  lemma LastLinked(blocks: map<nat, Block>, chain: seq<nat>, k: nat)
    requires AllLinked(blocks, chain) && k < |chain|
    ensures chain[k] in blocks && (blocks[chain[k]].next == 0 <==> k + 1 == |chain|)
  {
    assert Linked(blocks, chain, k);
    if k + 1 < |chain| { assert Linked(blocks, chain, k + 1); }
  }

  lemma RaisingStep(blocks: map<nat, Block>, blocks': map<nat, Block>, chain: seq<nat>, cur: nat, k: nat, c: nat)
    requires AllLinked(blocks, chain) && Raising(blocks, blocks', chain, cur, k, c) && k + 1 < |chain|
    requires Paced(Fails(blocks, chain), cur)
    ensures chain[k] in blocks' && blocks'[chain[k]].next == chain[k + 1]
      && blocks'[chain[k]].failed == FailedAt(blocks, chain[k])
    ensures var b := chain[k]; var count := blocks'[b].failed;
      var blocks1 := blocks'[b := blocks'[b].(failed := count + 1)];
      Raising(blocks, blocks1, chain, cur, k + 1, if count > 4 then k + 1 else c)
  {
    assert Linked(blocks, chain, k);
    var f := Fails(blocks, chain);
    assert f[k] == FailedAt(blocks, chain[k]);
    if c < k { assert f[c] == FailedAt(blocks, chain[c]) && f[c] >= f[k]; }
    assert f[k] <= 5;
  }

  /** Counts a failure in every block from `start` on but the last, and moves the start of
      searches past blocks that have failed too often. */
  method RaiseCounters(before: map<nat, Block>, start: nat, ghost chain: seq<nat>, ghost cur: nat)
    returns (blocks: map<nat, Block>, current: nat, t: nat, ghost k: nat, ghost c: nat)
    requires AllLinked(before, chain) && Paced(Fails(before, chain), cur) && start == chain[cur]
    ensures k + 1 == |chain| && t == chain[k] && t in blocks && Raising(before, blocks, chain, cur, k, c)
    ensures c < |chain| && current == chain[c]
  {
    blocks, current, t, k, c := before, start, start, cur, cur;
    LastLinked(before, chain, k);
    while blocks[t].next != 0
      invariant cur <= k < |chain| && t == chain[k] && t in blocks
      invariant Raising(before, blocks, chain, cur, k, c) && current == chain[c]
      decreases |chain| - k
    {
      LastLinked(before, chain, k);
      RaisingStep(before, blocks, chain, cur, k, c);
      var failed := blocks[t].failed;
      blocks := blocks[t := blocks[t].(failed := failed + 1)];
      if failed > 4 {
        current := blocks[t].next;
        c := k + 1;
      }
      t := blocks[t].next;
      k := k + 1;
      LastLinked(before, chain, k);
    }
    LastLinked(before, chain, k);
  }

  // ---------- what is freed and called in the end ----------

  function Calls(q: seq<nat>, cleanups: map<nat, Cleanup>): seq<Event> {
    if q == [] then [] else Calls(q[..|q| - 1], cleanups) + OneCall(q[|q| - 1], cleanups)
  }

  function OneCall(h: nat, cleanups: map<nat, Cleanup>): seq<Event> {
    if h in cleanups && cleanups[h].handler != 0 then [Called(cleanups[h].handler, cleanups[h].data)] else []
  }

  function Frees(q: seq<nat>): seq<Event> {
    seq(|q|, i requires 0 <= i < |q| => Freed(q[i]))
  }

  ghost predicate NoCalls(q: seq<Event>) {
    forall i :: 0 <= i < |q| ==> q[i].Freed?
  }

  /** Nothing has happened, or one region was freed. */
  ghost predicate AtMostOneFree(q: seq<Event>, q': seq<Event>) {
    q' == q || (|q'| == |q| + 1 && q' == q + [q'[|q|]] && q'[|q|].Freed?)
  }

  /** The regions freed so far: each once, each of them held before, none held now. */
  ghost predicate FreedAll(regions: map<nat, nat>, left: map<nat, nat>, freed: seq<nat>) {
    && Distinct(freed) && left == (map r | r in regions && r !in freed :: regions[r])
    && (forall r :: r in freed ==> r in regions)
  }

  lemma FreedMore(regions: map<nat, nat>, left: map<nat, nat>, freed: seq<nat>, p: nat)
    requires FreedAll(regions, left, freed) && p in left
    ensures FreedAll(regions, left - {p}, freed + [p])
  {
  }

  lemma FreesMore(q: seq<nat>, p: nat)
    ensures Frees(q + [p]) == Frees(q) + [Freed(p)]
  {
  }

  /** The outcome of a small request. */
  ghost predicate Served(s: State, s': State, p: nat, id: nat, size: nat, kind: Kind) {
    && (p == 0 ==> s' == s.(top := s'.top))
    && (p != 0 ==> Issued(s.m, s'.m, id, p, size, kind) && s'.issued == s.issued + 1)
    && s'.lists == s.lists && s'.pending == s.pending && s'.max == s.max && s'.pool == s.pool
    && s'.wasReset == s.wasReset && s'.stale == s.stale
  }

  // ---------- the pool as a value ----------

  /** `pending` is a large region without a header so far; `stale` says that a reset may have
      given the memory of the cleanup list away. */
  datatype State = State(m: Mem, lists: Lists, pool: nat, top: nat, max: nat, current: nat, cur: nat,
                         large: nat, cleanup: nat, issued: nat, wasReset: bool, pending: nat, stale: bool)

  ghost predicate Layout(s: State, head: nat, psize: nat) {
    && MemOk(s.m, head, psize) && s.m.chain[0] == s.pool
    && (forall r :: r in s.m.regions ==> r + s.m.regions[r] <= s.top)
    && (forall id :: id in s.m.live ==> id < s.issued)
    && s.max == (if psize - head < MAX_FROM_POOL then psize - head else MAX_FROM_POOL)
  }

  /** Searches start at `current`, the first block that has not failed too often. */
  ghost predicate Pace(s: State) {
    && Paced(Fails(s.m.blocks, s.m.chain), s.cur) && s.current == s.m.chain[s.cur]
    && (!s.wasReset ==> CountingDown(Fails(s.m.blocks, s.m.chain), s.cur))
  }

  ghost function Settled(s: State): Mem {
    s.m.(regions := s.m.regions - {s.pending})
  }

  ghost predicate Headers(s: State) {
    && ListsOk(Settled(s), s.lists)
    && s.large == After(s.lists.lchain, -1)
    && (if s.stale then s.lists.cchain == [] else s.cleanup == After(s.lists.cchain, -1))
  }

  ghost predicate Good(s: State, head: nat, psize: nat) {
    Layout(s, head, psize) && Pace(s) && Headers(s)
  }

  /** One extent more, at `p`; all others, all regions and the blocks in use stay. */
  ghost predicate Issued(m: Mem, m': Mem, id: nat, p: nat, size: nat, kind: Kind) {
    && Keeps(m, m') && id !in m.live && id in m'.live && p > 0
    && m'.live == m.live[id := m'.live[id]]
    && m'.live[id].base == p && m'.live[id].size == size && m'.live[id].kind == kind
    && (forall r :: r in m'.regions && r !in m'.chain ==> r in m.regions)
    && (forall r :: r in m.regions ==> m'.regions[r] == m.regions[r])
    && (forall r :: r in m'.regions ==> r in m.regions || r in m'.chain)
  }

  ghost function Empty(): State {
    State(Mem(map[], map[], [], map[]), Lists(map[], [], map[], map[], [], map[]),
          0, 0, 0, 0, 0, 0, 0, 0, false, 0, false)
  }

  /** A pool of one empty block at `p`. */
  ghost function OneBlock(head: nat, psize: nat, p: nat, top: nat): State {
    State(Mem(map[p := psize], map[p := Block(p + head, p + psize, 0, 0)], [p], map[]),
          Lists(map[], [], map[], map[], [], map[]), p, top,
          if 0 <= psize - head < MAX_FROM_POOL then psize - head else MAX_FROM_POOL, p, 0, 0, 0, 0, false, 0, false)
  }

  lemma Created(head: nat, psize: nat, p: nat, top: nat)
    requires IsHead(head) && psize % WORD == 0 && head + 2 * LARGE <= psize < ADDRESSES && p > 0 && p % 16 == 0
      && p + psize <= top
    ensures Good(OneBlock(head, psize, p, top), head, psize)
  {
    var s := OneBlock(head, psize, p, top);
    assert BlockOk(s.m, head, psize, 0);
    assert Settled(s).regions == s.m.regions;
  }

  lemma FirstBlock(m: Mem, head: nat, psize: nat)
    requires MemOk(m, head, psize)
    ensures m.chain[0] in m.blocks && m.blocks[m.chain[0]].end == m.chain[0] + psize
  {
    assert BlockOk(m, head, psize, 0);
  }

  lemma WordEnd(b: nat, psize: nat)
    requires b % 16 == 0 && psize % WORD == 0
    ensures (b + psize) % WORD == 0
  {
  }

  /** A block of the chain stands in memory that malloc has given. */
  lemma BlockThere(m: Mem, head: nat, psize: nat, k: nat)
    requires MemOk(m, head, psize) && k < |m.chain|
    ensures m.chain[k] in m.blocks && m.chain[k] in m.regions && BlockOk(m, head, psize, k)
    ensures m.chain[k] > 0 && m.chain[k] % 16 == 0
  {
    assert BlockOk(m, head, psize, k);
    assert RegionOk(m.regions, m.chain[k], m.chain[k]);
  }

  lemma BlockFacts(m: Mem, head: nat, psize: nat, k: nat)
    requires MemOk(m, head, psize) && k < |m.chain|
    ensures var b := m.chain[k];
      && b in m.blocks && 0 < b < m.blocks[b].last <= m.blocks[b].end && m.blocks[b].end % WORD == 0
      && (m.blocks[b].next == 0 <==> k + 1 == |m.chain|)
      && (m.blocks[b].next != 0 ==> k + 1 < |m.chain| && m.blocks[b].next == m.chain[k + 1])
  {
    BlockThere(m, head, psize, k);
    WordEnd(m.chain[k], psize);
    if k + 1 < |m.chain| { BlockThere(m, head, psize, k + 1); }
  }

  lemma ChainLinked(m: Mem, head: nat, psize: nat, b: nat)
    requires MemOk(m, head, psize) && b !in m.regions
    ensures AllLinked(m.blocks, m.chain) && b !in m.chain
  {
    forall i | 0 <= i < |m.chain|
      ensures Linked(m.blocks, m.chain, i) && m.chain[i] != b
    {
      BlockFacts(m, head, psize, i);
      assert BlockOk(m, head, psize, i);
    }
  }

  lemma StillLinked(m: Mem, b: nat, blocks: map<nat, Block>)
    requires AllLinked(m.blocks, m.chain) && b !in m.chain && b in blocks && blocks == m.blocks[b := blocks[b]]
    ensures AllLinked(blocks, m.chain) && Fails(blocks, m.chain) == Fails(m.blocks, m.chain)
  {
    forall i | 0 <= i < |m.chain|
      ensures Linked(blocks, m.chain, i) && FailedAt(blocks, m.chain[i]) == FailedAt(m.blocks, m.chain[i])
    {
      assert Linked(m.blocks, m.chain, i);
    }
  }

  /** The header of a new block can be written before the block is linked. */
  lemma Unlinked(s: State, head: nat, psize: nat, b: nat, header: Block)
    requires Good(s, head, psize) && Fresh(s.m.regions, b, psize)
    ensures var blocks := s.m.blocks[b := header];
      b !in s.m.chain && AllLinked(blocks, s.m.chain) && Paced(Fails(blocks, s.m.chain), s.cur)
  {
    FreshRegions(s.m.regions, b, psize);
    ChainLinked(s.m, head, psize, b);
    StillLinked(s.m, b, s.m.blocks[b := header]);
  }

  lemma Refused(s: State, head: nat, psize: nat, top: nat)
    requires Good(s, head, psize) && s.top <= top
    ensures Good(s.(top := top), head, psize)
  {
    assert Settled(s.(top := top)) == Settled(s);
  }

  lemma CarvePace(blocks: map<nat, Block>, chain: seq<nat>, b: nat, last: nat)
    requires b in blocks
    ensures Fails(blocks[b := blocks[b].(last := last)], chain) == Fails(blocks, chain)
  {
    var blocks' := blocks[b := blocks[b].(last := last)];
    forall i | 0 <= i < |chain|
      ensures FailedAt(blocks', chain[i]) == FailedAt(blocks, chain[i])
    {
    }
  }

  lemma Carved(s: State, head: nat, psize: nat, k: nat, at: nat, size: nat, kind: Kind) returns (s': State)
    requires Good(s, head, psize) && k < |s.m.chain| && s.m.chain[k] in s.m.blocks && !kind.Whole?
    requires var b := s.m.chain[k]; s.m.blocks[b].last <= at && at + size <= s.m.blocks[b].end
    requires kind != User(false) ==> at % WORD == 0
    ensures s' == s.(m := Carve(s.m, k, at, size, kind, s.issued), issued := s.issued + 1)
    ensures Good(s', head, psize) && Issued(s.m, s'.m, s.issued, at, size, kind)
  {
    s' := s.(m := Carve(s.m, k, at, size, kind, s.issued), issued := s.issued + 1);
    CarveOk(s.m, head, psize, k, at, size, kind, s.issued);
    BlockFacts(s.m, head, psize, k);
    CarvePace(s.m.blocks, s.m.chain, s.m.chain[k], at + size);
    ListsKept(Settled(s), Settled(s'), s.lists);
  }

  /** The memory once a block, with raised counters before it, has been added. */
  lemma Appended(m: Mem, head: nat, psize: nat, b: nat, last: nat, before: map<nat, Block>, t: nat) returns (m': Mem)
    requires MemOk(m, head, psize) && Fresh(m.regions, b, psize) && t == m.chain[|m.chain| - 1]
    requires SameLayout(m.blocks[b := Block(last, b + psize, 0, 0)], before) && before[b].failed == 0 && t in before
    ensures b !in m.regions && b !in m.chain && t in m.blocks && t != b
    ensures m' == Mem(m.regions[b := psize], before[t := before[t].(next := b)][b := Block(b + DATA, b + psize, 0, 0)],
                      m.chain + [b], m.live)
    ensures MemOk(m', head, psize)
  {
    FreshRegions(m.regions, b, psize);
    ChainLinked(m, head, psize, b);
    var raised := map x | x in m.blocks :: if x == b then m.blocks[b] else before[x];
    LayoutOk(m, head, psize, raised);
    ExtendOk(m.(blocks := raised), head, psize, b);
    m' := Extend(m.(blocks := raised), b, psize);
    assert BlockOk(m, head, psize, |m.chain| - 1);
    assert m'.blocks == before[t := before[t].(next := b)][b := Block(b + DATA, b + psize, 0, 0)];
  }

  /** ... and one extent has been cut from it. */
  lemma BlockMem(m: Mem, head: nat, psize: nat, b: nat, at: nat, size: nat, kind: Kind, id: nat,
                 before: map<nat, Block>, t: nat)
    returns (m': Mem)
    requires MemOk(m, head, psize) && Fresh(m.regions, b, psize) && id !in m.live && !kind.Whole?
    requires at == b + DATA && size <= psize - head && t == m.chain[|m.chain| - 1]
    requires SameLayout(m.blocks[b := Block(at + size, b + psize, 0, 0)], before) && before[b].failed == 0
      && t in before
    ensures m' == Mem(m.regions[b := psize], before[t := before[t].(next := b)], m.chain + [b],
                      m.live[id := Extent(b, at, size, kind)])
    ensures MemOk(m', head, psize) && Issued(m, m', id, at, size, kind)
  {
    var m2 := Appended(m, head, psize, b, at + size, before, t);
    assert m2.chain[|m.chain|] == b;
    CarveOk(m2, head, psize, |m.chain|, at, size, kind, id);
    m' := Carve(m2, |m.chain|, at, size, kind, id);
    assert m'.blocks == before[t := before[t].(next := b)];
    BlockKept(m, m', b, id);
  }

  lemma BlockKept(m: Mem, m': Mem, b: nat, id: nat)
    requires b !in m.regions && id !in m.live && m'.chain == m.chain + [b] && b in m'.regions
      && m'.regions == m.regions[b := m'.regions[b]]
    requires id in m'.live && m'.live == m.live[id := m'.live[id]]
    ensures Keeps(m, m')
  {
    assert b in m'.chain;
  }

  /** The block added, its counters and its one extent, all together. */
  lemma BlockAdded(s: State, head: nat, psize: nat, b: nat, at: nat, size: nat, kind: Kind,
                   blocks1: map<nat, Block>, before: map<nat, Block>, t: nat, k: nat, cur: nat, top: nat)
                     returns (s': State)
    requires Good(s, head, psize) && Fresh(s.m.regions, b, psize) && b !in s.m.chain && !kind.Whole?
    requires at == b + DATA && size <= s.max
    requires blocks1 == s.m.blocks[b := Block(at + size, b + psize, 0, 0)]
    requires k + 1 == |s.m.chain| && t == s.m.chain[k] && Raising(blocks1, before, s.m.chain, s.cur, k, cur)
      && t in before
    requires b + psize <= top && s.top <= top
    ensures s' == s.(m := s'.m, cur := cur, current := s.m.chain[cur], issued := s.issued + 1, top := top)
    ensures s'.m.blocks == before[t := before[t].(next := b)] && s'.m.regions == s.m.regions[b := psize]
    ensures s'.m.chain == s.m.chain + [b]
    ensures Good(s', head, psize) && Served(s, s', at, s.issued, size, kind)
  {
    var m' := BlockMem(s.m, head, psize, b, at, size, kind, s.issued, before, t);
    s' := s.(m := m', cur := cur, current := s.m.chain[cur], issued := s.issued + 1, top := top);
    AddedPace(s.m, b, blocks1, before, t, k, s.cur, cur);
    AddedLayout(s, s', head, psize, b);
    SettledKept(s, s', b);
  }

  lemma AddedLayout(s: State, s': State, head: nat, psize: nat, b: nat)
    requires Layout(s, head, psize) && MemOk(s'.m, head, psize) && s'.m.chain == s.m.chain + [b] && s'.pool == s.pool
      && s'.max == s.max
    requires s'.m.regions == s.m.regions[b := psize] && b + psize <= s'.top && s.top <= s'.top
    requires s.issued in s'.m.live && s'.m.live == s.m.live[s.issued := s'.m.live[s.issued]]
      && s'.issued == s.issued + 1
    ensures Layout(s', head, psize)
  {
  }

  /** The block at `b` has gone to the end of the chain, filled up to `last`; all blocks searched
      but the one before it have failed once more, and nothing else has changed. */
  ghost predicate Grown(s: State, m': Mem, b: nat, last: nat, end: nat) {
    && m'.chain == s.m.chain + [b] && b in m'.blocks && m'.blocks[b] == Block(last, end, 0, 0)
    && forall i :: 0 <= i < |s.m.chain| ==> GrownAt(s, m', b, i)
  }

  ghost predicate GrownAt(s: State, m': Mem, b: nat, i: int)
    requires 0 <= i < |s.m.chain|
  {
    var c, tail := s.m.chain[i], |s.m.chain| - 1;
    && c in s.m.blocks && c in m'.blocks
    && m'.blocks[c].last == s.m.blocks[c].last && m'.blocks[c].end == s.m.blocks[c].end
    && m'.blocks[c].failed == s.m.blocks[c].failed + (if s.cur <= i < tail then 1 else 0)
    && m'.blocks[c].next == if i < tail then s.m.blocks[c].next else b
  }

  lemma GrownBy(s: State, s': State, head: nat, psize: nat, b: nat, blocks1: map<nat, Block>,
                before: map<nat, Block>, k: nat, cur: nat)
    requires MemOk(s.m, head, psize) && b !in s.m.chain && k + 1 == |s.m.chain| && b in blocks1
    requires blocks1 == s.m.blocks[b := blocks1[b]] && blocks1[b].next == blocks1[b].failed == 0
    requires Raising(blocks1, before, s.m.chain, s.cur, k, cur)
    requires var t := s.m.chain[k];
      t in before && s'.m.blocks == before[t := before[t].(next := b)] && s'.m.chain == s.m.chain + [b]
    ensures Grown(s, s'.m, b, blocks1[b].last, blocks1[b].end)
  {
    forall i | 0 <= i < |s.m.chain|
      ensures GrownAt(s, s'.m, b, i)
    {
      BlockFacts(s.m, head, psize, i);
      var c := s.m.chain[i];
      assert c in blocks1 && FailedAt(blocks1, c) == s.m.blocks[c].failed && FailedAt(before, c) == before[c].failed;
    }
    assert b !in s.m.chain;
  }

  /** Sets up the block at `b`, serves the request from it and appends it to the chain. */
  method SetUpBlock(blocks: map<nat, Block>, start: nat, b: nat, psize: nat, size: nat,
                    ghost s: State, ghost head: nat, ghost kind: Kind, ghost top: nat)
    returns (p: nat, blocks': map<nat, Block>, current: nat, ghost s': State)
    requires Good(s, head, psize) && blocks == s.m.blocks && start == s.current && size <= s.max && !kind.Whole?
    requires Fresh(s.m.regions, b, psize) && b + psize <= top && s.top <= top
    ensures Good(s', head, psize) && p > 0 && Served(s, s', p, s.issued, size, kind)
    ensures s' == s.(m := s'.m, cur := s'.cur, current := current, issued := s.issued + 1, top := top)
    ensures s'.m.blocks == blocks' && s'.m.regions == s.m.regions[b := psize]
    ensures s'.m.chain == s.m.chain + [b] && p == b + DATA && Grown(s, s'.m, b, p + size, b + psize)
  {
    p := AlignWord(b + DATA);
    assert p == b + DATA;
    Unlinked(s, head, psize, b, Block(p + size, b + psize, 0, 0));
    var blocks1 := blocks[b := Block(p + size, b + psize, 0, 0)];
    var blocks2, c, t, k, cur := RaiseCounters(blocks1, start, s.m.chain, s.cur);
    s' := BlockAdded(s, head, psize, b, p, size, kind, blocks1, blocks2, t, k, cur, top);
    GrownBy(s, s', head, psize, b, blocks1, blocks2, k, cur);
    blocks', current := blocks2[t := blocks2[t].(next := b)], c;
  }

  lemma SettledKept(s: State, s': State, b: nat)
    requires Headers(s) && s'.lists == s.lists && s'.large == s.large && s'.cleanup == s.cleanup
    requires s'.pending == s.pending && s'.stale == s.stale
    requires Keeps(s.m, s'.m) && b in s'.m.chain && s'.m.regions.Keys == s.m.regions.Keys + {b}
    ensures Headers(s')
  {
    ListsKept(Settled(s), Settled(s'), s.lists);
  }

  lemma AddedPace(m: Mem, b: nat, blocks1: map<nat, Block>, before: map<nat, Block>, t: nat, k: nat, cur: nat,
                  cur': nat)
    requires m.chain != [] && b !in m.chain && k + 1 == |m.chain| && t == m.chain[k] && t in before && t != b
    requires b in blocks1 && blocks1[b].failed == 0 && blocks1 == m.blocks[b := blocks1[b]]
    requires Raising(blocks1, before, m.chain, cur, k, cur') && Paced(Fails(m.blocks, m.chain), cur)
    ensures var blocks2 := before[t := before[t].(next := b)];
      && Paced(Fails(blocks2, m.chain + [b]), cur')
      && (CountingDown(Fails(m.blocks, m.chain), cur) ==> CountingDown(Fails(blocks2, m.chain + [b]), cur'))
  {
    var f, f' := Fails(m.blocks, m.chain), Fails(before[t := before[t].(next := b)], m.chain + [b]);
    forall i | 0 <= i < |f|
      ensures f'[i] == f[i] + if cur <= i < |f| - 1 then 1 else 0
      ensures f[i] == FailedAt(blocks1, m.chain[i])
    {
      assert (m.chain + [b])[i] == m.chain[i];
    }
    RaisedPaced(f, cur, f', cur');
  }

  // ---------- large allocations ----------

  /** The outcome of a request: at `p` a new extent of `size` bytes, nothing else taken from
      or given to callers; or 0 and nothing given. */
  ghost predicate Granted(s: State, s': State, p: nat, id: nat, size: nat, kind: Kind) {
    && s'.pending == s.pending && s'.wasReset == s.wasReset && s'.stale == s.stale
    && s'.lists.cchain == s.lists.cchain && s'.lists.cleanups == s.lists.cleanups
    && s'.pool == s.pool && s'.max == s.max
    && (forall x :: x in s.m.live ==> x in s'.m.live && s'.m.live[x] == s.m.live[x])
    && (forall x :: x in s'.m.live && x !in s.m.live && x != id ==> s'.m.live[x].kind == LargeHeader)
    && (p != 0 ==>
        id !in s.m.live && id in s'.m.live && s'.m.live[id].base == p && s'.m.live[id].size == size
          && s'.m.live[id].kind == kind)
    && (p == 0 ==> s'.m.live == s.m.live)
  }

  lemma LargeFacts(s: State, k: nat)
    requires Headers(s) && k <= |s.lists.lchain|
    ensures After(s.lists.lchain, k - 1) != 0 <==> k < |s.lists.lchain|
    ensures k < |s.lists.lchain| ==>
      s.lists.lchain[k] in s.lists.larges && s.lists.larges[s.lists.lchain[k]].next == After(s.lists.lchain, k)
  {
    if k < |s.lists.lchain| { assert LargeOk(Settled(s), s.lists, k); }
  }

  /** `s'` is `s` with the region `p` added and pending. */
  ghost predicate WithRegion(s: State, s': State, p: nat, size: nat, id: nat) {
    && id == s.issued && id !in s.m.live && p !in s.m.regions && p !in s.m.chain
    && s'.m == AddRegion(s.m, p, size, id) && s'.pending == p && s'.issued == id + 1
    && s'.lists == s.lists && s'.wasReset == s.wasReset && s'.max == s.max && s'.pool == s.pool && s'.stale == s.stale
  }

  /** Header `k`, the first of the front five that holds no region, holds `p` now. */
  ghost predicate ReusedAt(s: Lists, s': Lists, k: nat, p: nat) {
    && k < 5 && k < |s.lchain| && s.lchain[k] in s.larges && s.larges[s.lchain[k]].alloc == 0
    && (forall j :: 0 <= j < k ==> s.lchain[j] in s.larges && s.larges[s.lchain[j]].alloc != 0)
    && s'.lchain == s.lchain && s'.larges == s.larges[s.lchain[k] := s.larges[s.lchain[k]].(alloc := p)]
  }

  /** All of the front five headers hold regions. */
  ghost predicate FrontFull(s: Lists) {
    forall j :: 0 <= j < 5 && j < |s.lchain| ==> s.lchain[j] in s.larges && s.larges[s.lchain[j]].alloc != 0
  }

  /** A new header, first on the list, holds `p`. */
  ghost predicate AddedFirst(s: Lists, s': Lists, p: nat) {
    && FrontFull(s) && s'.lchain != [] && s'.lchain[1..] == s.lchain && s'.lchain[0] !in s.lchain
    && s'.larges == s.larges[s'.lchain[0] := Large(if s.lchain == [] then 0 else s.lchain[0], p)]
  }

  /** What a request for a region of its own does to the list of headers. */
  ghost predicate Listed(s: Lists, s': Lists, p: nat) {
    if p == 0 then s' == s else (exists k :: ReusedAt(s, s', k, p)) || AddedFirst(s, s', p)
  }

  lemma RegionAdded(s: State, head: nat, psize: nat, p: nat, size: nat, top: nat) returns (s': State)
    requires Good(s, head, psize) && s.pending == 0 && Fresh(s.m.regions, p, size) && p + size <= top && s.top <= top
    ensures s' == s.(m := AddRegion(s.m, p, size, s.issued), issued := s.issued + 1, pending := p, top := top)
    ensures Good(s', head, psize) && WithRegion(s, s', p, size, s.issued)
  {
    s' := s.(m := AddRegion(s.m, p, size, s.issued), issued := s.issued + 1, pending := p, top := top);
    assert s.issued !in s.m.live;
    AddRegionOk(s.m, head, psize, p, size, s.issued);
    NoZero(s.m);
    assert Settled(s').regions.Keys == Settled(s).regions.Keys;
    ListsKept(Settled(s), Settled(s'), s.lists);
  }

  /** With no region pending, all are settled. */
  lemma NonePending(s: State, head: nat, psize: nat)
    requires MemOk(s.m, head, psize) && s.pending == 0
    ensures Settled(s) == s.m && 0 !in s.m.regions
  {
    NoZero(s.m);
    assert s.m.regions - {0} == s.m.regions;
  }

  lemma NoZero(m: Mem)
    requires RegionsOk(m.regions)
    ensures 0 !in m.regions
  {
    if 0 in m.regions { RegionSize(m.regions, 0); }
  }

  lemma Refilled(s: State, head: nat, psize: nat, k: nat) returns (s': State)
    requires Good(s, head, psize) && s.pending != 0 && s.pending in s.m.regions && s.pending !in s.m.chain
    requires k < |s.lists.lchain| && s.lists.lchain[k] in s.lists.larges && s.lists.larges[s.lists.lchain[k]].alloc == 0
    ensures s' == s.(lists := Refill(s.lists, k, s.pending), pending := 0) && Good(s', head, psize)
  {
    s' := s.(lists := Refill(s.lists, k, s.pending), pending := 0);
    NoZero(s.m);
    assert Settled(s').regions == s.m.regions;
    assert Settled(s').regions.Keys == Settled(s).regions.Keys + {s.pending};
    RefillOk(Settled(s), Settled(s'), s.lists, k, s.pending);
  }

  /** No room for the header: the region goes back. */
  lemma Returned(s: State, s1: State, s2: State, head: nat, psize: nat, p: nat, size: nat, id: nat) returns (s': State)
    requires Good(s, head, psize) && WithRegion(s, s1, p, size, id) && Good(s2, head, psize) && s2 == s1.(top := s2.top)
    requires p != 0 && s.pending == 0
    ensures s' == s2.(m := s2.m.(regions := s2.m.regions - {p}, live := s'.m.live), pending := 0)
    ensures Good(s', head, psize) && s'.m.live == s.m.live && s'.lists == s.lists
  {
    s' := s2.(m := DropRegion(s2.m, p), pending := 0);
    DropRegionOk(s2.m, head, psize, p);
    NoZero(s.m);
    forall x | x in s.m.live
      ensures s.m.live[x].home != p
    {
      HomeHeld(s.m, head, psize, x);
    }
    assert s'.m.live == s.m.live;
    assert Settled(s').regions == Settled(s).regions;
    assert Settled(s') == Settled(s);
  }

  lemma HeaderApart(s: State, s': State, head: nat, psize: nat, h: nat, id: nat)
    requires Good(s, head, psize) && Good(s', head, psize) && Served(s, s', h, id, LARGE, LargeHeader) && h != 0
    ensures h !in s.lists.lchain
  {
    forall k | 0 <= k < |s.lists.lchain|
      ensures Housed(s'.m, s.lists.lids, s.lists.lchain[k], LARGE, LargeHeader) && s.lists.lids[s.lists.lchain[k]] != id
    {
      assert LargeOk(Settled(s), s.lists, k);
    }
    HeaderNew(s'.m, head, psize, s.lists.lids, s.lists.lchain, h, id, LARGE, LargeHeader);
  }

  lemma Pushed(s: State, s1: State, s2: State, head: nat, psize: nat, h: nat, hid: nat, p: nat, size: nat, id: nat)
    returns (s': State)
    requires WithRegion(s, s1, p, size, id) && Good(s1, head, psize) && p != 0 && s.pending == 0
    requires Good(s2, head, psize) && Served(s1, s2, h, hid, LARGE, LargeHeader) && h != 0
    ensures s' == s2.(lists := PushLarge(s2.lists, h, p, hid), large := h, pending := 0)
    ensures Good(s', head, psize) && Granted(s, s', p, id, size, Whole) && h !in s.lists.lchain
  {
    s' := s2.(lists := PushLarge(s2.lists, h, p, hid), large := h, pending := 0);
    HeaderApart(s1, s2, head, psize, h, hid);
    NoZero(s2.m);
    assert Settled(s').regions == s2.m.regions;
    PushLargeOk(s2.m, s2.lists, h, p, hid);
    assert Settled(s') == s2.m;
  }

  // ---------- giving back ----------

  lemma Emptied(s: State, head: nat, psize: nat, k: nat) returns (s': State)
    requires Good(s, head, psize) && s.pending == 0
    requires k < |s.lists.lchain| && s.lists.lchain[k] in s.lists.larges && s.lists.larges[s.lists.lchain[k]].alloc != 0
    ensures var p := s.lists.larges[s.lists.lchain[k]].alloc;
      p in s.m.regions && s' == s.(m := DropRegion(s.m, p), lists := Refill(s.lists, k, 0))
    ensures Good(s', head, psize)
  {
    var p := s.lists.larges[s.lists.lchain[k]].alloc;
    s' := s.(m := DropRegion(s.m, p), lists := Refill(s.lists, k, 0));
    NonePending(s, head, psize);
    assert LargeOk(s.m, s.lists, k);
    DropRegionOk(s.m, head, psize, p);
    EmptyOk(s.m, head, psize, s.lists, k);
    assert Settled(s') == s'.m;
  }

  /** The regions freed so far are those of the first `k` headers. */
  ghost predicate FreedUpTo(lists: Lists, freed: seq<nat>, k: nat) {
    && k <= |lists.lchain|
    && (forall j :: 0 <= j < k ==> lists.lchain[j] in lists.larges)
    && (forall j :: 0 <= j < k && lists.larges[lists.lchain[j]].alloc != 0 ==>
        lists.larges[lists.lchain[j]].alloc in freed)
    && (forall r :: r in freed ==>
        exists j :: 0 <= j < k && lists.lchain[j] in lists.larges && lists.larges[lists.lchain[j]].alloc == r)
    && 0 !in freed
  }

  /** What the walk over the large regions finds at header `k`. */
  lemma FreeingFacts(s: State, head: nat, psize: nat, left: map<nat, nat>, freed: seq<nat>, k: nat)
    requires Good(s, head, psize) && s.pending == 0 && FreedAll(s.m.regions, left, freed)
      && FreedUpTo(s.lists, freed, k)
    requires After(s.lists.lchain, k - 1) != 0
    ensures k < |s.lists.lchain| && s.lists.lchain[k] in s.lists.larges && Mapped(left, s.lists.lchain[k], LARGE)
    ensures s.lists.larges[s.lists.lchain[k]].next == After(s.lists.lchain, k)
    ensures var a := s.lists.larges[s.lists.lchain[k]].alloc;
      (a != 0 ==> a in left && Mapped(left - {a}, s.lists.lchain[k], LARGE) && FreedUpTo(s.lists, freed + [a], k + 1))
      && (a == 0 ==> FreedUpTo(s.lists, freed, k + 1))
  {
    NonePending(s, head, psize);
    LargeFacts(s, k);
    assert LargeOk(s.m, s.lists, k);
    var a := s.lists.larges[s.lists.lchain[k]].alloc;
    BlocksLeft(s, head, psize, left, freed, k);
    HousedMapped(s.m, head, psize, s.lists.lids, s.lists.lchain[k], LARGE, LargeHeader, left);
    if a != 0 {
      NotYetFreed(s, freed, k);
      HousedMapped(s.m, head, psize, s.lists.lids, s.lists.lchain[k], LARGE, LargeHeader, left - {a});
      FreedOneMore(s.lists, freed, k);
    }
  }

  lemma FreedOneMore(lists: Lists, freed: seq<nat>, k: nat)
    requires FreedUpTo(lists, freed, k) && k < |lists.lchain| && lists.lchain[k] in lists.larges
      && lists.larges[lists.lchain[k]].alloc != 0
    ensures FreedUpTo(lists, freed + [lists.larges[lists.lchain[k]].alloc], k + 1)
  {
    var a := lists.larges[lists.lchain[k]].alloc;
    var freed' := freed + [a];
    forall r | r in freed'
      ensures exists j :: 0 <= j < k + 1 && lists.lchain[j] in lists.larges && lists.larges[lists.lchain[j]].alloc == r
    {
      if r == a {
        assert lists.larges[lists.lchain[k]].alloc == r;
      } else {
        assert r in freed;
      }
    }
  }

  lemma NotYetFreed(s: State, freed: seq<nat>, k: nat)
    requires ListsOk(s.m, s.lists) && FreedUpTo(s.lists, freed, k) && k < |s.lists.lchain|
      && s.lists.lchain[k] in s.lists.larges
    requires s.lists.larges[s.lists.lchain[k]].alloc != 0
    ensures s.lists.larges[s.lists.lchain[k]].alloc !in freed
  {
    forall j | 0 <= j < k
      ensures s.lists.lchain[j] in s.lists.larges
        && s.lists.larges[s.lists.lchain[j]].alloc != s.lists.larges[s.lists.lchain[k]].alloc
    {
      assert AllocOk(s.lists, j, k) && AllocOk(s.lists, k, j);
    }
  }

  /** No block is among the regions freed. */
  lemma BlocksLeft(s: State, head: nat, psize: nat, left: map<nat, nat>, freed: seq<nat>, k: nat)
    requires Good(s, head, psize) && s.pending == 0 && FreedAll(s.m.regions, left, freed)
      && FreedUpTo(s.lists, freed, k)
    ensures forall b :: b in s.m.chain ==> b in left && b in s.m.regions && left[b] == s.m.regions[b]
  {
    NonePending(s, head, psize);
    forall j | 0 <= j < k
      ensures s.lists.larges[s.lists.lchain[j]].alloc !in s.m.chain || s.lists.larges[s.lists.lchain[j]].alloc == 0
    {
      assert LargeOk(s.m, s.lists, j);
    }
    forall b | b in s.m.chain
      ensures b in s.m.regions && b !in freed
    {
      var i :| 0 <= i < |s.m.chain| && s.m.chain[i] == b;
      assert BlockOk(s.m, head, psize, i);
    }
  }

  lemma Covered(s: State, freed: seq<nat>, r: nat)
    requires ListsOk(s.m, s.lists) && FreedUpTo(s.lists, freed, |s.lists.lchain|) && r in s.m.regions && r != 0
    ensures r in s.m.chain || r in freed
  {
    if r !in s.m.chain {
      assert Held(s.lists, r);
      var j :| 0 <= j < |s.lists.lchain| && s.lists.lchain[j] in s.lists.larges
        && s.lists.larges[s.lists.lchain[j]].alloc == r;
    }
  }

  lemma OnlyBlocksLeft(s: State, head: nat, psize: nat, left: map<nat, nat>, freed: seq<nat>)
    requires Good(s, head, psize) && s.pending == 0 && FreedAll(s.m.regions, left, freed)
    requires FreedUpTo(s.lists, freed, |s.lists.lchain|)
    ensures forall r :: r in left <==> r in s.m.chain
  {
    BlocksLeft(s, head, psize, left, freed, |s.lists.lchain|);
    NonePending(s, head, psize);
    forall r | r in left
      ensures r in s.m.chain
    {
      Covered(s, freed, r);
    }
  }

  lemma CleanupFacts(s: State, head: nat, psize: nat, k: nat)
    requires Good(s, head, psize) && s.pending == 0 && k <= |s.lists.cchain|
    ensures After(s.lists.cchain, k - 1) != 0 <==> k < |s.lists.cchain|
    ensures k < |s.lists.cchain| ==> var c := s.lists.cchain[k];
      c in s.lists.cleanups && s.lists.cleanups[c].next == After(s.lists.cchain, k) && Mapped(s.m.regions, c, CLEANUP)
  {
    NonePending(s, head, psize);
    if k < |s.lists.cchain| {
      assert CleanupOk(s.m, s.lists, k);
      AllBlocksHeld(s, head, psize);
      HousedMapped(s.m, head, psize, s.lists.cids, s.lists.cchain[k], CLEANUP, CleanupHeader, s.m.regions);
    }
  }

  lemma AllBlocksHeld(s: State, head: nat, psize: nat)
    requires Good(s, head, psize)
    ensures forall b :: b in s.m.chain ==> b in s.m.regions
  {
    forall b | b in s.m.chain
      ensures b in s.m.regions
    {
      var i :| 0 <= i < |s.m.chain| && s.m.chain[i] == b;
      assert BlockOk(s.m, head, psize, i);
    }
  }

  lemma CallsMore(q: seq<nat>, cleanups: map<nat, Cleanup>, k: nat)
    requires k < |q|
    ensures Calls(q[..k + 1], cleanups) == Calls(q[..k], cleanups) + OneCall(q[k], cleanups)
  {
    assert q[..k + 1][..k] == q[..k];
  }

  /** The blocks before `k` have been freed, those from `k` on are all that is held. */
  ghost predicate BlockStage(s: State, left: map<nat, nat>, freed: seq<nat>, gone: seq<nat>, k: nat) {
    && k < |s.m.chain| && freed == gone + s.m.chain[..k] && FreedAll(s.m.regions, left, freed)
    && forall r :: r in left <==> r in s.m.chain[k..]
  }

  lemma BlocksStart(s: State, head: nat, psize: nat, left: map<nat, nat>, gone: seq<nat>)
    requires Good(s, head, psize) && FreedAll(s.m.regions, left, gone) && forall r :: r in left <==> r in s.m.chain
    ensures BlockStage(s, left, gone, gone, 0)
  {
    assert gone + s.m.chain[..0] == gone && s.m.chain[0..] == s.m.chain;
  }

  lemma ChainFacts(s: State, head: nat, psize: nat, left: map<nat, nat>, freed: seq<nat>, gone: seq<nat>, k: nat)
    requires Good(s, head, psize) && BlockStage(s, left, freed, gone, k)
    ensures var b := s.m.chain[k]; b in s.m.blocks && s.m.blocks[b].next == After(s.m.chain, k) && Mapped(left, b, DATA)
    ensures s.pool == s.m.chain[0]
  {
    BlockFacts(s.m, head, psize, k);
    assert BlockOk(s.m, head, psize, k);
    var b := s.m.chain[k];
    assert b == s.m.chain[k..][0];
    assert b in left && b + DATA <= b + left[b];
  }

  lemma TailApart(chain: seq<nat>, k: nat, left: map<nat, nat>)
    requires Distinct(chain) && k < |chain| && forall r :: r in left <==> r in chain[k..]
    ensures chain[k] in left && forall r :: r in left - {chain[k]} <==> r in chain[k + 1..]
  {
    assert chain[k..] == [chain[k]] + chain[k + 1..];
    assert chain[k] == chain[k..][0];
    var tail := chain[k + 1..];
    forall r | r in tail
      ensures r != chain[k]
    {
      var j :| 0 <= j < |tail| && tail[j] == r;
      assert chain[k + 1 + j] == r;
    }
  }

  lemma BlocksMore(s: State, head: nat, psize: nat, left: map<nat, nat>, freed: seq<nat>, gone: seq<nat>, k: nat)
    requires Good(s, head, psize) && BlockStage(s, left, freed, gone, k)
    ensures s.m.chain[k] in left && Frees(s.m.chain[..k + 1]) == Frees(s.m.chain[..k]) + [Freed(s.m.chain[k])]
    ensures After(s.m.chain, k) != 0 ==>
      k + 1 < |s.m.chain| && BlockStage(s, left - {s.m.chain[k]}, freed + [s.m.chain[k]], gone, k + 1)
    ensures After(s.m.chain, k) == 0 ==>
      && left - {s.m.chain[k]} == map[] && FreedAll(s.m.regions, map[], gone + s.m.chain)
         && s.m.chain[..k + 1] == s.m.chain
  {
    var chain, b := s.m.chain, s.m.chain[k];
    assert chain[..k + 1] == chain[..k] + [b];
    FreesMore(chain[..k], b);
    NotLast(s.m, head, psize, k);
    StageMore(s, left, freed, gone, k);
    if k + 1 == |chain| { assert chain[..k + 1] == chain; }
  }

  lemma NotLast(m: Mem, head: nat, psize: nat, k: nat)
    requires MemOk(m, head, psize) && k < |m.chain|
    ensures After(m.chain, k) != 0 <==> k + 1 < |m.chain|
  {
    BlockFacts(m, head, psize, k);
    assert BlockOk(m, head, psize, k);
  }

  lemma StageMore(s: State, left: map<nat, nat>, freed: seq<nat>, gone: seq<nat>, k: nat)
    requires BlockStage(s, left, freed, gone, k) && Distinct(s.m.chain)
    ensures var b := s.m.chain[k];
      && b in left && FreedAll(s.m.regions, left - {b}, freed + [b]) && freed + [b] == gone + s.m.chain[..k + 1]
      && (forall r :: r in left - {b} <==> r in s.m.chain[k + 1..])
      && (k + 1 == |s.m.chain| ==> left - {b} == map[])
  {
    var chain, b := s.m.chain, s.m.chain[k];
    TailApart(chain, k, left);
    assert freed + [b] == gone + (chain[..k] + [b]) && chain[..k + 1] == chain[..k] + [b];
    FreedMore(s.m.regions, left, freed, b);
  }

  lemma LeftOrFreed(regions: map<nat, nat>, left: map<nat, nat>, freed: seq<nat>, r: nat)
    requires FreedAll(regions, left, freed) && r in regions
    ensures r in left || r in freed
  {
  }

  lemma EveryOne(regions: map<nat, nat>, freed: seq<nat>)
    requires FreedAll(regions, map[], freed)
    ensures forall r :: r in freed <==> r in regions
  {
    forall r | r in regions
      ensures r in freed
    {
      LeftOrFreed(regions, map[], freed, r);
    }
  }

  // ---------- reading headers: only from memory that is held ----------

  function ReadLarge(larges: map<nat, Large>, l: nat, ghost regions: map<nat, nat>): Large
    requires l in larges && Mapped(regions, l, LARGE)
  {
    larges[l]
  }

  function ReadCleanup(cleanups: map<nat, Cleanup>, c: nat, ghost regions: map<nat, nat>): Cleanup
    requires c in cleanups && Mapped(regions, c, CLEANUP)
  {
    cleanups[c]
  }

  function ReadBlock(blocks: map<nat, Block>, b: nat, ghost regions: map<nat, nat>): Block
    requires b in blocks && Mapped(regions, b, DATA)
  {
    blocks[b]
  }

  /** free: only of a region that is held. */
  function FreeRegion(h: Heap, p: nat): Heap
    requires p in h.regions
  {
    h.(regions := h.regions - {p})
  }

  /** Every large region goes back, once. */
  method FreeLarges(h: Heap, large: nat, larges: map<nat, Large>, ghost s: State, ghost head: nat, ghost psize: nat)
    returns (h': Heap, events: seq<Event>, ghost freed: seq<nat>)
    requires Good(s, head, psize) && s.pending == 0 && h.regions == s.m.regions && large == s.large
      && larges == s.lists.larges
    ensures FreedAll(s.m.regions, h'.regions, freed) && h'.top == h.top && h'.refusals == h.refusals
    ensures forall r :: r in h'.regions <==> r in s.m.chain
    ensures events == Frees(freed)
  {
    var l := large;
    ghost var k := 0;
    h', events, freed := h, [], [];
    while l != 0
      invariant k <= |s.lists.lchain| && l == After(s.lists.lchain, k - 1) && h'.top == h.top
        && h'.refusals == h.refusals
      invariant FreedAll(s.m.regions, h'.regions, freed) && FreedUpTo(s.lists, freed, k) && events == Frees(freed)
      decreases |s.lists.lchain| - k
    {
      FreeingFacts(s, head, psize, h'.regions, freed, k);
      var a := ReadLarge(larges, l, h'.regions).alloc;
      if a != 0 {
        FreedMore(s.m.regions, h'.regions, freed, a);
        FreesMore(freed, a);
        h', events := FreeRegion(h', a), events + [Freed(a)];
        freed := freed + [a];
      }
      l := ReadLarge(larges, l, h'.regions).next;
      k := k + 1;
    }
    LargeFacts(s, k);
    OnlyBlocksLeft(s, head, psize, h'.regions, freed);
  }

  /** The handlers run, the one registered last first. */
  method RunHandlers(cleanup: nat, cleanups: map<nat, Cleanup>, ghost s: State, ghost head: nat, ghost psize: nat)
    returns (events: seq<Event>)
    requires Good(s, head, psize) && s.pending == 0 && !s.stale && cleanup == s.cleanup && cleanups == s.lists.cleanups
    ensures events == Calls(s.lists.cchain, cleanups)
  {
    var c := cleanup;
    ghost var k := 0;
    events := [];
    while c != 0
      invariant k <= |s.lists.cchain| && c == After(s.lists.cchain, k - 1)
      invariant events == Calls(s.lists.cchain[..k], cleanups)
      decreases |s.lists.cchain| - k
    {
      CleanupFacts(s, head, psize, k);
      CallsMore(s.lists.cchain, cleanups, k);
      if ReadCleanup(cleanups, c, s.m.regions).handler != 0 {
        events := events + [Called(ReadCleanup(cleanups, c, s.m.regions).handler,
                                   ReadCleanup(cleanups, c, s.m.regions).data)];
      }
      c := ReadCleanup(cleanups, c, s.m.regions).next;
      k := k + 1;
    }
    CleanupFacts(s, head, psize, k);
    assert s.lists.cchain[..k] == s.lists.cchain;
  }

  /** The blocks go back; the link to the next one is read before its block is freed. */
  method FreeBlocks(h: Heap, pool: nat, blocks: map<nat, Block>, ghost s: State, ghost head: nat, ghost psize: nat,
                    ghost gone: seq<nat>)
    returns (h': Heap, events: seq<Event>)
    requires Good(s, head, psize) && blocks == s.m.blocks && pool == s.pool
    requires FreedAll(s.m.regions, h.regions, gone) && forall r :: r in h.regions <==> r in s.m.chain
    ensures h'.regions == map[] && FreedAll(s.m.regions, map[], gone + s.m.chain)
    ensures events == Frees(s.m.chain)
  {
    ghost var k, freed := 0, gone;
    BlocksStart(s, head, psize, h.regions, gone);
    ChainFacts(s, head, psize, h.regions, gone, gone, 0);
    var p, n := pool, ReadBlock(blocks, pool, h.regions).next;
    h', events := h, [];
    while true
      invariant BlockStage(s, h'.regions, freed, gone, k) && p == s.m.chain[k] && n == After(s.m.chain, k)
      invariant events == Frees(s.m.chain[..k])
      decreases |s.m.chain| - k
    {
      BlocksMore(s, head, psize, h'.regions, freed, gone, k);
      h', events := FreeRegion(h', p), events + [Freed(p)];
      freed := freed + [p];
      if n == 0 {
        break;
      }
      k := k + 1;
      ChainFacts(s, head, psize, h'.regions, freed, gone, k);
      p, n := n, ReadBlock(blocks, n, h'.regions).next;
    }
  }

  lemma FreesBoth(a: seq<nat>, b: seq<nat>)
    ensures Frees(a + b) == Frees(a) + Frees(b)
  {
  }

  // ---------- cleanup actions ----------

  /** The outcome of a registration: the action `c` is first in line, with a piece of `size`
      bytes of its own for its data; or 0 and the list is as it was. */
  ghost predicate ActionAdded(s: State, s': State, c: nat, did: nat, size: nat) {
    && s'.pending == s.pending && s'.wasReset == s.wasReset && s'.stale == s.stale
    && (forall x :: x in s.m.live ==> x in s'.m.live && s'.m.live[x] == s.m.live[x])
    && (c == 0 ==> s'.lists.cchain == s.lists.cchain && s'.lists.cleanups == s.lists.cleanups)
    && (c != 0 ==>
         && s'.lists.cchain == [c] + s.lists.cchain && c in s'.lists.cleanups && s'.lists.cleanups[c].handler == 0
         && s'.lists.cleanups == s.lists.cleanups[c := s'.lists.cleanups[c]]
         && (if size == 0 then s'.lists.cleanups[c].data == 0
             else DataGiven(s, s', did, s'.lists.cleanups[c].data, size)))
  }

  ghost predicate DataGiven(s: State, s': State, did: nat, data: nat, size: nat) {
    && data != 0 && did !in s.m.live && did in s'.m.live && s'.m.live[did].base == data && s'.m.live[did].size == size
    && s'.m.live[did].kind == if size <= s.max then User(true) else Whole
  }

  lemma ActionAfter(s: State, s1: State, s2: State, h: nat, id: nat, c: nat, did: nat, size: nat)
    requires Served(s, s1, h, id, CLEANUP, CleanupHeader) && h != 0 && ActionAdded(s1, s2, c, did, size)
    ensures ActionAdded(s, s2, c, did, size)
  {
  }

  /** The header of a new action is not on the list already. */
  lemma CleanupFresh(s: State, s': State, head: nat, psize: nat, c: nat, id: nat)
    requires Good(s, head, psize) && Good(s', head, psize) && s.pending == 0
      && Served(s, s', c, id, CLEANUP, CleanupHeader) && c != 0
    ensures c !in s'.lists.cchain && Housed(s'.m, s'.lists.cids[c := id], c, CLEANUP, CleanupHeader)
  {
    NonePending(s, head, psize);
    forall k | 0 <= k < |s.lists.cchain|
      ensures Housed(s'.m, s.lists.cids, s.lists.cchain[k], CLEANUP, CleanupHeader)
        && s.lists.cids[s.lists.cchain[k]] != id
    {
      assert CleanupOk(s.m, s.lists, k);
    }
    HeaderNew(s'.m, head, psize, s.lists.cids, s.lists.cchain, c, id, CLEANUP, CleanupHeader);
  }

  lemma CleanupPushed(s: State, head: nat, psize: nat, c: nat, action: Cleanup, id: nat) returns (s': State)
    requires Good(s, head, psize) && !s.stale && c !in s.lists.cchain
    requires Housed(s.m, s.lists.cids[c := id], c, CLEANUP, CleanupHeader)
    ensures s' == s.(lists := PushCleanup(s.lists, c, action, id), cleanup := c) && Good(s', head, psize)
  {
    s' := s.(lists := PushCleanup(s.lists, c, action, id), cleanup := c);
    PushCleanupOk(Settled(s), s.lists, c, action, id);
    assert Settled(s') == Settled(s);
  }

  lemma HandlerSet(s: State, head: nat, psize: nat, c: nat, handler: nat) returns (s': State)
    requires Good(s, head, psize) && c in s.lists.cleanups
    ensures s' == s.(lists := s.lists.(cleanups := s.lists.cleanups[c := s.lists.cleanups[c].(handler := handler)]))
    ensures Good(s', head, psize)
  {
    s' := s.(lists := s.lists.(cleanups := s.lists.cleanups[c := s.lists.cleanups[c].(handler := handler)]));
    var m := Settled(s);
    assert Settled(s') == m;
    forall k | 0 <= k < |s.lists.lchain|
      ensures LargeOk(m, s'.lists, k)
    {
      assert LargeOk(m, s.lists, k);
    }
    forall j, k | 0 <= j < |s.lists.lchain| && 0 <= k < |s.lists.lchain|
      ensures AllocOk(s'.lists, j, k)
    {
      assert AllocOk(s.lists, j, k);
    }
    forall k | 0 <= k < |s.lists.cchain|
      ensures CleanupOk(m, s'.lists, k)
    {
      assert CleanupOk(m, s.lists, k);
    }
    forall r | r in m.regions && r !in m.chain
      ensures Held(s'.lists, r)
    {
      assert Held(s.lists, r);
    }
  }

  // ---------- the array at the fill mark ----------

  lemma Stretched(s: State, head: nat, psize: nat, id: nat, n: nat) returns (s': State)
    requires Good(s, head, psize) && s.pending == 0 && AtMark(s.m, id) && s.m.live[id].kind.User?
    requires s.m.blocks[s.m.chain[0]].last + n <= s.m.blocks[s.m.chain[0]].end
    ensures s' == s.(m := Stretch(s.m, id, n)) && Good(s', head, psize)
  {
    s' := s.(m := Stretch(s.m, id, n));
    StretchOk(s.m, head, psize, id, n);
    CarvePace(s.m.blocks, s.m.chain, s.m.chain[0], s.m.blocks[s.m.chain[0]].last + n);
    ListsApart(s, s', id);
  }

  lemma Retracted(s: State, head: nat, psize: nat, id: nat) returns (s': State)
    requires Good(s, head, psize) && s.pending == 0 && AtMark(s.m, id) && s.m.live[id].kind.User?
    ensures s' == s.(m := Retract(s.m, id)) && Good(s', head, psize)
  {
    s' := s.(m := Retract(s.m, id));
    RetractOk(s.m, head, psize, id);
    CarvePace(s.m.blocks, s.m.chain, s.m.chain[0], s.m.live[id].base);
    ListsApart(s, s', id);
  }

  /** A change to an extent of a caller does not touch the headers. */
  lemma ListsApart(s: State, s': State, id: nat)
    requires Headers(s) && s.pending == 0 && id in s.m.live && s.m.live[id].kind.User?
    requires s' == s.(m := s'.m) && s'.m.regions == s.m.regions && s'.m.chain == s.m.chain
    requires forall x :: x in s.m.live && x != id ==> x in s'.m.live && s'.m.live[x] == s.m.live[x]
    ensures Headers(s')
  {
    var m, m' := Settled(s), Settled(s');
    forall k | 0 <= k < |s.lists.lchain|
      ensures LargeOk(m', s.lists, k)
    {
      assert LargeOk(m, s.lists, k);
    }
    forall k | 0 <= k < |s.lists.cchain|
      ensures CleanupOk(m', s.lists, k)
    {
      assert CleanupOk(m, s.lists, k);
    }
  }
}
