/** Whole runs of a slab pool: what every caller may rely on, whatever was allocated and
    freed before. */
module SlabRun {
  import opened Common
  import opened Words
  import opened SlabModel
  import opened SlabBlocks
  import opened SlabFacts
  import opened SlabPool

  /** A request, the return of the block at an address that is held, or a write of its `x`-th
      word. */
  datatype Op = Request(size: nat) | Return(p: nat) | Write(p: nat, x: nat, value: nat)

  /** The size of the block that serves a request: the smallest chunk size, or whole pages. */
  function Need(size: nat): (need: nat)
    ensures size > MAX_SIZE ==> need % PAGE == 0 && size <= need < size + PAGE
  {
    if size <= MAX_SIZE then Size(Fit(size)) else PagesFor(size) * PAGE
  }

  /** The addresses held are those of the live blocks, each of the size that serves its
      request. */
  ghost predicate Holds(start: nat, v: seq<View>, held: map<nat, nat>, ids: map<nat, Id>) {
    && Tiled(v) && ids.Keys == held.Keys
    && (forall a {:trigger ids[a]} :: a in ids ==>
         Live(v, ids[a]) && Address(start, v, ids[a]) == a && BlockSize(v, ids[a]) == Need(held[a])
         && (ids[a].Chunk? <==> held[a] <= MAX_SIZE))
    && (forall x: Id {:trigger Live(v, x)} :: Live(v, x) ==>
        Address(start, v, x) in ids && ids[Address(start, v, x)] == x)
  }

  lemma OneAddress(start: nat, v: seq<View>, x: Id, y: Id)
    requires Tiled(v) && Live(v, x) && Live(v, y) && Address(start, v, x) == Address(start, v, y)
    ensures x == y
  {
    if x != y {
      Disjoint(start, v, x, y);
      WithinPages(start, v, x);
      WithinPages(start, v, y);
    }
  }

  /** Only one multiple of the page size is that close. */
  lemma RunNeed(v: seq<View>, id: Id, size: nat)
    requires Tiled(v) && Live(v, id) && id.Run? && size > MAX_SIZE && size <= BlockSize(v, id) < size + PAGE
    ensures BlockSize(v, id) == Need(size)
  {
  }

  lemma HoldsMore(start: nat, v: seq<View>, v': seq<View>, held: map<nat, nat>, ids: map<nat, Id>, size: nat, p: nat,
                  id: Id)
    requires Holds(start, v, held, ids) && Granted(start, v, v', size, p, id)
    ensures p !in held && Holds(start, v', held[p := size], ids[p := id])
  {
    if size > MAX_SIZE { RunNeed(v', id, size); }
    forall a | a in ids
      ensures a != p && Live(v', ids[a]) && Address(start, v', ids[a]) == a && BlockSize(v', ids[a]) == Need(held[a])
    {
      assert SameBlock(start, v, v', ids[a]);
      if a == p { OneAddress(start, v', ids[a], id); }
    }
    forall x: Id | Live(v', x) && x != id
      ensures Address(start, v', x) in ids && ids[Address(start, v', x)] == x
    {
      assert SameBlock(start, v, v', x);
    }
  }

  lemma HoldsLess(start: nat, v: seq<View>, v': seq<View>, held: map<nat, nat>, ids: map<nat, Id>, p: nat, id: Id)
    requires Holds(start, v, held, ids) && Gains(start, v', v, id) && Address(start, v, id) == p
    ensures p in held && Holds(start, v', held - {p}, ids - {p})
  {
    assert Live(v, id);
    forall a | a in ids && a != p
      ensures Live(v', ids[a]) && Address(start, v', ids[a]) == a && BlockSize(v', ids[a]) == Need(held[a])
    {
      assert SameBlock(start, v', v, ids[a]);
    }
    forall x: Id | Live(v', x)
      ensures Address(start, v', x) in ids - {p} && ids[Address(start, v', x)] == x
    {
      assert SameBlock(start, v', v, x);
      assert Live(v, x);
      if Address(start, v', x) == p { OneAddress(start, v, x, id); }
    }
  }

  /** A block that was handed out can be given back: its address is not in a bitmap. */
  lemma Returnable(start: nat, v: seq<View>, id: Id)
    requires Tiled(v) && Live(v, id) && start % PAGE == 0
    ensures var p := Address(start, v, id); start <= p && (p - start) / PAGE < |v| && !InBitmap(v, p, start)
  {
    OwnPage(start, v, id);
    assert TileOk(v, id.page);
    if id.Chunk? {
      var sh := v[id.page].shift;
      if Reserved(sh) < id.c { ChunksApart(sh, Reserved(sh), id.c); }
    }
  }

  /** A block at `a` for `size` bytes: it holds them, lies in the page area, and is aligned to
      its size or to the page. */
  ghost predicate Placed(start: nat, n: nat, a: nat, size: nat) {
    && start <= a && size <= Need(size) && a + Need(size) <= start + n * PAGE
    && a % (if size <= MAX_SIZE then Need(size) else PAGE) == 0
  }

  /** What holds of the held blocks: each is well placed, and no two overlap. */
  ghost predicate Separate(start: nat, n: nat, held: map<nat, nat>) {
    && (forall a :: a in held ==> Placed(start, n, a, held[a]))
    && (forall a, b :: a in held && b in held && a != b ==> Apart(a, Need(held[a]), b, Need(held[b])))
  }

  lemma NeedPositive(size: nat)
    ensures Need(size) > 0 && size <= Need(size)
  {
  }

  lemma HeldSeparate(start: nat, v: seq<View>, held: map<nat, nat>, ids: map<nat, Id>)
    requires Holds(start, v, held, ids) && start % PAGE == 0
    ensures Separate(start, |v|, held)
    ensures held == map[] ==> v == AllFree(|v|)
  {
    forall a | a in held
      ensures Placed(start, |v|, a, held[a])
    {
      InsidePool(start, v, ids[a]);
      NeedPositive(held[a]);
      Aligned(start, v, ids[a]);
    }
    forall a, b | a in held && b in held && a != b
      ensures Apart(a, Need(held[a]), b, Need(held[b]))
    {
      Disjoint(start, v, ids[a], ids[b]);
    }
    if held == map[] {
      forall x: Id
        ensures !Live(v, x)
      {
      }
      NothingLive(v);
    }
  }

  /** What a caller holds after some operations, told from the answers alone: 0 is a refusal,
      and a return of something not held is not made. */
  function Account(ops: seq<Op>, answers: seq<nat>): map<nat, nat>
    requires |answers| == |ops|
  {
    if ops == [] then map[]
    else
      var k := |ops| - 1;
      var held := Account(ops[..k], answers[..k]);
      match ops[k]
      case Request(size) => if answers[k] == 0 then held else held[answers[k] := size]
      case Return(p) => held - {p}
      case Write(_, _, _) => held
  }

  /** A write is made only within a block that is held. */
  predicate Makes(held: map<nat, nat>, op: Op) {
    op.Write? && op.p in held && 8 * op.x + 8 <= Need(held[op.p]) && op.value < MODULUS
  }

  function WrittenNext(held: map<nat, nat>, written: map<nat, nat>, op: Op): map<nat, nat> {
    match op
    case Request(_) => written
    case Return(p) => if p in held then map a | a in written && !(p <= a < p + Need(held[p])) :: written[a] else written
    case Write(p, x, value) => if Makes(held, op) then written[p + 8 * x := value] else written
  }

  /** What the holders have written into the blocks they still hold, by address. */
  function Written(ops: seq<Op>, answers: seq<nat>): map<nat, nat>
    requires |answers| == |ops|
  {
    if ops == [] then map[]
    else
      var k := |ops| - 1;
      WrittenNext(Account(ops[..k], answers[..k]), Written(ops[..k], answers[..k]), ops[k])
  }

  lemma AccountMore(ops: seq<Op>, answers: seq<nat>, k: nat, p: nat)
    requires |answers| == k < |ops|
    ensures Account(ops[..k + 1], answers + [p]) ==
      var held := Account(ops[..k], answers);
      match ops[k]
      case Request(size) => if p == 0 then held else held[p := size]
      case Return(q) => held - {q}
      case Write(_, _, _) => held
    ensures Written(ops[..k + 1], answers + [p]) ==
      WrittenNext(Account(ops[..k], answers), Written(ops[..k], answers), ops[k])
  {
    assert ops[..k + 1][..k] == ops[..k] && (answers + [p])[..k] == answers;
  }

  // ---------- what is in the blocks ----------

  ghost predicate Rows(w: seq<seq<nat>>) {
    forall j :: 0 <= j < |w| ==> |w[j]| == PAGE_WORDS
  }

  ghost predicate InBlock(held: map<nat, nat>, p: nat, x: nat, a: nat) {
    p in held && 8 * x + 8 <= Need(held[p]) && a == p + 8 * x
  }

  /** Address `a` is a word of a block that is held, and its value is `value`. */
  ghost predicate Found(start: nat, w: seq<seq<nat>>, held: map<nat, nat>, a: nat, value: nat)
    requires Rows(w)
  {
    && (exists p, x :: InBlock(held, p, x, a))
    && start <= a && (a - start) / PAGE < |w| && WordAt(start, w, a) == value
  }

  ghost predicate AllFound(start: nat, w: seq<seq<nat>>, held: map<nat, nat>, written: map<nat, nat>)
    requires Rows(w)
  {
    forall a {:trigger written[a]} :: a in written ==> Found(start, w, held, a, written[a])
  }

  /** A word of a block that is held before and after an operation is what it was. */
  lemma FoundKept(start: nat, v: seq<View>, w: seq<seq<nat>>, w': seq<seq<nat>>, held: map<nat, nat>, ids: map<nat, Id>,
                  held': map<nat, nat>, p: nat, x: nat, a: nat, value: nat)
    requires Rows(w) && Rows(w') && start % PAGE == 0 && OnlyBitmaps(v, w, w') && Holds(start, v, held', ids)
    requires Found(start, w, held, a, value) && InBlock(held', p, x, a)
    ensures Found(start, w', held', a, value)
  {
    ContentsKept(start, v, w, w', ids[p], x);
    assert InBlock(held', p, x, a);
  }

  lemma FoundMore(start: nat, v: seq<View>, v': seq<View>, w: seq<seq<nat>>, w': seq<seq<nat>>, held: map<nat, nat>,
                  ids: map<nat, Id>, held': map<nat, nat>, written: map<nat, nat>)
    requires Rows(w) && Rows(w') && start % PAGE == 0 && OnlyBitmaps(v, w, w') && Holds(start, v, held, ids)
    requires AllFound(start, w, held, written) && forall p :: p in held ==> p in held' && held'[p] == held[p]
    ensures AllFound(start, w', held', written)
  {
    forall a | a in written
      ensures Found(start, w', held', a, written[a])
    {
      var p, x :| InBlock(held, p, x, a);
      FoundKept(start, v, w, w', held, ids, held, p, x, a, written[a]);
      assert InBlock(held', p, x, a);
    }
  }

  lemma FoundLess(start: nat, v: seq<View>, w: seq<seq<nat>>, w': seq<seq<nat>>, held: map<nat, nat>, ids: map<nat, Id>,
                  q: nat, written: map<nat, nat>)
    requires Rows(w) && Rows(w') && start % PAGE == 0 && OnlyBitmaps(v, w, w') && Holds(start, v, held - {q}, ids)
      && q in held
    requires AllFound(start, w, held, written)
    ensures AllFound(start, w', held - {q}, WrittenNext(held, written, Return(q)))
  {
    var written' := WrittenNext(held, written, Return(q));
    forall a | a in written'
      ensures Found(start, w', held - {q}, a, written'[a])
    {
      assert Found(start, w, held, a, written[a]);
      var p, x :| InBlock(held, p, x, a);
      assert p != q;
      FoundKept(start, v, w, w', held, ids, held - {q}, p, x, a, written[a]);
    }
  }

  /** Addresses of words, by page and place in it. */
  lemma WordPlace(start: nat, a: nat)
    requires start % PAGE == 0 && start <= a && a % 8 == 0
    ensures a == start + (a - start) / PAGE * PAGE + a % PAGE / 8 * 8
  {
    Split(start, a);
  }

  lemma EightTimes(c: nat, k: nat)
    ensures c * (8 * k) == 8 * (c * k)
  {
  }

  lemma SizeWords(sh: nat) returns (k: nat)
    requires IsShift(sh)
    ensures Size(sh) == 8 * k
  {
    k := Size(sh) / 8;
  }

  lemma WholeWords(start: nat, page: nat, m: nat)
    requires start % PAGE == 0
    ensures (start + page * PAGE + 8 * m) % 8 == 0 && (start + page * PAGE) % 8 == 0
  {
    var s := start / PAGE;
    assert start == PAGE * s;
    assert start + page * PAGE + 8 * m == 8 * (512 * s + 512 * page + m);
    assert start + page * PAGE == 8 * (512 * s + 512 * page);
  }

  lemma BlockWord(start: nat, v: seq<View>, id: Id)
    requires Tiled(v) && Live(v, id) && start % PAGE == 0
    ensures Address(start, v, id) % 8 == 0
  {
    assert TileOk(v, id.page);
    if id.Chunk? {
      var k := SizeWords(v[id.page].shift);
      EightTimes(id.c, k);
      WholeWords(start, id.page, id.c * k);
    } else {
      WholeWords(start, id.page, 0);
    }
  }

  /** Writing one word leaves the others alone. */
  lemma OtherWord(start: nat, w: seq<seq<nat>>, at: nat, a: nat, value: nat)
    requires Rows(w) && start % PAGE == 0 && start <= at && start <= a && a % 8 == 0 && at % 8 == 0 && a != at
    requires (at - start) / PAGE < |w| && (a - start) / PAGE < |w|
    ensures var j := (at - start) / PAGE; var w' := w[j := Put(w[j], at % PAGE / 8, value)];
      Rows(w') && WordAt(start, w', a) == WordAt(start, w, a)
  {
    WordPlace(start, at);
    WordPlace(start, a);
  }

  lemma EightMore(p: nat, x: nat)
    requires p % 8 == 0
    ensures (p + 8 * x) % 8 == 0
  {
  }

  lemma HeldWord(start: nat, v: seq<View>, held: map<nat, nat>, ids: map<nat, Id>, p: nat, x: nat, a: nat)
    requires start % PAGE == 0 && Holds(start, v, held, ids) && InBlock(held, p, x, a)
    ensures a % 8 == 0
  {
    assert Address(start, v, ids[p]) == p;
    BlockWord(start, v, ids[p]);
    EightMore(p, x);
  }

  /** The word at `at` has been written. */
  ghost predicate WroteWord(start: nat, w: seq<seq<nat>>, w': seq<seq<nat>>, at: nat, value: nat) {
    && start <= at && (at - start) / PAGE < |w| && Rows(w)
    && w' == w[(at - start) / PAGE := Put(w[(at - start) / PAGE], at % PAGE / 8, value)]
  }

  lemma FoundOther(start: nat, v: seq<View>, w: seq<seq<nat>>, w': seq<seq<nat>>, held: map<nat, nat>,
                   ids: map<nat, Id>,
                   at: nat, x: nat, a: nat, y: nat)
    requires start % PAGE == 0 && Holds(start, v, held, ids) && WroteWord(start, w, w', at, x) && Rows(w')
    requires Found(start, w, held, a, y) && a != at && at % 8 == 0
    ensures Found(start, w', held, a, y)
  {
    var p, k :| InBlock(held, p, k, a);
    HeldWord(start, v, held, ids, p, k, a);
    OtherWord(start, w, at, a, x);
  }

  lemma FoundWrite(start: nat, v: seq<View>, w: seq<seq<nat>>, w': seq<seq<nat>>, held: map<nat, nat>,
                   ids: map<nat, Id>,
                   written: map<nat, nat>, op: Op)
    requires Rows(w) && Rows(w') && start % PAGE == 0 && Holds(start, v, held, ids) && AllFound(start, w, held, written)
    requires Makes(held, op) && WroteWord(start, w, w', op.p + 8 * op.x, op.value)
    ensures AllFound(start, w', held, WrittenNext(held, written, op))
  {
    var at := op.p + 8 * op.x;
    assert InBlock(held, op.p, op.x, at);
    HeldWord(start, v, held, ids, op.p, op.x, at);
    var written' := WrittenNext(held, written, op);
    forall a | a in written'
      ensures Found(start, w', held, a, written'[a])
    {
      if a != at { FoundOther(start, v, w, w', held, ids, at, op.value, a, written[a]); }
    }
  }

  // ---------- one operation, and all of them ----------

  /** The pool is in order and holds what the account says. */
  ghost predicate Stands(pool: SlabPool, held: map<nat, nat>, ids: map<nat, Id>, written: map<nat, nat>)
    reads pool
  {
    && pool.Valid() && Holds(pool.start, pool.view, held, ids) && Rows(pool.words)
    && AllFound(pool.start, pool.words, held, written)
  }

  method DoRequest(pool: SlabPool, size: nat, ghost held: map<nat, nat>, ghost ids: map<nat, Id>,
                   ghost written: map<nat, nat>)
    returns (answer: nat, ghost ids': map<nat, Id>)
    requires Stands(pool, held, ids, written)
    modifies pool
    ensures Stands(pool, if answer == 0 then held else held[answer := size], ids', written)
  {
    ghost var v, w := pool.view, pool.words;
    ghost var id;
    answer, id := pool.Alloc(size);
    ids' := ids;
    assert Rows(pool.words);
    if answer != 0 {
      HoldsMore(pool.start, v, pool.view, held, ids, size, answer, id);
      FoundMore(pool.start, v, pool.view, w, pool.words, held, ids, held[answer := size], written);
      ids' := ids[answer := id];
    } else {
      FoundMore(pool.start, v, pool.view, w, pool.words, held, ids, held, written);
    }
  }

  method DoReturn(pool: SlabPool, p: nat, ghost held: map<nat, nat>, ghost ids: map<nat, Id>,
                  ghost written: map<nat, nat>)
    returns (ok: bool, ghost ids': map<nat, Id>)
    requires Stands(pool, held, ids, written) && p in held
    modifies pool
    ensures ok && Stands(pool, held - {p}, ids', WrittenNext(held, written, Return(p)))
  {
    ghost var v, w := pool.view, pool.words;
    Returnable(pool.start, v, ids[p]);
    var r, id := pool.Free(p);
    ok := r.Freed?;
    assert Rows(pool.words);
    HoldsLess(pool.start, v, pool.view, held, ids, p, id);
    ids' := ids - {p};
    FoundLess(pool.start, pool.view, w, pool.words, held, ids', p, written);
  }

  method DoWrite(pool: SlabPool, op: Op, ghost held: map<nat, nat>, ghost ids: map<nat, Id>,
                 ghost written: map<nat, nat>)
    requires Stands(pool, held, ids, written) && Makes(held, op)
    modifies pool`words
    ensures Stands(pool, held, ids, WrittenNext(held, written, op))
  {
    ghost var w := pool.words;
    pool.Store(ids[op.p], op.x, op.p + 8 * op.x, op.value);
    assert WroteWord(pool.start, w, pool.words, op.p + 8 * op.x, op.value) && Rows(pool.words);
    FoundWrite(pool.start, pool.view, w, pool.words, held, ids, written, op);
  }

  function Flag(b: bool): nat {
    if b then 1 else 0
  }

  method Perform(pool: SlabPool, op: Op, held: map<nat, nat>, ghost ids: map<nat, Id>, ghost written: map<nat, nat>)
    returns (answer: nat, ghost ids': map<nat, Id>)
    requires Stands(pool, held, ids, written)
    modifies pool
    ensures op.Request? ==>
      Stands(pool, if answer == 0 then held else held[answer := op.size], ids', WrittenNext(held, written, op))
    ensures op.Return? ==> Stands(pool, held - {op.p}, ids', WrittenNext(held, written, op))
    ensures op.Write? ==> Stands(pool, held, ids', WrittenNext(held, written, op))
    ensures !op.Request? ==> answer == 1
  {
    answer, ids' := 1, ids;
    match op {
      case Request(size) => answer, ids' := DoRequest(pool, size, held, ids, written);
      case Return(p) =>
        if p in held {
          var ok;
          ok, ids' := DoReturn(pool, p, held, ids, written);
          answer := Flag(ok);
        } else {
          assert held - {p} == held;
        }
      case Write(_, _, _) =>
        if Makes(held, op) {
          DoWrite(pool, op, held, ids, written);
        }
    }
  }

  /** Every return made is answered well. */
  predicate AllReturned(ops: seq<Op>, answers: seq<nat>) {
    |answers| <= |ops| && forall k :: 0 <= k < |answers| && ops[k].Return? ==> answers[k] == 1
  }

  lemma ReturnedMore(ops: seq<Op>, answers: seq<nat>, answer: nat)
    requires AllReturned(ops, answers) && |answers| < |ops| && (ops[|answers|].Return? ==> answer == 1)
    ensures AllReturned(ops, answers + [answer])
  {
  }

  /** Any sequence of requests, returns and writes on a fresh pool: what is held never overlaps,
      stays inside the pool, is aligned, and holds what was written into it; every return of
      something held succeeds; and once everything has been returned the pool is one single
      free run again. */
  method Run(at: nat, limit: nat, memory: seq<seq<nat>>, ops: seq<Op>)
    returns (start: nat, n: nat, answers: seq<nat>, words: seq<seq<nat>>, pfree: int, ghost view: seq<View>)
    requires PoolPages(at, limit) >= 1 && limit < MODULUS
    requires |memory| == PoolPages(at, limit) && forall j :: 0 <= j < |memory| ==> Row(memory[j])
    ensures |answers| == |ops| && start + n * PAGE <= limit && n == PoolPages(at, limit)
    ensures Separate(start, n, Account(ops, answers))
    ensures Rows(words) && AllFound(start, words, Account(ops, answers), Written(ops, answers))
    ensures Account(ops, answers) == map[] ==> view == AllFree(n) && pfree == n
    ensures AllReturned(ops, answers)
  {
    var pool := new SlabPool(at, limit, memory);
    start, n, answers := pool.start, pool.n, [];
    ghost var ids: map<nat, Id> := map[];
    NoneHeld(start, n);
    for k := 0 to |ops|
      invariant fresh(pool) && start == pool.start && n == pool.n && |answers| == k
      invariant Stands(pool, Account(ops[..k], answers), ids, Written(ops[..k], answers))
      invariant AllReturned(ops, answers)
    {
      var answer;
      answer, ids := Perform(pool, ops[k], Account(ops[..k], answers), ids, Written(ops[..k], answers));
      AccountMore(ops, answers, k, answer);
      ReturnedMore(ops, answers, answer);
      answers := answers + [answer];
    }
    assert ops[..|ops|] == ops;
    HeldSeparate(start, pool.view, Account(ops, answers), ids);
    words, pfree, view := pool.words, pool.pfree, pool.view;
    AllFreeCount(n);
  }

  lemma NoneHeld(start: nat, n: nat)
    ensures Holds(start, AllFree(n), map[], map[])
  {
    AllFreeTiled(n);
  }

  lemma AllFreeCount(n: nat)
    ensures Sum(FreeCount, AllFree(n)) == n
  {
    SumConstant(FreeCount, AllFree(n), 1);
  }
}
