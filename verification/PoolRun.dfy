/** Whole runs of an allocation pool, from its creation to its destruction: what a caller may
    rely on, told from the requests and the answers alone. */
module PoolRun {
  import opened Common
  import opened PoolModel
  import opened PoolState
  import opened PoolReset
  import opened MemPool

  /** A request aligned to a word or not, the release of a large piece, the registration of a
      cleanup action, or a reset. */
  datatype Op =
    | Aligned(size: nat)
    | Unaligned(size: nat)
    | Release(p: nat)
    | OnDestroy(size: nat, handler: nat)
    | Rewind

  /** The address given, or 0; for a cleanup action also the address of its data. */
  datatype Answer = Answer(p: nat, data: nat)

  datatype Piece = Piece(base: nat, size: nat, aligned: bool, large: bool)

  /** The largest request that is served from a block. */
  function Limit(head: nat, psize: nat): nat {
    if 0 <= psize - head < MAX_FROM_POOL then psize - head else MAX_FROM_POOL
  }

  // ---------- what the caller is owed ----------

  /** A cleanup action has been registered. */
  predicate Registered(ops: seq<Op>, answers: seq<Answer>)
    requires |answers| == |ops|
  {
    exists k :: 0 <= k < |ops| && RegistersAt(ops, answers, k)
  }

  /** What is held once operation `k` has been answered, the data of cleanup actions included; a reset
      is made only while no cleanup action is registered. */
  function HeldNext(held: map<nat, Piece>, some: bool, op: Op, k: nat, a: Answer, limit: nat): map<nat, Piece> {
    match op
    case Aligned(size) => if a.p == 0 then held else held[k := Piece(a.p, size, true, size > limit)]
    case Unaligned(size) => if a.p == 0 then held else held[k := Piece(a.p, size, size > limit, size > limit)]
    case Release(p) => map i | i in held && !(held[i].large && held[i].base == p) :: held[i]
    case OnDestroy(size, _) => if a.p == 0 || size == 0 then held
      else held[k := Piece(a.data, size, true, size > limit)]
    case Rewind => if some then held else map[]
  }

  /** What is held, by the number of the request. */
  function Account(ops: seq<Op>, answers: seq<Answer>, limit: nat): map<nat, Piece>
    requires |answers| == |ops|
  {
    if ops == [] then map[]
    else
      var k := |ops| - 1;
      HeldNext(Account(ops[..k], answers[..k], limit), Registered(ops[..k], answers[..k]), ops[k], k, answers[k], limit)
  }

  function OneHandler(op: Op, a: Answer): seq<Event> {
    if op.OnDestroy? && a.p != 0 && op.handler != 0 then [Called(op.handler, a.data)] else []
  }

  /** The calls to be made in the end: the handler registered last comes first. */
  function Handlers(ops: seq<Op>, answers: seq<Answer>): seq<Event>
    requires |answers| == |ops|
  {
    if ops == [] then []
    else
      var k := |ops| - 1;
      OneHandler(ops[k], answers[k]) + Handlers(ops[..k], answers[..k])
  }

  lemma OneMore(ops: seq<Op>, answers: seq<Answer>, k: nat, a: Answer, limit: nat)
    requires |answers| == k < |ops|
    ensures Account(ops[..k + 1], answers + [a], limit) ==
      HeldNext(Account(ops[..k], answers, limit), Registered(ops[..k], answers), ops[k], k, a, limit)
    ensures Handlers(ops[..k + 1], answers + [a]) == OneHandler(ops[k], a) + Handlers(ops[..k], answers)
  {
    assert ops[..k + 1][..k] == ops[..k] && (answers + [a])[..k] == answers;
  }

  /** Operation `j` has registered a cleanup action. */
  predicate RegistersAt(ops: seq<Op>, answers: seq<Answer>, j: int)
    requires |answers| == |ops| && 0 <= j < |ops|
  {
    ops[j].OnDestroy? && answers[j].p != 0
  }

  lemma RegisteredMore(ops: seq<Op>, answers: seq<Answer>, k: nat, a: Answer)
    requires |answers| == k < |ops|
    ensures Registered(ops[..k + 1], answers + [a]) <==>
      Registered(ops[..k], answers) || (ops[k].OnDestroy? && a.p != 0)
  {
    var ops', answers' := ops[..k + 1], answers + [a];
    assert forall j :: 0 <= j < k ==> (RegistersAt(ops', answers', j) <==> RegistersAt(ops[..k], answers, j));
    assert RegistersAt(ops', answers', k) <==> ops[k].OnDestroy? && a.p != 0;
  }

  // ---------- how the pool keeps it ----------

  ghost predicate Matches(e: Extent, h: Piece) {
    && e.base == h.base && e.size == h.size && (h.large ==> h.aligned)
    && e.kind == if h.large then Whole else User(h.aligned)
  }

  /** Every piece held is an extent of its own. */
  ghost predicate Tracks(m: Mem, held: map<nat, Piece>, ids: map<nat, nat>) {
    && ids.Keys == held.Keys
    && (forall i {:trigger ids[i]} :: i in held ==> ids[i] in m.live && Matches(m.live[ids[i]], held[i]))
    && (forall i, j :: i in held && j in held && i != j ==> ids[i] != ids[j])
  }

  lemma TracksKept(m: Mem, m': Mem, held: map<nat, Piece>, ids: map<nat, nat>)
    requires Tracks(m, held, ids) && forall x :: x in m.live ==> x in m'.live && m'.live[x] == m.live[x]
    ensures Tracks(m', held, ids)
  {
  }

  lemma TracksMore(m: Mem, m': Mem, held: map<nat, Piece>, ids: map<nat, nat>, k: nat, id: nat, h: Piece)
    requires Tracks(m, held, ids) && id !in m.live && id in m'.live && Matches(m'.live[id], h)
    requires forall x :: x in m.live ==> x in m'.live && m'.live[x] == m.live[x]
    ensures Tracks(m', held[k := h], ids[k := id])
  {
    TracksKept(m, m', held, ids);
    assert forall i :: i in held ==> ids[i] != id;
  }

  /** A large piece is a region on the list. */
  lemma LargeHeld(s: State, head: nat, psize: nat, id: nat)
    requires Good(s, head, psize) && s.pending == 0 && id in s.m.live && s.m.live[id].kind.Whole?
    ensures var e := s.m.live[id];
      e.home == e.base && e.base > 0 && e.base !in s.m.chain && PoolModel.Held(s.lists, e.base)
  {
    assert ExtentOk(s.m, head, id);
    NonePending(s, head, psize);
  }

  lemma HeldRegion(s: State, head: nat, psize: nat, p: nat)
    requires Good(s, head, psize) && s.pending == 0 && p != 0 && PoolModel.Held(s.lists, p)
    ensures p !in s.m.chain
  {
    var k :| 0 <= k < |s.lists.lchain| && s.lists.lchain[k] in s.lists.larges
      && s.lists.larges[s.lists.lchain[k]].alloc == p;
    assert LargeOk(Settled(s), s.lists, k);
  }

  lemma TracksLess(s: State, head: nat, psize: nat, m': Mem, held: map<nat, Piece>, ids: map<nat, nat>, some: bool,
                   p: nat)
    returns (ids': map<nat, nat>)
    requires Good(s, head, psize) && s.pending == 0 && Tracks(s.m, held, ids)
    requires m' == if p != 0 && PoolModel.Held(s.lists, p) then DropRegion(s.m, p) else s.m
    ensures Tracks(m', HeldNext(held, some, Release(p), 0, Answer(0, 0), 0), ids')
  {
    var held' := HeldNext(held, some, Release(p), 0, Answer(0, 0), 0);
    ids' := map i | i in held' :: ids[i];
    if p != 0 && PoolModel.Held(s.lists, p) { HeldRegion(s, head, psize, p); }
    forall i | i in held'
      ensures ids[i] in m'.live && m'.live[ids[i]] == s.m.live[ids[i]]
    {
      PieceKept(s, head, psize, m', held[i], ids[i], p);
    }
  }

  lemma PieceKept(s: State, head: nat, psize: nat, m': Mem, h: Piece, id: nat, p: nat)
    requires Good(s, head, psize) && s.pending == 0 && id in s.m.live && Matches(s.m.live[id], h)
      && !(h.large && h.base == p)
    requires m' == if p != 0 && PoolModel.Held(s.lists, p) then DropRegion(s.m, p) else s.m
    ensures id in m'.live && m'.live[id] == s.m.live[id]
  {
    if p != 0 && PoolModel.Held(s.lists, p) { HeldRegion(s, head, psize, p); }
    assert ExtentOk(s.m, head, id);
    if h.large { LargeHeld(s, head, psize, id); }
  }

  /** A caller may rely on this: pieces lie in memory obtained from malloc, those asked for
      aligned are, and no two overlap. */
  ghost predicate Sound(regions: map<nat, nat>, held: map<nat, Piece>) {
    && (forall i :: i in held && held[i].size > 0 ==> Mapped(regions, held[i].base, held[i].size))
    && (forall i :: i in held && held[i].aligned ==> held[i].base % WORD == 0)
    && (forall i, j :: i in held && j in held && i != j && held[i].size > 0 && held[j].size > 0 ==>
          Apart(held[i].base, held[i].size, held[j].base, held[j].size))
  }

  /** The pool may rely on that: no piece touches the header of a block, of a large region or of
      a cleanup action. */
  ghost predicate Clear(s: State, head: nat, h: Piece) {
    && (forall j :: 0 <= j < |s.m.chain| ==> Apart(h.base, h.size, s.m.chain[j], if j == 0 then head else DATA))
    && (forall j :: 0 <= j < |s.lists.lchain| ==> Apart(h.base, h.size, s.lists.lchain[j], LARGE))
    && (forall j :: 0 <= j < |s.lists.cchain| ==> Apart(h.base, h.size, s.lists.cchain[j], CLEANUP))
  }

  ghost predicate AllClear(s: State, head: nat, held: map<nat, Piece>) {
    forall i :: i in held && held[i].size > 0 ==> Clear(s, head, held[i])
  }

  lemma TracksSound(m: Mem, head: nat, psize: nat, held: map<nat, Piece>, ids: map<nat, nat>)
    requires MemOk(m, head, psize) && Tracks(m, held, ids)
    ensures Sound(m.regions, held)
  {
    forall i | i in held
      ensures held[i].size > 0 ==> Mapped(m.regions, held[i].base, held[i].size)
      ensures held[i].aligned ==> held[i].base % WORD == 0
    {
      assert ExtentOk(m, head, ids[i]);
      if held[i].size > 0 { InBounds(m, head, psize, ids[i]); }
    }
    forall i, j | i in held && j in held && i != j && held[i].size > 0 && held[j].size > 0
      ensures Apart(held[i].base, held[i].size, held[j].base, held[j].size)
    {
      Separate(m, head, psize, ids[i], ids[j]);
    }
  }

  lemma TracksClear(s: State, head: nat, psize: nat, held: map<nat, Piece>, ids: map<nat, nat>)
    requires Good(s, head, psize) && s.pending == 0 && Tracks(s.m, held, ids)
    ensures AllClear(s, head, held)
  {
    NonePending(s, head, psize);
    forall i | i in held && held[i].size > 0
      ensures Clear(s, head, held[i])
    {
      PieceClear(s, head, psize, ids[i], held[i]);
    }
  }

  lemma PieceClear(s: State, head: nat, psize: nat, id: nat, h: Piece)
    requires MemOk(s.m, head, psize) && ListsOk(s.m, s.lists) && id in s.m.live && Matches(s.m.live[id], h)
      && h.size > 0
    ensures Clear(s, head, h)
  {
    forall j | 0 <= j < |s.m.chain|
      ensures Apart(h.base, h.size, s.m.chain[j], if j == 0 then head else DATA)
    {
      ClearOfHeaders(s.m, head, psize, id, j);
    }
    forall j | 0 <= j < |s.lists.lchain|
      ensures Apart(h.base, h.size, s.lists.lchain[j], LARGE)
    {
      assert LargeOk(s.m, s.lists, j);
      Separate(s.m, head, psize, id, s.lists.lids[s.lists.lchain[j]]);
    }
    forall j | 0 <= j < |s.lists.cchain|
      ensures Apart(h.base, h.size, s.lists.cchain[j], CLEANUP)
    {
      assert CleanupOk(s.m, s.lists, j);
      Separate(s.m, head, psize, id, s.lists.cids[s.lists.cchain[j]]);
    }
  }

  // ---------- the calls at the end ----------

  /** The actions of a list are the same. */
  ghost predicate SameActions(q: seq<nat>, before: map<nat, Cleanup>, after: map<nat, Cleanup>) {
    forall x :: x in q ==> (x in before <==> x in after) && (x in before ==> before[x] == after[x])
  }

  lemma {:induction false} CallsSame(q: seq<nat>, before: map<nat, Cleanup>, after: map<nat, Cleanup>)
    requires SameActions(q, before, after)
    ensures Calls(q, after) == Calls(q, before)
    decreases |q|
  {
    if q != [] {
      CallsSame(q[..|q| - 1], before, after);
      assert q[|q| - 1] in q;
    }
  }

  lemma {:induction false} CallsFront(c: nat, q: seq<nat>, after: map<nat, Cleanup>)
    ensures Calls([c] + q, after) == OneCall(c, after) + Calls(q, after)
    decreases |q|
  {
    var n := |q|;
    if n == 0 {
      assert [c] + q == [c] && [c][..0] == [];
    } else {
      CallsFront(c, q[..n - 1], after);
      assert ([c] + q)[..n] == [c] + q[..n - 1];
    }
  }

  lemma FirstIsNew(s: State, c: nat, q: seq<nat>)
    requires Headers(s) && s.lists.cchain == [c] + q
    ensures c !in q
  {
    assert Distinct(s.lists.cchain);
    forall i | 0 <= i < |q|
      ensures q[i] != c
    {
      assert s.lists.cchain[0] == c && s.lists.cchain[i + 1] == q[i];
    }
  }

  // ---------- one operation, and all of them ----------

  /** The pool is in order, `held` is what it has given out, `calls` what it will call in the
      end, and `some` says whether a cleanup action is registered. */
  ghost predicate Stands(pool: MemPool, held: map<nat, Piece>, calls: seq<Event>, some: bool, ids: map<nat, nat>)
    reads pool
  {
    && pool.Valid() && pool.st.pending == 0 && !pool.st.stale && Tracks(pool.st.m, held, ids)
    && NoCalls(pool.trace) && Calls(pool.st.lists.cchain, pool.cleanups) == calls
       && (some <==> pool.st.lists.cchain != [])
  }

  lemma StillNoCalls(q: seq<Event>, q': seq<Event>)
    requires NoCalls(q) && AtMostOneFree(q, q')
    ensures NoCalls(q')
  {
  }

  /** The outcome of a registration, handler and all. */
  ghost predicate Enrolled(s: State, s': State, size: nat, handler: nat, a: Answer, did: nat) {
    && (forall x :: x in s.m.live ==> x in s'.m.live && s'.m.live[x] == s.m.live[x])
    && s'.lists.cchain == (if a.p == 0 then s.lists.cchain else [a.p] + s.lists.cchain)
    && (a.p != 0 && size > 0 ==> DataGiven(s, s', did, a.data, size))
    && Calls(s'.lists.cchain, s'.lists.cleanups) ==
       OneHandler(OnDestroy(size, handler), a) + Calls(s.lists.cchain, s.lists.cleanups)
  }

  lemma EnrollEffect(s: State, s1: State, s2: State, c: nat, did: nat, size: nat, handler: nat)
    requires ActionAdded(s, s1, c, did, size) && c != 0 && Headers(s1) && c in s1.lists.cleanups
    requires s2.m == s1.m && s2.lists.cchain == s1.lists.cchain
    requires s2.lists.cleanups == s1.lists.cleanups[c := s1.lists.cleanups[c].(handler := handler)]
    ensures Enrolled(s, s2, size, handler, Answer(c, s1.lists.cleanups[c].data), did)
  {
    FirstIsNew(s1, c, s.lists.cchain);
    CallsSame(s.lists.cchain, s.lists.cleanups, s2.lists.cleanups);
    CallsFront(c, s.lists.cchain, s2.lists.cleanups);
  }

  /** A cleanup action and its handler. */
  method Register(pool: MemPool, size: nat, handler: nat) returns (a: Answer, ghost did: nat)
    requires pool.Valid() && pool.st.pending == 0 && !pool.st.stale && NoCalls(pool.trace)
    modifies pool
    ensures pool.Valid() && pool.st.pending == 0 && !pool.st.stale && NoCalls(pool.trace)
    ensures Enrolled(old(pool.st), pool.st, size, handler, a, did)
  {
    ghost var s := pool.st;
    var c;
    c, did := pool.CleanupAdd(size);
    StillNoCalls(old(pool.trace), pool.trace);
    a := Answer(c, 0);
    if c != 0 {
      ghost var s1 := pool.st;
      var data := pool.cleanups[c].data;
      pool.SetHandler(c, handler);
      a := Answer(c, data);
      EnrollEffect(s, s1, pool.st, c, did, size, handler);
    }
  }

  lemma WholeLimit(pool: MemPool)
    requires pool.Valid()
    ensures pool.max == Limit(pool.head, pool.psize)
  {
  }

  lemma GrantTracked(s: State, s': State, held: map<nat, Piece>, ids: map<nat, nat>, some: bool,
                     p: nat, id: nat, size: nat, align: bool, k: nat, limit: nat)
    returns (ids': map<nat, nat>)
    requires Tracks(s.m, held, ids) && Granted(s, s', p, id, size, if size <= limit then User(align) else Whole)
    ensures Tracks(s'.m, HeldNext(held, some, if align then Aligned(size) else Unaligned(size), k, Answer(p, 0), limit),
                   ids')
  {
    ids' := ids;
    if p != 0 {
      TracksMore(s.m, s'.m, held, ids, k, id, Piece(p, size, align || size > limit, size > limit));
      ids' := ids[k := id];
    } else {
      TracksKept(s.m, s'.m, held, ids);
    }
  }

  /** A request, aligned to a word or not. */
  method Request(pool: MemPool, size: nat, align: bool, k: nat, ghost held: map<nat, Piece>, ghost calls: seq<Event>,
                 ghost some: bool, ghost ids: map<nat, nat>)
    returns (a: Answer, ghost ids': map<nat, nat>)
    requires Stands(pool, held, calls, some, ids)
    modifies pool
    ensures var op := if align then Aligned(size) else Unaligned(size);
      Stands(pool, HeldNext(held, some, op, k, a, Limit(pool.head, pool.psize)), calls, some, ids')
  {
    ghost var s := pool.st;
    WholeLimit(pool);
    var p;
    ghost var id;
    if align {
      p, id := pool.Palloc(size);
    } else {
      p, id := pool.Pnalloc(size);
    }
    a := Answer(p, 0);
    StillNoCalls(old(pool.trace), pool.trace);
    ids' := GrantTracked(s, pool.st, held, ids, some, p, id, size, align, k, Limit(pool.head, pool.psize));
  }

  lemma ReleasedOnly(s: State, p: nat, m': Mem, q: seq<Event>, q': seq<Event>)
    requires p != 0 && PoolModel.Held(s.lists, p) ==> m' == DropRegion(s.m, p) && q' == q + [Freed(p)]
    requires !(p != 0 && PoolModel.Held(s.lists, p)) ==> m' == s.m && q' == q
    requires NoCalls(q)
    ensures NoCalls(q') && m' == if p != 0 && PoolModel.Held(s.lists, p) then DropRegion(s.m, p) else s.m
  {
  }

  method ReleaseLarge(pool: MemPool, p: nat, ghost held: map<nat, Piece>, ghost calls: seq<Event>,
                      ghost some: bool, ghost ids: map<nat, nat>)
    returns (ghost ids': map<nat, nat>)
    requires Stands(pool, held, calls, some, ids)
    modifies pool
    ensures Stands(pool, HeldNext(held, some, Release(p), 0, Answer(0, 0), 0), calls, some, ids')
  {
    ghost var s := pool.st;
    pool.Pfree(p);
    ReleasedOnly(s, p, pool.st.m, old(pool.trace), pool.trace);
    ids' := TracksLess(s, pool.head, pool.psize, pool.st.m, held, ids, some, p);
  }

  lemma DataTracked(s: State, s': State, held: map<nat, Piece>, ids: map<nat, nat>, some: bool,
                    a: Answer, did: nat, size: nat, handler: nat, k: nat, limit: nat)
    returns (ids': map<nat, nat>)
    requires Tracks(s.m, held, ids) && Enrolled(s, s', size, handler, a, did) && s.max == limit
    ensures Tracks(s'.m, HeldNext(held, some, OnDestroy(size, handler), k, a, limit), ids')
  {
    ids' := ids;
    if a.p != 0 && size > 0 {
      TracksMore(s.m, s'.m, held, ids, k, did, Piece(a.data, size, true, size > limit));
      ids' := ids[k := did];
    } else {
      TracksKept(s.m, s'.m, held, ids);
    }
  }

  method Enroll(pool: MemPool, size: nat, handler: nat, k: nat, ghost held: map<nat, Piece>, ghost calls: seq<Event>,
                ghost some: bool, ghost ids: map<nat, nat>)
    returns (a: Answer, ghost ids': map<nat, nat>)
    requires Stands(pool, held, calls, some, ids)
    modifies pool
    ensures var op := OnDestroy(size, handler);
      Stands(pool, HeldNext(held, some, op, k, a, Limit(pool.head, pool.psize)), OneHandler(op, a) + calls,
             some || a.p != 0, ids')
  {
    ghost var s := pool.st;
    WholeLimit(pool);
    ghost var did;
    a, did := Register(pool, size, handler);
    ids' := DataTracked(s, pool.st, held, ids, some, a, did, size, handler, k, Limit(pool.head, pool.psize));
  }

  method StartOver(pool: MemPool, ghost held: map<nat, Piece>, ghost calls: seq<Event>, ghost ids: map<nat, nat>)
    returns (ghost ids': map<nat, nat>)
    requires Stands(pool, held, calls, false, ids)
    modifies pool
    ensures Stands(pool, map[], calls, false, ids')
  {
    ghost var freed := pool.Reset();
    ids' := map[];
  }

  method Perform(pool: MemPool, op: Op, k: nat, some: bool, ghost held: map<nat, Piece>, ghost calls: seq<Event>,
                 ghost ids: map<nat, nat>)
    returns (a: Answer, ghost ids': map<nat, nat>)
    requires Stands(pool, held, calls, some, ids)
    modifies pool
    ensures Stands(pool, HeldNext(held, some, op, k, a, Limit(pool.head, pool.psize)), OneHandler(op, a) + calls,
                   some || (op.OnDestroy? && a.p != 0), ids')
  {
    a, ids' := Answer(0, 0), ids;
    match op {
      case Aligned(size) => a, ids' := Request(pool, size, true, k, held, calls, some, ids);
      case Unaligned(size) => a, ids' := Request(pool, size, false, k, held, calls, some, ids);
      case Release(p) => ids' := ReleaseLarge(pool, p, held, calls, some, ids);
      case OnDestroy(size, handler) =>
        a, ids' := Enroll(pool, size, handler, k, held, calls, some, ids);
      case Rewind =>
        if !some {
          ids' := StartOver(pool, held, calls, ids);
        }
    }
    assert op.OnDestroy? || OneHandler(op, a) + calls == calls;
  }

  method PerformAll(pool: MemPool, ops: seq<Op>) returns (answers: seq<Answer>, ghost ids: map<nat, nat>)
    requires Stands(pool, map[], [], false, map[])
    modifies pool
    ensures |answers| == |ops|
    ensures Stands(pool, Account(ops, answers, Limit(pool.head, pool.psize)), Handlers(ops, answers),
                   Registered(ops, answers), ids)
  {
    answers, ids := [], map[];
    ghost var limit := Limit(pool.head, pool.psize);
    for k := 0 to |ops|
      invariant |answers| == k
      invariant Stands(pool, Account(ops[..k], answers, limit), Handlers(ops[..k], answers),
                       Registered(ops[..k], answers), ids)
    {
      var some := Registered(ops[..k], answers);
      var a;
      a, ids := Perform(pool, ops[k], k, some, Account(ops[..k], answers, limit), Handlers(ops[..k], answers), ids);
      OneMore(ops, answers, k, a, limit);
      RegisteredMore(ops, answers, k, a);
      answers := answers + [a];
    }
    assert ops[..|ops|] == ops;
  }

  lemma HeldSound(s: State, head: nat, psize: nat, held: map<nat, Piece>, ids: map<nat, nat>)
    requires Good(s, head, psize) && s.pending == 0 && Tracks(s.m, held, ids)
    ensures Sound(s.m.regions, held) && AllClear(s, head, held)
  {
    TracksSound(s.m, head, psize, held, ids);
    TracksClear(s, head, psize, held, ids);
  }

  /** Any run that creates a pool, uses it and destroys it once: whatever is held is sound and
      clear of the pool's own headers, the handlers are called, the last first, before anything
      is freed, and in the end nothing that malloc gave is left.  `s` is the pool just before. */
  method Run(head: nat, size: nat, refusals: seq<bool>, ops: seq<Op>)
    returns (created: bool, answers: seq<Answer>, trace: seq<Event>, left: map<nat, nat>,
             ghost early: seq<Event>, ghost s: State, ghost freed: seq<nat>)
    requires IsHead(head) && size % WORD == 0 && head + 2 * LARGE <= size < ADDRESSES
    ensures left == map[] && (!created ==> answers == [] && trace == [] && refusals != [])
    ensures created ==>
      && |answers| == |ops| && Sound(s.m.regions, Account(ops, answers, Limit(head, size)))
      && Good(s, head, size) && AllClear(s, head, Account(ops, answers, Limit(head, size)))
      && Distinct(freed) && (forall r :: r in freed <==> r in s.m.regions)
      && NoCalls(early) && trace == early + Handlers(ops, answers) + Frees(freed)
  {
    var pool := new MemPool(head, size, refusals);
    created, answers, early, s, freed := pool.pool != 0, [], [], pool.st, [];
    if !created {
      return false, [], [], pool.heap.regions, [], s, [];
    }
    ghost var ids;
    answers, ids := PerformAll(pool, ops);
    early, s := pool.trace, pool.st;
    HeldSound(s, head, size, Account(ops, answers, Limit(head, size)), ids);
    freed := pool.Destroy();
    trace, left := pool.trace, pool.heap.regions;
  }

  // ---------- what a reset does to the list of cleanup actions ----------

  /** An empty first block has room right behind its header, and a request goes there. */
  lemma GoesToHead(s: State, s': State, head: nat, psize: nat, p: nat, n: nat)
    requires Good(s, head, psize) && s.cur == 0 && s.pool in s.m.blocks
    requires s.m.blocks[s.pool].last == s.pool + head && head + n <= psize
    requires WhereServed(s, s', psize, p, n, true)
    ensures p == s.pool + head && s'.m.chain == s.m.chain
  {
    assert BlockOk(s.m, head, psize, 0);
    assert RegionOk(s.m.regions, s.pool, s.pool);
    OnlySpot(s.m.blocks[s.pool], s.pool + head, n);
    if j :| ServedFrom(s, s', j, p, n, true) {
      assert j == 0;
    }
  }

  lemma OnlySpot(b: Block, at: nat, n: nat)
    requires b.last == at && at % WORD == 0 && at + n <= b.end
    ensures Spot(b, at, n, true) && !NoSpot(b, n, true) && forall p :: Spot(b, p, n, true) ==> p == at
  {
    assert Spot(b, at, n, true);
  }

  /** A new pool with one cleanup action: its header is the first thing in the block. */
  method PoolWithAction(head: nat, size: nat) returns (pool: MemPool, c: nat)
    requires IsHead(head) && size % WORD == 0 && head + 2 * LARGE <= size < ADDRESSES
    ensures fresh(pool) && pool.Valid() && pool.head == head && pool.psize == size && pool.st.pending == 0
      && !pool.st.stale
    ensures pool.st.m.chain == [pool.pool] && pool.st.lists.cchain == [c] && c == pool.pool + head
      && pool.cleanup == c != 0
  {
    pool := new MemPool(head, size, []);
    ghost var s, did := pool.st, 0;
    c, did := pool.CleanupAdd(0);
    GoesToHead(s, pool.st, head, size, c, CLEANUP);
  }

  lemma NotSheltered(s: State, head: nat, c: nat)
    requires |s.m.chain| == 1 && s.lists.cchain == [c]
    ensures !AllSheltered(s, head)
  {
    assert !Sheltered(s.m, head, s.lists.cchain[0]);
  }

  /** In the shortest run with a cleanup action and a reset, the next request is given the memory
      of the header that is still on the list. */
  method HeaderGivenAgain(head: nat, size: nat) returns (pool: MemPool, c: nat, p: nat)
    requires IsHead(head) && size % WORD == 0 && head + 2 * LARGE <= size < ADDRESSES
    ensures pool.cleanup == c != 0 && p == c && pool.st.stale
  {
    pool, c := PoolWithAction(head, size);
    ghost var freed, id;
    NotSheltered(pool.st, head, c);
    freed := pool.Reset();
    WholeLimit(pool);
    ghost var s := pool.st;
    p, id := pool.Palloc(CLEANUP);
    GoesToHead(s, pool.st, head, size, p, CLEANUP);
  }

  /** A pool whose first block is full. */
  method FullPool() returns (pool: MemPool)
    ensures fresh(pool) && pool.Valid() && pool.head == 64 && pool.psize == 96 && pool.st.pending == 0 && !pool.st.stale
    ensures |pool.st.m.chain| == 1 && pool.st.lists.cchain == [] && pool.heap.refusals == []
    ensures pool.pool in pool.blocks && NoSpot(pool.blocks[pool.pool], CLEANUP, true)
  {
    pool := new MemPool(64, 96, []);
    WholeLimit(pool);
    ghost var s := pool.st;
    var p, id := pool.Palloc(32);
    GoesToHead(s, pool.st, 64, 96, p, 32);
    FullBlock(pool.st, id);
  }

  lemma FullBlock(s: State, id: nat)
    requires Good(s, 64, 96) && |s.m.chain| == 1 && id in s.m.live && s.m.live[id].size == 32
      && s.m.live[id].kind == User(true)
    ensures s.pool in s.m.blocks && NoSpot(s.m.blocks[s.pool], CLEANUP, true)
  {
    assert ExtentOk(s.m, 64, id) && BlockOk(s.m, 64, 96, 0);
    assert RegionOk(s.m.regions, s.m.chain[0], s.m.chain[0]);
  }

  lemma InShelter(s: State, s': State, c: nat)
    requires Good(s, 64, 96) && |s.m.chain| == 1 && s.pool in s.m.blocks
    requires NoSpot(s.m.blocks[s.pool], CLEANUP, true) && c != 0 && WhereServed(s, s', 96, c, CLEANUP, true)
    requires s'.lists.cchain == [c]
    ensures AllSheltered(s', 64)
  {
    assert s'.m.chain[1] == c - DATA;
    assert Sheltered(s'.m, 64, c);
  }

  /** A header that opens a further block outlives a reset, and the list goes on. */
  method HeaderKept() returns (pool: MemPool, c: nat)
    ensures pool.cleanup == c != 0 && pool.Valid() && !pool.st.stale && pool.st.lists.cchain == [c]
  {
    pool := FullPool();
    ghost var did, freed;
    ghost var s := pool.st;
    c, did := pool.CleanupAdd(0);
    InShelter(s, pool.st, c);
    freed := pool.Reset();
  }
}
