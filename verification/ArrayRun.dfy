/** Runs of two arrays and other users of the same pool and the same memory. */
module ArrayRun {
  import opened Arith
  import opened PoolModel
  import opened MemPool
  import opened PoolArray

  /** An append to either array, an allocation by somebody else, or a write of byte `i` of what
      operation `k` has given to somebody else. */
  datatype Op = First(value: seq<nat>) | Second(value: seq<nat>) | Other(size: nat) | Write(k: nat, i: nat, x: nat)

  // ---------- what everybody is owed ----------

  /** The values appended to one of the arrays; 0 answers a failure. */
  function Values(ops: seq<Op>, answers: seq<nat>, first: bool): seq<seq<nat>>
    requires |answers| == |ops|
  {
    if ops == [] then []
    else
      var k := |ops| - 1;
      var before := Values(ops[..k], answers[..k], first);
      if answers[k] != 0 && (if first then ops[k].First? else ops[k].Second?) then before + [ops[k].value] else before
  }

  /** A write is made only to memory that was given, within its size. */
  predicate Makes(ops: seq<Op>, answers: seq<nat>, op: Op)
    requires |answers| == |ops|
  {
    op.Write? && op.k < |ops| && ops[op.k].Other? && answers[op.k] != 0 && op.i < ops[op.k].size
  }

  /** What the others have written, by address. */
  function Written(ops: seq<Op>, answers: seq<nat>): map<int, nat>
    requires |answers| == |ops|
  {
    if ops == [] then map[]
    else
      var n := |ops| - 1;
      WrittenNext(ops[..n], answers[..n], Written(ops[..n], answers[..n]), ops[n])
  }

  function WrittenNext(ops: seq<Op>, answers: seq<nat>, before: map<int, nat>, op: Op): map<int, nat>
    requires |answers| == |ops|
  {
    if Makes(ops, answers, op) then before[answers[op.k] + op.i := op.x] else before
  }

  lemma OneMore(ops: seq<Op>, answers: seq<nat>, n: nat, a: nat)
    requires |answers| == n < |ops|
    ensures Values(ops[..n + 1], answers + [a], true) ==
      Values(ops[..n], answers, true) + if a != 0 && ops[n].First? then [ops[n].value] else []
    ensures Values(ops[..n + 1], answers + [a], false) ==
      Values(ops[..n], answers, false) + if a != 0 && ops[n].Second? then [ops[n].value] else []
    ensures Written(ops[..n + 1], answers + [a]) == WrittenNext(ops[..n], answers, Written(ops[..n], answers), ops[n])
  {
    assert ops[..n + 1][..n] == ops[..n] && (answers + [a])[..n] == answers;
  }

  // ---------- one operation beside the others ----------

  /** Two arrays in one pool and one memory, and the extents of the others, all different. */
  ghost predicate Side(a: Array, b: Array, others: set<nat>)
    reads a, b, a.pool, b.pool
  {
    && a != b && a.pool == b.pool && a.memory == b.memory && a.Valid() && b.Valid()
    && a.id != b.id && a.id != b.sid && a.sid != b.id && a.sid != b.sid
    && forall x :: x in others ==> x in a.pool.st.m.live && x != a.id && x != a.sid && x != b.id && x != b.sid
  }

  /** The address `at` belongs to one of the extents. */
  ghost predicate Theirs(m: Mem, others: set<nat>, at: int) {
    exists x :: x in others && x in m.live && m.live[x].base <= at < m.live[x].base + m.live[x].size
  }

  ghost predicate SameByte(b: map<int, nat>, b': map<int, nat>, at: int) {
    (at in b' <==> at in b) && (at in b ==> b'[at] == b[at])
  }

  /** The others' memory stays theirs and is not written. */
  ghost predicate LeftAlone(m: Mem, m': Mem, others: set<nat>, b: map<int, nat>, b': map<int, nat>) {
    && (forall x :: x in others && x in m.live ==> x in m'.live && m'.live[x] == m.live[x])
    && (forall at :: Theirs(m', others, at) ==> SameByte(b, b', at))
  }

  /** Writing in the place of the elements of `a` changes nothing of the others'. */
  lemma OthersUntouched(m: Mem, head: nat, psize: nat, id: nat, others: set<nat>, b: map<int, nat>, b': map<int, nat>,
                        lo: nat, n: nat)
    requires MemOk(m, head, psize) && id in m.live && id !in others && n > 0 && m.live[id].base == lo
      && m.live[id].size == n
    requires WrittenWithin(b, b', lo, lo + n)
    ensures forall at :: Theirs(m, others, at) ==> SameByte(b, b', at)
  {
    forall at | Theirs(m, others, at)
      ensures SameByte(b, b', at)
    {
      var x :| x in others && x in m.live && m.live[x].base <= at < m.live[x].base + m.live[x].size;
      Separate(m, head, psize, id, x);
    }
  }

  /** The elements of an array lie apart from every other extent. */
  lemma ElemsUntouched(m: Mem, head: nat, psize: nat, id: nat, a: Array, b: map<int, nat>, b': map<int, nat>, lo: int,
                       hi: int)
    requires MemOk(m, head, psize) && id in m.live && a.size >= 1 && a.nalloc >= 1 && a.nelts <= a.nalloc
    requires Owns(m, a.id, a.elts, a.nalloc * a.size) && id != a.id
    requires m.live[id].base <= lo < hi <= m.live[id].base + m.live[id].size && WrittenWithin(b, b', lo, hi)
    ensures ElemsOf(b', a.elts, a.size, a.nelts) == ElemsOf(b, a.elts, a.size, a.nelts)
  {
    Product(1, a.nalloc, a.size);
    Product(a.nelts, a.nalloc, a.size);
    Separate(m, head, psize, id, a.id);
    Elsewhere(b, b', lo, hi, a.elts, a.nelts * a.size);
    SameElems(b, a.elts, b', a.elts, a.size, a.nelts);
  }

  /** An append to `a` leaves `b` and everything of the others alone. */
  method AppendBeside(a: Array, b: Array, value: seq<nat>, ghost others: set<nat>) returns (ok: bool)
    requires Side(a, b, others) && |value| == a.size
    modifies a`elts, a`nelts, a`nalloc, a`id, a.memory, a.pool
    ensures Side(a, b, others) && b.Elems() == old(b.Elems())
    ensures a.Elems() == if ok then old(a.Elems()) + [value] else old(a.Elems())
    ensures LeftAlone(old(a.pool.st.m), a.pool.st.m, others, old(a.memory.bytes), a.memory.bytes)
    ensures old(a.pool.heap).refusals == [] ==> ok && a.pool.heap.refusals == []
  {
    ok := a.Append(value);
    ghost var m, n := a.pool.st.m, a.nalloc * a.size;
    Product(1, a.nalloc, a.size);
    ElemsUntouched(m, a.pool.head, a.pool.psize, a.id, b, old(a.memory.bytes), a.memory.bytes, a.elts, a.elts + n);
    OthersUntouched(m, a.pool.head, a.pool.psize, a.id, others, old(a.memory.bytes), a.memory.bytes, a.elts, n);
  }

  /** So does an allocation by somebody else. */
  method AllocBeside(a: Array, b: Array, size: nat, ghost others: set<nat>) returns (p: nat, ghost id: nat)
    requires Side(a, b, others)
    modifies a.pool
    ensures Side(a, b, if p != 0 then others + {id} else others)
    ensures LeftAlone(old(a.pool.st.m), a.pool.st.m, others, a.memory.bytes, a.memory.bytes)
    ensures p != 0 ==> id !in others && a.pool.st.m.live[id].base == p && a.pool.st.m.live[id].size == size
    ensures old(a.pool.heap).refusals == [] ==> p != 0 && a.pool.heap.refusals == []
  {
    p, id := a.pool.Palloc(size);
  }

  /** And a write by somebody else to what they were given. */
  method WriteBeside(a: Array, b: Array, ghost others: set<nat>, ghost id: nat, at: nat, x: nat)
    requires Side(a, b, others) && id in others
    requires a.pool.st.m.live[id].base <= at < a.pool.st.m.live[id].base + a.pool.st.m.live[id].size
    modifies a.memory
    ensures Side(a, b, others) && a.Elems() == old(a.Elems()) && b.Elems() == old(b.Elems())
    ensures a.memory.bytes == old(a.memory.bytes)[at := x]
  {
    ghost var m, before := a.pool.st.m, a.memory.bytes;
    a.memory.bytes := a.memory.bytes[at := x];
    ElemsUntouched(m, a.pool.head, a.pool.psize, id, a, before, a.memory.bytes, at, at + 1);
    ElemsUntouched(m, a.pool.head, a.pool.psize, id, b, before, a.memory.bytes, at, at + 1);
  }

  // ---------- all operations ----------

  /** What the others were given is theirs, and holds what they have written. */
  ghost predicate Kept(m: Mem, bytes: map<int, nat>, ops: seq<Op>, answers: seq<nat>, ids: map<nat, nat>,
                       others: set<nat>)
    requires |answers| == |ops|
  {
    && others == ids.Values
    && (forall k :: 0 <= k < |ops| && ops[k].Other? && answers[k] != 0 ==>
         k in ids && ids[k] in m.live && m.live[ids[k]].base == answers[k] && m.live[ids[k]].size == ops[k].size)
    && (forall at :: at in Written(ops, answers) ==>
        Theirs(m, others, at) && at in bytes && bytes[at] == Written(ops, answers)[at])
  }

  ghost predicate Stands(a: Array, b: Array, ops: seq<Op>, answers: seq<nat>, ids: map<nat, nat>)
    requires |answers| == |ops|
    reads a, b, a.pool, b.pool, a.memory, b.memory
  {
    && Side(a, b, ids.Values) && Kept(a.pool.st.m, a.memory.bytes, ops, answers, ids, ids.Values)
    && a.Elems() == Values(ops, answers, true) && b.Elems() == Values(ops, answers, false)
  }

  lemma KeptSame(m: Mem, m': Mem, b: map<int, nat>, b': map<int, nat>, ops: seq<Op>, answers: seq<nat>,
                 ids: map<nat, nat>)
    requires |answers| == |ops| && Kept(m, b, ops, answers, ids, ids.Values) && LeftAlone(m, m', ids.Values, b, b')
    ensures Kept(m', b', ops, answers, ids, ids.Values)
  {
    forall at | at in Written(ops, answers)
      ensures Theirs(m', ids.Values, at) && SameByte(b, b', at)
    {
      assert Theirs(m, ids.Values, at);
    }
    forall k | 0 <= k < |ops| && ops[k].Other? && answers[k] != 0
      ensures k in ids && ids[k] in ids.Values
    {
    }
  }

  /** One more operation that gives nothing to the others and writes nothing of theirs. */
  lemma KeptOn(m: Mem, b: map<int, nat>, ops: seq<Op>, answers: seq<nat>, n: nat, a: nat, ids: map<nat, nat>)
    requires |answers| == n < |ops| && Kept(m, b, ops[..n], answers, ids, ids.Values)
    requires !(ops[n].Other? && a != 0) && !Makes(ops[..n], answers, ops[n])
    ensures Kept(m, b, ops[..n + 1], answers + [a], ids, ids.Values)
  {
    OneMore(ops, answers, n, a);
    KeptExtents(m, b, ops, answers, n, a, ids);
  }

  lemma KeptThrough(m: Mem, m': Mem, b: map<int, nat>, b': map<int, nat>, ops: seq<Op>, answers: seq<nat>, n: nat,
                    a: nat, ids: map<nat, nat>)
    requires |answers| == n < |ops| && Kept(m, b, ops[..n], answers, ids, ids.Values)
      && LeftAlone(m, m', ids.Values, b, b')
    requires ops[n].First? || ops[n].Second?
    ensures Kept(m', b', ops[..n + 1], answers + [a], ids, ids.Values)
    ensures Values(ops[..n + 1], answers + [a], true) ==
      Values(ops[..n], answers, true) + if a != 0 && ops[n].First? then [ops[n].value] else []
    ensures Values(ops[..n + 1], answers + [a], false) ==
      Values(ops[..n], answers, false) + if a != 0 && ops[n].Second? then [ops[n].value] else []
  {
    KeptSame(m, m', b, b', ops[..n], answers, ids);
    KeptOn(m', b', ops, answers, n, a, ids);
    OneMore(ops, answers, n, a);
  }

  lemma KeptExtents(m: Mem, b: map<int, nat>, ops: seq<Op>, answers: seq<nat>, n: nat, a: nat, ids: map<nat, nat>)
    requires |answers| == n < |ops| && Kept(m, b, ops[..n], answers, ids, ids.Values) && !(ops[n].Other? && a != 0)
    ensures var ops', answers' := ops[..n + 1], answers + [a];
      forall k :: 0 <= k < |ops'| && ops'[k].Other? && answers'[k] != 0 ==>
        k in ids && ids[k] in m.live && m.live[ids[k]].base == answers'[k] && m.live[ids[k]].size == ops'[k].size
  {
    var ops', answers' := ops[..n + 1], answers + [a];
    forall k | 0 <= k < |ops'| && ops'[k].Other? && answers'[k] != 0
      ensures k in ids && ids[k] in m.live && m.live[ids[k]].base == answers'[k] && m.live[ids[k]].size == ops'[k].size
    {
      assert k < n && ops[..n][k] == ops'[k] && answers[k] == answers'[k];
    }
  }

  /** An allocation by somebody else. */
  lemma KeptAlloc(m: Mem, b: map<int, nat>, ops: seq<Op>, answers: seq<nat>, n: nat, a: nat, ids: map<nat, nat>,
                  id: nat)
    requires |answers| == n < |ops| && Kept(m, b, ops[..n], answers, ids, ids.Values) && ops[n].Other? && a != 0
    requires id in m.live && m.live[id].base == a && m.live[id].size == ops[n].size && n !in ids
    ensures ids[n := id].Values == ids.Values + {id}
    ensures Kept(m, b, ops[..n + 1], answers + [a], ids[n := id], ids[n := id].Values)
  {
    OneMore(ops, answers, n, a);
    var ids' := ids[n := id];
    assert ids'[n] == id && forall k :: k in ids ==> ids'[k] == ids[k];
    assert ids'.Values == ids.Values + {id};
    var ops', answers' := ops[..n + 1], answers + [a];
    forall k | 0 <= k < |ops'| && ops'[k].Other? && answers'[k] != 0
      ensures k in ids' && ids'[k] in m.live && m.live[ids'[k]].base == answers'[k]
        && m.live[ids'[k]].size == ops'[k].size
    {
      if k < n { assert ops[..n][k] == ops'[k] && answers[k] == answers'[k]; }
    }
    forall at | at in Written(ops', answers')
      ensures Theirs(m, ids'.Values, at)
    {
      assert Theirs(m, ids.Values, at);
    }
  }

  /** A write by somebody else. */
  lemma KeptWrite(m: Mem, b: map<int, nat>, ops: seq<Op>, answers: seq<nat>, n: nat, a: nat, ids: map<nat, nat>)
    requires |answers| == n < |ops| && Kept(m, b, ops[..n], answers, ids, ids.Values)
      && Makes(ops[..n], answers, ops[n])
    ensures var w := ops[n]; var at := answers[w.k] + w.i;
      && w.k in ids && ids[w.k] in m.live && m.live[ids[w.k]].base <= at < m.live[ids[w.k]].base + m.live[ids[w.k]].size
      && Kept(m, b[at := w.x], ops[..n + 1], answers + [a], ids, ids.Values)
  {
    OneMore(ops, answers, n, a);
    KeptExtents(m, b, ops, answers, n, a, ids);
    var w := ops[n];
    var at := answers[w.k] + w.i;
    assert ids[w.k] in ids.Values;
    assert Theirs(m, ids.Values, at);
  }

  lemma AllocThrough(m: Mem, m': Mem, b: map<int, nat>, ops: seq<Op>, answers: seq<nat>, n: nat, a: nat,
                     ids: map<nat, nat>, id: nat)
    returns (ids': map<nat, nat>)
    requires |answers| == n < |ops| && Kept(m, b, ops[..n], answers, ids, ids.Values)
      && LeftAlone(m, m', ids.Values, b, b)
    requires ops[n].Other? && Before(ids, n)
    requires a != 0 ==> id in m'.live && m'.live[id].base == a && m'.live[id].size == ops[n].size
    ensures Kept(m', b, ops[..n + 1], answers + [a], ids', ids'.Values) && Before(ids', n + 1)
    ensures ids'.Values == if a != 0 then ids.Values + {id} else ids.Values
    ensures Values(ops[..n + 1], answers + [a], true) == Values(ops[..n], answers, true)
    ensures Values(ops[..n + 1], answers + [a], false) == Values(ops[..n], answers, false)
  {
    KeptSame(m, m', b, b, ops[..n], answers, ids);
    ids' := ids;
    if a != 0 {
      KeptAlloc(m', b, ops, answers, n, a, ids, id);
      ids' := ids[n := id];
    } else {
      KeptOn(m', b, ops, answers, n, a, ids);
    }
    OneMore(ops, answers, n, a);
  }

  lemma WriteThrough(m: Mem, b: map<int, nat>, ops: seq<Op>, answers: seq<nat>, n: nat, ids: map<nat, nat>)
    requires |answers| == n < |ops| && Kept(m, b, ops[..n], answers, ids, ids.Values) && ops[n].Write?
    ensures var w := ops[n]; var b' := if Makes(ops[..n], answers, w) then b[answers[w.k] + w.i := w.x] else b;
      Kept(m, b', ops[..n + 1], answers + [1], ids, ids.Values)
    ensures Makes(ops[..n], answers, ops[n]) ==>
      var w := ops[n]; var at := answers[w.k] + w.i;
      w.k in ids && ids[w.k] in m.live && m.live[ids[w.k]].base <= at < m.live[ids[w.k]].base + m.live[ids[w.k]].size
    ensures Values(ops[..n + 1], answers + [1], true) == Values(ops[..n], answers, true)
    ensures Values(ops[..n + 1], answers + [1], false) == Values(ops[..n], answers, false)
  {
    if Makes(ops[..n], answers, ops[n]) {
      KeptWrite(m, b, ops, answers, n, 1, ids);
    } else {
      KeptOn(m, b, ops, answers, n, 1, ids);
    }
    OneMore(ops, answers, n, 1);
  }

  /** Only operations before `n` have given something to the others. */
  ghost predicate Before(ids: map<nat, nat>, n: nat) {
    forall k :: k in ids ==> k < n
  }

  ghost predicate Sized(op: Op, size1: nat, size2: nat) {
    (op.First? ==> |op.value| == size1) && (op.Second? ==> |op.value| == size2)
  }

  method DoFirst(a: Array, b: Array, ops: seq<Op>, answers: seq<nat>, ghost ids: map<nat, nat>) returns (answer: nat)
    requires |answers| < |ops| && Stands(a, b, ops[..|answers|], answers, ids) && ops[|answers|].First?
    requires |ops[|answers|].value| == a.size
    modifies a`elts, a`nelts, a`nalloc, a`id, a.memory, a.pool
    ensures Stands(a, b, ops[..|answers| + 1], answers + [answer], ids)
    ensures old(a.pool.heap).refusals == [] ==> answer != 0 && a.pool.heap.refusals == []
  {
    ghost var n, m, bytes := |answers|, a.pool.st.m, a.memory.bytes;
    var ok := AppendBeside(a, b, ops[|answers|].value, ids.Values);
    answer := if ok then 1 else 0;
    KeptThrough(m, a.pool.st.m, bytes, a.memory.bytes, ops, answers, n, answer, ids);
  }

  method DoSecond(a: Array, b: Array, ops: seq<Op>, answers: seq<nat>, ghost ids: map<nat, nat>) returns (answer: nat)
    requires |answers| < |ops| && Stands(a, b, ops[..|answers|], answers, ids) && ops[|answers|].Second?
    requires |ops[|answers|].value| == b.size
    modifies b`elts, b`nelts, b`nalloc, b`id, a.memory, a.pool
    ensures Stands(a, b, ops[..|answers| + 1], answers + [answer], ids)
    ensures old(a.pool.heap).refusals == [] ==> answer != 0 && a.pool.heap.refusals == []
  {
    ghost var n, m, bytes := |answers|, a.pool.st.m, a.memory.bytes;
    var ok := AppendBeside(b, a, ops[|answers|].value, ids.Values);
    answer := if ok then 1 else 0;
    KeptThrough(m, a.pool.st.m, bytes, a.memory.bytes, ops, answers, n, answer, ids);
  }

  method DoOther(a: Array, b: Array, ops: seq<Op>, answers: seq<nat>, ghost ids: map<nat, nat>)
    returns (answer: nat, ghost ids': map<nat, nat>)
    requires |answers| < |ops| && Stands(a, b, ops[..|answers|], answers, ids) && ops[|answers|].Other?
      && Before(ids, |answers|)
    modifies a.pool
    ensures Stands(a, b, ops[..|answers| + 1], answers + [answer], ids') && Before(ids', |answers| + 1)
    ensures old(a.pool.heap).refusals == [] ==> answer != 0 && a.pool.heap.refusals == []
  {
    ghost var n, m, bytes := |answers|, a.pool.st.m, a.memory.bytes;
    ghost var id;
    answer, id := AllocBeside(a, b, ops[|answers|].size, ids.Values);
    ids' := AllocThrough(m, a.pool.st.m, bytes, ops, answers, n, answer, ids, id);
  }

  method DoWrite(a: Array, b: Array, ops: seq<Op>, answers: seq<nat>, ghost ids: map<nat, nat>)
    requires |answers| < |ops| && Stands(a, b, ops[..|answers|], answers, ids) && ops[|answers|].Write?
    modifies a.memory
    ensures Stands(a, b, ops[..|answers| + 1], answers + [1], ids)
  {
    ghost var n, m, bytes := |answers|, a.pool.st.m, a.memory.bytes;
    var w := ops[|answers|];
    WriteThrough(m, bytes, ops, answers, n, ids);
    if Makes(ops[..|answers|], answers, w) {
      WriteBeside(a, b, ids.Values, ids[w.k], answers[w.k] + w.i, w.x);
    }
  }

  method Perform(a: Array, b: Array, ops: seq<Op>, answers: seq<nat>, ghost ids: map<nat, nat>)
    returns (answer: nat, ghost ids': map<nat, nat>)
    requires |answers| < |ops| && Stands(a, b, ops[..|answers|], answers, ids) && Sized(ops[|answers|], a.size, b.size)
    requires Before(ids, |answers|)
    modifies a`elts, a`nelts, a`nalloc, a`id, b`elts, b`nelts, b`nalloc, b`id, a.memory, a.pool
    ensures Stands(a, b, ops[..|answers| + 1], answers + [answer], ids')
    ensures Before(ids', |answers| + 1)
    ensures old(a.pool.heap).refusals == [] ==> answer != 0 && a.pool.heap.refusals == []
  {
    answer, ids' := 1, ids;
    match ops[|answers|] {
      case First(_) => answer := DoFirst(a, b, ops, answers, ids);
      case Second(_) => answer := DoSecond(a, b, ops, answers, ids);
      case Other(_) => answer, ids' := DoOther(a, b, ops, answers, ids);
      case Write(_, _, _) => DoWrite(a, b, ops, answers, ids);
    }
  }

  /** Any interleaving of appends to two arrays with the allocations and writes of others: each
      array is the sequence of the values appended to it, and the others find in their memory
      what they wrote.  Without a refusal of malloc nothing fails. */
  method Run(pool: MemPool, memory: Memory, n1: nat, size1: nat, n2: nat, size2: nat, ops: seq<Op>)
    returns (a: Array?, b: Array?, answers: seq<nat>)
    requires pool.Valid() && pool.st.pending == 0 && n1 >= 1 && n2 >= 1 && size1 >= 1 && size2 >= 1
    requires forall k :: 0 <= k < |ops| ==> Sized(ops[k], size1, size2)
    modifies pool, memory
    ensures a != null && b != null ==>
      && |answers| == |ops| && a.memory == b.memory == memory
      && a.Elems() == Values(ops, answers, true) && b.Elems() == Values(ops, answers, false)
      && forall at :: at in Written(ops, answers) ==>
         at in memory.bytes && memory.bytes[at] == Written(ops, answers)[at]
    ensures old(pool.heap).refusals == [] ==> a != null && b != null && AllMade(answers)
  {
    answers := [];
    b := null;
    a := Array.Create(pool, memory, n1, size1);
    if a != null {
      b := Array.Create(pool, memory, n2, size2);
    }
    if a != null && b != null {
      answers := RunAll(a, b, ops);
    }
  }

  predicate AllMade(answers: seq<nat>) {
    forall k :: 0 <= k < |answers| ==> answers[k] != 0
  }

  lemma AllMadeMore(answers: seq<nat>, answer: nat)
    requires AllMade(answers) && answer != 0
    ensures AllMade(answers + [answer])
  {
  }

  method RunAll(a: Array, b: Array, ops: seq<Op>) returns (answers: seq<nat>)
    requires Side(a, b, {}) && a.Elems() == [] && b.Elems() == []
    requires forall k :: 0 <= k < |ops| ==> Sized(ops[k], a.size, b.size)
    modifies a, b, a.memory, a.pool
    ensures |answers| == |ops| && a.Elems() == Values(ops, answers, true) && b.Elems() == Values(ops, answers, false)
    ensures forall at :: at in Written(ops, answers) ==>
      at in a.memory.bytes && a.memory.bytes[at] == Written(ops, answers)[at]
    ensures old(a.pool.heap).refusals == [] ==> AllMade(answers)
  {
    answers := [];
    ghost var ids: map<nat, nat> := map[];
    ghost var generous := a.pool.heap.refusals == [];
    assert ids.Values == {};
    for n := 0 to |ops|
      invariant |answers| == n && Stands(a, b, ops[..n], answers, ids) && Before(ids, n)
      invariant generous ==> a.pool.heap.refusals == [] && AllMade(answers)
    {
      var answer;
      answer, ids := Perform(a, b, ops, answers, ids);
      if generous {
        AllMadeMore(answers, answer);
      }
      answers := answers + [answer];
    }
    assert ops[..|ops|] == ops;
  }
}
