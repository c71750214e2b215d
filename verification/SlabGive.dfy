/** Giving pages back: wiping, joining with the free neighbours on both sides, and
    putting the resulting run on the list of free runs. */
module SlabGive {
  import opened Common
  import opened SlabModel
  import opened SlabLists
  import opened SlabPages

  const BLANK: Entry := Entry(0, Null, Null, TAG_PAGE)

  /** Same use, though list neighbours may have changed. */
  ghost predicate Touch(e: Entry, e': Entry) {
    e'.slab == e.slab && e'.tag == e.tag && (e'.next == Null <==> e.next == Null)
  }

  /** Half-way through: pages [a, b) are detached and blank but for the count in the first
      one; all other pages are as in `s`. */
  ghost predicate StagePage(s: Pool, m: Table, a: nat, b: nat, j: int)
    requires 0 <= j < |s.v|
  {
    && Page(j) in m && Page(j) in s.m
    && var e, e' := s.m[Page(j)], m[Page(j)];
    if j == a then e'.slab == b - a
    else if a < j < b then e'.slab == 0 && e'.next == Null && e'.tag == TAG_PAGE
    else Touch(e, e') && (s.v[j].FreeBody? ==> e'.prev == e.prev)
  }

  ghost predicate StageFree(s: Pool, m: Table, a: nat, b: nat, q: seq<nat>) {
    && List(m, FreeList, q)
    && forall x: nat :: x in q <==> x < |s.v| && s.v[x].FreeHead? && !(a <= x < b)
  }

  ghost predicate StageSlot(s: Pool, m: Table, i: nat, sl: seq<seq<nat>>, slot: nat)
    requires slot < |sl|
  {
    && List(m, SlotList(slot), sl[slot])
    && forall x: nat :: x in sl[slot] <==> x < |s.v| && Partial(s.v[x], slot) && x != i
  }

  /** Free runs and page uses around the stretch [a, b), which page run [i, i+k) is part of. */
  ghost predicate Stage(s: Pool, m: Table, i: nat, a: nat, b: nat, q: seq<nat>, sl: seq<seq<nat>>) {
    && Conforms(s) && a <= i < b <= |s.v| && |sl| == SLOTS && m.Keys == s.m.Keys
    && (forall j {:trigger StagePage(s, m, a, b, j)} :: 0 <= j < |s.v| ==> StagePage(s, m, a, b, j))
    && StageFree(s, m, a, b, q)
    && (forall slot {:trigger StageSlot(s, m, i, sl, slot)} :: 0 <= slot < SLOTS ==> StageSlot(s, m, i, sl, slot))
  }

  // ---------- what taking a page off a list does to the others ----------

  lemma UnhookOther(m: Table, h: Ref, q: seq<nat>, k: nat, tag: nat, r: Ref)
    requires List(m, h, q) && k < |q| && r in m
    requires forall x :: 0 <= x < |q| ==> Page(q[x]) in m && m[Page(q[x])].tag == tag
    requires Null !in m
    ensures CanUnhook(m, Page(q[k]))
    ensures var m' := Unhook(m, Page(q[k]));
      && m'.Keys == m.Keys
      && (!OnList(h, q, r) ==> m'[r] == m[r])
      && (r.Page? && r != Page(q[k]) ==> Touch(m[r], m'[r]))
      && (r == Page(q[k]) ==> m'[r] == m[r])
  {
    UnhookReady(m, h, q, k);
    if 0 <= k - 1 { assert m[Page(q[k - 1])].tag == tag; assert NextOk(m, h, q, k); }
    if k + 1 < |q| { assert m[Page(q[k + 1])].tag == tag; }
  }

  lemma RemoveAtMembers(q: seq<nat>, k: nat)
    requires k < |q| && Distinct(q)
    ensures forall x: nat :: x in RemoveAt(q, k) <==> x in q && x != q[k]
  {
    var q' := RemoveAt(q, k);
    forall x: nat
      ensures x in q' <==> x in q && x != q[k]
    {
      if x in q && x != q[k] {
        var a :| 0 <= a < |q| && q[a] == x;
        assert q'[if a < k then a else a - 1] == x;
      }
    }
  }

  lemma StageTags(s: Pool, m: Table, i: nat, a: nat, b: nat, q: seq<nat>, sl: seq<seq<nat>>)
    requires Stage(s, m, i, a, b, q, sl)
    ensures Null !in m && FreeList in m
    ensures forall x :: 0 <= x < |q| ==> q[x] < |s.v| && Page(q[x]) in m && m[Page(q[x])].tag == TAG_PAGE
  {
    assert NextOk(m, FreeList, q, 0);
    forall x | 0 <= x < |q|
      ensures q[x] < |s.v| && Page(q[x]) in m && m[Page(q[x])].tag == TAG_PAGE
    {
      assert q[x] in q;
      assert StagePage(s, m, a, b, q[x]) && PageOk(s, q[x]);
    }
  }

  // ---------- joining with a free run next to the stretch ----------

  /** The count of page `x` is set, page `y` leaves its list, page `z` is blanked. */
  function Join(m: Table, x: nat, y: nat, z: nat, count: nat): Table
    requires Page(x) in m && CanUnhook(m, Page(y))
  {
    var m1 := m[Page(x) := m[Page(x)].(slab := count)];
    var m2 := Unhook(m1, Page(y));
    m2[Page(z) := BLANK]
  }

  /** The free run at `y` begins where the stretch ends, or ends where it begins. */
  ghost predicate Adjacent(s: Pool, m: Table, i: nat, a: nat, b: nat, q: seq<nat>, sl: seq<seq<nat>>, pos: nat) {
    && Stage(s, m, i, a, b, q, sl) && pos < |q| && q[pos] < |s.v| && s.v[q[pos]].FreeHead?
    && a == i && (q[pos] == b || q[pos] + s.v[q[pos]].len == a)
  }

  ghost function NewLo(s: Pool, a: nat, b: nat, y: nat): nat { if y == b then a else y }

  ghost function NewHi(s: Pool, b: nat, y: nat): nat
    requires y < |s.v| && s.v[y].FreeHead?
  {
    if y == b then b + s.v[y].len else b
  }

  ghost function Joined(s: Pool, m: Table, i: nat, a: nat, b: nat, q: seq<nat>, sl: seq<seq<nat>>, pos: nat): Table
    requires Adjacent(s, m, i, a, b, q, sl, pos)
  {
    var y := q[pos];
    JoinReady(s, m, i, a, b, q, sl, pos);
    Join(m, NewLo(s, a, b, y), y, if y == b then y else a, NewHi(s, b, y) - NewLo(s, a, b, y))
  }

  lemma JoinReady(s: Pool, m: Table, i: nat, a: nat, b: nat, q: seq<nat>, sl: seq<seq<nat>>, pos: nat)
    requires Adjacent(s, m, i, a, b, q, sl, pos)
    ensures var y := q[pos];
      && Page(NewLo(s, a, b, y)) in m && Page(a) in m && Page(y) in m && CanUnhook(m, Page(y))
      && NewLo(s, a, b, y) <= a && b <= NewHi(s, b, y) <= |s.v| && !(a <= y < b)
      && Null !in m && FreeList in m
      && m[Page(y)].slab == s.v[y].len && m[Page(a)].slab == b - a && m[Page(y)].tag == TAG_PAGE
  {
    var y := q[pos];
    assert StagePage(s, m, a, b, a) && StagePage(s, m, a, b, y) && TileOk(s.v, y) && PageOk(s, y);
    UnhookReady(m, FreeList, q, pos);
    StageTags(s, m, i, a, b, q, sl);
  }

  ghost predicate Tagged(m: Table, q: seq<nat>) {
    forall p :: 0 <= p < |q| ==> Page(q[p]) in m && m[Page(q[p])].tag == TAG_PAGE
  }

  /** Descriptor `x` has the count, `z` is blank, and others have at most changed neighbours. */
  ghost predicate JoinedAt(m: Table, m': Table, q: seq<nat>, x: nat, z: nat, count: nat, r: Ref)
    requires r in m
  {
    && m'.Keys == m.Keys && (r == Page(z) ==> m'[r] == BLANK) && (r == Page(x) ==> m'[r].slab == count)
    && (r.Page? && r.i != z && r.i != x ==> Touch(m[r], m'[r]))
    && (!OnList(FreeList, q, r) && r != Page(z) && r != Page(x) ==> m'[r] == m[r])
  }

  /** What joining does to one descriptor of any list. */
  lemma JoinEffect(m: Table, q: seq<nat>, pos: nat, x: nat, z: nat, count: nat, r: Ref)
    requires List(m, FreeList, q) && pos < |q| && Null !in m && Page(x) in m && Page(z) in m && r in m && x != z
    requires Tagged(m, q) && CanUnhook(m, Page(q[pos]))
    ensures JoinedAt(m, Join(m, x, q[pos], z, count), q, x, z, count, r)
  {
    var m1 := m[Page(x) := m[Page(x)].(slab := count)];
    ListFrame(m, m1, FreeList, q);
    UnhookOther(m1, FreeList, q, pos, TAG_PAGE, r);
    UnhookOther(m1, FreeList, q, pos, TAG_PAGE, Page(x));
  }

  /** The list is the old one without the run. */
  lemma JoinList(m: Table, q: seq<nat>, pos: nat, x: nat, z: nat, count: nat)
    requires List(m, FreeList, q) && pos < |q| && Page(x) in m && CanUnhook(m, Page(q[pos])) && z !in RemoveAt(q, pos)
    ensures List(Join(m, x, q[pos], z, count), FreeList, RemoveAt(q, pos))
  {
    var m1 := m[Page(x) := m[Page(x)].(slab := count)];
    ListFrame(m, m1, FreeList, q);
    UnhookList(m1, FreeList, q, pos);
    ListFrame(Unhook(m1, Page(q[pos])), Join(m, x, q[pos], z, count), FreeList, RemoveAt(q, pos));
  }

  /** Everything JoinEffect asks for. */
  lemma JoinGround(s: Pool, m: Table, i: nat, a: nat, b: nat, q: seq<nat>, sl: seq<seq<nat>>, pos: nat)
    requires Adjacent(s, m, i, a, b, q, sl, pos)
    ensures var y := q[pos]; var x, z := NewLo(s, a, b, y), if y == b then y else a;
      && List(m, FreeList, q) && Null !in m && Page(x) in m && Page(z) in m && x != z && Tagged(m, q)
         && CanUnhook(m, Page(y))
      && Joined(s, m, i, a, b, q, sl, pos) == Join(m, x, y, z, NewHi(s, b, y) - x)
  {
    JoinReady(s, m, i, a, b, q, sl, pos);
    JoinTags(s, m, i, a, b, q, sl);
  }

  lemma JoinTags(s: Pool, m: Table, i: nat, a: nat, b: nat, q: seq<nat>, sl: seq<seq<nat>>)
    requires Stage(s, m, i, a, b, q, sl)
    ensures Tagged(m, q)
  {
    StageTags(s, m, i, a, b, q, sl);
  }

  lemma JoinPage(s: Pool, m: Table, i: nat, a: nat, b: nat, q: seq<nat>, sl: seq<seq<nat>>, pos: nat, j: int)
    requires Adjacent(s, m, i, a, b, q, sl, pos) && 0 <= j < |s.v|
    ensures var y := q[pos]; StagePage(s, Joined(s, m, i, a, b, q, sl, pos), NewLo(s, a, b, y), NewHi(s, b, y), j)
  {
    var y := q[pos];
    assert StagePage(s, m, a, b, j) && TileOk(s.v, y) && PageOk(s, j);
    JoinGround(s, m, i, a, b, q, sl, pos);
    JoinEffect(m, q, pos, NewLo(s, a, b, y), if y == b then y else a, NewHi(s, b, y) - NewLo(s, a, b, y), Page(j));
  }

  lemma JoinFree(s: Pool, m: Table, i: nat, a: nat, b: nat, q: seq<nat>, sl: seq<seq<nat>>, pos: nat)
    requires Adjacent(s, m, i, a, b, q, sl, pos)
    ensures var y := q[pos];
      StageFree(s, Joined(s, m, i, a, b, q, sl, pos), NewLo(s, a, b, y), NewHi(s, b, y), RemoveAt(q, pos))
  {
    var y := q[pos];
    var z := if y == b then y else a;
    JoinReady(s, m, i, a, b, q, sl, pos);
    RemoveAtMembers(q, pos);
    assert TileOk(s.v, y);
    JoinList(m, q, pos, NewLo(s, a, b, y), z, NewHi(s, b, y) - NewLo(s, a, b, y));
  }

  lemma JoinSlot(s: Pool, m: Table, i: nat, a: nat, b: nat, q: seq<nat>, sl: seq<seq<nat>>, pos: nat, slot: nat)
    requires Adjacent(s, m, i, a, b, q, sl, pos) && slot < SLOTS
    ensures StageSlot(s, Joined(s, m, i, a, b, q, sl, pos), i, sl, slot)
  {
    var y := q[pos];
    assert StageSlot(s, m, i, sl, slot);
    forall r | OnList(SlotList(slot), sl[slot], r) && r in m
      ensures r in Joined(s, m, i, a, b, q, sl, pos) && Joined(s, m, i, a, b, q, sl, pos)[r] == m[r]
    {
      JoinGround(s, m, i, a, b, q, sl, pos);
      JoinEffect(m, q, pos, NewLo(s, a, b, y), if y == b then y else a, NewHi(s, b, y) - NewLo(s, a, b, y), r);
    }
    ListFrame(m, Joined(s, m, i, a, b, q, sl, pos), SlotList(slot), sl[slot]);
  }

  lemma JoinStage(s: Pool, m: Table, i: nat, a: nat, b: nat, q: seq<nat>, sl: seq<seq<nat>>, pos: nat)
    requires Adjacent(s, m, i, a, b, q, sl, pos)
    ensures var y := q[pos];
      Stage(s, Joined(s, m, i, a, b, q, sl, pos), i, NewLo(s, a, b, y), NewHi(s, b, y), RemoveAt(q, pos), sl)
  {
    var y := q[pos];
    var m' := Joined(s, m, i, a, b, q, sl, pos);
    JoinReady(s, m, i, a, b, q, sl, pos);
    forall j | 0 <= j < |s.v|
      ensures StagePage(s, m', NewLo(s, a, b, y), NewHi(s, b, y), j)
    {
      JoinPage(s, m, i, a, b, q, sl, pos, j);
    }
    JoinFree(s, m, i, a, b, q, sl, pos);
    forall slot | 0 <= slot < SLOTS
      ensures StageSlot(s, m', i, sl, slot)
    {
      JoinSlot(s, m, i, a, b, q, sl, pos, slot);
    }
    JoinGround(s, m, i, a, b, q, sl, pos);
    JoinEffect(m, q, pos, NewLo(s, a, b, y), if y == b then y else a, NewHi(s, b, y) - NewLo(s, a, b, y), FreeList);
  }

  // ---------- the first step: wiping the pages ----------

  function Wipe(m: Table, i: nat, k: nat): Table {
    map r | r in m ::
      if r == Page(i) then m[r].(slab := k)
      else if r.Page? && i < r.i < i + k then BLANK
      else m[r]
  }

  /** A page of chunks whose last chunk was given back is still on its slot list. */
  function WipeOff(m: Table, i: nat, k: nat): Table
    requires Page(i) in m && (m[Page(i)].next != Null ==> CanUnhook(m, Page(i)))
  {
    var m1 := Wipe(m, i, k);
    if m[Page(i)].next != Null then Unhook(m1, Page(i)) else m1
  }

  /** `m` is the table of `s`, except perhaps for the bitmap word of page `i`. */
  ghost predicate SameBut(s: Pool, m: Table, i: nat) {
    m.Keys == s.m.Keys && Page(i) in m
    && (forall r :: r in m && r != Page(i) ==> m[r] == s.m[r])
    && m[Page(i)] == s.m[Page(i)].(slab := m[Page(i)].slab)
  }

  /** Pages [i, i+k) are an allocated run or a partly used page, which then stands at
      position `pos` of its slot list. */
  ghost predicate Leaving(s: Pool, m: Table, i: nat, k: nat, pos: nat) {
    && Conforms(s) && Givable(s.v, i, k) && SameBut(s, m, i)
    && (s.v[i].Chunks? ==>
         var slot := s.v[i].shift - MIN_SHIFT;
         0 <= slot < SLOTS && Partial(s.v[i], slot) && pos < |s.slots[slot]| && s.slots[slot][pos] == i)
  }

  ghost function LeaveSlots(s: Pool, i: nat, pos: nat): seq<seq<nat>>
    requires i < |s.v| && |s.slots| == SLOTS
    requires s.v[i].Chunks? ==> var slot := s.v[i].shift - MIN_SHIFT; 0 <= slot < SLOTS && pos < |s.slots[slot]|
  {
    if s.v[i].Chunks? then
      var slot := s.v[i].shift - MIN_SHIFT;
      s.slots[slot := RemoveAt(s.slots[slot], pos)]
    else s.slots
  }

  lemma LeaveReady(s: Pool, m: Table, i: nat, k: nat, pos: nat)
    requires Leaving(s, m, i, k, pos)
    ensures Page(i) in m && Null !in m
    ensures m[Page(i)].next != Null <==> s.v[i].Chunks?
    ensures m[Page(i)].next != Null ==> CanUnhook(m, Page(i))
    ensures s.v[i].Chunks? ==> k == 1
    ensures forall j :: i < j < i + k ==> s.v[j] == RunBody(i)
  {
    assert PageOk(s, i) && TileOk(s.v, i);
    if s.v[i].Chunks? {
      var slot := s.v[i].shift - MIN_SHIFT;
      assert SlotOk(s, slot);
      UnhookReady(s.m, SlotList(slot), s.slots[slot], pos);
    }
  }

  lemma SlotTags(s: Pool, slot: nat)
    requires Conforms(s) && slot < SLOTS
    ensures forall x :: 0 <= x < |s.slots[slot]| ==>
      var y := s.slots[slot][x]; y < |s.v| && Page(y) in s.m && s.m[Page(y)].tag == TagOf(slot + MIN_SHIFT)
  {
    assert SlotOk(s, slot);
    forall x | 0 <= x < |s.slots[slot]|
      ensures var y := s.slots[slot][x]; y < |s.v| && Page(y) in s.m && s.m[Page(y)].tag == TagOf(slot + MIN_SHIFT)
    {
      assert PageOk(s, s.slots[slot][x]);
    }
  }

  /** The effect of the first step on one descriptor. */
  lemma WipeOffAt(s: Pool, m: Table, i: nat, k: nat, pos: nat, r: Ref)
    requires Leaving(s, m, i, k, pos) && r in m
    ensures Page(i) in m && (m[Page(i)].next != Null ==> CanUnhook(m, Page(i)))
    ensures var m' := WipeOff(m, i, k);
      && m'.Keys == s.m.Keys
      && (r == Page(i) ==> m'[r].slab == k)
      && (r.Page? && i < r.i < i + k ==> m'[r] == BLANK)
      && (r.Page? && !(i <= r.i < i + k) ==> Touch(s.m[r], m'[r]))
      && (!(r.Page? && i <= r.i < i + k)
          && !(s.v[i].Chunks? && OnList(SlotList(s.v[i].shift - MIN_SHIFT), s.slots[s.v[i].shift - MIN_SHIFT], r))
          ==> m'[r] == s.m[r])
  {
    LeaveReady(s, m, i, k, pos);
    if s.v[i].Chunks? {
      var slot := s.v[i].shift - MIN_SHIFT;
      var m1 := Wipe(m, i, k);
      WipeList(s, m, i, k, pos);
      SlotTags(s, slot);
      UnhookOther(m1, SlotList(slot), s.slots[slot], pos, TagOf(slot + MIN_SHIFT), r);
      UnhookOther(m1, SlotList(slot), s.slots[slot], pos, TagOf(slot + MIN_SHIFT), Page(i));
    }
  }

  lemma WipeList(s: Pool, m: Table, i: nat, k: nat, pos: nat)
    requires Leaving(s, m, i, k, pos) && s.v[i].Chunks?
    ensures var slot := s.v[i].shift - MIN_SHIFT; List(Wipe(m, i, k), SlotList(slot), s.slots[slot])
  {
    LeaveReady(s, m, i, k, pos);
    var slot := s.v[i].shift - MIN_SHIFT;
    assert SlotOk(s, slot);
    ListFrame(s.m, Wipe(m, i, k), SlotList(slot), s.slots[slot]);
  }

  lemma StartFree(s: Pool, m: Table, i: nat, k: nat, pos: nat)
    requires Leaving(s, m, i, k, pos)
    ensures Page(i) in m && (m[Page(i)].next != Null ==> CanUnhook(m, Page(i)))
    ensures StageFree(s, WipeOff(m, i, k), i, i + k, s.free)
  {
    LeaveReady(s, m, i, k, pos);
    var m' := WipeOff(m, i, k);
    forall r | OnList(FreeList, s.free, r) && r in s.m
      ensures r in m' && m'[r] == s.m[r]
    {
      if s.v[i].Chunks? { assert SlotOk(s, s.v[i].shift - MIN_SHIFT); }
      WipeOffAt(s, m, i, k, pos, r);
    }
    ListFrame(s.m, m', FreeList, s.free);
    forall x: nat | x in s.free
      ensures x < |s.v| && s.v[x].FreeHead? && !(i <= x < i + k)
    {
      var z :| 0 <= z < |s.free| && s.free[z] == x;
    }
  }

  lemma StartSlot(s: Pool, m: Table, i: nat, k: nat, pos: nat, slot: nat)
    requires Leaving(s, m, i, k, pos) && slot < SLOTS
    ensures Page(i) in m && (m[Page(i)].next != Null ==> CanUnhook(m, Page(i)))
    ensures StageSlot(s, WipeOff(m, i, k), i, LeaveSlots(s, i, pos), slot)
  {
    LeaveReady(s, m, i, k, pos);
    assert SlotOk(s, slot);
    var m' := WipeOff(m, i, k);
    var q := s.slots[slot];
    forall x: nat | x in q
      ensures x < |s.v| && Partial(s.v[x], slot)
    {
      var z :| 0 <= z < |q| && q[z] == x;
    }
    if s.v[i].Chunks? && slot == s.v[i].shift - MIN_SHIFT {
      WipeList(s, m, i, k, pos);
      UnhookList(Wipe(m, i, k), SlotList(slot), q, pos);
      RemoveAtMembers(q, pos);
    } else {
      assert i !in q;
      forall r | OnList(SlotList(slot), q, r) && r in s.m
        ensures r in m' && m'[r] == s.m[r]
      {
        StartApart(s, i, slot, r);
        WipeOffAt(s, m, i, k, pos, r);
      }
      ListFrame(s.m, m', SlotList(slot), q);
    }
  }

  lemma StartApart(s: Pool, i: nat, slot: nat, r: Ref)
    requires Conforms(s) && slot < SLOTS && i < |s.v| && OnList(SlotList(slot), s.slots[slot], r)
    ensures s.v[i].Chunks? && s.v[i].shift - MIN_SHIFT != slot && IsShift(s.v[i].shift) ==>
      var other := s.v[i].shift - MIN_SHIFT; !OnList(SlotList(other), s.slots[other], r)
    ensures r.Page? ==> r.i < |s.v| && s.v[r.i].Chunks?
  {
    assert SlotOk(s, slot);
    if s.v[i].Chunks? && IsShift(s.v[i].shift) { assert SlotOk(s, s.v[i].shift - MIN_SHIFT); }
  }

  lemma StartPage(s: Pool, m: Table, i: nat, k: nat, pos: nat, j: int)
    requires Leaving(s, m, i, k, pos) && 0 <= j < |s.v|
    ensures Page(i) in m && (m[Page(i)].next != Null ==> CanUnhook(m, Page(i)))
    ensures StagePage(s, WipeOff(m, i, k), i, i + k, j)
  {
    LeaveReady(s, m, i, k, pos);
    assert PageOk(s, j);
    WipeOffAt(s, m, i, k, pos, Page(j));
    if s.v[i].Chunks? { assert SlotOk(s, s.v[i].shift - MIN_SHIFT); }
  }

  lemma StartStage(s: Pool, m: Table, i: nat, k: nat, pos: nat)
    requires Leaving(s, m, i, k, pos)
    ensures Page(i) in m && (m[Page(i)].next != Null ==> CanUnhook(m, Page(i)))
    ensures Stage(s, WipeOff(m, i, k), i, i, i + k, s.free, LeaveSlots(s, i, pos))
  {
    LeaveReady(s, m, i, k, pos);
    var m' := WipeOff(m, i, k);
    WipeOffAt(s, m, i, k, pos, Page(i));
    var b := i + k;
    forall j | 0 <= j < |s.v|
      ensures StagePage(s, m', i, b, j)
    {
      StartPage(s, m, i, k, pos, j);
    }
    StartFree(s, m, i, k, pos);
    forall slot | 0 <= slot < SLOTS
      ensures StageSlot(s, m', i, LeaveSlots(s, i, pos), slot)
    {
      StartSlot(s, m, i, k, pos, slot);
    }
  }

  // ---------- the last step: the run goes on the list of free runs ----------

  /** The last page of the run points back at the first. */
  function Seal(m: Table, a: nat, len: nat): Table
    requires len > 1 ==> Page(a + len - 1) in m
  {
    if len > 1 then m[Page(a + len - 1) := m[Page(a + len - 1)].(prev := Page(a), tag := TAG_PAGE)] else m
  }

  ghost predicate CanFinish(s: Pool, m: Table, i: nat, k: nat, q: seq<nat>, sl: seq<seq<nat>>) {
    && i < |s.v| && Givable(s.v, i, k)
    && Stage(s, m, i, MergeLo(s.v, i), MergeHi(s.v, i, k), q, sl)
  }

  ghost function Finished(s: Pool, m: Table, i: nat, k: nat, q: seq<nat>, sl: seq<seq<nat>>): Pool
    requires CanFinish(s, m, i, k, q, sl)
  {
    var a, b := MergeLo(s.v, i), MergeHi(s.v, i, k);
    FinishReady(s, m, i, k, q, sl);
    Pool(PushFront(Seal(m, a, b - a), FreeList, Page(a), TAG_PAGE), s.w, Give(s.v, i, k), [a] + q, sl)
  }

  lemma FinishReady(s: Pool, m: Table, i: nat, k: nat, q: seq<nat>, sl: seq<seq<nat>>)
    requires CanFinish(s, m, i, k, q, sl)
    ensures var a, b := MergeLo(s.v, i), MergeHi(s.v, i, k);
      && a < b <= |s.v| && Page(a) in m && Page(b - 1) in m && a !in q
      && FreeList in m && m[FreeList].next == At(FreeList, q, 0) && At(FreeList, q, 0) in m
      && (At(FreeList, q, 0).Page? ==>
          At(FreeList, q, 0).i < |s.v| && !(a <= At(FreeList, q, 0).i < b) && s.v[At(FreeList, q, 0).i].FreeHead?)
      && List(Seal(m, a, b - a), FreeList, q)
  {
    var a, b := MergeLo(s.v, i), MergeHi(s.v, i, k);
    MergeBounds(s.v, i, k);
    assert StagePage(s, m, a, b, a) && StagePage(s, m, a, b, b - 1) && NextOk(m, FreeList, q, 0);
    if |q| > 0 { assert PrevOk(m, FreeList, q, 0) && q[0] in q; }
    if b - a > 1 {
      assert b - 1 !in q;
    }
    ListFrame(m, Seal(m, a, b - a), FreeList, q);
  }

  /** The effect of the last step on one descriptor. */
  lemma FinishAt(s: Pool, m: Table, i: nat, k: nat, q: seq<nat>, sl: seq<seq<nat>>, r: Ref)
    requires CanFinish(s, m, i, k, q, sl) && r in m
    ensures var a, b := MergeLo(s.v, i), MergeHi(s.v, i, k); var m' := Finished(s, m, i, k, q, sl).m;
      && m'.Keys == m.Keys
      && (r == Page(a) ==> m'[r].slab == m[r].slab && m'[r].tag == TAG_PAGE && m'[r].next != Null)
      && (r.Page? && a < r.i < b ==> m'[r] == if r.i == b - 1 then m[r].(prev := Page(a), tag := TAG_PAGE) else m[r])
      && (r.Page? && !(a <= r.i < b) && r == At(FreeList, q, 0) ==> m'[r] == m[r].(prev := Page(a), tag := TAG_PAGE))
      && (r != FreeList && r != At(FreeList, q, 0) && !(r.Page? && a <= r.i < b) ==> m'[r] == m[r])
  {
    FinishReady(s, m, i, k, q, sl);
  }

  lemma FinishPageInside(s: Pool, m: Table, i: nat, k: nat, q: seq<nat>, sl: seq<seq<nat>>, j: int)
    requires CanFinish(s, m, i, k, q, sl) && MergeLo(s.v, i) <= j < MergeHi(s.v, i, k) && j < |s.v|
    ensures PageOk(Finished(s, m, i, k, q, sl), j)
  {
    var a, b := MergeLo(s.v, i), MergeHi(s.v, i, k);
    FinishReady(s, m, i, k, q, sl);
    assert StagePage(s, m, a, b, j);
    FinishAt(s, m, i, k, q, sl, Page(j));
  }

  lemma FinishPageOutside(s: Pool, m: Table, i: nat, k: nat, q: seq<nat>, sl: seq<seq<nat>>, j: int)
    requires CanFinish(s, m, i, k, q, sl) && 0 <= j < |s.v| && !(MergeLo(s.v, i) <= j < MergeHi(s.v, i, k))
    ensures PageOk(Finished(s, m, i, k, q, sl), j)
  {
    var a, b := MergeLo(s.v, i), MergeHi(s.v, i, k);
    FinishReady(s, m, i, k, q, sl);
    assert StagePage(s, m, a, b, j) && PageOk(s, j) && TileOk(s.v, j);
    FinishAt(s, m, i, k, q, sl, Page(j));
    GiveApart(s.v, i, k, j);
  }

  lemma FinishFree(s: Pool, m: Table, i: nat, k: nat, q: seq<nat>, sl: seq<seq<nat>>)
    requires CanFinish(s, m, i, k, q, sl)
    ensures var s' := Finished(s, m, i, k, q, sl); List(s'.m, FreeList, s'.free) && FreeExact(s')
  {
    var a, b := MergeLo(s.v, i), MergeHi(s.v, i, k);
    FinishReady(s, m, i, k, q, sl);
    PushFrontList(Seal(m, a, b - a), FreeList, q, a, TAG_PAGE);
    FinishMembers(s, m, i, k, q, sl);
  }

  lemma FinishMembers(s: Pool, m: Table, i: nat, k: nat, q: seq<nat>, sl: seq<seq<nat>>)
    requires CanFinish(s, m, i, k, q, sl)
    ensures FreeExact(Finished(s, m, i, k, q, sl))
  {
    var a := MergeLo(s.v, i);
    var s' := Finished(s, m, i, k, q, sl);
    assert s'.free == [a] + q && s'.v == Give(s.v, i, k);
    MergeBounds(s.v, i, k);
    forall z | 0 <= z < |s'.free|
      ensures s'.free[z] < |s'.v| && s'.v[s'.free[z]].FreeHead?
    {
      if z > 0 { assert q[z - 1] in q; }
    }
    forall x | 0 <= x < |s'.v| && s'.v[x].FreeHead?
      ensures x in s'.free
    {
      if x != a { assert x in q; }
    }
  }

  lemma FinishSlot(s: Pool, m: Table, i: nat, k: nat, q: seq<nat>, sl: seq<seq<nat>>, slot: nat)
    requires CanFinish(s, m, i, k, q, sl) && slot < SLOTS
    ensures SlotOk(Finished(s, m, i, k, q, sl), slot)
  {
    var a, b := MergeLo(s.v, i), MergeHi(s.v, i, k);
    assert StageSlot(s, m, i, sl, slot);
    FinishReady(s, m, i, k, q, sl);
    MergeFree(s.v, i, k);
    var s' := Finished(s, m, i, k, q, sl);
    forall r | OnList(SlotList(slot), sl[slot], r) && r in m
      ensures r in s'.m && s'.m[r] == m[r]
    {
      FinishAt(s, m, i, k, q, sl, r);
    }
    ListFrame(m, s'.m, SlotList(slot), sl[slot]);
    forall z | 0 <= z < |sl[slot]|
      ensures sl[slot][z] < |s'.v| && Partial(s'.v[sl[slot][z]], slot)
    {
      assert sl[slot][z] in sl[slot];
    }
  }

  /** All pages of the merged stretch are free except those that were given back. */
  lemma MergeFree(v: seq<View>, i: nat, k: nat)
    requires Tiled(v) && Givable(v, i, k)
    ensures forall j :: MergeLo(v, i) <= j < MergeHi(v, i, k) && !(i <= j < i + k) && j < |v| ==> IsFree(v[j])
    ensures forall j :: i < j < i + k ==> v[j] == RunBody(i)
  {
    MergeBounds(v, i, k);
    assert TileOk(v, i) && TileOk(v, MergeLo(v, i));
    if i + k < |v| { assert TileOk(v, i + k); }
  }

  /** Giving pages back keeps descriptors, lists and page uses in agreement. */
  lemma FinishConforms(s: Pool, m: Table, i: nat, k: nat, q: seq<nat>, sl: seq<seq<nat>>)
    requires CanFinish(s, m, i, k, q, sl)
    ensures Conforms(Finished(s, m, i, k, q, sl))
  {
    var s' := Finished(s, m, i, k, q, sl);
    GiveTiled(s.v, i, k);
    forall j | 0 <= j < |s.v|
      ensures PageOk(s', j)
    {
      if MergeLo(s.v, i) <= j < MergeHi(s.v, i, k) {
        FinishPageInside(s, m, i, k, q, sl, j);
      } else {
        FinishPageOutside(s, m, i, k, q, sl, j);
      }
    }
    FinishFree(s, m, i, k, q, sl);
    forall slot | 0 <= slot < SLOTS
      ensures SlotOk(s', slot)
    {
      FinishSlot(s, m, i, k, q, sl, slot);
    }
    FinishReady(s, m, i, k, q, sl);
    FinishAt(s, m, i, k, q, sl, FreeList);
  }

  // ---------- the tests the code makes ----------

  /** The page behind is the head of a free run exactly when its type is "page" and it is
      on a list. */
  lemma NextTest(s: Pool, m: Table, i: nat, k: nat, q: seq<nat>, sl: seq<seq<nat>>)
    requires Stage(s, m, i, i, i + k, q, sl) && Givable(s.v, i, k) && i + k < |s.v|
    ensures Page(i + k) in m
    ensures m[Page(i + k)].tag == TAG_PAGE && m[Page(i + k)].next != Null <==> s.v[i + k].FreeHead?
    ensures s.v[i + k].FreeHead? ==> i + k in q && m[Page(i + k)].slab == s.v[i + k].len
  {
    assert StagePage(s, m, i, i + k, i + k) && PageOk(s, i + k) && TileOk(s.v, i + k);
    MergeBounds(s.v, i, k);
  }

  /** The page before belongs to a free run exactly when its type is "page" and it, or the
      page its `prev` leads to if its count is zero, is on a list. */
  lemma PrevTest(s: Pool, m: Table, i: nat, k: nat, b: nat, q: seq<nat>, sl: seq<seq<nat>>)
    requires Stage(s, m, i, i, b, q, sl) && Givable(s.v, i, k) && i > 0
    ensures Page(i - 1) in m
    ensures var e := m[Page(i - 1)];
      && (e.tag == TAG_PAGE && e.slab == 0 ==> e.prev == Page(MergeLo(s.v, i)) && MergeLo(s.v, i) < i)
      && (e.tag == TAG_PAGE && e.slab != 0 ==> (e.next != Null <==> MergeLo(s.v, i) == i - 1))
      && (e.tag == TAG_PAGE && e.slab != 0 && e.next == Null ==> MergeLo(s.v, i) == i)
      && (e.tag != TAG_PAGE ==> MergeLo(s.v, i) == i)
    ensures var a := MergeLo(s.v, i);
      a < i ==>
        Page(a) in m && a in q && m[Page(a)].next != Null && s.v[a] == FreeHead(i - a) && m[Page(a)].slab == i - a
  {
    MergeBounds(s.v, i, k);
    var a := MergeLo(s.v, i);
    assert StagePage(s, m, i, b, i - 1) && PageOk(s, i - 1) && TileOk(s.v, i - 1);
    if a < i { assert StagePage(s, m, i, b, a) && PageOk(s, a) && TileOk(s.v, a); }
  }
}
