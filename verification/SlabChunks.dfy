/** Handing out and taking back single chunks, at the level of descriptors and lists. */
module SlabChunks {
  import opened Common
  import opened SlabModel
  import opened SlabLists
  import opened SlabPages
  import opened SlabGive
  import opened SlabBits

  function SlotOf(sh: nat): nat
    requires IsShift(sh)
  {
    sh - MIN_SHIFT
  }

  // ---------- what all three operations have in common ----------

  /** Page `i` is one page by itself before and after. */
  lemma SwapView(v: seq<View>, i: nat, x: View)
    requires Tiled(v) && i < |v| && (v[i].Chunks? || v[i] == RunHead(1)) && x.Chunks? && GoodChunks(x.shift, x.used)
    ensures Tiled(v[i := x])
  {
    var v' := v[i := x];
    forall j | 0 <= j < |v|
      ensures TileOk(v', j)
    {
      assert TileOk(v, j);
      if v[j].RunBody? { assert TileOk(v, v[j].head); }
    }
  }

  /** Pages other than `i`: same view, same words, and a descriptor that differs at most
      in its list neighbours. */
  ghost predicate Elsewhere(s: Pool, s': Pool, i: nat) {
    && |s.v| == |s'.v| && |s.w| == |s.v| && |s'.w| == |s.v| && i < |s.v|
    && (forall j :: 0 <= j < |s.v| && j != i ==> s'.v[j] == s.v[j] && s'.w[j] == s.w[j])
    && s'.free == s.free && |s.slots| == SLOTS == |s'.slots|
    && !IsFree(s.v[i]) && !IsFree(s'.v[i])
    && s'.m.Keys == s.m.Keys
    && (forall r {:trigger s'.m[r]} :: r in s.m && r.Page? && r.i != i && r.i < |s.v| ==> Touch(s.m[r], s'.m[r]))
    && (forall r {:trigger s'.m[r]} :: r in s.m && r.Page? && r.i < |s.v| && IsFree(s.v[r.i]) ==> s'.m[r] == s.m[r])
    && (forall r {:trigger s'.m[r]} :: r in s.m && r == FreeList ==> s'.m[r] == s.m[r])
  }

  lemma ElsewherePage(s: Pool, s': Pool, i: nat, j: int)
    requires Conforms(s) && Elsewhere(s, s', i) && 0 <= j < |s.v| && j != i
    ensures PageOk(s', j)
  {
    assert PageOk(s, j);
    var r := Page(j);
    assert r in s.m && Touch(s.m[r], s'.m[r]);
    if IsFree(s.v[j]) { assert s'.m[r] == s.m[r]; }
  }

  lemma ElsewhereFree(s: Pool, s': Pool, i: nat)
    requires Conforms(s) && Elsewhere(s, s', i)
    ensures List(s'.m, FreeList, s'.free) && FreeExact(s')
  {
    forall r | OnList(FreeList, s.free, r) && r in s.m
      ensures r in s'.m && s'.m[r] == s.m[r]
    {
    }
    ListFrame(s.m, s'.m, FreeList, s.free);
  }

  /** The slot lists of other classes. */
  lemma ElsewhereSlot(s: Pool, s': Pool, i: nat, slot: nat, other: nat)
    requires Conforms(s) && Elsewhere(s, s', i) && slot < SLOTS && other < SLOTS && other != slot
    requires s'.slots[other] == s.slots[other]
    requires !Partial(s.v[i], other) && !Partial(s'.v[i], other)
    requires forall r :: r in s.m && OnList(SlotList(other), s.slots[other], r) ==> s'.m[r] == s.m[r]
    ensures SlotOk(s', other)
  {
    assert SlotOk(s, other);
    ListFrame(s.m, s'.m, SlotList(other), s.slots[other]);
    forall k | 0 <= k < |s.slots[other]|
      ensures s.slots[other][k] < |s'.v| && Partial(s'.v[s.slots[other][k]], other)
    {
      assert s.slots[other][k] != i;
    }
  }

  lemma Assemble(s: Pool, s': Pool, i: nat, slot: nat)
    requires Conforms(s) && Elsewhere(s, s', i) && Tiled(s'.v) && slot < SLOTS
    requires PageOk(s', i) && SlotOk(s', slot)
    requires forall other: nat {:trigger SlotOk(s', other)} :: other < SLOTS && other != slot ==> SlotOk(s', other)
    ensures Conforms(s')
  {
    forall j | 0 <= j < |s'.v|
      ensures PageOk(s', j)
    {
      if j != i { ElsewherePage(s, s', i, j); }
    }
    ElsewhereFree(s, s', i);
  }

  // ---------- handing out a chunk of a page on its slot list ----------

  ghost predicate CanUse(s: Pool, i: nat, pos: nat, c: nat) {
    && Conforms(s) && i < |s.v| && s.v[i].Chunks? && IsShift(s.v[i].shift)
    && var sh := s.v[i].shift;
    && pos < |s.slots[SlotOf(sh)]| && s.slots[SlotOf(sh)][pos] == i
    && Reserved(sh) <= c < Cap(sh) && c !in s.v[i].used
  }

  /** The descriptor changes of a use: the bitmap word, and if the page is now all in use
      it leaves the list. */
  ghost function UseTable(m: Table, i: nat, sh: nat, c: nat, full: bool): Table
    requires Page(i) in m
  {
    var m1 := m[Page(i) := m[Page(i)].(slab := MarkSlab(m[Page(i)].slab, sh, c))];
    if full && CanUnhook(m1, Page(i)) then
      var m2 := Unhook(m1, Page(i));
      m2[Page(i) := m2[Page(i)].(next := Null, prev := Null, tag := TagOf(sh))]
    else m1
  }

  ghost function Use(s: Pool, i: nat, pos: nat, c: nat): Pool
    requires CanUse(s, i, pos, c)
  {
    var sh, used := s.v[i].shift, s.v[i].used;
    var slot := SlotOf(sh);
    var full := Full(sh, used + {c});
    assert PageOk(s, i);
    Pool(UseTable(s.m, i, sh, c, full), s.w[i := MarkWords(s.w[i], sh, c)], s.v[i := Chunks(sh, used + {c})],
         s.free, if full then s.slots[slot := RemoveAt(s.slots[slot], pos)] else s.slots)
  }

  lemma UseReady(s: Pool, i: nat, pos: nat, c: nat)
    requires CanUse(s, i, pos, c)
    ensures var sh := s.v[i].shift; var slot := SlotOf(sh);
      && Page(i) in s.m && slot < SLOTS && SlotOk(s, slot) && PageOk(s, i)
      && var m1 := s.m[Page(i) := s.m[Page(i)].(slab := MarkSlab(s.m[Page(i)].slab, sh, c))];
      && CanUnhook(m1, Page(i)) && List(m1, SlotList(slot), s.slots[slot]) && Null !in m1
      && (forall x :: 0 <= x < |s.slots[slot]| ==>
          Page(s.slots[slot][x]) in m1 && m1[Page(s.slots[slot][x])].tag == TagOf(sh))
  {
    var sh := s.v[i].shift;
    var slot := SlotOf(sh);
    assert PageOk(s, i) && SlotOk(s, slot);
    SlotTags(s, slot);
    var m1 := s.m[Page(i) := s.m[Page(i)].(slab := MarkSlab(s.m[Page(i)].slab, sh, c))];
    ListFrame(s.m, m1, SlotList(slot), s.slots[slot]);
    UnhookReady(m1, SlotList(slot), s.slots[slot], pos);
  }

  lemma UseElsewhere(s: Pool, i: nat, pos: nat, c: nat)
    requires CanUse(s, i, pos, c)
    ensures Elsewhere(s, Use(s, i, pos, c), i)
    ensures var slot := SlotOf(s.v[i].shift);
      forall r :: r in s.m && r != Page(i) && !OnList(SlotList(slot), s.slots[slot], r) ==>
        Use(s, i, pos, c).m[r] == s.m[r]
  {
    UseReady(s, i, pos, c);
    var sh := s.v[i].shift;
    var slot := SlotOf(sh);
    var s' := Use(s, i, pos, c);
    var m1 := s.m[Page(i) := s.m[Page(i)].(slab := MarkSlab(s.m[Page(i)].slab, sh, c))];
    forall r | r in s.m
      ensures r in s'.m && s'.m.Keys == s.m.Keys
      ensures r != Page(i) && !OnList(SlotList(slot), s.slots[slot], r) ==> s'.m[r] == s.m[r]
      ensures r.Page? && r.i != i ==> Touch(s.m[r], s'.m[r])
    {
      UnhookOther(m1, SlotList(slot), s.slots[slot], pos, TagOf(sh), r);
    }
  }

  lemma UsePage(s: Pool, i: nat, pos: nat, c: nat)
    requires CanUse(s, i, pos, c)
    ensures |Use(s, i, pos, c).w| == |Use(s, i, pos, c).v| && PageOk(Use(s, i, pos, c), i)
  {
    UseReady(s, i, pos, c);
    var sh, used := s.v[i].shift, s.v[i].used;
    var slot := SlotOf(sh);
    MarkOk(s.m[Page(i)].slab, s.w[i], sh, used, c);
    var m1 := s.m[Page(i) := s.m[Page(i)].(slab := MarkSlab(s.m[Page(i)].slab, sh, c))];
    UnhookOther(m1, SlotList(slot), s.slots[slot], pos, TagOf(sh), Page(i));
  }

  lemma UseOwnSlot(s: Pool, i: nat, pos: nat, c: nat)
    requires CanUse(s, i, pos, c)
    ensures |Use(s, i, pos, c).slots| == SLOTS && SlotOk(Use(s, i, pos, c), SlotOf(s.v[i].shift))
  {
    UseReady(s, i, pos, c);
    var sh, used := s.v[i].shift, s.v[i].used;
    var slot := SlotOf(sh);
    var q := s.slots[slot];
    var s' := Use(s, i, pos, c);
    var m1 := s.m[Page(i) := s.m[Page(i)].(slab := MarkSlab(s.m[Page(i)].slab, sh, c))];
    if Full(sh, used + {c}) {
      UnhookList(m1, SlotList(slot), q, pos);
      RemoveAtMembers(q, pos);
      ListFrame(Unhook(m1, Page(i)), s'.m, SlotList(slot), RemoveAt(q, pos));
      var q' := RemoveAt(q, pos);
      forall k | 0 <= k < |q'|
        ensures q'[k] < |s'.v| && Partial(s'.v[q'[k]], slot)
      {
        assert q'[k] in q';
        var z :| 0 <= z < |q| && q[z] == q'[k];
      }
    }
  }

  lemma UseOtherSlot(s: Pool, i: nat, pos: nat, c: nat, other: nat)
    requires CanUse(s, i, pos, c) && other < SLOTS && other != SlotOf(s.v[i].shift)
    ensures |Use(s, i, pos, c).slots| == SLOTS && SlotOk(Use(s, i, pos, c), other)
  {
    UseReady(s, i, pos, c);
    UseElsewhere(s, i, pos, c);
    var slot := SlotOf(s.v[i].shift);
    var s' := Use(s, i, pos, c);
    assert SlotOk(s, other);
    forall r | r in s.m && OnList(SlotList(other), s.slots[other], r)
      ensures s'.m[r] == s.m[r]
    {
      StartApart(s, i, other, r);
      assert r != Page(i);
    }
    ElsewhereSlot(s, s', i, slot, other);
  }

  lemma UseConforms(s: Pool, i: nat, pos: nat, c: nat)
    requires CanUse(s, i, pos, c)
    ensures Conforms(Use(s, i, pos, c))
  {
    UseReady(s, i, pos, c);
    UseElsewhere(s, i, pos, c);
    UsePage(s, i, pos, c);
    UseOwnSlot(s, i, pos, c);
    var s', slot := Use(s, i, pos, c), SlotOf(s.v[i].shift);
    assert TileOk(s.v, i);
    SwapView(s.v, i, s'.v[i]);
    forall other: nat | other < SLOTS && other != slot
      ensures SlotOk(s', other)
    {
      UseOtherSlot(s, i, pos, c, other);
    }
    Assemble(s, s', i, slot);
  }

  // ---------- taking a chunk back while others of the page are in use ----------

  ghost predicate CanRelease(s: Pool, i: nat, c: nat) {
    && Conforms(s) && i < |s.v| && s.v[i].Chunks? && IsShift(s.v[i].shift)
    && c in s.v[i].used && s.v[i].used != {c}
  }

  ghost function ReleaseTable(m: Table, i: nat, sh: nat, c: nat, full: bool): Table
    requires Page(i) in m && IsShift(sh)
  {
    var h := SlotList(SlotOf(sh));
    var m1 := if full && h in m && m[h].next in m then PushFront(m, h, Page(i), TagOf(sh)) else m;
    m1[Page(i) := m1[Page(i)].(slab := ClearSlab(m1[Page(i)].slab, sh, c))]
  }

  ghost function Release(s: Pool, i: nat, c: nat): Pool
    requires CanRelease(s, i, c)
  {
    var sh, used := s.v[i].shift, s.v[i].used;
    var slot := SlotOf(sh);
    var full := Full(sh, used);
    assert PageOk(s, i);
    Pool(ReleaseTable(s.m, i, sh, c, full), s.w[i := ClearWords(s.w[i], sh, c)], s.v[i := Chunks(sh, used - {c})],
         s.free, if full then s.slots[slot := [i] + s.slots[slot]] else s.slots)
  }

  lemma ReleaseReady(s: Pool, i: nat, c: nat)
    requires CanRelease(s, i, c)
    ensures var sh := s.v[i].shift; var slot := SlotOf(sh);
      && Page(i) in s.m && slot < SLOTS && SlotOk(s, slot) && PageOk(s, i)
      && SlotList(slot) in s.m && s.m[SlotList(slot)].next == At(SlotList(slot), s.slots[slot], 0)
      && s.m[SlotList(slot)].next in s.m
      && (Full(sh, s.v[i].used) ==> i !in s.slots[slot])
      && Reserved(sh) <= c < Cap(sh)
  {
    var sh := s.v[i].shift;
    var slot := SlotOf(sh);
    assert PageOk(s, i) && SlotOk(s, slot) && TileOk(s.v, i);
    assert NextOk(s.m, SlotList(slot), s.slots[slot], 0);
    if |s.slots[slot]| > 0 { assert PrevOk(s.m, SlotList(slot), s.slots[slot], 0); }
  }

  lemma ReleaseElsewhere(s: Pool, i: nat, c: nat)
    requires CanRelease(s, i, c)
    ensures Elsewhere(s, Release(s, i, c), i)
    ensures var slot := SlotOf(s.v[i].shift);
      forall r :: r in s.m && r != Page(i) && !OnList(SlotList(slot), s.slots[slot], r) ==>
        Release(s, i, c).m[r] == s.m[r]
  {
    ReleaseReady(s, i, c);
    var sh := s.v[i].shift;
    var slot := SlotOf(sh);
    var s' := Release(s, i, c);
    SlotTags(s, slot);
    forall r | r in s.m
      ensures r in s'.m && s'.m.Keys == s.m.Keys
      ensures r != Page(i) && !OnList(SlotList(slot), s.slots[slot], r) ==> s'.m[r] == s.m[r]
      ensures r.Page? && r.i != i ==> Touch(s.m[r], s'.m[r])
    {
    }
  }

  lemma ReleasePage(s: Pool, i: nat, c: nat)
    requires CanRelease(s, i, c)
    ensures |Release(s, i, c).w| == |Release(s, i, c).v| && PageOk(Release(s, i, c), i)
  {
    ReleaseReady(s, i, c);
    var sh, used := s.v[i].shift, s.v[i].used;
    ClearOk(s.m[Page(i)].slab, s.w[i], sh, used, c);
  }

  lemma ReleaseOwnSlot(s: Pool, i: nat, c: nat)
    requires CanRelease(s, i, c)
    ensures |Release(s, i, c).slots| == SLOTS && SlotOk(Release(s, i, c), SlotOf(s.v[i].shift))
  {
    ReleaseReady(s, i, c);
    var sh, used := s.v[i].shift, s.v[i].used;
    var slot := SlotOf(sh);
    var q := s.slots[slot];
    var s' := Release(s, i, c);
    if Full(sh, used) {
      PushFrontList(s.m, SlotList(slot), q, i, TagOf(sh));
      ListFrame(PushFront(s.m, SlotList(slot), Page(i), TagOf(sh)), s'.m, SlotList(slot), [i] + q);
    } else {
      ListFrame(s.m, s'.m, SlotList(slot), q);
    }
    var q' := s'.slots[slot];
    forall k | 0 <= k < |q'|
      ensures q'[k] < |s'.v| && Partial(s'.v[q'[k]], slot)
    {
      if q'[k] != i { assert q'[k] in q; }
    }
    forall x | 0 <= x < |s'.v| && Partial(s'.v[x], slot)
      ensures x in q'
    {
      if x != i { assert x in q; }
    }
  }

  lemma ReleaseOtherSlot(s: Pool, i: nat, c: nat, other: nat)
    requires CanRelease(s, i, c) && other < SLOTS && other != SlotOf(s.v[i].shift)
    ensures |Release(s, i, c).slots| == SLOTS && SlotOk(Release(s, i, c), other)
  {
    ReleaseReady(s, i, c);
    ReleaseElsewhere(s, i, c);
    var slot := SlotOf(s.v[i].shift);
    var s' := Release(s, i, c);
    assert SlotOk(s, other);
    forall r | r in s.m && OnList(SlotList(other), s.slots[other], r)
      ensures s'.m[r] == s.m[r]
    {
      StartApart(s, i, other, r);
      assert r != Page(i);
    }
    ElsewhereSlot(s, s', i, slot, other);
  }

  lemma ReleaseConforms(s: Pool, i: nat, c: nat)
    requires CanRelease(s, i, c)
    ensures Conforms(Release(s, i, c))
  {
    ReleaseReady(s, i, c);
    ReleaseElsewhere(s, i, c);
    ReleasePage(s, i, c);
    ReleaseOwnSlot(s, i, c);
    var s', slot := Release(s, i, c), SlotOf(s.v[i].shift);
    assert TileOk(s.v, i);
    SwapView(s.v, i, s'.v[i]);
    forall other: nat | other < SLOTS && other != slot
      ensures SlotOk(s', other)
    {
      ReleaseOtherSlot(s, i, c, other);
    }
    Assemble(s, s', i, slot);
  }

  // ---------- cutting a page just taken into chunks ----------

  ghost predicate CanCut(s: Pool, i: nat, sh: nat, w: seq<nat>) {
    && Conforms(s) && i < |s.v| && s.v[i] == RunHead(1) && IsShift(sh)
    && s.slots[SlotOf(sh)] == [] && FreshWords(w, sh)
  }

  ghost function CutTable(m: Table, i: nat, sh: nat): Table
    requires IsShift(sh) && SlotList(SlotOf(sh)) in m
  {
    var h := SlotList(SlotOf(sh));
    var m1 := m[Page(i) := Entry(FreshSlab(sh), h, h, TagOf(sh))];
    m1[h := m1[h].(next := Page(i))]
  }

  /** The first chunk behind the bitmap is handed out with the page. */
  ghost function Cut(s: Pool, i: nat, sh: nat, w: seq<nat>): Pool
    requires CanCut(s, i, sh, w)
  {
    CutReady(s, i, sh, w);
    Pool(CutTable(s.m, i, sh), s.w[i := w], s.v[i := Chunks(sh, {Reserved(sh)})],
         s.free, s.slots[SlotOf(sh) := [i]])
  }

  lemma CutReady(s: Pool, i: nat, sh: nat, w: seq<nat>)
    requires CanCut(s, i, sh, w)
    ensures Page(i) in s.m && SlotOf(sh) < SLOTS && SlotList(SlotOf(sh)) in s.m && Reserved(sh) + 1 < Cap(sh)
  {
    assert PageOk(s, i) && SlotOk(s, SlotOf(sh));
    assert NextOk(s.m, SlotList(SlotOf(sh)), [], 0);
  }

  lemma OneNotFull(sh: nat, used: set<nat>)
    requires IsShift(sh) && Reserved(sh) + 1 < Cap(sh) && used == {Reserved(sh)}
    ensures !Full(sh, used)
  {
    var c := Reserved(sh) + 1;
    assert Reserved(sh) <= c < Cap(sh) && c !in used;
  }

  lemma CutOwnSlot(s: Pool, i: nat, sh: nat, w: seq<nat>)
    requires CanCut(s, i, sh, w)
    ensures |Cut(s, i, sh, w).slots| == SLOTS && SlotOk(Cut(s, i, sh, w), SlotOf(sh))
  {
    CutReady(s, i, sh, w);
    var s', slot := Cut(s, i, sh, w), SlotOf(sh);
    assert SlotOk(s, slot);
    forall k | 0 <= k <= 1
      ensures NextOk(s'.m, SlotList(slot), [i], k)
    {
    }
    forall k | 0 <= k < 1
      ensures PrevOk(s'.m, SlotList(slot), [i], k)
    {
    }
    OneNotFull(sh, {Reserved(sh)});
  }

  lemma CutElsewhere(s: Pool, i: nat, sh: nat, w: seq<nat>)
    requires CanCut(s, i, sh, w)
    ensures Elsewhere(s, Cut(s, i, sh, w), i)
  {
    CutReady(s, i, sh, w);
  }

  lemma CutOtherSlot(s: Pool, i: nat, sh: nat, w: seq<nat>, other: nat)
    requires CanCut(s, i, sh, w) && other < SLOTS && other != SlotOf(sh)
    ensures |Cut(s, i, sh, w).slots| == SLOTS && SlotOk(Cut(s, i, sh, w), other)
  {
    CutReady(s, i, sh, w);
    CutElsewhere(s, i, sh, w);
    assert SlotOk(s, other);
    ElsewhereSlot(s, Cut(s, i, sh, w), i, SlotOf(sh), other);
  }

  lemma CutConforms(s: Pool, i: nat, sh: nat, w: seq<nat>)
    requires CanCut(s, i, sh, w)
    ensures Conforms(Cut(s, i, sh, w))
  {
    CutReady(s, i, sh, w);
    CutElsewhere(s, i, sh, w);
    FreshOk(w, sh);
    CutOwnSlot(s, i, sh, w);
    var s', slot := Cut(s, i, sh, w), SlotOf(sh);
    SwapView(s.v, i, s'.v[i]);
    OneNotFull(sh, {Reserved(sh)});
    forall other: nat | other < SLOTS && other != slot
      ensures SlotOk(s', other)
    {
      CutOtherSlot(s, i, sh, w, other);
    }
    Assemble(s, s', i, slot);
  }
}
