/** When mapping completes: enough free pages in a row for the tables it needs and for the blocks
    their memory list moves to. */
module Room {
  import opened Words
  import opened Frames
  import opened Growth
  import opened Tables
  import opened TableSteps
  import opened Mapping
  import opened Ranges

  /** n free pages in a row, somewhere. */
  ghost predicate HasRoom(st: Store, n: nat) {
    exists p: nat :: Pages(p, n) <= st.free
  }

  /** First fit never starts behind a run that fits, so it leaves that run all but its first
      eight pages. */
  lemma AllocLeavesRoom(st: Store, others: set<nat>, n: nat)
    requires Separated(st, others) && HasRoom(st, n) && n >= DEFAULT_PAGES
    ensures AllocTable(st).Done? && HasRoom(AllocTable(st).value.0, n - DEFAULT_PAGES)
  {
    var p: nat :| Pages(p, n) <= st.free;
    RunFits(st, others, p, n, DEFAULT_PAGES);
    AllocHaltsOnlyWhenFull(st, others);
    hide Separated;
    var a := FirstFit(st.free, DEFAULT_PAGES, 0, st.limit).value;
    RestOfRun(st.free, p, n, a / PAGE_SIZE, DEFAULT_PAGES);
    assert Pages(p + DEFAULT_PAGES, n - DEFAULT_PAGES) <= AllocTable(st).value.0.free;
  }

  /** A request of k pages is served at or before a free run of n >= k pages. */
  lemma RunFits(st: Store, others: set<nat>, p: nat, n: nat, k: nat)
    requires Separated(st, others) && Pages(p, n) <= st.free && 0 < k <= n
    ensures var r := FirstFit(st.free, k, 0, st.limit);
      r.Some? && r.value / PAGE_SIZE <= p
  {
    FirstFitExact(st.free, k, 0, st.limit);
    assert p in Pages(p, n) && p < LimitPages(st.limit);
    assert Pages(p, k) <= Pages(p, n);
    var at := PAGE_SIZE * p;
    assert Steps(0, at) && at / PAGE_SIZE == p && at < st.limit;
  }

  /** A run of k pages taken at or before p leaves all of p's run but its first k pages. */
  lemma RestOfRun(free: set<nat>, p: nat, n: nat, b: nat, k: nat)
    requires Pages(p, n) <= free && b <= p && k <= n
    ensures Pages(p + k, n - k) <= free - Pages(b, k)
  {
    hide Pages;
    forall q | q in Pages(p + k, n - k)
      ensures q in free - Pages(b, k)
    {
      assert q in Pages(p, n);
    }
  }

  lemma LessRoom(st: Store, n: nat, k: nat)
    requires HasRoom(st, n) && k <= n
    ensures HasRoom(st, k)
  {
    var p: nat :| Pages(p, n) <= st.free;
    assert Pages(p, k) <= Pages(p, n);
  }

  /** A growth step, given room for the new block. */
  lemma GrowLeavesRoom(st: Store, vec: Vec, others: set<nat>, len: nat, z: nat, n: nat)
    requires Placed(st, vec, others) && HasRoom(st, n) && n >= GrowNeed(vec.cap, len, z)
    ensures var r := Grow(st.free, st.limit, vec, len, z);
      r.Done? && HasRoom(st.(free := r.value.0), n - GrowNeed(vec.cap, len, z))
  {
    hide Separated, VecPages, GrowNeed, NextCap, FirstFit;
    var k := GrowNeed(vec.cap, len, z);
    GrowOrHalt(st.free, st.limit, vec, len, z);
    if k > 0 {
      var p: nat :| Pages(p, n) <= st.free;
      RunFits(st, others + VecPages(vec), p, n, k);
      GrowPages(st.free, st.limit, vec, len, z);
      RestOfRun(st.free, p, n, FirstFit(st.free, k, 0, st.limit).value / PAGE_SIZE, k);
      assert Pages(p + k, n - k) <= Grow(st.free, st.limit, vec, len, z).value.0;
    } else {
      GrowPages(st.free, st.limit, vec, len, z);
      SameRoom(st, st.(free := Grow(st.free, st.limit, vec, len, z).value.0), n);
    }
  }

  /** Pages to allocate for m tables and for listing them. */
  function TablesNeed(sp: Space, m: nat): nat {
    DEFAULT_PAGES * m + ListNeed(sp.vec.cap, |sp.list|, m, LIST_ENTRY)
  }

  lemma NeedAdds(sp: Space, sp1: Space, j: nat, k: nat)
    requires ListGrown(sp, sp1) && |sp1.list| == |sp.list| + j
    ensures TablesNeed(sp, j + k) == TablesNeed(sp, j) + TablesNeed(sp1, k)
  {
    hide CapAfter, ListNeed, BlockSize, VecPages;
    AppendsAdd(sp.vec.cap, |sp.list|, j, k, LIST_ENTRY);
  }

  lemma {:induction false} NeedGrows(sp: Space, j: nat, k: nat)
    requires j <= k
    ensures TablesNeed(sp, j) <= TablesNeed(sp, k)
  {
    if j < k {
      NeedGrows(sp, j, k - 1);
    }
  }

  /** Whether table k has to be allocated. */
  function Lack(sh: Shape, k: Key): nat {
    if k in sh.tabs then 0 else 1
  }

  lemma NeedOfOne(sp: Space)
    ensures TablesNeed(sp, 0) == 0
    ensures TablesNeed(sp, 1) == DEFAULT_PAGES + GrowNeed(sp.vec.cap, |sp.list| + 1, LIST_ENTRY)
  {
    hide GrowNeed;
    assert ListNeed(sp.vec.cap, |sp.list|, 0, LIST_ENTRY) == 0;
    assert CapAfter(sp.vec.cap, |sp.list|, 0, LIST_ENTRY) == sp.vec.cap;
  }

  /** One level of the descent, given room for its table. */
  lemma EnsureLeavesRoom(st: Store, others: set<nat>, sp: Space, sh: Shape, k: Key, n: nat)
    requires 1 <= k.level < 4 && Parent(k) in sh.tabs && OpenInv(st, sp, sh, Parent(k), others)
    requires HasRoom(st, n) && n >= TablesNeed(sp, Lack(sh, k))
    ensures Slot(k) < 512
    ensures var r := Ensure(st, sp, sh.tabs[Parent(k)], Slot(k));
      && r.Done? && HasRoom(r.value.0, n - TablesNeed(sp, Lack(sh, k)))
      && |r.value.1.list| == |sp.list| + Lack(sh, k)
  {
    hide *;
    SlotHolds(st, others, sp, sh, k);
    var t := sh.tabs[Parent(k)];
    EnsureLooks(st, sp, t, Slot(k));
    LackIs(sh, k);
    NeedOfOne(sp);
    if k !in sh.tabs {
      AllocLeavesRoom(st, others + VecPages(sp.vec), n);
      AllocKeepsPlaced(st, sp.vec, others);
      var st1 := AllocTable(st).value.0;
      GrowLeavesRoom(st1, sp.vec, others, |sp.list| + 1, LIST_ENTRY, n - DEFAULT_PAGES);
      EnsureAllocates(st, sp, t, Slot(k));
      var grown := Grow(st1.free, st1.limit, sp.vec, |sp.list| + 1, LIST_ENTRY).value.0;
      SameRoom(st1.(free := grown), Ensure(st, sp, t, Slot(k)).value.0, n - TablesNeed(sp, 1));
    }
  }

  lemma SlotHolds(st: Store, others: set<nat>, sp: Space, sh: Shape, k: Key)
    requires 1 <= k.level < 4 && Parent(k) in sh.tabs && OpenInv(st, sp, sh, Parent(k), others)
    ensures Placed(st, sp.vec, others) && Separated(st, others + VecPages(sp.vec))
    ensures sh.tabs[Parent(k)] in st.tables && Slot(k) < 512
    ensures Present(st.tables[sh.tabs[Parent(k)]][Slot(k)]) <==> k in sh.tabs
  {
    ParentChild(k);
    EntryFollows(st, sp, sh, others + VecPages(sp.vec), k);
    hide Present, Slot, Parent, Separated, VecPages;
  }

  lemma LackIs(sh: Shape, k: Key)
    ensures Lack(sh, k) == if k in sh.tabs then 0 else 1
  {
  }

  lemma EnsureLooks(st: Store, sp: Space, t: nat, i: nat)
    requires t in st.tables && i < 512
    ensures Present(st.tables[t][i]) ==>
      Ensure(st, sp, t, i).Done? && Ensure(st, sp, t, i).value.0 == st && Ensure(st, sp, t, i).value.1 == sp
  {
    hide Present, AllocTable, FrameMask;
  }

  lemma EnsureAllocates(st: Store, sp: Space, t: nat, i: nat)
    requires t in st.tables && i < 512 && !Present(st.tables[t][i]) && AllocTable(st).Done?
    requires var st1 := AllocTable(st).value.0; Grow(st1.free, st1.limit, sp.vec, |sp.list| + 1, LIST_ENTRY).Done?
    ensures var st1 := AllocTable(st).value.0;
      && Ensure(st, sp, t, i).Done?
      && Ensure(st, sp, t, i).value.0.free == Grow(st1.free, st1.limit, sp.vec, |sp.list| + 1, LIST_ENTRY).value.0
      && |Ensure(st, sp, t, i).value.1.list| == |sp.list| + 1
  {
    hide FirstFit, Present, MakeTableEntry, Grow;
  }

  lemma SameRoom(st: Store, st': Store, n: nat)
    requires HasRoom(st, n) && st'.free == st.free
    ensures HasRoom(st', n)
  {
  }

  /** Tables to allocate for the path of page w. */
  function PathLack(sh: Shape, w: nat): nat {
    |PathKeys(w) - sh.tabs.Keys|
  }

  /** Pages to allocate for the path of page w. */
  function PathNeed(sp: Space, sh: Shape, w: nat): nat {
    TablesNeed(sp, PathLack(sh, w))
  }

  lemma PathCount(sh: Shape, w: nat)
    ensures PathLack(sh, w) == Lack(sh, KeyAt(3, w)) + Lack(sh, KeyAt(2, w)) + Lack(sh, KeyAt(1, w))
  {
    var k3, k2, k1 := KeyAt(3, w), KeyAt(2, w), KeyAt(1, w);
    assert k3 != k2 && k2 != k1 && k3 != k1;
    hide KeyAt;
    MissingCount(sh.tabs.Keys, k3, k2, k1);
  }

  lemma PathNeedIs(sp: Space, sh: Shape, w: nat)
    ensures PathNeed(sp, sh, w) == TablesNeed(sp, PathLack(sh, w))
  {
  }

  lemma MissingCount(linked: set<Key>, k3: Key, k2: Key, k1: Key)
    requires k3 != k2 && k2 != k1 && k3 != k1
    ensures |{k1, k2, k3} - linked| == |Missing(linked, k3)| + |Missing(linked, k2)| + |Missing(linked, k1)|
  {
    var a, b, c := Missing(linked, k3), Missing(linked, k2), Missing(linked, k1);
    assert a !! b && a + b !! c;
    assert {k1, k2, k3} - linked == a + b + c;
    hide Missing;
    UnionCount(a, b);
    UnionCount(a + b, c);
  }

  function Missing(linked: set<Key>, k: Key): set<Key> {
    if k in linked then {} else {k}
  }

  lemma UnionCount(a: set<Key>, b: set<Key>)
    requires a !! b
    ensures |a + b| == |a| + |b|
  {
  }

  lemma LackStays(sh: Shape, k: Key, a: Word, l: Key)
    requires l.level != k.level
    ensures Lack(Ensured(sh, k, a), l) == Lack(sh, l)
  {
  }

  /** Two levels: table k2 and table k1 below it. */
  lemma EnsureTwo(st: Store, others: set<nat>, sp: Space, sh: Shape, k2: Key, k1: Key, n: nat)
    requires 1 <= k1.level < k2.level < 4 && Parent(k1) == k2 && Parent(k2) in sh.tabs
    requires OpenInv(st, sp, sh, Parent(k2), others) && HasRoom(st, n)
    requires n >= TablesNeed(sp, Lack(sh, k2) + Lack(sh, k1))
    ensures Slot(k2) < 512 && Slot(k1) < 512
    ensures Ensure(st, sp, sh.tabs[Parent(k2)], Slot(k2)).Done?
    ensures var (st2, sp2, pd) := Ensure(st, sp, sh.tabs[Parent(k2)], Slot(k2)).value;
      var r := Ensure(st2, sp2, pd, Slot(k1));
      && r.Done? && HasRoom(r.value.0, n - TablesNeed(sp, Lack(sh, k2) + Lack(sh, k1)))
      && |r.value.1.list| == |sp.list| + Lack(sh, k2) + Lack(sh, k1)
  {
    hide *;
    EnsureCorrect(st, others, sp, sh, k2);
    NeedGrows(sp, Lack(sh, k2), Lack(sh, k2) + Lack(sh, k1));
    EnsureLeavesRoom(st, others, sp, sh, k2, n);
    var (st2, sp2, pd) := Ensure(st, sp, sh.tabs[Parent(k2)], Slot(k2)).value;
    LackStays(sh, k2, pd, k1);
    NeedAdds(sp, sp2, Lack(sh, k2), Lack(sh, k1));
    EnsureLeavesRoom(st2, others, sp2, Ensured(sh, k2, pd), k1, n - TablesNeed(sp, Lack(sh, k2)));
  }

  /** All three levels of the descent. */
  lemma EnsureThree(st: Store, others: set<nat>, sp: Space, sh: Shape, k3: Key, k2: Key, k1: Key, n: nat)
    requires 1 <= k1.level < k2.level < k3.level < 4 && Parent(k1) == k2 && Parent(k2) == k3 && Parent(k3) in sh.tabs
    requires OpenInv(st, sp, sh, Parent(k3), others)
    requires HasRoom(st, n) && n >= TablesNeed(sp, Lack(sh, k3) + Lack(sh, k2) + Lack(sh, k1))
    ensures Slot(k3) < 512 && Slot(k2) < 512 && Slot(k1) < 512
    ensures Ensure(st, sp, sh.tabs[Parent(k3)], Slot(k3)).Done?
    ensures var (st3, sp3, pdpt) := Ensure(st, sp, sh.tabs[Parent(k3)], Slot(k3)).value;
      && Ensure(st3, sp3, pdpt, Slot(k2)).Done?
      && var (st2, sp2, pd) := Ensure(st3, sp3, pdpt, Slot(k2)).value;
         var r := Ensure(st2, sp2, pd, Slot(k1));
         && r.Done? && HasRoom(r.value.0, n - TablesNeed(sp, Lack(sh, k3) + Lack(sh, k2) + Lack(sh, k1)))
         && |r.value.1.list| == |sp.list| + Lack(sh, k3) + Lack(sh, k2) + Lack(sh, k1)
  {
    hide *;
    EnsureCorrect(st, others, sp, sh, k3);
    NeedGrows(sp, Lack(sh, k3), Lack(sh, k3) + Lack(sh, k2) + Lack(sh, k1));
    EnsureLeavesRoom(st, others, sp, sh, k3, n);
    var (st3, sp3, pdpt) := Ensure(st, sp, sh.tabs[Parent(k3)], Slot(k3)).value;
    LackStays(sh, k3, pdpt, k2);
    LackStays(sh, k3, pdpt, k1);
    NeedAdds(sp, sp3, Lack(sh, k3), Lack(sh, k2) + Lack(sh, k1));
    EnsureTwo(st3, others, sp3, Ensured(sh, k3, pdpt), k2, k1, n - TablesNeed(sp, Lack(sh, k3)));
  }

  lemma DescendLeavesRoom(st: Store, others: set<nat>, sp: Space, sh: Shape, v: Word, n: nat)
    requires Placed(st, sp.vec, others) && SpaceInv(st, sp, sh) && HasRoom(st, n) && n >= PathNeed(sp, sh, Vpn(v))
    ensures Descend(st, sp, v).Done? && HasRoom(Descend(st, sp, v).value.0, n - PathNeed(sp, sh, Vpn(v)))
    ensures |Descend(st, sp, v).value.1.list| == |sp.list| + PathLack(sh, Vpn(v))
  {
    hide *;
    PathOf(v);
    PathCount(sh, Vpn(v));
    Opened(st, sp, sh, others);
    var k3, k2, k1 := KeyAt(3, Vpn(v)), KeyAt(2, Vpn(v)), KeyAt(1, Vpn(v));
    PathNeedIs(sp, sh, Vpn(v));
    hide *;
    EnsureThree(st, others, sp, sh, k3, k2, k1, n);
    DescendIs(st, sp, v, Slot(k3), Slot(k2), Slot(k1));
  }

  lemma DescendIs(st: Store, sp: Space, v: Word, i3: nat, i2: nat, i1: nat)
    requires Index(v, 4) == i3 < 512 && Index(v, 3) == i2 < 512 && Index(v, 2) == i1 < 512
    requires Ensure(st, sp, sp.root, i3).Done?
    requires var (st3, sp3, pdpt) := Ensure(st, sp, sp.root, i3).value; Ensure(st3, sp3, pdpt, i2).Done?
    ensures var (st3, sp3, pdpt) := Ensure(st, sp, sp.root, i3).value;
      var (st2, sp2, pd) := Ensure(st3, sp3, pdpt, i2).value;
      Descend(st, sp, v) == Ensure(st2, sp2, pd, i1)
  {
    hide Ensure, Index;
  }

  /** map_page_entry completes whenever the tables missing on its path and the list's growth fit
      in one free run, and leaves the rest of that much room. */
  lemma MapEntryCompletes(st: Store, others: set<nat>, sp: Space, sh: Shape, v: Word, phys: Word, flags: Word, n: nat)
    requires Placed(st, sp.vec, others) && SpaceInv(st, sp, sh) && GoodFlags(flags)
    requires HasRoom(st, n) && n >= PathNeed(sp, sh, Vpn(v))
    ensures MapEntry(st, sp, v, phys, flags).Done?
    ensures HasRoom(MapEntry(st, sp, v, phys, flags).value.0, n - PathNeed(sp, sh, Vpn(v)))
    ensures |MapEntry(st, sp, v, phys, flags).value.1.list| == |sp.list| + PathLack(sh, Vpn(v))
  {
    hide Descend, Vpn, Index, Placed, SpaceInv, PathNeed, PathLack, HasRoom, MakeTableEntry, FrameMask, Kept, Mapped,
      ListGrown;
    DescendLeavesRoom(st, others, sp, sh, v, n);
    var _ := MapEntryCorrect(st, others, sp, sh, v, phys, flags);
    SameRoom(Descend(st, sp, v).value.0, MapEntry(st, sp, v, phys, flags).value.0, n - PathNeed(sp, sh, Vpn(v)));
  }

  /** Tables to allocate for a range. */
  function RangeLack(sh: Shape, v: Word, n: nat): nat {
    |RangeKeys(v, n) - sh.tabs.Keys|
  }

  /** Pages to allocate for a range: eight for every region it is the first to touch, and the
      blocks the memory list moves to. */
  function RangeNeed(sp: Space, sh: Shape, v: Word, n: nat): nat {
    TablesNeed(sp, RangeLack(sh, v, n))
  }

  /** vm_map completes whenever the pages it must take are free in one run. */
  lemma {:induction false} VmMapCompletes(st: Store, others: set<nat>, sp: Space, sh: Shape,
                                          v: Word, phys: Word, n: nat, flags: Word, room: nat)
    requires Placed(st, sp.vec, others) && SpaceInv(st, sp, sh) && GoodFlags(flags)
    requires HasRoom(st, room) && room >= RangeNeed(sp, sh, v, n)
    ensures VmMap(st, sp, v, phys, n, flags).Done?
    ensures HasRoom(VmMap(st, sp, v, phys, n, flags).value.0, room - RangeNeed(sp, sh, v, n))
    ensures |VmMap(st, sp, v, phys, n, flags).value.1.list| == |sp.list| + RangeLack(sh, v, n)
  {
    hide Placed, SpaceInv, Kept, MapEntry, Offset, Vpn, TablesNeed, HasRoom, MapRange, Grown, ListGrown, RangeLack,
      PathLack;
    if n > 0 {
      var sh1 := VmMapCorrect(st, others, sp, sh, v, phys, n - 1, flags);
      var j, m := RangeLack(sh, v, n - 1), RangeLack(sh, v, n);
      MissingGrows(sh, v, n);
      NeedGrows(sp, j, m);
      VmMapCompletes(st, others, sp, sh, v, phys, n - 1, flags, room);
      MissingStep(sh, sh1, v, n);
      var (st1, sp1) := VmMap(st, sp, v, phys, n - 1, flags).value;
      NeedAdds(sp, sp1, j, m - j);
      MapEntryCompletes(st1, others, sp1, sh1, Offset(v, n - 1), Offset(phys, n - 1), flags, room - TablesNeed(sp, j));
    } else {
      NoneMissing(sh, v);
      NeedOfOne(sp);
    }
  }

  lemma NoneMissing(sh: Shape, v: Word)
    ensures RangeLack(sh, v, 0) == 0
  {
    assert RangeKeys(v, 0) - sh.tabs.Keys == {};
  }

  lemma MissingGrows(sh: Shape, v: Word, n: nat)
    requires n > 0
    ensures RangeLack(sh, v, n - 1) <= RangeLack(sh, v, n)
  {
    hide PathKeys, RangePage;
    var less, more := RangeKeys(v, n - 1) - sh.tabs.Keys, RangeKeys(v, n) - sh.tabs.Keys;
    assert more == less + (more - less);
    UnionCount(less, more - less);
  }

  lemma MissingStep(sh: Shape, sh1: Shape, v: Word, n: nat)
    requires n > 0 && Grown(sh, RangeKeys(v, n - 1), sh1)
    ensures RangeLack(sh, v, n)
         == RangeLack(sh, v, n - 1) + PathLack(sh1, RangePage(v, n - 1))
  {
    hide PathKeys, Vpn, Offset;
    var range, path := RangeKeys(v, n - 1), PathKeys(Vpn(Offset(v, n - 1)));
    assert RangeKeys(v, n) == range + path && path == PathKeys(RangePage(v, n - 1));
    hide RangeKeys, RangePage;
    assert sh1.tabs.Keys == sh.tabs.Keys + range;
    SplitCount(range, path, sh.tabs.Keys, sh1.tabs.Keys);
  }

  lemma SplitCount(range: set<Key>, path: set<Key>, linked: set<Key>, after: set<Key>)
    requires after == linked + range
    ensures |range + path - linked| == |range - linked| + |path - after|
  {
    assert range + path - linked == (range - linked) + (path - after);
    UnionCount(range - linked, path - after);
  }

  /** The first page of an empty space takes three tables and a first block for the list: 24 free
      pages, however they lie, are not enough, and 26 in a row are. */
  lemma FirstPageNeeds(st: Store, others: set<nat>, sp: Space, sh: Shape, v: Word, phys: Word, flags: Word)
    requires Placed(st, sp.vec, others) && SpaceInv(st, sp, sh) && GoodFlags(flags)
    requires sh.tabs.Keys == {ROOT} && sp.vec.cap == 0
    ensures |st.free| < 26 ==> VmMap(st, sp, v, phys, 1, flags).Halt?
    ensures HasRoom(st, 26) ==> VmMap(st, sp, v, phys, 1, flags).Done?
  {
    var sh' := VmMapCorrect(st, others, sp, sh, v, phys, 1, flags);
    FirstPath(sh, v);
    ListCount(sp.root, sp, sh);
    FirstThree();
    assert BlockSize(0) == 0 && BlockSize(32) == 2;
    hide Placed, SpaceInv, VmMap, HasRoom, RangeKeys, CapAfter, ListNeed, BlockSize, Kept;
    assert sp.list == [];
    if HasRoom(st, 26) {
      VmMapCompletes(st, others, sp, sh, v, phys, 1, flags, 26);
    }
    if VmMap(st, sp, v, phys, 1, flags).Done? {
      VmMapCost(st, others, sp, sh, v, phys, 1, flags);
    }
  }

  lemma FirstPath(sh: Shape, v: Word)
    requires sh.tabs.Keys == {ROOT}
    ensures RangeLack(sh, v, 1) == 3
  {
    var w := RangePage(v, 0);
    var k3, k2, k1 := KeyAt(3, w), KeyAt(2, w), KeyAt(1, w);
    assert RangeKeys(v, 0) == {};
    assert RangeKeys(v, 1) == PathKeys(w);
    PathCount(sh, w);
  }

  lemma FirstThree()
    ensures ListNeed(0, 0, 3, LIST_ENTRY) == 2 && CapAfter(0, 0, 3, LIST_ENTRY) == 32
  {
    assert ListNeed(0, 0, 0, 8) == 0 && CapAfter(0, 0, 0, 8) == 0;
    assert ListNeed(0, 0, 1, 8) == 2 && CapAfter(0, 0, 1, 8) == 32;
    assert ListNeed(0, 0, 2, 8) == 2 && CapAfter(0, 0, 2, 8) == 32;
  }
}
