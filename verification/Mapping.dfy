/** map_page_entry refines an update of the partial map from pages to frames. */
module Mapping {
  import opened Words
  import opened Frames
  import opened Growth
  import opened Tables
  import opened TableSteps

  /** A space whose tables are coherent and in use, except possibly table `open`. */
  ghost predicate OpenInv(st: Store, sp: Space, sh: Shape, open: Key, others: set<nat>) {
    && Placed(st, sp.vec, others) && Coherent(st.tables, sp.root, sh)
    && TightBut(sh, open) && Listed(sp, sh) && Fits(sp)
  }

  /** What every operation on one space keeps: the root, all tables of other spaces, and the
      set of managed pages, the block of the memory list among them. */
  ghost predicate Kept(st: Store, sp: Space, sh: Shape, st': Store, sp': Space, sh': Shape) {
    Frame(st, sh, st', sh') && ManagedWith(st', sp'.vec) == ManagedWith(st, sp.vec) && sp'.root == sp.root
  }

  /** The memory list only grew, its capacity with it, and its block moved only to get larger. */
  ghost predicate ListGrown(sp: Space, sp': Space) {
    && |sp.list| <= |sp'.list|
    && sp'.vec.cap == CapAfter(sp.vec.cap, |sp.list|, |sp'.list| - |sp.list|, LIST_ENTRY)
    && sp.vec.cap <= sp'.vec.cap
    && (BlockSize(sp'.vec.cap) == BlockSize(sp.vec.cap) ==> VecPages(sp'.vec) == VecPages(sp.vec))
  }

  lemma ListGrownTrans(sp: Space, sp1: Space, sp2: Space)
    requires ListGrown(sp, sp1) && ListGrown(sp1, sp2)
    ensures ListGrown(sp, sp2)
  {
    hide CapAfter, ListNeed, BlockSize, VecPages;
    LargerBlock(sp.vec.cap, sp1.vec.cap);
    LargerBlock(sp1.vec.cap, sp2.vec.cap);
    AppendsAdd(sp.vec.cap, |sp.list|, |sp1.list| - |sp.list|, |sp2.list| - |sp1.list|, LIST_ENTRY);
  }

  lemma KeptTrans(st: Store, sp: Space, sh: Shape, st1: Store, sp1: Space, sh1: Shape,
                  st2: Store, sp2: Space, sh2: Shape)
    requires Kept(st, sp, sh, st1, sp1, sh1) && Kept(st1, sp1, sh1, st2, sp2, sh2)
    ensures Kept(st, sp, sh, st2, sp2, sh2)
  {
    hide ManagedWith;
  }

  // ---------------------------------------------------------------- one level

  /** The present bit of an entry tells whether the table below is linked, and masking the
      entry gives its address. */
  lemma EntryFollows(st: Store, sp: Space, sh: Shape, others: set<nat>, k: Key)
    requires Separated(st, others) && Coherent(st.tables, sp.root, sh)
    requires 1 <= k.level < 4 && Parent(k) in sh.tabs
    ensures var e := st.tables[sh.tabs[Parent(k)]][Slot(k)];
      && (Present(e) <==> k in sh.tabs)
      && (k !in sh.tabs ==> e == 0)
      && (k in sh.tabs ==> FrameMask(e) == ShortMask(e) == sh.tabs[k])
  {
    ParentChild(k);
    var e := st.tables[sh.tabs[Parent(k)]][Slot(k)];
    assert e == EntryOf(sh, Parent(k), Slot(k));
    PresentIsOdd(0);
    if k in sh.tabs {
      assert sh.tabs[k] in st.tables;
      EntryParts(sh.tabs[k], VM_USERMODE);
    }
  }

  /** The space after Ensure at table k. */
  function Ensured(sh: Shape, k: Key, a: Word): Shape {
    if k in sh.tabs then sh else Linked(sh, k, a)
  }

  lemma TightStays(sh: Shape, k: Key)
    requires k in sh.tabs && 1 <= k.level < 4 && TightBut(sh, Parent(k))
    ensures TightBut(sh, k)
  {
    hide Parent;
    forall l | l in sh.tabs && l.level < 4 && l != k
      ensures Used(sh, l)
    {
      if l == Parent(k) {
        ParentLevel(k);
      }
    }
  }

  lemma ParentLevel(k: Key)
    ensures Parent(k).level == k.level + 1
  {
  }

  lemma TightAfterLink(sh: Shape, k: Key, a: Word)
    requires k !in sh.tabs && 1 <= k.level < 4 && TightBut(sh, Parent(k))
    ensures TightBut(Linked(sh, k, a), k)
  {
    ParentLevel(k);
    hide Parent;
    var sh' := Linked(sh, k, a);
    assert k in sh'.tabs;
    forall l | l in sh'.tabs && l.level < 4 && l != k
      ensures Used(sh', l)
    {
      if l != Parent(k) {
        assert Used(sh, l);
        if l.level != 1 {
          var c :| c in sh.tabs && c.level < 4 && Parent(c) == l;
          assert c in sh'.tabs;
        }
      }
    }
  }

  lemma ListedAfterLink(tables: map<nat, Table>, sp: Space, sh: Shape, k: Key, a: Word, vec: Vec)
    requires Listed(sp, sh) && k !in sh.tabs && k.level < 4
    requires forall l :: l in sh.tabs ==> sh.tabs[l] in tables
    requires a !in tables
    ensures Listed(Space(sp.root, sp.list + [a], vec), Linked(sh, k, a))
  {
    var sp', sh' := Space(sp.root, sp.list + [a], vec), Linked(sh, k, a);
    forall b | b in sp'.list
      ensures exists l :: l in sh'.tabs && l.level < 4 && sh'.tabs[l] == b
    {
      if b == a {
        assert sh'.tabs[k] == a;
      } else {
        var l :| l in sh.tabs && l.level < 4 && sh.tabs[l] == b;
        assert sh'.tabs[l] == b;
      }
    }
    assert a !in sp.list;
  }

  /** One level of map_page_entry never follows a bad address, halts exactly when a table is
      missing and either no eight free pages are left in a row or the memory list must grow and
      no run for its new block is left, and otherwise arrives at the table for the page. */
  lemma EnsureCorrect(st: Store, others: set<nat>, sp: Space, sh: Shape, k: Key)
    requires 1 <= k.level < 4 && Parent(k) in sh.tabs
    requires OpenInv(st, sp, sh, Parent(k), others)
    ensures Slot(k) < 512
    ensures var r := Ensure(st, sp, sh.tabs[Parent(k)], Slot(k));
      && (r.Halt? <==> k !in sh.tabs && LinkHalts(st, sp))
      && !r.Fault?
      && (r.Done? ==>
            var (st', sp', a) := r.value;
            var sh' := Ensured(sh, k, a);
            k in sh'.tabs && sh'.tabs[k] == a && OpenInv(st', sp', sh', k, others)
            && Kept(st, sp, sh, st', sp', sh') && ListGrown(sp, sp')
            && Appended(sp, sp', k in sh.tabs, a))
  {
    ParentChild(k);
    EntryFollows(st, sp, sh, others + VecPages(sp.vec), k);
    if k in sh.tabs {
      hide Parent, Slot, Present, Placed, Coherent, Listed;
      TightStays(sh, k);
    } else {
      AllocHaltsOnlyWhenFull(st, others + VecPages(sp.vec));
      if AllocTable(st).Done? {
        EnsureLinks(st, others, sp, sh, k);
        GrowOrHalt(AllocTable(st).value.0.free, st.limit, sp.vec, |sp.list| + 1, LIST_ENTRY);
        hide Parent, Slot, Placed, Coherent, TightBut, Listed, Kept, Linked, Grow, AllocTable, MakeTableEntry;
      }
    }
  }

  /** The memory list after one level: as it was if the table was linked before, else one longer. */
  predicate Appended(sp: Space, sp': Space, linked: bool, a: nat) {
    sp'.list == if linked then sp.list else sp.list + [a]
  }

  /** No room for a new table, or none for a larger block of the memory list after it. */
  predicate LinkHalts(st: Store, sp: Space) {
    || FirstFit(st.free, DEFAULT_PAGES, 0, st.limit).None?
    || (AllocTable(st).Done? && GrowHalts(AllocTable(st).value.0.free, st.limit, sp.vec.cap, |sp.list| + 1, LIST_ENTRY))
  }

  /** The store with a fresh table linked for k. */
  lemma TableLinked(st: Store, others: set<nat>, sp: Space, sh: Shape, k: Key)
    requires 1 <= k.level < 4 && k !in sh.tabs && Parent(k) in sh.tabs
    requires OpenInv(st, sp, sh, Parent(k), others)
    requires AllocTable(st).Done?
    ensures Slot(k) < 512
    ensures var (st1, a) := AllocTable(st).value;
      var t := sh.tabs[Parent(k)];
      && t in st1.tables && st1.limit == st.limit && a !in st.tables
      && var st2 := SetEntry(st1, t, Slot(k), MakeTableEntry(a, VM_USERMODE));
         && Placed(st2, sp.vec, others) && Managed(st2) == Managed(st)
         && Coherent(st2.tables, sp.root, Linked(sh, k, a)) && Frame(st, sh, st2, Linked(sh, k, a))
  {
    ParentChild(k);
    hide MakeTableEntry, Parent, Slot, Placed, Listed, TightBut, Managed, EntryOf, AllocTable;
    var (st1, a) := AllocTable(st).value;
    var t := sh.tabs[Parent(k)];
    AllocKeepsPlaced(st, sp.vec, others);
    SetKeepsPlaced(st1, t, Slot(k), MakeTableEntry(a, VM_USERMODE), sp.vec, others);
    LinkStored(st.tables, sp.root, sh, k, a);
    LinkFrame(st, sh, k, a, st1);
  }

  /** A table for k is linked and listed, and the list may have moved. */
  lemma EnsureLinks(st: Store, others: set<nat>, sp: Space, sh: Shape, k: Key)
    requires 1 <= k.level < 4 && k !in sh.tabs && Parent(k) in sh.tabs
    requires OpenInv(st, sp, sh, Parent(k), others)
    requires AllocTable(st).Done?
    ensures Slot(k) < 512
    ensures var (st1, a) := AllocTable(st).value;
      var t := sh.tabs[Parent(k)];
      var grown := Grow(st1.free, st1.limit, sp.vec, |sp.list| + 1, LIST_ENTRY);
      && t in st1.tables && st1.limit == st.limit
      && (grown.Done? ==>
            var (free, vec) := grown.value;
            var st' := SetEntry(st1, t, Slot(k), MakeTableEntry(a, VM_USERMODE)).(free := free);
            var sp' := Space(sp.root, sp.list + [a], vec);
            OpenInv(st', sp', Linked(sh, k, a), k, others) && Kept(st, sp, sh, st', sp', Linked(sh, k, a))
            && ListGrown(sp, sp'))
  {
    hide MakeTableEntry, Parent, Slot, Coherent, Placed, Managed, Linked, Frame, ListGrown, VecPages, AllocTable;
    TableLinked(st, others, sp, sh, k);
    LinkedIsListed(st, others, sp, sh, k);
    var (st1, a) := AllocTable(st).value;
    var st2 := SetEntry(st1, sh.tabs[Parent(k)], Slot(k), MakeTableEntry(a, VM_USERMODE));
    if Grow(st1.free, st1.limit, sp.vec, |sp.list| + 1, LIST_ENTRY).Done? {
      var (free, vec) := Grow(st1.free, st1.limit, sp.vec, |sp.list| + 1, LIST_ENTRY).value;
      GrowKeeps(st2, sp.vec, others, |sp.list| + 1, LIST_ENTRY);
      GrowFits(st1.free, st1.limit, sp.vec, |sp.list| + 1, LIST_ENTRY);
      GrowPages(st1.free, st1.limit, sp.vec, |sp.list| + 1, LIST_ENTRY);
      hide Grow, Listed, TightBut;
      OneMore(sp, a, vec);
      FrameFree(st, sh, st2, Linked(sh, k, a), free);
    }
  }

  lemma LinkedIsListed(st: Store, others: set<nat>, sp: Space, sh: Shape, k: Key)
    requires 1 <= k.level < 4 && k !in sh.tabs && Parent(k) in sh.tabs
    requires OpenInv(st, sp, sh, Parent(k), others)
    requires AllocTable(st).Done? && AllocTable(st).value.1 !in st.tables
    ensures var a := AllocTable(st).value.1;
      && TightBut(Linked(sh, k, a), k)
      && forall vec :: Listed(Space(sp.root, sp.list + [a], vec), Linked(sh, k, a))
  {
    hide Parent, Placed, Listed, AllocTable, TightBut;
    var a := AllocTable(st).value.1;
    TightAfterLink(sh, k, a);
    forall vec
      ensures Listed(Space(sp.root, sp.list + [a], vec), Linked(sh, k, a))
    {
      ListedAfterLink(st.tables, sp, sh, k, a, vec);
    }
  }

  lemma OneMore(sp: Space, a: nat, vec: Vec)
    requires vec.cap == NextCap(sp.vec.cap, |sp.list| + 1, LIST_ENTRY)
    requires GrowNeed(sp.vec.cap, |sp.list| + 1, LIST_ENTRY) == 0 ==> VecPages(vec) == VecPages(sp.vec)
    ensures ListGrown(sp, Space(sp.root, sp.list + [a], vec))
  {
    NextCapGrows(sp.vec.cap, |sp.list| + 1, LIST_ENTRY);
    hide NextCap, BlockSize, VecPages;
    assert CapAfter(sp.vec.cap, |sp.list|, 0, LIST_ENTRY) == sp.vec.cap;
  }

  lemma FrameFree(st: Store, sh: Shape, st': Store, sh': Shape, free: set<nat>)
    requires Frame(st, sh, st', sh')
    ensures Frame(st, sh, st'.(free := free), sh')
  {
  }

  lemma LinkFrame(st: Store, sh: Shape, k: Key, a: Word, st1: Store)
    requires 1 <= k.level < 4 && k !in sh.tabs && Parent(k) in sh.tabs
    requires forall l :: l in sh.tabs ==> sh.tabs[l] in st.tables
    requires a !in st.tables && st1.limit == st.limit && st1.tables == st.tables[a := ZEROS]
    ensures Slot(k) < 512
    ensures Frame(st, sh, SetEntry(st1, sh.tabs[Parent(k)], Slot(k), MakeTableEntry(a, VM_USERMODE)), Linked(sh, k, a))
  {
    hide MakeTableEntry;
    var sh' := Linked(sh, k, a);
    assert sh'.tabs.Values == sh.tabs.Values + {a} by {
      assert sh'.tabs[k] == a;
      forall l | l in sh.tabs
        ensures sh'.tabs[l] == sh.tabs[l]
      {
      }
    }
    assert sh.tabs[Parent(k)] in sh.tabs.Values;
  }

  // ---------------------------------------------------------------- the leaf

  lemma SetLeafCorrect(st: Store, others: set<nat>, sp: Space, sh: Shape, w: nat, leaf: Leaf)
    requires w < VPN_COUNT && GoodLeaf(leaf) && TableOf(w) in sh.tabs
    requires OpenInv(st, sp, sh, TableOf(w), others)
    ensures var pt := sh.tabs[TableOf(w)];
      && pt in st.tables
      && var st' := SetEntry(st, pt, w % 512, MakeTableEntry(leaf.frame, leaf.flags));
         var sh' := WithPage(sh, w, leaf);
         Placed(st', sp.vec, others) && SpaceInv(st', sp, sh') && Kept(st, sp, sh, st', sp, sh')
  {
    hide MakeTableEntry, TableOf, Managed, TightBut, VecPages, Fits, EntryOf, Placed, GoodLeaf, Listed, Parent;
    var pt := sh.tabs[TableOf(w)];
    assert pt in st.tables;
    SetKeepsPlaced(st, pt, w % 512, MakeTableEntry(leaf.frame, leaf.flags), sp.vec, others);
    LeafStored(st.tables, sp.root, sh, w, leaf);
    TightAfterLeaf(sh, w, leaf);
    ListedByTabs(sp, sh, WithPage(sh, w, leaf));
    assert pt in sh.tabs.Values;
  }

  lemma TightAfterLeaf(sh: Shape, w: nat, leaf: Leaf)
    requires TightBut(sh, TableOf(w))
    ensures Tight(WithPage(sh, w, leaf))
  {
    hide TableOf;
    var sh' := WithPage(sh, w, leaf);
    assert w in sh'.pages;
    forall k | k in sh'.tabs && k.level < 4
      ensures Used(sh', k)
    {
      if k != TableOf(w) {
        assert Used(sh, k);
        if k.level == 1 {
          var u :| u in sh.pages && TableOf(u) == k;
          assert u in sh'.pages;
        }
      } else {
        TableLevel(w);
      }
    }
  }

  // ---------------------------------------------------------------- map_page_entry

  /** The page of v, as its four indices spell it. */
  lemma PathOf(v: Word)
    ensures var w := Vpn(v);
      && Index(v, 1) == w % 512
      && TableOf(w) == KeyAt(1, w)
      && KeyAt(1, w).level == 1 && KeyAt(2, w).level == 2 && KeyAt(3, w).level == 3
      && Index(v, 2) == Slot(KeyAt(1, w)) && Parent(KeyAt(1, w)) == KeyAt(2, w)
      && Index(v, 3) == Slot(KeyAt(2, w)) && Parent(KeyAt(2, w)) == KeyAt(3, w)
      && Index(v, 4) == Slot(KeyAt(3, w)) && Parent(KeyAt(3, w)) == ROOT
  {
    IndexIsDigit(v, 1);
    IndexIsDigit(v, 2);
    IndexIsDigit(v, 3);
    IndexIsDigit(v, 4);
    var w := Vpn(v);
    PathStep(1, w);
    PathStep(2, w);
    PathStep(3, w);
  }

  /** The tables on the path of page w. */
  function PathKeys(w: nat): set<Key> {
    {KeyAt(1, w), KeyAt(2, w), KeyAt(3, w)}
  }

  /** The new space: page w mapped, its path linked, all old tables where they were. */
  ghost predicate Mapped(sh: Shape, w: nat, leaf: Leaf, sh': Shape) {
    && sh'.pages == sh.pages[w := leaf]
    && sh'.tabs.Keys == sh.tabs.Keys + PathKeys(w)
    && (forall k :: k in sh.tabs ==> sh'.tabs[k] == sh.tabs[k])
  }

  /** The space after descending to page w. */
  function EnsuredPath(sh: Shape, w: nat, a3: Word, a2: Word, a1: Word): Shape {
    Ensured(Ensured(Ensured(sh, KeyAt(3, w), a3), KeyAt(2, w), a2), KeyAt(1, w), a1)
  }

  /** Linking the path of page w keeps the pages and all old tables. */
  ghost predicate PathLinked(sh: Shape, w: nat, sh1: Shape) {
    && sh1.pages == sh.pages
    && sh1.tabs.Keys == sh.tabs.Keys + PathKeys(w)
    && (forall k :: k in sh.tabs ==> sh1.tabs[k] == sh.tabs[k])
  }

  lemma EnsuredPathLinks(sh: Shape, w: nat, a3: Word, a2: Word, a1: Word)
    ensures PathLinked(sh, w, EnsuredPath(sh, w, a3, a2, a1))
  {
    hide KeyAt;
  }

  /** The descent arrives at the page table of v with its path linked. */
  lemma DescendCorrect(st: Store, others: set<nat>, sp: Space, sh: Shape, v: Word) returns (sh1: Shape)
    requires Placed(st, sp.vec, others) && SpaceInv(st, sp, sh)
    ensures !Descend(st, sp, v).Fault?
    ensures Descend(st, sp, v).Done? ==>
      var (st1, sp1, pt) := Descend(st, sp, v).value;
      && TableOf(Vpn(v)) in sh1.tabs && sh1.tabs[TableOf(Vpn(v))] == pt
      && OpenInv(st1, sp1, sh1, TableOf(Vpn(v)), others)
      && Kept(st, sp, sh, st1, sp1, sh1) && ListGrown(sp, sp1)
      && PathLinked(sh, Vpn(v), sh1)
      && (TableOf(Vpn(v)) !in sh.tabs ==> Last(sp1.list, pt))
  {
    PathOf(v);
    var w := Vpn(v);
    var k3, k2, k1 := KeyAt(3, w), KeyAt(2, w), KeyAt(1, w);
    sh1 := sh;
    hide KeyAt, Vpn, Parent, Slot, TableOf, Index, Ensure, Kept, OpenInv, FrameMask, Ensured, PathLinked, ListGrown,
      LinkHalts, Appended, Last;
    Opened(st, sp, sh, others);
    EnsureCorrect(st, others, sp, sh, k3);
    if Ensure(st, sp, sp.root, Index(v, 4)).Done? {
      var (st3, sp3, pdpt) := Ensure(st, sp, sp.root, Index(v, 4)).value;
      var sh3 := Ensured(sh, k3, pdpt);
      EnsureCorrect(st3, others, sp3, sh3, k2);
      if Ensure(st3, sp3, pdpt, Index(v, 3)).Done? {
        var (st2, sp2, pd) := Ensure(st3, sp3, pdpt, Index(v, 3)).value;
        var sh2 := Ensured(sh3, k2, pd);
        EnsureCorrect(st2, others, sp2, sh2, k1);
        if Ensure(st2, sp2, pd, Index(v, 2)).Done? {
          var (st1, sp1, pt) := Ensure(st2, sp2, pd, Index(v, 2)).value;
          sh1 := Ensured(sh2, k1, pt);
          KeptTrans(st, sp, sh, st3, sp3, sh3, st2, sp2, sh2);
          KeptTrans(st, sp, sh, st2, sp2, sh2, st1, sp1, sh1);
          ListGrownTrans(sp, sp3, sp2);
          ListGrownTrans(sp, sp2, sp1);
          EnsuredPathLinks(sh, w, pdpt, pd, pt);
          StillMissing(sh, w, pdpt, pd);
          if k1 !in sh.tabs {
            AppendedLast(sp2, sp1, pt);
          }
        }
      }
    }
  }

  predicate Last(list: seq<nat>, a: nat) {
    list != [] && list[|list| - 1] == a
  }

  lemma AppendedLast(sp: Space, sp': Space, a: nat)
    requires Appended(sp, sp', false, a)
    ensures Last(sp'.list, a)
  {
  }

  lemma StillMissing(sh: Shape, w: nat, a3: Word, a2: Word)
    ensures KeyAt(1, w) in Ensured(Ensured(sh, KeyAt(3, w), a3), KeyAt(2, w), a2).tabs <==> KeyAt(1, w) in sh.tabs
  {
  }

  lemma Opened(st: Store, sp: Space, sh: Shape, others: set<nat>)
    requires Placed(st, sp.vec, others) && SpaceInv(st, sp, sh)
    ensures OpenInv(st, sp, sh, ROOT, others)
    ensures ROOT in sh.tabs && sh.tabs[ROOT] == sp.root
    ensures Kept(st, sp, sh, st, sp, sh) && ListGrown(sp, sp)
  {
    assert CapAfter(sp.vec.cap, |sp.list|, 0, LIST_ENTRY) == sp.vec.cap;
  }

  /** map_page_entry, from any good state: no bad address is followed, and if memory suffices
      the space stays good, exactly the page of v changes, and nothing outside the space does. */
  lemma MapEntryCorrect(st: Store, others: set<nat>, sp: Space, sh: Shape, v: Word, phys: Word, flags: Word)
      returns (sh': Shape)
    requires Placed(st, sp.vec, others) && SpaceInv(st, sp, sh) && GoodFlags(flags)
    ensures !MapEntry(st, sp, v, phys, flags).Fault?
    ensures MapEntry(st, sp, v, phys, flags).Done? ==>
      var (st', sp') := MapEntry(st, sp, v, phys, flags).value;
      && Placed(st', sp'.vec, others) && SpaceInv(st', sp', sh')
      && Kept(st, sp, sh, st', sp', sh') && ListGrown(sp, sp')
      && Mapped(sh, Vpn(v), Leaf(AlignDown(phys), flags), sh')
      && TableOf(Vpn(v)) in sh'.tabs && (TableOf(Vpn(v)) !in sh.tabs ==> Last(sp'.list, sh'.tabs[TableOf(Vpn(v))]))
  {
    hide AlignDown, FrameMask, Descend, Vpn, TableOf, KeyAt, Index, SpaceInv, Placed, Kept, ListGrown, Last, OpenInv,
      Mapped, PathLinked, MakeTableEntry;
    PathOf(v);
    FrameMaskAligns(phys);
    var sh1 := DescendCorrect(st, others, sp, sh, v);
    sh' := sh1;
    if Descend(st, sp, v).Done? {
      var (st1, sp1, pt) := Descend(st, sp, v).value;
      sh' := SetLeafOf(st, others, sp, sh, st1, sp1, sh1, pt, Vpn(v), Leaf(AlignDown(phys), flags));
    }
  }

  lemma SetLeafOf(st: Store, others: set<nat>, sp: Space, sh: Shape, st1: Store, sp1: Space, sh1: Shape, pt: Word,
                  w: nat, leaf: Leaf) returns (sh': Shape)
    requires w < VPN_COUNT && GoodLeaf(leaf)
    requires TableOf(w) in sh1.tabs && sh1.tabs[TableOf(w)] == pt
    requires OpenInv(st1, sp1, sh1, TableOf(w), others)
    requires Kept(st, sp, sh, st1, sp1, sh1) && PathLinked(sh, w, sh1)
    ensures pt in st1.tables
    ensures var st' := SetEntry(st1, pt, w % 512, MakeTableEntry(leaf.frame, leaf.flags));
      && Placed(st', sp1.vec, others) && SpaceInv(st', sp1, sh') && Kept(st, sp, sh, st', sp1, sh')
      && Mapped(sh, w, leaf, sh') && sh'.tabs == sh1.tabs
  {
    hide TableOf, MakeTableEntry, Kept, Placed, SpaceInv, OpenInv;
    SetLeafCorrect(st1, others, sp1, sh1, w, leaf);
    sh' := WithPage(sh1, w, leaf);
    KeptTrans(st, sp, sh, st1, sp1, sh1, SetEntry(st1, pt, w % 512, MakeTableEntry(leaf.frame, leaf.flags)), sp1, sh');
  }
}
