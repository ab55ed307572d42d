/** vm_map and vm_unmap over ranges: meaning, exact inverse, and exact cost. */
module Ranges {
  import opened Words
  import opened Wrappers
  import opened Frames
  import opened Growth
  import opened Tables
  import opened TableSteps
  import opened Mapping
  import opened Unmapping
  import opened Lookup

  // ---------------------------------------------------------------- the loops

  /** Address k pages after a, in 64-bit arithmetic. */
  function Offset(a: Word, k: nat): Word {
    Wrap(a + PAGE_SIZE * k)
  }

  /** The loop of vm_map. */
  function VmMap(st: Store, sp: Space, v: Word, phys: Word, n: nat, flags: Word): Outcome<(Store, Space)> {
    if n == 0 then Done((st, sp))
    else
      var (st1, sp1) :- VmMap(st, sp, v, phys, n - 1, flags);
      MapEntry(st1, sp1, Offset(v, n - 1), Offset(phys, n - 1), flags)
  }

  /** The loop of vm_unmap. */
  function VmUnmap(st: Store, sp: Space, v: Word, n: nat): Outcome<(Store, Space)> {
    if n == 0 then Done((st, sp))
    else
      var (st1, sp1) :- VmUnmap(st, sp, v, n - 1);
      UnmapEntry(st1, sp1, Offset(v, n - 1))
  }

  // ---------------------------------------------------------------- their meaning

  /** Page number k pages after v. */
  function RangePage(v: Word, k: nat): nat {
    Vpn(Offset(v, k))
  }

  function MapRange(pages: map<nat, Leaf>, v: Word, phys: Word, n: nat, flags: Word): map<nat, Leaf> {
    if n == 0 then pages
    else MapRange(pages, v, phys, n - 1, flags)[RangePage(v, n - 1) := Leaf(AlignDown(Offset(phys, n - 1)), flags)]
  }

  function UnmapRange(pages: map<nat, Leaf>, v: Word, n: nat): map<nat, Leaf> {
    if n == 0 then pages
    else
      var rest := UnmapRange(pages, v, n - 1);
      if RangePage(v, n - 1) in rest then DropRegion(rest, RangePage(v, n - 1)) else rest
  }

  /** Wrapping at 64 bits does not show in the 36 bits the tables look at. */
  lemma RangePageIs(v: Word, k: nat)
    ensures RangePage(v, k) == (v / PAGE_SIZE + k) % VPN_COUNT
  {
    var x := v + PAGE_SIZE * k;
    var p := v / PAGE_SIZE + k;
    DivModUnique(x, PAGE_SIZE, p, v % PAGE_SIZE);
    var h, l := x / TWO64, x % TWO64;
    var q := l / PAGE_SIZE;
    DivModUnique(x, PAGE_SIZE, 0x10_0000_0000_0000 * h + q, l % PAGE_SIZE);
    DivModUnique(p, VPN_COUNT, 0x1_0000 * h + q / VPN_COUNT, q % VPN_COUNT);
  }

  /** Which pages a range covers after vm_map. */
  lemma {:induction false} MapRangeKeys(pages: map<nat, Leaf>, v: Word, phys: Word, n: nat, flags: Word)
    ensures forall w :: w in MapRange(pages, v, phys, n, flags) <==> w in pages || w in RangePages(v, n)
    ensures forall w :: w in pages && w !in RangePages(v, n) ==> MapRange(pages, v, phys, n, flags)[w] == pages[w]
  {
    hide Vpn, Offset, RangePage;
    if n > 0 {
      MapRangeKeys(pages, v, phys, n - 1, flags);
    }
  }

  function RangePages(v: Word, n: nat): set<nat> {
    if n == 0 then {} else RangePages(v, n - 1) + {RangePage(v, n - 1)}
  }

  lemma {:induction false} RangePagesAre(v: Word, n: nat)
    ensures forall w :: w in RangePages(v, n) <==> exists k :: 0 <= k < n && RangePage(v, k) == w
  {
    hide RangePage;
    if n > 0 {
      RangePagesAre(v, n - 1);
      assert forall w :: w in RangePages(v, n) <==> w in RangePages(v, n - 1) || w == RangePage(v, n - 1);
    }
  }

  /** vm_map installs v + 4096k -> phys + 4096k for every k below n, for every n the four
      levels can hold without meeting themselves. */
  lemma {:induction false} MapRangeExact(pages: map<nat, Leaf>, v: Word, phys: Word, n: nat, flags: Word, k: nat)
    requires k < n <= VPN_COUNT
    ensures RangePage(v, k) in MapRange(pages, v, phys, n, flags)
    ensures MapRange(pages, v, phys, n, flags)[RangePage(v, k)] == Leaf(AlignDown(Offset(phys, k)), flags)
  {
    if k < n - 1 {
      MapRangeExact(pages, v, phys, n - 1, flags, k);
      DifferentPages(v, k, n - 1);
    }
  }

  lemma DifferentPages(v: Word, j: nat, k: nat)
    requires j < k < j + VPN_COUNT
    ensures RangePage(v, j) != RangePage(v, k)
  {
    RangePageIs(v, j);
    RangePageIs(v, k);
    var x, y := v / PAGE_SIZE + j, v / PAGE_SIZE + k;
    var qx, qy := x / VPN_COUNT, y / VPN_COUNT;
    assert y - x == VPN_COUNT * (qy - qx) + (y % VPN_COUNT - x % VPN_COUNT);
  }

  /** vm_unmap removes exactly the 2 MiB regions in which some page of the range was mapped. */
  lemma {:induction false} UnmapRangeExact(pages: map<nat, Leaf>, v: Word, n: nat, u: nat)
    ensures u in UnmapRange(pages, v, n) <==>
      u in pages && forall w :: w in RangePages(v, n) && w in pages ==> TableOf(w) != TableOf(u)
    ensures u in UnmapRange(pages, v, n) ==> UnmapRange(pages, v, n)[u] == pages[u]
  {
    hide TableOf, RangePage;
    if n > 0 {
      var w := RangePage(v, n - 1);
      UnmapRangeExact(pages, v, n - 1, u);
      UnmapRangeExact(pages, v, n - 1, w);
    }
  }

  // ---------------------------------------------------------------- vm_map

  /** Old tables stay where they were, and exactly the given ones are added. */
  ghost predicate Grown(sh: Shape, keys: set<Key>, sh': Shape) {
    && sh'.tabs.Keys == sh.tabs.Keys + keys
    && (forall k :: k in sh.tabs ==> sh'.tabs[k] == sh.tabs[k])
  }

  /** All tables on the paths of a range. */
  function RangeKeys(v: Word, n: nat): set<Key> {
    if n == 0 then {} else RangeKeys(v, n - 1) + PathKeys(RangePage(v, n - 1))
  }

  lemma {:induction false} VmMapCorrect(st: Store, others: set<nat>, sp: Space, sh: Shape,
                                        v: Word, phys: Word, n: nat, flags: Word) returns (sh': Shape)
    requires Placed(st, sp.vec, others) && SpaceInv(st, sp, sh) && GoodFlags(flags)
    ensures !VmMap(st, sp, v, phys, n, flags).Fault?
    ensures VmMap(st, sp, v, phys, n, flags).Done? ==>
      var (st', sp') := VmMap(st, sp, v, phys, n, flags).value;
      && Placed(st', sp'.vec, others) && SpaceInv(st', sp', sh') && Kept(st, sp, sh, st', sp', sh')
      && ListGrown(sp, sp')
      && sh'.pages == MapRange(sh.pages, v, phys, n, flags)
      && Grown(sh, RangeKeys(v, n), sh')
  {
    hide Placed, SpaceInv, Kept, ListGrown, MapEntry, Offset, Vpn, AlignDown, PathKeys, Grown, Mapped;
    Opened(st, sp, sh, others);
    GrownByNone(sh);
    sh' := sh;
    if n > 0 {
      var sh1 := VmMapCorrect(st, others, sp, sh, v, phys, n - 1, flags);
      if VmMap(st, sp, v, phys, n - 1, flags).Done? {
        var (st1, sp1) := VmMap(st, sp, v, phys, n - 1, flags).value;
        sh' := MapEntryCorrect(st1, others, sp1, sh1, Offset(v, n - 1), Offset(phys, n - 1), flags);
        if MapEntry(st1, sp1, Offset(v, n - 1), Offset(phys, n - 1), flags).Done? {
          var (st', sp') := MapEntry(st1, sp1, Offset(v, n - 1), Offset(phys, n - 1), flags).value;
          KeptTrans(st, sp, sh, st1, sp1, sh1, st', sp', sh');
          ListGrownTrans(sp, sp1, sp');
          MapRangeStep(sh, sh1, sh', v, phys, n, flags);
        }
      }
    }
  }

  lemma GrownByNone(sh: Shape)
    ensures Grown(sh, {}, sh)
  {
  }

  lemma MapRangeStep(sh: Shape, sh1: Shape, sh': Shape, v: Word, phys: Word, n: nat, flags: Word)
    requires n > 0 && Grown(sh, RangeKeys(v, n - 1), sh1)
    requires sh1.pages == MapRange(sh.pages, v, phys, n - 1, flags)
    requires Mapped(sh1, RangePage(v, n - 1), Leaf(AlignDown(Offset(phys, n - 1)), flags), sh')
    ensures Grown(sh, RangeKeys(v, n), sh')
    ensures sh'.pages == MapRange(sh.pages, v, phys, n, flags)
  {
    hide PathKeys, RangePage, AlignDown, Offset;
  }

  // ---------------------------------------------------------------- vm_unmap

  ghost predicate Shrunk(sh: Shape, sh': Shape) {
    && sh'.tabs.Keys <= sh.tabs.Keys
    && (forall k :: k in sh'.tabs ==> sh'.tabs[k] == sh.tabs[k])
  }

  /** The space after unmapping a range. */
  function ClearedRange(sh: Shape, v: Word, n: nat): Shape {
    if n == 0 then sh else Cleared(ClearedRange(sh, v, n - 1), RangePage(v, n - 1))
  }

  /** The addresses erased from the memory list on the way. */
  function RangeBases(sh: Shape, v: Word, n: nat): seq<nat> {
    if n == 0 then []
    else
      var sh1 := ClearedRange(sh, v, n - 1);
      RangeBases(sh, v, n - 1) + Bases(sh1, Gone(sh1, RangePage(v, n - 1)))
  }

  lemma {:induction false} ClearedRangeIs(sh: Shape, v: Word, n: nat)
    ensures ClearedRange(sh, v, n).pages == UnmapRange(sh.pages, v, n) && Shrunk(sh, ClearedRange(sh, v, n))
  {
    hide RangePage, DropRegion, Gone;
    if n > 0 {
      ClearedRangeIs(sh, v, n - 1);
    }
  }

  /** vm_unmap never halts and never follows a bad address. It completes if and only if every
      erase from the memory list stays inside the list's block, and then only the touched 2 MiB
      regions and the tables left empty are gone. */
  lemma VmUnmapCorrect(st: Store, others: set<nat>, sp: Space, sh: Shape, v: Word, n: nat)
    requires Placed(st, sp.vec, others) && SpaceInv(st, sp, sh)
    ensures var sh' := ClearedRange(sh, v, n);
      var r, xs := VmUnmap(st, sp, v, n), RangeBases(sh, v, n);
      && !r.Halt?
      && (r.Done? <==> DropsSafe(st.limit, sp.vec, sp.list, xs))
      && (r.Done? ==>
            var (st', sp') := r.value;
            && sp' == sp.(list := DropAll(sp.list, xs))
            && Placed(st', sp'.vec, others) && SpaceInv(st', sp', sh') && Kept(st, sp, sh, st', sp', sh')
            && sh'.pages == UnmapRange(sh.pages, v, n) && Shrunk(sh, sh'))
  {
    hide *;
    ClearedRangeIs(sh, v, n);
    UnmapLoop(st, others, sp, sh, v, n);
    LoopSays(st, others, sp, sh, v, n);
  }

  /** What the loop comes to after n pages. */
  ghost predicate LoopGood(st: Store, others: set<nat>, sp: Space, sh: Shape, v: Word, n: nat) {
    var sh' := ClearedRange(sh, v, n);
    var r, xs := VmUnmap(st, sp, v, n), RangeBases(sh, v, n);
    && !r.Halt?
    && (r.Done? <==> DropsSafe(st.limit, sp.vec, sp.list, xs))
    && (r.Done? ==> LoopState(st, others, sp, sh, r.value.0, r.value.1, sh', xs))
  }

  ghost predicate LoopState(st: Store, others: set<nat>, sp: Space, sh: Shape, st': Store, sp': Space, sh': Shape,
                            xs: seq<nat>) {
    && sp' == sp.(list := DropAll(sp.list, xs)) && st'.limit == st.limit
    && Placed(st', sp'.vec, others) && SpaceInv(st', sp', sh') && Kept(st, sp, sh, st', sp', sh')
  }

  lemma LoopSays(st: Store, others: set<nat>, sp: Space, sh: Shape, v: Word, n: nat)
    requires LoopGood(st, others, sp, sh, v, n)
    ensures var sh' := ClearedRange(sh, v, n);
      var r, xs := VmUnmap(st, sp, v, n), RangeBases(sh, v, n);
      && !r.Halt?
      && (r.Done? <==> DropsSafe(st.limit, sp.vec, sp.list, xs))
      && (r.Done? ==>
            var (st', sp') := r.value;
            && sp' == sp.(list := DropAll(sp.list, xs))
            && Placed(st', sp'.vec, others) && SpaceInv(st', sp', sh') && Kept(st, sp, sh, st', sp', sh'))
  {
    hide ClearedRange, VmUnmap, RangeBases, DropsSafe, DropAll, Placed, SpaceInv, Kept;
  }

  lemma {:induction false} UnmapLoop(st: Store, others: set<nat>, sp: Space, sh: Shape, v: Word, n: nat)
    requires Placed(st, sp.vec, others) && SpaceInv(st, sp, sh)
    ensures LoopGood(st, others, sp, sh, v, n)
  {
    hide *;
    if n == 0 {
      UnmapNone(st, others, sp, sh, v);
    } else {
      UnmapLoop(st, others, sp, sh, v, n - 1);
      UnmapStep(st, others, sp, sh, v, n);
    }
  }

  lemma UnmapNone(st: Store, others: set<nat>, sp: Space, sh: Shape, v: Word)
    requires Placed(st, sp.vec, others) && SpaceInv(st, sp, sh)
    ensures LoopGood(st, others, sp, sh, v, 0)
  {
    hide Placed, SpaceInv, Kept;
    Opened(st, sp, sh, others);
    assert VmUnmap(st, sp, v, 0) == Done((st, sp)) && RangeBases(sh, v, 0) == [] && ClearedRange(sh, v, 0) == sh;
    hide VmUnmap, RangeBases, ClearedRange;
    assert DropsSafe(st.limit, sp.vec, sp.list, []) && DropAll(sp.list, []) == sp.list;
  }

  lemma UnmapStep(st: Store, others: set<nat>, sp: Space, sh: Shape, v: Word, n: nat)
    requires n > 0 && LoopGood(st, others, sp, sh, v, n - 1)
    ensures LoopGood(st, others, sp, sh, v, n)
  {
    var sh1, xs := ClearedRange(sh, v, n - 1), RangeBases(sh, v, n - 1);
    var ys := Bases(sh1, Gone(sh1, RangePage(v, n - 1)));
    StepUnfolds(st, sp, sh, v, n);
    hide VmUnmap, ClearedRange, RangeBases, Placed, SpaceInv, Kept, UnmapEntry, Offset, Vpn, Cleared, Gone, Bases,
      DropsSafe, DropAll;
    DropsAdd(st.limit, sp.vec, sp.list, xs, ys);
    if VmUnmap(st, sp, v, n - 1).Done? {
      var (st1, sp1) := VmUnmap(st, sp, v, n - 1).value;
      UnmapEntryCorrect(st1, others, sp1, sh1, Offset(v, n - 1));
      if UnmapEntry(st1, sp1, Offset(v, n - 1)).Done? {
        var (st', sp') := UnmapEntry(st1, sp1, Offset(v, n - 1)).value;
        KeptLimit(st1, sp1, sh1, st', sp', ClearedRange(sh, v, n));
        KeptTrans(st, sp, sh, st1, sp1, sh1, st', sp', ClearedRange(sh, v, n));
      }
    }
  }

  lemma StepUnfolds(st: Store, sp: Space, sh: Shape, v: Word, n: nat)
    requires n > 0
    ensures var sh1 := ClearedRange(sh, v, n - 1);
      && ClearedRange(sh, v, n) == Cleared(sh1, RangePage(v, n - 1))
      && RangeBases(sh, v, n) == RangeBases(sh, v, n - 1) + Bases(sh1, Gone(sh1, RangePage(v, n - 1)))
    ensures var r := VmUnmap(st, sp, v, n - 1);
      VmUnmap(st, sp, v, n) == if r.Done? then UnmapEntry(r.value.0, r.value.1, Offset(v, n - 1)) else r
  {
    hide UnmapEntry, Cleared, Bases, Gone, RangePage, Offset;
  }

  lemma KeptLimit(st: Store, sp: Space, sh: Shape, st': Store, sp': Space, sh': Shape)
    requires Kept(st, sp, sh, st', sp', sh')
    ensures st'.limit == st.limit
  {
  }

  /** Spare room for any erase is enough for every range. */
  lemma RoomyUnmapsRange(st: Store, others: set<nat>, sp: Space, sh: Shape, v: Word, n: nat)
    requires Placed(st, sp.vec, others) && SpaceInv(st, sp, sh) && Roomy(sp.vec, LIST_ENTRY, |sp.list|)
    ensures VmUnmap(st, sp, v, n).Done?
  {
    VmUnmapCorrect(st, others, sp, sh, v, n);
    hide VmUnmap, Coherent, Tight, Listed, Separated, DropsSafe, RangeBases, ClearedRange, LimitPages, VecPages, Kept,
      DropAll, Roomy;
    RoomyDropsSafe(st.limit, sp.vec, sp.list, RangeBases(sh, v, n));
  }

  // ---------------------------------------------------------------- round trip

  /** Two good spaces over the same pages have the same linked tables. */
  lemma SamePagesSameKeys(root: nat, a: Shape, b: Shape)
    requires Rooted(root, a) && Rooted(root, b) && Tight(a) && Tight(b) && a.pages == b.pages
    ensures a.tabs.Keys == b.tabs.Keys
  {
    hide Rooted, TightBut, KeyAt;
    forall k
      ensures k in a.tabs.Keys <==> k in b.tabs.Keys
    {
      LinkedAreOnPaths(root, a, k);
      LinkedAreOnPaths(root, b, k);
    }
  }

  /** A space and its frame determine the store: same shape, same managed pages, nothing else
      changed means same tables, and the same free pages but for the block of the list. */
  lemma SameShapeSameStore(st: Store, sp: Space, sh: Shape, st': Store, sp': Space, others: set<nat>)
    requires Placed(st, sp.vec, others) && Placed(st', sp'.vec, others)
    requires Coherent(st.tables, sp.root, sh) && Coherent(st'.tables, sp.root, sh)
    requires Kept(st, sp, sh, st', sp', sh)
    ensures st'.tables == st.tables && st'.limit == st.limit
    ensures st'.free + VecPages(sp'.vec) == st.free + VecPages(sp.vec)
    ensures st' == st <==> VecPages(sp'.vec) == VecPages(sp.vec)
  {
    SameTables(st, sp.root, sh, st');
    FreeIsRest(st, others + VecPages(sp.vec));
    FreeIsRest(st', others + VecPages(sp'.vec));
    HeldApartFrom(st, sp.vec, others);
    HeldApartFrom(st', sp'.vec, others);
    hide Coherent, Placed, Held;
  }

  /** Free pages, table pages and the list's block are three disjoint sets. */
  lemma HeldApartFrom(st: Store, vec: Vec, others: set<nat>)
    requires Placed(st, vec, others)
    ensures VecPages(vec) !! Held(st.tables) && VecPages(vec) !! st.free && st.free !! Held(st.tables)
  {
    hide VecPages, LimitPages, Pages;
  }

  lemma SameTables(st: Store, root: nat, sh: Shape, st': Store)
    requires Coherent(st.tables, root, sh) && Coherent(st'.tables, root, sh)
    requires Frame(st, sh, st', sh)
    ensures st'.tables == st.tables
  {
    forall a
      ensures a in st.tables <==> a in st'.tables
      ensures a in st.tables ==> st'.tables[a] == st.tables[a]
    {
      if a in sh.tabs.Values {
        var k :| k in sh.tabs && sh.tabs[k] == a;
        SameWords(st.tables, st'.tables, root, sh, k);
      }
    }
  }

  lemma SameWords(t: map<nat, Table>, t': map<nat, Table>, root: nat, sh: Shape, k: Key)
    requires Coherent(t, root, sh) && Coherent(t', root, sh) && k in sh.tabs
    ensures t[sh.tabs[k]] == t'[sh.tabs[k]]
  {
    hide EntryOf;
    forall i | 0 <= i < TABLE_WORDS
      ensures t[sh.tabs[k]][i] == t'[sh.tabs[k]][i]
    {
      assert t[sh.tabs[k]][i] == EntryOf(sh, k, i);
      assert t'[sh.tabs[k]][i] == EntryOf(sh, k, i);
    }
  }

  lemma FreeIsRest(st: Store, others: set<nat>)
    requires Separated(st, others)
    ensures st.free == Managed(st) - Held(st.tables)
  {
    hide Pages;
  }

  /** Mapping and then unmapping a range that shares no 2 MiB region with an earlier mapping
      restores translation, linked tables and their addresses, and every word of every table,
      unless an erase leaves the memory list's block. The set of free pages comes back too if
      and only if the list did not have to move to a larger block. */
  lemma MapUnmapRestores(st: Store, others: set<nat>, sp: Space, sh: Shape, v: Word, phys: Word, n: nat, flags: Word)
    requires Placed(st, sp.vec, others) && SpaceInv(st, sp, sh) && GoodFlags(flags)
    requires forall w, u :: w in RangePages(v, n) && u in sh.pages ==> TableOf(w) != TableOf(u)
    requires VmMap(st, sp, v, phys, n, flags).Done?
    ensures var (st1, sp1) := VmMap(st, sp, v, phys, n, flags).value;
      var r := VmUnmap(st1, sp1, v, n);
      && !r.Halt? && (Roomy(sp1.vec, LIST_ENTRY, |sp1.list|) ==> r.Done?)
      && (r.Done? ==>
            var (st2, sp2) := r.value;
            && st2.tables == st.tables && sp2.root == sp.root && SpaceInv(st2, sp2, sh)
            && st2.free + VecPages(sp2.vec) == st.free + VecPages(sp.vec)
            && (st2 == st <==> BlockSize(sp1.vec.cap) == BlockSize(sp.vec.cap)))
  {
    var (st1, sp1) := VmMap(st, sp, v, phys, n, flags).value;
    var sh1 := VmMapCorrect(st, others, sp, sh, v, phys, n, flags);
    VmUnmapCorrect(st1, others, sp1, sh1, v, n);
    if Roomy(sp1.vec, LIST_ENTRY, |sp1.list|) {
      RoomyUnmapsRange(st1, others, sp1, sh1, v, n);
    }
    hide Placed, SpaceInv, VmMap, VmUnmap, Kept, Roomy, DropsSafe, RangeBases, ClearedRange, BlockSize, VecPages,
      ListGrown, RangePages, TableOf;
    if VmUnmap(st1, sp1, v, n).Done? {
      var (st2, sp2) := VmUnmap(st1, sp1, v, n).value;
      var sh2 := ClearedRange(sh1, v, n);
      KeptTrans(st, sp, sh, st1, sp1, sh1, st2, sp2, sh2);
      RangeCancels(sh.pages, v, phys, n, flags);
      ComesBack(st, others, sp, sh, sh1, st2, sp2, sh2, RangeKeys(v, n));
      BlockCount(sp.vec);
      BlockCount(sp1.vec);
      MovedToGrow(sp, sp1);
    }
  }

  lemma MovedToGrow(sp: Space, sp1: Space)
    requires ListGrown(sp, sp1)
    ensures BlockSize(sp1.vec.cap) == BlockSize(sp.vec.cap) ==> VecPages(sp1.vec) == VecPages(sp.vec)
  {
  }

  lemma ComesBack(st: Store, others: set<nat>, sp: Space, sh: Shape, sh1: Shape, st2: Store, sp2: Space, sh2: Shape,
                  keys: set<Key>)
    requires Placed(st, sp.vec, others) && SpaceInv(st, sp, sh) && Placed(st2, sp2.vec, others)
    requires SpaceInv(st2, sp2, sh2)
    requires Kept(st, sp, sh, st2, sp2, sh2) && Grown(sh, keys, sh1) && Shrunk(sh1, sh2) && sh2.pages == sh.pages
    ensures sh2 == sh && sp2.root == sp.root && st2.tables == st.tables
    ensures st2.free + VecPages(sp2.vec) == st.free + VecPages(sp.vec)
    ensures st2 == st <==> VecPages(sp2.vec) == VecPages(sp.vec)
  {
    hide Placed, Listed, Stored, Fits, ManagedWith, Grown, Shrunk, Frame;
    SamePagesSameKeys(sp.root, sh, sh2);
    ShapesAgree(sh, sh1, sh2, keys);
    SameShapeSameStore(st, sp, sh, st2, sp2, others);
  }

  lemma ShapesAgree(sh: Shape, sh1: Shape, sh2: Shape, keys: set<Key>)
    requires Grown(sh, keys, sh1) && Shrunk(sh1, sh2)
    requires sh2.pages == sh.pages && sh2.tabs.Keys == sh.tabs.Keys
    ensures sh2 == sh
  {
    assert sh2.tabs == sh.tabs;
  }

  lemma RangeCancels(pages: map<nat, Leaf>, v: Word, phys: Word, n: nat, flags: Word)
    requires forall w, u :: w in RangePages(v, n) && u in pages ==> TableOf(w) != TableOf(u)
    ensures UnmapRange(MapRange(pages, v, phys, n, flags), v, n) == pages
  {
    hide TableOf, RangePages, MapRange, UnmapRange;
    var mapped := MapRange(pages, v, phys, n, flags);
    var after := UnmapRange(mapped, v, n);
    MapRangeKeys(pages, v, phys, n, flags);
    forall u
      ensures u in after <==> u in pages
      ensures u in pages ==> after[u] == pages[u]
    {
      UnmapRangeExact(mapped, v, n, u);
    }
  }

  // ---------------------------------------------------------------- cost

  /** Live buffers do not overlap, so they hold eight pages each. */
  lemma {:induction false} HeldSize(st: Store, others: set<nat>, tables: map<nat, Table>)
    requires Separated(st, others) && tables.Keys <= st.tables.Keys
    ensures |Held(tables)| == DEFAULT_PAGES * |tables|
    decreases |tables|
  {
    hide Pages;
    if tables == map[] {
      assert Held(tables) == {};
    } else {
      var a :| a in tables;
      var rest := tables - {a};
      HeldSize(st, others, rest);
      PagesSize(a / PAGE_SIZE, DEFAULT_PAGES);
      assert Held(tables) == Held(rest) + Extent(a);
      HeldApart(st, others, rest, a);
      assert rest.Keys == tables.Keys - {a};
    }
  }

  lemma HeldApart(st: Store, others: set<nat>, rest: map<nat, Table>, a: nat)
    requires Separated(st, others) && rest.Keys <= st.tables.Keys && a in st.tables && a !in rest
    ensures Held(rest) !! Extent(a)
  {
    hide Pages;
    forall b, p | b in rest && p in Extent(b)
      ensures p !in Extent(a)
    {
      assert b in st.tables;
      assert a < b || b < a;
    }
  }

  /** Free pages plus eight per live table never change in number. */
  lemma PagesConserved(st: Store, others: set<nat>)
    requires Separated(st, others)
    ensures |st.free| + DEFAULT_PAGES * |st.tables| == |Managed(st)|
  {
    HeldSize(st, others, st.tables);
    FreeIsRest(st, others);
    assert st.free !! Held(st.tables);
  }

  /** The live tables are the linked ones of the space and the rest. */
  lemma TableCount(root: nat, st: Store, sh: Shape)
    requires Coherent(st.tables, root, sh)
    ensures |st.tables| == |sh.tabs| + |st.tables.Keys - sh.tabs.Values|
  {
    hide Stored;
    ValuesSize(root, sh, sh.tabs);
    assert sh.tabs.Values <= st.tables.Keys by { LinkedAreLive(root, st, sh); }
    assert st.tables.Keys == sh.tabs.Values + (st.tables.Keys - sh.tabs.Values);
  }

  lemma LinkedAreLive(root: nat, st: Store, sh: Shape)
    requires Coherent(st.tables, root, sh)
    ensures sh.tabs.Values <= st.tables.Keys
  {
    hide EntryOf;
  }

  lemma {:induction false} ValuesSize(root: nat, sh: Shape, tabs: map<Key, Word>)
    requires Rooted(root, sh)
    requires tabs.Keys <= sh.tabs.Keys && forall k :: k in tabs ==> tabs[k] == sh.tabs[k]
    ensures |tabs.Values| == |tabs|
    decreases |tabs|
  {
    if tabs == map[] {
      assert tabs.Values == {};
    } else {
      var k :| k in tabs;
      var rest := tabs - {k};
      ValuesSize(root, sh, rest);
      assert rest.Keys == tabs.Keys - {k};
      assert tabs.Values == rest.Values + {tabs[k]} by {
        forall a | a in tabs.Values
          ensures a in rest.Values || a == tabs[k]
        {
          var l :| l in tabs && tabs[l] == a;
          if l != k {
            assert rest[l] == a;
          }
        }
      }
      assert tabs[k] !in rest.Values;
    }
  }

  /** The memory list has one entry for each linked table below the root. */
  lemma ListCount(root: nat, sp: Space, sh: Shape)
    requires Rooted(root, sh) && Listed(sp, sh)
    ensures |sp.list| + 1 == |sh.tabs|
  {
    var below := sh.tabs - {ROOT};
    ValuesSize(root, sh, below);
    NoDupSize(sp.list);
    assert Members(sp.list) == below.Values by {
      forall a | a in sp.list
        ensures a in below.Values
      {
        var k :| k in sh.tabs && k.level < 4 && sh.tabs[k] == a;
        assert k in below && below[k] == a;
      }
      forall a | a in below.Values
        ensures a in sp.list
      {
        var k :| k in below && below[k] == a;
        assert k in sh.tabs && k.level < 4;
      }
    }
    assert below.Keys == sh.tabs.Keys - {ROOT};
    assert |sh.tabs.Keys| == |below.Keys| + 1;
  }

  function Members(list: seq<nat>): set<nat> {
    set a | a in list
  }

  lemma {:induction false} NoDupSize(list: seq<nat>)
    requires NoDup(list)
    ensures |Members(list)| == |list|
  {
    if list != [] {
      var front, last := list[..|list| - 1], list[|list| - 1];
      NoDupSize(front);
      LastMember(list);
      hide Members, NoDup;
    }
  }

  lemma LastMember(list: seq<nat>)
    requires NoDup(list) && list != []
    ensures var front := list[..|list| - 1];
      NoDup(front) && list[|list| - 1] !in Members(front) && Members(list) == Members(front) + {list[|list| - 1]}
  {
    var front, last := list[..|list| - 1], list[|list| - 1];
    assert list == front + [last];
  }

  /** Free pages, eight per live table and the list's block never change in number. */
  lemma PagesCounted(st: Store, vec: Vec, others: set<nat>)
    requires Placed(st, vec, others)
    ensures |st.free| + DEFAULT_PAGES * |st.tables| + BlockSize(vec.cap) == |ManagedWith(st, vec)|
  {
    PagesConserved(st, others + VecPages(vec));
    HeldApartFrom(st, vec, others);
    BlockCount(vec);
    hide VecPages, Placed, Held, BlockSize;
    assert VecPages(vec) !! Managed(st);
  }

  /** vm_map takes exactly eight pages from the free set for every table on the paths of the
      range that was not linked before, that is, for every newly touched 2 MiB, 1 GiB and
      512 GiB region, and exchanges the block of the memory list for the one that as many
      appends call for. */
  lemma VmMapCost(st: Store, others: set<nat>, sp: Space, sh: Shape, v: Word, phys: Word, n: nat, flags: Word)
    requires Placed(st, sp.vec, others) && SpaceInv(st, sp, sh) && GoodFlags(flags)
    requires VmMap(st, sp, v, phys, n, flags).Done?
    ensures var (st', sp') := VmMap(st, sp, v, phys, n, flags).value;
      var missing := |RangeKeys(v, n) - sh.tabs.Keys|;
      && |st.free| + BlockSize(sp.vec.cap) == |st'.free| + BlockSize(sp'.vec.cap) + DEFAULT_PAGES * missing
      && |sp'.list| == |sp.list| + missing
      && sp'.vec.cap == CapAfter(sp.vec.cap, |sp.list|, missing, LIST_ENTRY)
  {
    var sh' := VmMapCorrect(st, others, sp, sh, v, phys, n, flags);
    var (st', sp') := VmMap(st, sp, v, phys, n, flags).value;
    hide VmMap, Placed, Stored, Rooted, Tight, Listed, ManagedWith, RangeKeys, MapRange, Frame, Grown, CapAfter,
      BlockSize, Fits, VecPages;
    PagesCounted(st, sp.vec, others);
    PagesCounted(st', sp'.vec, others);
    TableCount(sp.root, st, sh);
    TableCount(sp.root, st', sh');
    ListCount(sp.root, sp, sh);
    ListCount(sp.root, sp', sh');
    OthersCount(st, sh, st', sh');
    GrownCount(sh, RangeKeys(v, n), sh');
  }

  lemma OthersCount(st: Store, sh: Shape, st': Store, sh': Shape)
    requires Frame(st, sh, st', sh')
    ensures st.tables.Keys - sh.tabs.Values == st'.tables.Keys - sh'.tabs.Values
  {
  }

  lemma GrownCount(sh: Shape, keys: set<Key>, sh': Shape)
    requires Grown(sh, keys, sh')
    ensures |sh'.tabs| == |sh.tabs| + |keys - sh.tabs.Keys|
  {
    assert sh'.tabs.Keys == sh.tabs.Keys + (keys - sh.tabs.Keys);
    assert |sh'.tabs.Keys| == |sh'.tabs| && |sh.tabs.Keys| == |sh.tabs|;
  }

  /** The tables of one level on the paths of a range. */
  function LevelKeys(level: nat, v: Word, n: nat): set<Key>
    requires level <= 4
  {
    if n == 0 then {} else LevelKeys(level, v, n - 1) + {KeyAt(level, RangePage(v, n - 1))}
  }

  lemma {:induction false} RangeKeysByLevel(v: Word, n: nat)
    ensures RangeKeys(v, n) == LevelKeys(1, v, n) + LevelKeys(2, v, n) + LevelKeys(3, v, n)
  {
    hide KeyAt, RangePage;
    if n > 0 {
      RangeKeysByLevel(v, n - 1);
    }
  }

  /** A range touches no more regions of a level than its length calls for, plus one at
      each end. */
  lemma {:induction false} LevelKeysBound(level: nat, v: Word, n: nat)
    requires 1 <= level < 4 && n > 0
    ensures KeyAt(level, RangePage(v, n - 1)) in LevelKeys(level, v, n)
    ensures |LevelKeys(level, v, n)| <= (v / PAGE_SIZE + n - 1) / Reach(level) - v / PAGE_SIZE / Reach(level) + 1
  {
    if n == 1 {
      assert LevelKeys(level, v, 0) == {};
    } else {
      LevelKeysBound(level, v, n - 1);
      SameRegion(level, v, n - 1);
      hide KeyAt, RangePage, Reach;
    }
  }

  /** Consecutive pages lie in the same region, or the region number grows. */
  lemma SameRegion(level: nat, v: Word, k: nat)
    requires 1 <= level < 4 && k > 0
    ensures var p := v / PAGE_SIZE + k;
      || p / Reach(level) >= (p - 1) / Reach(level) + 1
      || (p / Reach(level) == (p - 1) / Reach(level)
            && KeyAt(level, RangePage(v, k)) == KeyAt(level, RangePage(v, k - 1)))
  {
    RangePageIs(v, k);
    RangePageIs(v, k - 1);
    var p := v / PAGE_SIZE + k;
    match level
    case 1 => NextRegion(p, 512);
    case 2 => NextRegion(p, 0x4_0000);
    case 3 => NextRegion(p, 0x800_0000);
  }

  lemma NextRegion(p: nat, r: nat)
    requires p > 0 && (r == 512 || r == 0x4_0000 || r == 0x800_0000)
    ensures || p / r >= (p - 1) / r + 1
            || (p / r == (p - 1) / r && p % VPN_COUNT / r == (p - 1) % VPN_COUNT / r)
  {
    if p / r == (p - 1) / r {
      RegionOfRemainder(p, r);
      RegionOfRemainder(p - 1, r);
    }
  }

  /** The region of a page modulo 2^36 depends only on the region of the page. */
  lemma RegionOfRemainder(p: nat, r: nat)
    requires r == 512 || r == 0x4_0000 || r == 0x800_0000
    ensures p % VPN_COUNT / r == p / r % (VPN_COUNT / r)
  {
    var c := VPN_COUNT / r;
    var h, u := p / VPN_COUNT, p % VPN_COUNT;
    if r == 512 {
      DivModUnique(p, 512, c * h + u / 512, u % 512);
    } else if r == 0x4_0000 {
      DivModUnique(p, 0x4_0000, c * h + u / 0x4_0000, u % 0x4_0000);
    } else {
      DivModUnique(p, 0x800_0000, c * h + u / 0x800_0000, u % 0x800_0000);
    }
    DivModUnique(p / r, c, h, u / r);
  }

  /** So mapping n pages takes at most this many pages for tables. */
  lemma VmMapCostBound(v: Word, n: nat, linked: set<Key>)
    ensures |RangeKeys(v, n) - linked| <= (n / 512 + 2) + (n / 0x4_0000 + 2) + (n / 0x800_0000 + 2)
  {
    RangeKeysByLevel(v, n);
    hide RangeKeys, LevelKeys, KeyAt, RangePage;
    LevelBound(1, v, n);
    LevelBound(2, v, n);
    LevelBound(3, v, n);
    UnionBound(LevelKeys(1, v, n), LevelKeys(2, v, n), LevelKeys(3, v, n), linked);
  }

  lemma LevelBound(level: nat, v: Word, n: nat)
    requires 1 <= level < 4
    ensures |LevelKeys(level, v, n)| <= n / Reach(level) + 2
  {
    if n > 0 {
      LevelKeysBound(level, v, n);
      hide LevelKeys, KeyAt, RangePage;
      Spread(v / PAGE_SIZE, n, Reach(level));
    } else {
      assert LevelKeys(level, v, 0) == {};
    }
  }

  lemma Spread(p: nat, n: nat, r: nat)
    requires n > 0 && (r == 512 || r == 0x4_0000 || r == 0x800_0000)
    ensures (p + n - 1) / r - p / r + 1 <= n / r + 2
  {
  }

  lemma UnionBound(a: set<Key>, b: set<Key>, c: set<Key>, linked: set<Key>)
    ensures |(a + b + c) - linked| <= |a| + |b| + |c|
  {
    assert a + b + c == a + (b - a) + (c - a - b);
    assert |b - a| <= |b| by { assert b == (b - a) + (b * a); }
    assert |c - a - b| <= |c| by { assert c == (c - a - b) + (c * (a + b)); }
    assert a + b + c == ((a + b + c) - linked) + ((a + b + c) * linked);
  }
}
