/** Calls, made from an empty address space, in which the code falls short of what it is meant to do. */
module Shortfalls {
  import opened Words
  import opened Wrappers
  import opened Frames
  import opened Growth
  import opened Tables
  import opened Mapping
  import opened Unmapping
  import opened Lookup
  import opened Ranges
  import opened Room

  /** A space with nothing but its root. */
  ghost predicate Empty(st: Store, others: set<nat>, sp: Space, sh: Shape) {
    && Placed(st, sp.vec, others) && SpaceInv(st, sp, sh)
    && sp.root < TWO64 && sh == Shape(map[ROOT := sp.root], map[]) && sp.vec.cap == 0
  }

  // ---------------------------------------------------------------- the lookup

  /** Map address 0x1000 to frame 0x5000, with the 26 free pages that takes: the lookup as written
      misses the page. Its page table hangs in slot 0 of the directory, but slot 1 is tested. */
  lemma WrittenLookupMisses(st: Store, others: set<nat>, sp: Space, sh: Shape, low: LowPage)
    requires Empty(st, others, sp, sh) && HasRoom(st, 26)
    ensures VmMap(st, sp, 0x1000, 0x5000, 1, VM_DEFAULT).Done?
    ensures var (st1, sp1) := VmMap(st, sp, 0x1000, 0x5000, 1, VM_DEFAULT).value;
      GetPhysAddrMeant(st1, sp1, 0x1000, low) == Done(0x5000) && GetPhysAddr(st1, sp1, 0x1000, low) != Done(0x5000)
  {
    EmptyTabs(sh, sp.root);
    hide HasRoom, VmMap, Placed, SpaceInv;
    FirstPageNeeds(st, others, sp, sh, 0x1000, 0x5000, VM_DEFAULT);
    var (st1, sp1) := VmMap(st, sp, 0x1000, 0x5000, 1, VM_DEFAULT).value;
    var sh1 := VmMapCorrect(st, others, sp, sh, 0x1000, 0x5000, 1, VM_DEFAULT);
    OnePage();
    OnePageMissed(st1, others, sp1, sh1, 0x1000, low);
  }

  lemma EmptyTabs(sh: Shape, root: nat)
    requires root < TWO64 && sh.tabs == map[ROOT := root]
    ensures sh.tabs.Keys == {ROOT}
  {
  }

  lemma OnePage()
    ensures MapRange(map[], 0x1000, 0x5000, 1, VM_DEFAULT) == map[1 := Leaf(0x5000, VM_DEFAULT)] && Vpn(0x1000) == 1
  {
    assert MapRange(map[], 0x1000, 0x5000, 0, VM_DEFAULT) == map[];
  }

  lemma OnePageMissed(st: Store, others: set<nat>, sp: Space, sh: Shape, v: Word, low: LowPage)
    requires Placed(st, sp.vec, others) && SpaceInv(st, sp, sh)
    requires Vpn(v) == 1 && sh.pages == map[1 := Leaf(0x5000, VM_DEFAULT)]
    ensures GetPhysAddrMeant(st, sp, v, low) == Done(0x5000)
    ensures GetPhysAddr(st, sp, v, low) != Done(0x5000)
  {
    TestedIs(1);
    assert Coherent(st.tables, sp.root, sh) && Separated(st, others + VecPages(sp.vec));
    hide Coherent, Placed;
    hide GetPhysAddr, GetPhysAddrMeant, Separated, SpaceInv, RegionMapped, TestedTable, TableOf, Vpn, VecPages,
      LimitPages;
    OnlyFirstRegion(sh);
    MeantLookupIsMap(st, others + VecPages(sp.vec), sp, sh, v, low);
    WrittenLookupExact(st, others + VecPages(sp.vec), sp, sh, v, low);
  }

  lemma TestedIs(w: nat)
    requires w < 512
    ensures TestedTable(w) == Key(1, w) && TableOf(w) == Key(1, 0)
  {
  }

  lemma OnlyFirstRegion(sh: Shape)
    requires sh.pages == map[1 := Leaf(0x5000, VM_DEFAULT)]
    ensures !RegionMapped(sh, Key(1, 1)) && FrameOrNull(sh, 1) == 0x5000
  {
  }

  // ---------------------------------------------------------------- the memory list

  /** Map 512m + 1 pages from address 0, for m from 271 to 337, that is, 542 to 674 MiB, with the
      free pages that takes, and unmap the last page again: its page table is the last of m + 3
      tables in the memory list, and the copy that erases it writes behind the list's block. */
  lemma LongListOverruns(st: Store, others: set<nat>, sp: Space, sh: Shape, m: nat)
    requires Empty(st, others, sp, sh) && 271 <= m <= 337 && HasRoom(st, 8 * (m + 3) + 2)
    ensures VmMap(st, sp, 0, 0, 512 * m + 1, VM_DEFAULT).Done?
    ensures var (st1, sp1) := VmMap(st, sp, 0, 0, 512 * m + 1, VM_DEFAULT).value;
      && |sp1.list| == m + 3
      && VmUnmap(st1, sp1, PAGE_SIZE * (512 * m), 1).Fault?
  {
    EmptyTabs(sh, sp.root);
    hide VmMap, VmUnmap, Placed, SpaceInv, UnmapEntry, CapAfter, RangeKeys, Vpn, TableOf, Last, HasRoom;
    LongRangeMaps(st, others, sp, sh, m);
    TablesListed(st, others, sp, sh, m);
    var (st1, sp1) := VmMap(st, sp, 0, 0, 512 * m + 1, VM_DEFAULT).value;
    var sh1 := LastTable(st, others, sp, sh, m);
    var v := PAGE_SIZE * (512 * m);
    LastIs(sp1.list, sh1.tabs[TableOf(Vpn(v))]);
    LongListFaults(st1, others, sp1, sh1, v);
    OneUnmap(st1, sp1, v);
  }

  lemma LongRangeMaps(st: Store, others: set<nat>, sp: Space, sh: Shape, m: nat)
    requires Placed(st, sp.vec, others) && SpaceInv(st, sp, sh) && sh.tabs.Keys == {ROOT} && sp.vec.cap == 0
    requires 0 < m <= 337 && HasRoom(st, 8 * (m + 3) + 2)
    ensures VmMap(st, sp, 0, 0, 512 * m + 1, VM_DEFAULT).Done?
  {
    hide VmMap, Placed, SpaceInv, CapAfter, ListNeed, RangeKeys, HasRoom;
    EmptyList(st, sp, sh);
    CountKeys(m, sh);
    FirstCaps(m + 3);
    VmMapCompletes(st, others, sp, sh, 0, 0, 512 * m + 1, VM_DEFAULT, 8 * (m + 3) + 2);
  }

  lemma TablesListed(st: Store, others: set<nat>, sp: Space, sh: Shape, m: nat)
    requires Placed(st, sp.vec, others) && SpaceInv(st, sp, sh) && sh.tabs.Keys == {ROOT} && sp.vec.cap == 0
    requires 0 < m < 511
    requires VmMap(st, sp, 0, 0, 512 * m + 1, VM_DEFAULT).Done?
    ensures var sp1 := VmMap(st, sp, 0, 0, 512 * m + 1, VM_DEFAULT).value.1;
      |sp1.list| == m + 3 && sp1.vec.cap == CapAfter(0, 0, m + 3, LIST_ENTRY)
  {
    hide VmMap, Placed, SpaceInv, CapAfter, RangeKeys, BlockSize;
    EmptyList(st, sp, sh);
    CountKeys(m, sh);
    VmMapCost(st, others, sp, sh, 0, 0, 512 * m + 1, VM_DEFAULT);
  }

  lemma LastIs(list: seq<nat>, a: nat)
    requires Last(list, a)
    ensures list != [] && list[|list| - 1] == a
  {
  }

  lemma EmptyList(st: Store, sp: Space, sh: Shape)
    requires SpaceInv(st, sp, sh) && sh.tabs.Keys == {ROOT}
    ensures sp.list == []
  {
    ListCount(sp.root, sp, sh);
  }

  lemma OneUnmap(st: Store, sp: Space, v: Word)
    ensures VmUnmap(st, sp, v, 1) == UnmapEntry(st, sp, v)
  {
    assert VmUnmap(st, sp, v, 0) == Done((st, sp));
    assert Offset(v, 0) == v;
  }

  /** The last page mapped is the first of its region, so its table is the last one listed. */
  lemma LastTable(st: Store, others: set<nat>, sp: Space, sh: Shape, m: nat) returns (sh1: Shape)
    requires Empty(st, others, sp, sh) && 0 < m < 512
    requires VmMap(st, sp, 0, 0, 512 * m + 1, VM_DEFAULT).Done?
    ensures var (st1, sp1) := VmMap(st, sp, 0, 0, 512 * m + 1, VM_DEFAULT).value;
      var w := Vpn(PAGE_SIZE * (512 * m));
      && Placed(st1, sp1.vec, others) && SpaceInv(st1, sp1, sh1)
      && w in sh1.pages && TableOf(w) in sh1.tabs && Last(sp1.list, sh1.tabs[TableOf(w)])
  {
    var n, v := 512 * m, PAGE_SIZE * (512 * m);
    hide Placed, SpaceInv, Kept, MapEntry, MapRange, ListGrown, RangeKeys, Mapped;
    var sh0 := VmMapCorrect(st, others, sp, sh, 0, 0, n, VM_DEFAULT);
    var (st0, sp0) := VmMap(st, sp, 0, 0, n, VM_DEFAULT).value;
    assert Offset(0, n) == v;
    sh1 := MapEntryCorrect(st0, others, sp0, sh0, v, v, VM_DEFAULT);
    NewRegion(sh, sh0, m);
    IsMapped(sh0, Vpn(v), Leaf(AlignDown(v), VM_DEFAULT), sh1);
  }

  lemma IsMapped(sh: Shape, w: nat, leaf: Leaf, sh': Shape)
    requires Mapped(sh, w, leaf, sh')
    ensures w in sh'.pages
  {
  }

  lemma NewRegion(sh: Shape, sh0: Shape, m: nat)
    requires sh.tabs.Keys == {ROOT} && 0 < m < 512 && Grown(sh, RangeKeys(0, 512 * m), sh0)
    ensures TableOf(Vpn(PAGE_SIZE * (512 * m))) !in sh0.tabs
  {
    hide RangeKeys, LevelKeys, Regions, PrefixKeys, Vpn, TableOf;
    var n := 512 * m;
    FirstOfRegion(m);
    RangeKeysByLevel(0, n);
    Prefixes(1, n);
    Prefixes(2, n);
    Prefixes(3, n);
    PrefixKeysAre(1, m);
    PrefixKeysAre(2, Regions(2, n));
    PrefixKeysAre(3, Regions(3, n));
    assert TableOf(Vpn(PAGE_SIZE * n)) !in RangeKeys(0, n);
  }

  lemma FirstOfRegion(m: nat)
    requires 0 < m < 512
    ensures TableOf(Vpn(PAGE_SIZE * (512 * m))) == Key(1, m) && Regions(1, 512 * m) == m
  {
    assert Vpn(PAGE_SIZE * (512 * m)) == 512 * m;
  }

  // ---------------------------------------------------------------- counting tables

  /** Tables of one level with prefixes below c. */
  function PrefixKeys(level: nat, c: nat): set<Key> {
    if c == 0 then {} else PrefixKeys(level, c - 1) + {Key(level, c - 1)}
  }

  lemma {:induction false} PrefixKeysAre(level: nat, c: nat)
    ensures forall k :: k in PrefixKeys(level, c) <==> k.level == level && k.prefix < c
    ensures |PrefixKeys(level, c)| == c
  {
    if c > 0 {
      PrefixKeysAre(level, c - 1);
    }
  }

  /** Regions of a level that the first n pages touch. */
  function Regions(level: nat, n: nat): nat
    requires 1 <= level < 4
  {
    (n + Reach(level) - 1) / Reach(level)
  }

  lemma {:induction false} Prefixes(level: nat, n: nat)
    requires 1 <= level < 4 && n <= 0x4_0000
    ensures LevelKeys(level, 0, n) == PrefixKeys(level, Regions(level, n))
  {
    if n > 0 {
      Prefixes(level, n - 1);
      PageKey(level, n - 1);
      NextPrefix(level, n);
      hide LevelKeys, KeyAt, RangePage, Regions;
      LevelStep(level, n);
      PrefixKeysAre(level, Regions(level, n - 1));
    }
  }

  lemma LevelStep(level: nat, n: nat)
    requires 1 <= level < 4 && n > 0
    ensures LevelKeys(level, 0, n) == LevelKeys(level, 0, n - 1) + {KeyAt(level, RangePage(0, n - 1))}
  {
  }

  lemma PageKey(level: nat, w: nat)
    requires 1 <= level < 4 && w < 0x4_0000
    ensures KeyAt(level, RangePage(0, w)) == Key(level, w / Reach(level))
  {
    hide RangePage, Reach;
    RangePageIs(0, w);
    assert RangePage(0, w) == w;
  }

  /** The next page lies in a region touched before, or in the one after them. */
  lemma NextPrefix(level: nat, n: nat)
    requires 1 <= level < 4 && n > 0
    ensures var last := (n - 1) / Reach(level);
      Regions(level, n) == last + 1 && (Regions(level, n - 1) == last + 1 || Regions(level, n - 1) == last)
  {
    match level
    case 1 => NextPrefixOf(n, 512);
    case 2 => NextPrefixOf(n, 0x4_0000);
    case 3 => NextPrefixOf(n, 0x800_0000);
  }

  lemma NextPrefixOf(n: nat, r: nat)
    requires n > 0 && (r == 512 || r == 0x4_0000 || r == 0x800_0000)
    ensures (n + r - 1) / r == (n - 1) / r + 1
    ensures (n + r - 2) / r == (n - 1) / r + 1 || (n + r - 2) / r == (n - 1) / r
  {
  }

  lemma CountKeys(m: nat, sh: Shape)
    requires 0 < m < 511 && sh.tabs.Keys == {ROOT}
    ensures |RangeKeys(0, 512 * m + 1) - sh.tabs.Keys| == m + 3
  {
    hide RangeKeys, LevelKeys, Regions, PrefixKeys;
    var n := 512 * m + 1;
    RangeKeysByLevel(0, n);
    Prefixes(1, n);
    Prefixes(2, n);
    Prefixes(3, n);
    CountRegions(m);
    ThreeLevels(m + 1);
  }

  lemma CountRegions(m: nat)
    requires 0 < m < 511
    ensures Regions(1, 512 * m + 1) == m + 1 && Regions(2, 512 * m + 1) == 1 && Regions(3, 512 * m + 1) == 1
  {
  }

  lemma ThreeLevels(c: nat)
    ensures |PrefixKeys(1, c) + PrefixKeys(2, 1) + PrefixKeys(3, 1) - {ROOT}| == c + 2
  {
    PrefixKeysAre(1, c);
    PrefixKeysAre(2, 1);
    PrefixKeysAre(3, 1);
    hide PrefixKeys;
    var x, y, z := PrefixKeys(1, c), PrefixKeys(2, 1), PrefixKeys(3, 1);
    assert ROOT !in x + y + z;
    assert x + y + z - {ROOT} == x + y + z;
    UnionCount(x, y);
    UnionCount(x + y, z);
  }
}
