/** vm_get_phys_addr and the hardware walk against the abstract map of a space. */
module Lookup {
  import opened Words
  import opened Wrappers
  import opened Tables
  import opened TableSteps
  import opened Mapping
  import opened Unmapping

  // ---------------------------------------------------------------- the hardware walk

  /** What the walk should find for page w. */
  function Target(sh: Shape, w: nat): Option<Word> {
    if w in sh.pages then Some(MakeTableEntry(sh.pages[w].frame, sh.pages[w].flags)) else None
  }

  /** The four-level walk from the root is the partial map: it never meets a bad address and
      finds the frame and flags of exactly the mapped pages. */
  lemma WalkIsMap(st: Store, others: set<nat>, sp: Space, sh: Shape, v: Word)
    requires Separated(st, others) && Coherent(st.tables, sp.root, sh)
    ensures Walk(st.tables, sp.root, v, 4) == Done(Target(sh, Vpn(v)))
  {
    PathEntries(st, others, sp, sh, v);
    var k3, k2, k1 := KeyAt(3, Vpn(v)), KeyAt(2, Vpn(v)), TableOf(Vpn(v));
    hide Vpn, KeyAt, TableOf, Index, FrameMask, ShortMask, Present, Separated, Coherent, MakeTableEntry;
    var found := Done(Target(sh, Vpn(v)));
    assert k1 in sh.tabs ==> Walk(st.tables, sh.tabs[k1], v, 1) == found;
    assert k2 in sh.tabs ==> Walk(st.tables, sh.tabs[k2], v, 2) == found;
    assert k3 in sh.tabs ==> Walk(st.tables, sh.tabs[k3], v, 3) == found;
  }

  /** The linked tables below the root are exactly those on the path of some mapped page. */
  lemma LinkedAreOnPaths(root: nat, sh: Shape, k: Key)
    requires Rooted(root, sh) && Tight(sh)
    ensures k in sh.tabs <==> k == ROOT || exists l: nat, w :: 1 <= l < 4 && w in sh.pages && k == KeyAt(l, w)
  {
    hide KeyAt, Used, TightBut;
    if k in sh.tabs && k != ROOT {
      var w := SomePage(root, sh, k);
    }
    forall l: nat, w | 1 <= l < 4 && w in sh.pages && k == KeyAt(l, w)
      ensures k in sh.tabs
    {
      PathLinkedUp(root, sh, w);
    }
  }

  /** A page below a linked table. */
  lemma {:induction false} SomePage(root: nat, sh: Shape, k: Key) returns (w: nat)
    requires Rooted(root, sh) && Tight(sh) && k in sh.tabs && k.level < 4
    ensures w in sh.pages && k == KeyAt(k.level, w)
    decreases k.level
  {
    assert Used(sh, k);
    if k.level == 1 {
      w :| w in sh.pages && TableOf(w) == k;
    } else {
      var c :| c in sh.tabs && c.level < 4 && Parent(c) == k;
      w := SomePage(root, sh, c);
      PathStep(c.level, w);
    }
  }

  lemma PathLinkedUp(root: nat, sh: Shape, w: nat)
    requires Rooted(root, sh) && w in sh.pages
    ensures KeyAt(1, w) in sh.tabs && KeyAt(2, w) in sh.tabs && KeyAt(3, w) in sh.tabs
  {
    assert TableOf(w) == KeyAt(1, w);
    PathStep(1, w);
    PathStep(2, w);
  }

  // ---------------------------------------------------------------- permissions

  /** Bit 1 and bit 2 of an entry. */
  datatype Rights = Rights(write: bool, user: bool)

  function RightsOf(e: Word): Rights {
    Rights(e / 2 % 2 == 1, e / 4 % 2 == 1)
  }

  /** What the processor permits at v: an access needs its bit in the entries of all levels. */
  function Access(tables: map<nat, Table>, t: nat, v: Word, level: nat): Outcome<Option<Rights>>
    requires 1 <= level <= 4
    decreases level
  {
    IndexIsDigit(v, level);
    if t !in tables then Fault
    else
      var e := tables[t][Index(v, level)];
      if !Present(e) then Done(None)
      else if level == 1 then Done(Some(RightsOf(e)))
      else
        var below :- Access(tables, FrameMask(e), v, level - 1);
        match below
        case None => Done(None)
        case Some(r) => Done(Some(Rights(RightsOf(e).write && r.write, RightsOf(e).user && r.user)))
  }

  /** An entry of a linked table above the page tables is 0, or the address of the table below
      with bits 0, 1 and 2 set and no other: present, writable, and open to user mode. */
  lemma UpperEntries(st: Store, others: set<nat>, root: nat, sh: Shape, k: Key, i: nat)
    requires Separated(st, others) && Coherent(st.tables, root, sh)
    requires k in sh.tabs && 2 <= k.level <= 4 && i < 512
    ensures sh.tabs[k] in st.tables
    ensures var e, c := st.tables[sh.tabs[k]][i], Child(k, i);
      if c in sh.tabs then sh.tabs[c] % 0x1000 == 0 && e == sh.tabs[c] + 7 else e == 0
  {
    var c := Child(k, i);
    if c in sh.tabs {
      EntryIsSum(sh.tabs[c], VM_USERMODE);
    }
    hide MakeTableEntry, Rooted;
  }

  /** A page-aligned address has no part in them. */
  lemma LowRights(a: Word, low: nat, e: Word)
    requires a % 0x1000 == 0 && e == a + low
    ensures RightsOf(e) == Rights(low / 2 % 2 == 1, low / 4 % 2 == 1)
  {
    var m := a / 0x1000;
    assert a == 0x1000 * m;
    HalfOf(e, low, 0x800 * m);
    HalfOf(e / 2, low / 2, 0x400 * m);
    HalfOf(e / 4, low / 4, 0x200 * m);
    Quarter(e);
    Quarter(low);
  }

  lemma OpenRights(a: Word, e: Word)
    requires a % 0x1000 == 0 && e == a + 7
    ensures RightsOf(e) == Rights(true, true)
  {
    hide RightsOf;
    LowRights(a, 7, e);
  }

  lemma HalfOf(e: nat, low: nat, m: nat)
    requires e == 2 * m + low
    ensures e / 2 == m + low / 2 && (e % 2 == low % 2)
  {
    DivModUnique(e, 2, m + low / 2, low % 2);
  }

  lemma Quarter(e: nat)
    ensures e / 2 / 2 == e / 4
  {
  }

  lemma LeafRights(leaf: Leaf)
    requires GoodLeaf(leaf)
    ensures RightsOf(MakeTableEntry(leaf.frame, leaf.flags)) == Rights(leaf.flags / 2 % 2 == 1, leaf.flags / 4 % 2 == 1)
  {
    EntryIsSum(leaf.frame, leaf.flags);
    hide MakeTableEntry, RightsOf;
    LowRights(leaf.frame, leaf.flags, MakeTableEntry(leaf.frame, leaf.flags));
  }

  /** What the flags of page w permit. */
  function FlagRights(sh: Shape, w: nat): Option<Rights> {
    if w in sh.pages then Some(Rights(sh.pages[w].flags / 2 % 2 == 1, sh.pages[w].flags / 4 % 2 == 1)) else None
  }

  /** So the permissions of a mapped page are those of its own flags. */
  lemma AccessIsFlags(st: Store, others: set<nat>, sp: Space, sh: Shape, v: Word)
    requires Separated(st, others) && Coherent(st.tables, sp.root, sh)
    ensures Access(st.tables, sp.root, v, 4) == Done(FlagRights(sh, Vpn(v)))
  {
    PathEntries(st, others, sp, sh, v);
    PathOpen(st, others, sp.root, sh, v);
    var w := Vpn(v);
    var k3, k2, k1 := KeyAt(3, w), KeyAt(2, w), TableOf(w);
    if k1 in sh.tabs {
      LeafAccess(st.tables, sh, v);
    }
    assert w in sh.pages ==> k1 in sh.tabs;
    hide Vpn, KeyAt, TableOf, Index, FrameMask, ShortMask, Present, Separated, Coherent, MakeTableEntry, RightsOf,
      IsLeaf;
    var found := FlagRights(sh, w);
    assert k1 !in sh.tabs ==> found == None;
    hide FlagRights, Access;
    if k2 in sh.tabs {
      AccessThrough(st.tables, sh.tabs[k2], v, 2, found);
    }
    if k3 in sh.tabs {
      AccessThrough(st.tables, sh.tabs[k3], v, 3, found);
    }
    AccessThrough(st.tables, sp.root, v, 4, found);
  }

  lemma AccessThrough(tables: map<nat, Table>, t: nat, v: Word, level: nat, found: Option<Rights>)
    requires 2 <= level <= 4 && t in tables && Index(v, level) < 512
    requires var e := tables[t][Index(v, level)];
      if Present(e) then RightsOf(e) == Rights(true, true) && Access(tables, FrameMask(e), v, level - 1) == Done(found)
      else found == None
    ensures Access(tables, t, v, level) == Done(found)
  {
    hide Index, Present, FrameMask, RightsOf;
  }

  lemma LeafAccess(tables: map<nat, Table>, sh: Shape, v: Word)
    requires var k := TableOf(Vpn(v)); k in sh.tabs && sh.tabs[k] in tables && Index(v, 1) < 512
    requires IsLeaf(tables[sh.tabs[TableOf(Vpn(v))]][Index(v, 1)], sh, Vpn(v))
    requires Vpn(v) in sh.pages ==> GoodLeaf(sh.pages[Vpn(v)])
    ensures Access(tables, sh.tabs[TableOf(Vpn(v))], v, 1) == Done(FlagRights(sh, Vpn(v)))
  {
    var w := Vpn(v);
    if w in sh.pages {
      LeafRights(sh.pages[w]);
    }
    hide Vpn, TableOf, Index, FrameMask, ShortMask, Present, MakeTableEntry, GoodLeaf, RightsOf;
  }

  /** The entries on the path of v that lead to a table withhold nothing. */
  lemma PathOpen(st: Store, others: set<nat>, root: nat, sh: Shape, v: Word)
    requires Separated(st, others) && Coherent(st.tables, root, sh)
    ensures Index(v, 2) < 512 && Index(v, 3) < 512 && Index(v, 4) < 512
    ensures var w := Vpn(v);
      var k3, k2, k1, open := KeyAt(3, w), KeyAt(2, w), TableOf(w), Rights(true, true);
      && root in st.tables
      && (k3 in sh.tabs ==> RightsOf(st.tables[root][Index(v, 4)]) == open && sh.tabs[k3] in st.tables)
      && (k3 in sh.tabs && k2 in sh.tabs ==>
            RightsOf(st.tables[sh.tabs[k3]][Index(v, 3)]) == open && sh.tabs[k2] in st.tables)
      && (k2 in sh.tabs && k1 in sh.tabs ==> RightsOf(st.tables[sh.tabs[k2]][Index(v, 2)]) == open)
  {
    PathOf(v);
    var w := Vpn(v);
    var k3, k2, k1 := KeyAt(3, w), KeyAt(2, w), TableOf(w);
    OpenEntry(st, others, root, sh, k3);
    OpenEntry(st, others, root, sh, k2);
    OpenEntry(st, others, root, sh, k1);
    hide Vpn, Index, Slot, RightsOf, Separated;
  }

  lemma OpenEntry(st: Store, others: set<nat>, root: nat, sh: Shape, k: Key)
    requires Separated(st, others) && Coherent(st.tables, root, sh) && k.level < 4
    ensures k in sh.tabs ==>
      && Parent(k) in sh.tabs && sh.tabs[Parent(k)] in st.tables && sh.tabs[k] in st.tables
      && Slot(k) < 512 && RightsOf(st.tables[sh.tabs[Parent(k)]][Slot(k)]) == Rights(true, true)
  {
    if k in sh.tabs {
      var p, i := Parent(k), Slot(k);
      ParentChild(k);
      assert p in sh.tabs && 2 <= p.level <= 4 && sh.tabs[k] in st.tables;
      hide Parent, Slot, Child, RightsOf;
      UpperEntries(st, others, root, sh, p, i);
      hide Separated, Coherent;
      OpenRights(sh.tabs[k], st.tables[sh.tabs[p]][i]);
    }
  }

  // ---------------------------------------------------------------- vm_get_phys_addr

  /** The words of the lowest physical page, which the code reads when it takes an absent
      entry for the address of a table. */
  type LowPage = t: seq<Word> | |t| == 512 witness ZeroWords(512)

  /** vm_get_phys_addr, with `tested` the index of the page-directory entry it tests. */
  function Resolve(st: Store, sp: Space, v: Word, tested: nat, low: LowPage): Outcome<Word>
    requires tested < 512
  {
    IndexIsDigit(v, 4);
    IndexIsDigit(v, 3);
    IndexIsDigit(v, 2);
    IndexIsDigit(v, 1);
    if sp.root !in st.tables then Fault
    else if !Present(st.tables[sp.root][Index(v, 4)]) then Done(0)
    else
      var pdpt := ShortMask(st.tables[sp.root][Index(v, 4)]);
      if pdpt !in st.tables then Fault
      else if !Present(st.tables[pdpt][Index(v, 3)]) then Done(0)
      else
        var pd := ShortMask(st.tables[pdpt][Index(v, 3)]);
        if pd !in st.tables then Fault
        else if !Present(st.tables[pd][tested]) then Done(0)
        else
          var pt := ShortMask(st.tables[pd][Index(v, 2)]);
          if pt in st.tables then LeafFrame(st.tables[pt][Index(v, 1)])
          else if pt == 0 then LeafFrame(low[Index(v, 1)])
          else Fault
  }

  function LeafFrame(e: Word): Outcome<Word> {
    Done(if Present(e) then FrameMask(e) else 0)
  }

  /** The function as written: the page directory is tested at the page-table index. */
  function GetPhysAddr(st: Store, sp: Space, v: Word, low: LowPage): Outcome<Word> {
    IndexIsDigit(v, 1);
    Resolve(st, sp, v, Index(v, 1), low)
  }

  /** The function as evidently meant: the page directory is tested at its own index. */
  function GetPhysAddrMeant(st: Store, sp: Space, v: Word, low: LowPage): Outcome<Word> {
    IndexIsDigit(v, 2);
    Resolve(st, sp, v, Index(v, 2), low)
  }

  /** Frame of page w, or 0. */
  function FrameOrNull(sh: Shape, w: nat): Word {
    if w in sh.pages then sh.pages[w].frame else 0
  }

  /** Tested at its own index, the lookup returns the mapped frame, or 0 for unmapped pages,
      although it masks table entries with 0x1FF where mapping masks with 0xFFF. */
  lemma MeantLookupIsMap(st: Store, others: set<nat>, sp: Space, sh: Shape, v: Word, low: LowPage)
    requires Separated(st, others) && Coherent(st.tables, sp.root, sh)
    ensures GetPhysAddrMeant(st, sp, v, low) == Done(FrameOrNull(sh, Vpn(v)))
  {
    PathEntries(st, others, sp, sh, v);
    hide Vpn, KeyAt, TableOf, Index, FrameMask, ShortMask, Present, Separated, Coherent, MakeTableEntry;
  }

  /** The page table whose directory slot the written code tests for page w: the one that
      stands in w's own page directory at the index w has in its page table. */
  function TestedTable(w: nat): Key {
    Child(KeyAt(2, w), w % 512)
  }

  lemma TestedEntry(st: Store, others: set<nat>, sp: Space, sh: Shape, v: Word)
    requires Separated(st, others) && Coherent(st.tables, sp.root, sh)
    requires KeyAt(2, Vpn(v)) in sh.tabs
    ensures Index(v, 1) < 512 && sh.tabs[KeyAt(2, Vpn(v))] in st.tables
    ensures Follows(st.tables[sh.tabs[KeyAt(2, Vpn(v))]][Index(v, 1)], sh, TestedTable(Vpn(v)))
  {
    PathOf(v);
    IndexIsDigit(v, 1);
    var k := TestedTable(Vpn(v));
    ChildParent(KeyAt(2, Vpn(v)), Index(v, 1));
    hide Vpn, KeyAt, Index, Child, EntryOf, FrameMask, ShortMask, Present, Parent, Slot;
    EntryFollows(st, sp, sh, others, k);
  }

  /** When the lookup as written is right, for every page of every good space. A mapped page
      with a non-zero frame needs some page mapped in the region its page-table index selects;
      an unmapped page is misread only if that region is mapped, its own is not, and the word
      of physical page 0 at its index looks like a present entry. */
  lemma WrittenLookupExact(st: Store, others: set<nat>, sp: Space, sh: Shape, v: Word, low: LowPage)
    requires Separated(st, others) && SpaceInv(st, sp, sh)
    ensures Index(v, 1) < 512 && GetPhysAddr(st, sp, v, low).Done?
    ensures GetPhysAddr(st, sp, v, low) == Done(FrameOrNull(sh, Vpn(v)))
       <==> if Vpn(v) in sh.pages then
              sh.pages[Vpn(v)].frame == 0 || RegionMapped(sh, TestedTable(Vpn(v)))
            else
              || !RegionMapped(sh, TestedTable(Vpn(v)))
              || RegionMapped(sh, TableOf(Vpn(v)))
              || LeafFrame(low[Index(v, 1)]) == Done(0)
  {
    PathEntries(st, others, sp, sh, v);
    var w := Vpn(v);
    RegionLinked(sp.root, sh, TestedTable(w));
    RegionLinked(sp.root, sh, TableOf(w));
    TestedParent(sp.root, sh, w);
    if KeyAt(2, w) in sh.tabs {
      TestedEntry(st, others, sp, sh, v);
    }
    NullMask();
    assert 0 !in st.tables;
    hide Vpn, KeyAt, TableOf, TestedTable, Index, FrameMask, ShortMask, Present, Separated, Coherent, Tight, Listed,
      MakeTableEntry, RegionMapped;
  }

  ghost predicate RegionMapped(sh: Shape, k: Key) {
    exists u :: u in sh.pages && TableOf(u) == k
  }

  lemma RegionLinked(root: nat, sh: Shape, k: Key)
    requires Rooted(root, sh) && Tight(sh) && k.level == 1
    ensures RegionMapped(sh, k) <==> k in sh.tabs
  {
    if k in sh.tabs {
      assert Used(sh, k);
    }
  }

  lemma TestedParent(root: nat, sh: Shape, w: nat)
    requires Rooted(root, sh)
    ensures TestedTable(w).level == 1
    ensures TestedTable(w) in sh.tabs ==> KeyAt(2, w) in sh.tabs
  {
    ChildParent(KeyAt(2, w), w % 512);
  }

  lemma NullMask()
    ensures ShortMask(0) == 0
  {
    Mask1FF(0);
  }
}
