/** The single steps on page tables - claim, release, link, unlink, set a leaf - each keep
    the tables coherent with the abstract address space. */
module TableSteps {
  import opened Words
  import opened Frames
  import opened Growth
  import opened Tables

  // ---------------------------------------------------------------- digits

  lemma ChildParent(k: Key, i: nat)
    requires k.level > 0 && i < 512
    ensures Parent(Child(k, i)) == k && Slot(Child(k, i)) == i && Child(k, i).level == k.level - 1
    ensures k.level == 1 ==> TableOf(PageOf(k, i)) == k
  {
  }

  lemma ParentChild(c: Key)
    ensures Slot(c) < 512 && Parent(c).level == c.level + 1
    ensures Child(Parent(c), Slot(c)) == c
  {
  }

  lemma PathStep(level: nat, w: nat)
    requires 1 <= level < 4
    ensures Parent(KeyAt(level, w)) == KeyAt(level + 1, w)
    ensures Slot(KeyAt(level, w)) == w / Reach(level) % 512
  {
  }

  // ---------------------------------------------------------------- claim and release

  lemma AllocKeepsSeparated(st: Store, others: set<nat>)
    requires Separated(st, others) && AllocTable(st).Done?
    ensures var (st', a) := AllocTable(st).value;
      && Separated(st', others) && a !in st.tables && Managed(st') == Managed(st)
  {
    FirstFitExact(st.free, DEFAULT_PAGES, 0, st.limit);
    var (st', a) := AllocTable(st).value;
    assert Steps(0, a);
    hide FirstFit, Pages, Steps;
    ClaimedApart(st, others, a);
    assert Held(st'.tables) == Held(st.tables) + Extent(a) by {
      hide Separated;
      assert Extent(a) == Extent(a);
    }
  }

  /** A run of free pages lies apart from every live buffer. */
  lemma ClaimedApart(st: Store, others: set<nat>, a: nat)
    requires Separated(st, others) && a > 0 && a % PAGE_SIZE == 0 && Extent(a) <= st.free
    ensures a !in st.tables
    ensures Separated(Store(st.limit, st.free - Extent(a), st.tables[a := ZEROS]), others)
  {
    hide Pages;
    var p := a / PAGE_SIZE;
    assert p in Extent(a) && p + 7 in Extent(a);
    forall b | b in st.tables
      ensures p + DEFAULT_PAGES <= b / PAGE_SIZE || b / PAGE_SIZE + DEFAULT_PAGES <= p
    {
      BufferApart(st, others, a, b);
    }
  }

  lemma BufferApart(st: Store, others: set<nat>, a: nat, b: nat)
    requires Separated(st, others) && Extent(a) <= st.free && b in st.tables
    ensures a / PAGE_SIZE + DEFAULT_PAGES <= b / PAGE_SIZE || b / PAGE_SIZE + DEFAULT_PAGES <= a / PAGE_SIZE
  {
    hide Pages;
    var p := a / PAGE_SIZE;
    assert p in Extent(a);
    var q := b / PAGE_SIZE;
    assert q in Extent(a) <==> p <= q < p + DEFAULT_PAGES;
  }

  /** The only way allocating a table halts is that no run of eight pages is free. */
  lemma AllocHaltsOnlyWhenFull(st: Store, others: set<nat>)
    requires Separated(st, others)
    ensures !AllocTable(st).Fault?
    ensures AllocTable(st).Halt? <==> FirstFit(st.free, DEFAULT_PAGES, 0, st.limit).None?
  {
    FirstFitExact(st.free, DEFAULT_PAGES, 0, st.limit);
    assert 0 in Pages(0, DEFAULT_PAGES);
    assert 0 !in st.free;
  }

  lemma FreeKeepsSeparated(st: Store, a: nat, others: set<nat>)
    requires Separated(st, others) && a in st.tables
    ensures FreeTable(st, a).Done?
    ensures var st' := FreeTable(st, a).value;
      Separated(st', others) && Managed(st') == Managed(st)
  {
    hide Pages;
    assert Extent(a) !! st.free;
    var st' := FreeTable(st, a).value;
    forall b, p | b in st'.tables && p in Extent(a)
      ensures p < b / PAGE_SIZE || p >= b / PAGE_SIZE + DEFAULT_PAGES
    {
      assert a < b || b < a;
    }
    assert Held(st.tables) == Held(st'.tables) + Extent(a);
  }

  lemma SetKeepsSeparated(st: Store, a: nat, i: nat, w: Word, others: set<nat>)
    requires Separated(st, others) && a in st.tables && i < TABLE_WORDS
    ensures var st' := SetEntry(st, a, i, w);
      Separated(st', others) && Managed(st') == Managed(st)
  {
    hide Pages;
    var st' := SetEntry(st, a, i, w);
    assert st'.tables.Keys == st.tables.Keys;
    assert Held(st'.tables) == Held(st.tables);
  }

  /** The same steps with the block of a vector in place. */
  lemma SetKeepsPlaced(st: Store, a: nat, i: nat, w: Word, vec: Vec, others: set<nat>)
    requires Placed(st, vec, others) && a in st.tables && i < TABLE_WORDS
    ensures var st' := SetEntry(st, a, i, w);
      Placed(st', vec, others) && Managed(st') == Managed(st)
  {
    SetKeepsSeparated(st, a, i, w, others + VecPages(vec));
    hide Separated, Managed, VecPages;
  }

  lemma FreeKeepsPlaced(st: Store, a: nat, vec: Vec, others: set<nat>)
    requires Placed(st, vec, others) && a in st.tables
    ensures FreeTable(st, a).Done?
    ensures var st' := FreeTable(st, a).value;
      Placed(st', vec, others) && Managed(st') == Managed(st)
  {
    FreeKeepsSeparated(st, a, others + VecPages(vec));
    hide Separated, Managed, VecPages, Extent;
  }

  lemma AllocKeepsPlaced(st: Store, vec: Vec, others: set<nat>)
    requires Placed(st, vec, others) && AllocTable(st).Done?
    ensures var (st', a) := AllocTable(st).value;
      && Placed(st', vec, others) && a !in st.tables && Managed(st') == Managed(st)
      && st'.limit == st.limit && st'.tables == st.tables[a := ZEROS]
  {
    AllocKeepsSeparated(st, others + VecPages(vec));
    hide Separated, Managed, VecPages, Extent, FirstFit;
  }

  // ---------------------------------------------------------------- blocks

  lemma BlockTakesFree(st: Store, others: set<nat>, run: set<nat>)
    requires Separated(st, others) && run <= st.free
    ensures Separated(st.(free := st.free - run), others + run)
    ensures Managed(st.(free := st.free - run)) + run == Managed(st)
  {
    hide Pages;
  }

  lemma BlockGivesFree(st: Store, others: set<nat>, run: set<nat>)
    requires Separated(st, others + run) && run !! others
    requires forall p :: p in run ==> 0 < p < LimitPages(st.limit)
    ensures Separated(st.(free := st.free + run), others)
    ensures Managed(st.(free := st.free + run)) == Managed(st) + run
  {
    hide Pages;
  }

  /** Pages of tables, free pages and the block of a vector. */
  ghost function ManagedWith(st: Store, vec: Vec): set<nat> {
    Managed(st) + VecPages(vec)
  }

  /** Growing a vector takes the new block from the free pages and gives the old one back. */
  lemma GrowKeeps(st: Store, vec: Vec, others: set<nat>, len: nat, z: nat)
    requires Placed(st, vec, others) && Grow(st.free, st.limit, vec, len, z).Done?
    ensures var (free, vec') := Grow(st.free, st.limit, vec, len, z).value;
      Placed(st.(free := free), vec', others) && ManagedWith(st.(free := free), vec') == ManagedWith(st, vec)
  {
    GrowPages(st.free, st.limit, vec, len, z);
    var n := GrowNeed(vec.cap, len, z);
    FreeRange(st, others + VecPages(vec));
    if n > 0 {
      FirstFitExact(st.free, n, 0, st.limit);
      hide FirstFit, Grow, Separated, LimitPages, Managed, VecPages;
      MoveBlock(st, others, VecPages(vec), Pages(FirstFit(st.free, n, 0, st.limit).value / PAGE_SIZE, n));
    }
  }

  lemma FreeRange(st: Store, others: set<nat>)
    requires Separated(st, others)
    ensures st.free !! others && forall p :: p in st.free ==> 0 < p < LimitPages(st.limit)
  {
    hide LimitPages;
  }

  lemma MoveBlock(st: Store, others: set<nat>, was: set<nat>, now: set<nat>)
    requires Separated(st, others + was) && was !! others && now <= st.free
    requires forall p :: p in was ==> 0 < p < LimitPages(st.limit)
    ensures var st' := st.(free := st.free - now + was);
      && Separated(st', others + now) && now !! others
      && (forall p :: p in now ==> 0 < p < LimitPages(st.limit))
      && Managed(st') + now == Managed(st) + was
  {
    FreeRange(st, others + was);
    BlockTakesFree(st, others + was, now);
    var st1 := st.(free := st.free - now);
    hide Separated, LimitPages, Managed;
    assert others + was + now == (others + now) + was;
    BlockGivesFree(st1, others + now, was);
  }

  // ---------------------------------------------------------------- link

  function Linked(sh: Shape, k: Key, a: Word): Shape {
    Shape(sh.tabs[k := a], sh.pages)
  }

  lemma LinkRooted(root: nat, sh: Shape, k: Key, a: Word)
    requires Rooted(root, sh)
    requires 1 <= k.level < 4 && k !in sh.tabs && Parent(k) in sh.tabs
    requires a !in sh.tabs.Values
    ensures Rooted(root, Linked(sh, k, a))
  {
    forall l | l in sh.tabs
      ensures sh.tabs[l] != a
    {
      assert sh.tabs[l] in sh.tabs.Values;
    }
  }

  /** Writing the entry of a fresh, zeroed table into its parent links it. */
  lemma LinkStored(tables: map<nat, Table>, root: nat, sh: Shape, k: Key, a: Word)
    requires Coherent(tables, root, sh)
    requires 1 <= k.level < 4 && k !in sh.tabs && Parent(k) in sh.tabs
    requires a !in tables
    ensures a !in sh.tabs.Values
    ensures Coherent(LinkTables(tables, sh, k, a), root, Linked(sh, k, a))
  {
    forall l | l in sh.tabs
      ensures sh.tabs[l] != a
    {
      assert sh.tabs[l] in tables;
    }
    LinkRooted(root, sh, k, a);
    var sh', tables' := Linked(sh, k, a), LinkTables(tables, sh, k, a);
    forall l, i | l in sh'.tabs && 0 <= i < TABLE_WORDS
      ensures tables'[sh'.tabs[l]][i] == EntryOf(sh', l, i)
    {
      LinkEntry(tables, root, sh, k, a, l, i);
    }
  }

  function LinkTables(tables: map<nat, Table>, sh: Shape, k: Key, a: Word): map<nat, Table>
    requires Parent(k) in sh.tabs && sh.tabs[Parent(k)] in tables
  {
    var p := sh.tabs[Parent(k)];
    tables[a := ZEROS][p := tables[p][Slot(k) := MakeTableEntry(a, VM_USERMODE)]]
  }

  lemma LinkEntryOf(root: nat, sh: Shape, k: Key, a: Word, l: Key, i: nat)
    requires Rooted(root, sh)
    requires 1 <= k.level < 4 && k !in sh.tabs
    requires l in Linked(sh, k, a).tabs && l.level > 0
    ensures EntryOf(Linked(sh, k, a), l, i)
         == if l == k then 0
            else if l == Parent(k) && i == Slot(k) then MakeTableEntry(a, VM_USERMODE)
            else EntryOf(sh, l, i)
  {
    ParentChild(k);
    if i < 512 {
      ChildParent(l, i);
    }
    hide MakeTableEntry, Child, Parent, Slot, PageOf, TableOf;
  }

  lemma LinkEntry(tables: map<nat, Table>, root: nat, sh: Shape, k: Key, a: Word, l: Key, i: nat)
    requires Coherent(tables, root, sh)
    requires 1 <= k.level < 4 && k !in sh.tabs && Parent(k) in sh.tabs
    requires a !in tables && i < TABLE_WORDS
    requires l in Linked(sh, k, a).tabs
    ensures var sh' := Linked(sh, k, a);
      LinkTables(tables, sh, k, a)[sh'.tabs[l]][i] == EntryOf(sh', l, i)
  {
    hide MakeTableEntry, EntryOf;
    LinkEntryOf(root, sh, k, a, l, i);
    if l != k {
      assert tables[sh.tabs[l]][i] == EntryOf(sh, l, i);
      assert sh.tabs[l] != a;
      assert l == Parent(k) || sh.tabs[l] != sh.tabs[Parent(k)];
    }
  }

  /** The memory list speaks of tables only. */
  lemma ListedByTabs(sp: Space, sh: Shape, sh': Shape)
    requires Listed(sp, sh) && sh'.tabs == sh.tabs
    ensures Listed(sp, sh')
  {
  }

  // ---------------------------------------------------------------- leaf

  function WithPage(sh: Shape, w: nat, leaf: Leaf): Shape {
    Shape(sh.tabs, sh.pages[w := leaf])
  }

  lemma LeafEntryOf(sh: Shape, w: nat, leaf: Leaf, l: Key, i: nat)
    requires l.level > 0
    ensures EntryOf(WithPage(sh, w, leaf), l, i)
         == if l == TableOf(w) && i == w % 512 then MakeTableEntry(leaf.frame, leaf.flags)
            else EntryOf(sh, l, i)
  {
    hide MakeTableEntry;
  }

  function LeafTables(tables: map<nat, Table>, sh: Shape, w: nat, leaf: Leaf): map<nat, Table>
    requires TableOf(w) in sh.tabs && sh.tabs[TableOf(w)] in tables
  {
    var pt := sh.tabs[TableOf(w)];
    tables[pt := tables[pt][w % 512 := MakeTableEntry(leaf.frame, leaf.flags)]]
  }

  lemma LeafRooted(root: nat, sh: Shape, w: nat, leaf: Leaf)
    requires Rooted(root, sh) && w < VPN_COUNT && GoodLeaf(leaf) && TableOf(w) in sh.tabs
    ensures Rooted(root, WithPage(sh, w, leaf))
  {
    hide TableOf, Parent, GoodLeaf;
  }

  /** No other table lies where table k lies, and all are tables. */
  lemma OneKeyEach(root: nat, sh: Shape, k: Key)
    requires Rooted(root, sh) && k in sh.tabs
    ensures forall l :: l in sh.tabs && l != k ==> sh.tabs[l] != sh.tabs[k]
    ensures forall l :: l in sh.tabs ==> l.level > 0
  {
  }

  /** Writing a leaf entry maps its page. */
  lemma LeafStored(tables: map<nat, Table>, root: nat, sh: Shape, w: nat, leaf: Leaf)
    requires Coherent(tables, root, sh)
    requires w < VPN_COUNT && GoodLeaf(leaf) && TableOf(w) in sh.tabs
    ensures Coherent(LeafTables(tables, sh, w, leaf), root, WithPage(sh, w, leaf))
  {
    hide MakeTableEntry, EntryOf;
    var k := TableOf(w);
    var sh', tables' := WithPage(sh, w, leaf), LeafTables(tables, sh, w, leaf);
    LeafRooted(root, sh, w, leaf);
    OneKeyEach(root, sh, k);
    hide Rooted, TableOf, GoodLeaf;
    forall l, i | l in sh'.tabs && 0 <= i < TABLE_WORDS
      ensures tables'[sh'.tabs[l]][i] == EntryOf(sh', l, i)
    {
      LeafEntryOf(sh, w, leaf, l, i);
      assert tables[sh.tabs[l]][i] == EntryOf(sh, l, i);
      assert l == k || sh.tabs[l] != sh.tabs[k];
    }
  }

  // ---------------------------------------------------------------- unlink

  /** Dropping table k, and with a page table the pages below it. */
  function Unlinked(sh: Shape, k: Key): Shape {
    Shape(sh.tabs - {k},
          if k.level == 1 then map w | w in sh.pages && TableOf(w) != k :: sh.pages[w] else sh.pages)
  }

  function UnlinkTables(tables: map<nat, Table>, sh: Shape, k: Key): map<nat, Table>
    requires k in sh.tabs && Parent(k) in sh.tabs && sh.tabs[Parent(k)] in tables
  {
    var p := sh.tabs[Parent(k)];
    tables[p := tables[p][Slot(k) := 0]] - {sh.tabs[k]}
  }

  ghost predicate Removable(sh: Shape, k: Key) {
    && k in sh.tabs && 1 <= k.level < 4
    && (k.level > 1 ==> forall c :: c in sh.tabs && c.level < 4 ==> Parent(c) != k)
  }

  lemma UnlinkStored(tables: map<nat, Table>, root: nat, sh: Shape, k: Key)
    requires Coherent(tables, root, sh) && Removable(sh, k)
    ensures Coherent(UnlinkTables(tables, sh, k), root, Unlinked(sh, k))
  {
    hide MakeTableEntry, EntryOf;
    var sh', tables' := Unlinked(sh, k), UnlinkTables(tables, sh, k);
    UnlinkRooted(root, sh, k);
    forall l | l in sh'.tabs
      ensures sh'.tabs[l] in tables'
    {
      assert sh.tabs[l] != sh.tabs[k];
    }
    forall l, i | l in sh'.tabs && 0 <= i < TABLE_WORDS
      ensures tables'[sh'.tabs[l]][i] == EntryOf(sh', l, i)
    {
      UnlinkEntry(tables, root, sh, k, l, i);
    }
  }

  lemma UnlinkEntry(tables: map<nat, Table>, root: nat, sh: Shape, k: Key, l: Key, i: nat)
    requires Coherent(tables, root, sh) && Removable(sh, k)
    requires l in Unlinked(sh, k).tabs && i < TABLE_WORDS
    ensures sh.tabs[l] in UnlinkTables(tables, sh, k)
    ensures UnlinkTables(tables, sh, k)[sh.tabs[l]][i] == EntryOf(Unlinked(sh, k), l, i)
  {
    ParentChild(k);
    UnlinkEntryOf(root, sh, k, l, i);
    OneKeyEach(root, sh, k);
    OneKeyEach(root, sh, Parent(k));
    assert l in sh.tabs && l != k && Parent(k) in sh.tabs && Unlinked(sh, k).tabs[l] == sh.tabs[l];
    hide MakeTableEntry, EntryOf, Slot, Parent, Rooted, Removable, Unlinked;
    assert tables[sh.tabs[l]][i] == EntryOf(sh, l, i);
  }

  lemma UnlinkRooted(root: nat, sh: Shape, k: Key)
    requires Rooted(root, sh) && Removable(sh, k)
    ensures Rooted(root, Unlinked(sh, k))
  {
    hide TableOf, Parent, GoodLeaf, Removable;
    var sh' := Unlinked(sh, k);
    RemovableBelowRoot(sh, k);
    forall l | l in sh'.tabs && l.level < 4
      ensures Parent(l) in sh'.tabs
    {
      ParentNot(sh, k, l);
    }
    UnlinkedPages(root, sh, k);
  }

  /** Pages that are left hang below tables that are. */
  lemma UnlinkedPages(root: nat, sh: Shape, k: Key)
    requires Rooted(root, sh) && 1 <= k.level < 4
    ensures forall w :: w in Unlinked(sh, k).pages ==>
      w in sh.pages && Unlinked(sh, k).pages[w] == sh.pages[w] && TableOf(w) in Unlinked(sh, k).tabs
  {
    hide TableOf, Parent, GoodLeaf;
    forall w | w in Unlinked(sh, k).pages
      ensures TableOf(w) in Unlinked(sh, k).tabs
    {
      TableLevel(w);
    }
  }

  lemma RemovableBelowRoot(sh: Shape, k: Key)
    requires Removable(sh, k)
    ensures k in sh.tabs && 1 <= k.level < 4
  {
  }

  lemma ParentNot(sh: Shape, k: Key, l: Key)
    requires Removable(sh, k) && l in sh.tabs && 1 <= l.level < 4
    ensures Parent(l) != k
  {
  }

  lemma TableLevel(w: nat)
    ensures TableOf(w).level == 1
  {
  }

  lemma UnlinkEntryOf(root: nat, sh: Shape, k: Key, l: Key, i: nat)
    requires Rooted(root, sh) && Removable(sh, k)
    requires l in Unlinked(sh, k).tabs
    ensures EntryOf(Unlinked(sh, k), l, i)
         == if l == Parent(k) && i == Slot(k) then 0 else EntryOf(sh, l, i)
  {
    ParentChild(k);
    if i < 512 {
      ChildParent(l, i);
    }
    hide MakeTableEntry, Child, Parent, Slot, PageOf, TableOf;
  }
}
