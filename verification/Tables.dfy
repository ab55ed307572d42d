/** Four-level page tables on values: what map_page_entry, unmap_page_entry and
    vm_get_phys_addr do to the live table buffers and the free pages. */
module Tables {
  import opened Words
  import opened Wrappers
  import opened Frames
  import opened Growth

  /** PAGE_SIZE * DEFAULT_PAGES bytes hold 4096 words, of which the walk uses 512. */
  const TABLE_WORDS: nat := 4096
  const DEFAULT_PAGES: nat := 8

  function ZeroWords(n: nat): (z: seq<Word>)
    ensures |z| == n && forall i :: 0 <= i < n ==> z[i] == 0
  {
    if n == 0 then [] else ZeroWords(n - 1) + [0]
  }

  type Table = t: seq<Word> | |t| == TABLE_WORDS witness ZeroWords(TABLE_WORDS)

  const ZEROS: Table := ZeroWords(TABLE_WORDS)

  /** Physical memory as the page-table code sees it: the byte limit, the free page numbers,
      and the live table buffers by physical address. */
  datatype Store = Store(limit: Word, free: set<nat>, tables: map<nat, Table>)

  /** ADDR_SPACE: root table, memory_list, and the block that holds the list. */
  datatype Space = Space(root: nat, list: seq<nat>, vec: Vec)

  /** sizeof(uint64_t), an element of memory_list. */
  const LIST_ENTRY: nat := 8

  // ---------------------------------------------------------------- operations

  /** pm_get(DEFAULT_PAGES, 0x0), the null check, and the clearing memset. */
  function AllocTable(st: Store): Outcome<(Store, Word)> {
    match FirstFit(st.free, DEFAULT_PAGES, 0, st.limit)
    case None => Halt
    case Some(a) =>
      if a == 0 then Halt
      else Done((Store(st.limit, st.free - Extent(a), st.tables[a := ZEROS]), a))
  }

  /** pm_free of a table buffer; a page that is already free halts the caller. */
  function FreeTable(st: Store, a: nat): Outcome<Store> {
    if Extent(a) !! st.free then Done(Store(st.limit, st.free + Extent(a), st.tables - {a}))
    else Halt
  }

  /** table[i] = w. */
  function SetEntry(st: Store, a: nat, i: nat, w: Word): Store
    requires a in st.tables && i < TABLE_WORDS
  {
    st.(tables := st.tables[a := st.tables[a][i := w]])
  }

  /** Page numbers of the buffer at address a. */
  function Extent(a: nat): set<nat> {
    Pages(a / PAGE_SIZE, DEFAULT_PAGES)
  }

  /** One level of map_page_entry: follow entry i of table t, allocating and linking a new
      table when it is not present. Its append to the memory list may allocate again. */
  function Ensure(st: Store, sp: Space, t: nat, i: nat): Outcome<(Store, Space, Word)>
    requires i < 512
  {
    if t !in st.tables then Fault
    else
      var e := st.tables[t][i];
      if Present(e) then Done((st, sp, FrameMask(e)))
      else
        var (st1, a) :- AllocTable(st);
        if t !in st1.tables then Fault
        else
          var (free, vec) :- Grow(st1.free, st1.limit, sp.vec, |sp.list| + 1, LIST_ENTRY);
          var st2 := SetEntry(st1, t, i, MakeTableEntry(a, VM_USERMODE));
          Done((st2.(free := free), Space(sp.root, sp.list + [a], vec), a))
  }

  /** The three upper levels of map_page_entry: the page table for v, created if need be. */
  function Descend(st: Store, sp: Space, v: Word): Outcome<(Store, Space, Word)> {
    IndexIsDigit(v, 4);
    IndexIsDigit(v, 3);
    IndexIsDigit(v, 2);
    var (st3, sp3, pdpt) :- Ensure(st, sp, sp.root, Index(v, 4));
    var (st2, sp2, pd) :- Ensure(st3, sp3, pdpt, Index(v, 3));
    Ensure(st2, sp2, pd, Index(v, 2))
  }

  /** map_page_entry. */
  function MapEntry(st: Store, sp: Space, v: Word, phys: Word, flags: Word): Outcome<(Store, Space)> {
    IndexIsDigit(v, 1);
    var (st1, sp1, pt) :- Descend(st, sp, v);
    if pt !in st1.tables then Fault
    else
      Done((SetEntry(st1, pt, Index(v, 1), MakeTableEntry(FrameMask(phys), flags)), sp1))
  }

  /** vector_erase at the first position holding x. */
  function EraseFirst(list: seq<nat>, x: nat): seq<nat> {
    if list == [] then []
    else if list[0] == x then list[1..]
    else [list[0]] + EraseFirst(list[1..], x)
  }

  /** Its position, or the length of the list. */
  function FirstIndex(list: seq<nat>, x: nat): (i: nat)
    ensures i <= |list|
    ensures x !in list[..i] && (i < |list| ==> list[i] == x)
  {
    if list == [] || list[0] == x then 0
    else
      assert forall j :: 0 <= j < |list| - 1 ==> list[1..][j] == list[j + 1];
      1 + FirstIndex(list[1..], x)
  }

  /** Erasing x from a list of a space stays inside the list's block. */
  predicate DropSafe(limit: nat, vec: Vec, list: seq<nat>, x: nat) {
    var i := FirstIndex(list, x);
    i < |list| ==> EraseSafe(limit, vec, LIST_ENTRY, |list|, i)
  }

  /** The emptiness scan over all 4096 words of a buffer. */
  predicate AllZero(t: Table) {
    forall i :: 0 <= i < TABLE_WORDS ==> t[i] == 0
  }

  /** The tail of unmap_page_entry at one level: clear entry i of `parent`, free `child`, and
      drop it from the memory list. The copy that drops it may write behind the list's block. */
  function Unlink(st: Store, sp: Space, parent: nat, i: nat, child: nat): Outcome<(Store, Space)>
    requires i < 512
  {
    if parent !in st.tables then Fault
    else
      var st1 :- FreeTable(SetEntry(st, parent, i, 0), child);
      if DropSafe(st.limit, sp.vec, sp.list, child) then Done((st1, sp.(list := EraseFirst(sp.list, child)))) else Fault
  }

  /** unmap_page_entry. */
  function UnmapEntry(st: Store, sp: Space, v: Word): Outcome<(Store, Space)> {
    IndexIsDigit(v, 4);
    IndexIsDigit(v, 3);
    IndexIsDigit(v, 2);
    IndexIsDigit(v, 1);
    if sp.root !in st.tables then Fault
    else if !Present(st.tables[sp.root][Index(v, 4)]) then Done((st, sp))
    else
      var pdpt := ShortMask(st.tables[sp.root][Index(v, 4)]);
      if pdpt !in st.tables then Fault
      else if !Present(st.tables[pdpt][Index(v, 3)]) then Done((st, sp))
      else
        var pd := ShortMask(st.tables[pdpt][Index(v, 3)]);
        if pd !in st.tables then Fault
        else if !Present(st.tables[pd][Index(v, 2)]) then Done((st, sp))
        else
          var pt := ShortMask(st.tables[pd][Index(v, 2)]);
          if pt !in st.tables then Fault
          else if !Present(st.tables[pt][Index(v, 1)]) then Done((st, sp))
          else UnmapPresent(SetEntry(st, pt, Index(v, 1), 0), sp, v, pdpt, pd, pt)
  }

  /** unmap_page_entry once pt[pte] is cleared: the page table goes in any case, the page
      directory and the page directory pointer table if they are left empty. */
  function UnmapPresent(st: Store, sp: Space, v: Word, pdpt: nat, pd: nat, pt: nat): Outcome<(Store, Space)> {
    IndexIsDigit(v, 2);
    var (st1, sp1) :- Unlink(st, sp, pd, Index(v, 2), pt);
    UnmapDirectory(st1, sp1, v, pdpt, pd)
  }

  function UnmapDirectory(st: Store, sp: Space, v: Word, pdpt: nat, pd: nat): Outcome<(Store, Space)> {
    IndexIsDigit(v, 3);
    if pd !in st.tables then Fault
    else if !AllZero(st.tables[pd]) then Done((st, sp))
    else
      var (st1, sp1) :- Unlink(st, sp, pdpt, Index(v, 3), pd);
      UnmapPointers(st1, sp1, v, pdpt)
  }

  function UnmapPointers(st: Store, sp: Space, v: Word, pdpt: nat): Outcome<(Store, Space)> {
    IndexIsDigit(v, 4);
    if pdpt !in st.tables then Fault
    else if !AllZero(st.tables[pdpt]) then Done((st, sp))
    else Unlink(st, sp, sp.root, Index(v, 4), pdpt)
  }

  // ---------------------------------------------------------------- what a space means

  /** One mapped page: frame address and permission bits. */
  datatype Leaf = Leaf(frame: Word, flags: Word)

  predicate GoodFlags(flags: Word) {
    flags < PAGE_SIZE && flags % 2 == 1
  }

  predicate GoodLeaf(leaf: Leaf) {
    leaf.frame % PAGE_SIZE == 0 && GoodFlags(leaf.flags)
  }

  /** A table is known by its level and by the leading digits of the page numbers below it. */
  datatype Key = Key(level: nat, prefix: nat)

  function KeyAt(level: nat, w: nat): Key
    requires level <= 4
  {
    Key(level, w / Reach(level))
  }

  function Parent(k: Key): Key {
    Key(k.level + 1, k.prefix / 512)
  }

  function Child(k: Key, i: nat): Key
    requires k.level > 0
  {
    Key(k.level - 1, k.prefix * 512 + i)
  }

  /** Index of table k in its parent. */
  function Slot(k: Key): nat {
    k.prefix % 512
  }

  /** Page number of entry i of page table k. */
  function PageOf(k: Key, i: nat): nat {
    k.prefix * 512 + i
  }

  /** Key of the page table that maps page w. */
  function TableOf(w: nat): Key {
    Key(1, w / 512)
  }

  /** The abstract content of an address space: where each linked table is, and the partial
      map from page numbers to frames and flags that the tables stand for. */
  datatype Shape = Shape(tabs: map<Key, Word>, pages: map<nat, Leaf>)

  /** The word entry i of table k must hold. */
  function EntryOf(sh: Shape, k: Key, i: nat): Word
    requires k.level > 0
  {
    if i >= 512 then 0
    else if k.level == 1 then
      var w := PageOf(k, i);
      if w in sh.pages then MakeTableEntry(sh.pages[w].frame, sh.pages[w].flags) else 0
    else
      var c := Child(k, i);
      if c in sh.tabs then MakeTableEntry(sh.tabs[c], VM_USERMODE) else 0
  }

  ghost predicate Rooted(root: nat, sh: Shape) {
    && Key(4, 0) in sh.tabs && sh.tabs[Key(4, 0)] == root
    && (forall k :: k in sh.tabs ==>
          && 1 <= k.level <= 4
          && (if k.level == 4 then k.prefix == 0 else Parent(k) in sh.tabs))
    && (forall k, l :: k in sh.tabs && l in sh.tabs && sh.tabs[k] == sh.tabs[l] ==> k == l)
    && (forall w :: w in sh.pages ==> w < VPN_COUNT && GoodLeaf(sh.pages[w]) && TableOf(w) in sh.tabs)
  }

  /** Every linked table is a live buffer holding exactly the words its place calls for. */
  ghost predicate Stored(tables: map<nat, Table>, sh: Shape)
    requires forall k :: k in sh.tabs ==> k.level > 0
  {
    && (forall k :: k in sh.tabs ==> sh.tabs[k] in tables)
    && (forall k, i :: k in sh.tabs && 0 <= i < TABLE_WORDS ==> tables[sh.tabs[k]][i] == EntryOf(sh, k, i))
  }

  ghost predicate Coherent(tables: map<nat, Table>, root: nat, sh: Shape) {
    Rooted(root, sh) && Stored(tables, sh)
  }

  /** Table k has something below it. */
  ghost predicate Used(sh: Shape, k: Key) {
    if k.level == 1 then exists w :: w in sh.pages && TableOf(w) == k
    else exists c :: c in sh.tabs && c.level < 4 && Parent(c) == k
  }

  /** No linked table is empty, except possibly table `open` and the root. */
  ghost predicate TightBut(sh: Shape, open: Key) {
    forall k :: k in sh.tabs && k.level < 4 && k != open ==> Used(sh, k)
  }

  const ROOT: Key := Key(4, 0)

  ghost predicate Tight(sh: Shape) {
    TightBut(sh, ROOT)
  }

  ghost predicate NoDup(list: seq<nat>) {
    forall i, j :: 0 <= i < j < |list| ==> list[i] != list[j]
  }

  /** The memory list holds the base of every linked table but the root, once. */
  ghost predicate Listed(sp: Space, sh: Shape) {
    && NoDup(sp.list)
    && (forall k :: k in sh.tabs && k.level < 4 ==> sh.tabs[k] in sp.list)
    && (forall a :: a in sp.list ==> exists k :: k in sh.tabs && k.level < 4 && sh.tabs[k] == a)
  }

  /** The memory list fits its block. */
  predicate Fits(sp: Space) {
    LIST_ENTRY * |sp.list| <= sp.vec.cap
  }

  ghost predicate SpaceInv(st: Store, sp: Space, sh: Shape) {
    Coherent(st.tables, sp.root, sh) && Tight(sh) && Listed(sp, sh) && Fits(sp)
  }

  /** Live buffers are page-aligned, below the limit, pairwise disjoint, and disjoint from the
      free pages and from the pages held by anyone else; page 0 is never free. */
  ghost predicate Separated(st: Store, others: set<nat>) {
    && (forall a :: a in st.tables ==>
          a > 0 && a % PAGE_SIZE == 0 && a / PAGE_SIZE + DEFAULT_PAGES <= LimitPages(st.limit))
    && (forall a, b :: a in st.tables && b in st.tables && a < b ==> a / PAGE_SIZE + DEFAULT_PAGES <= b / PAGE_SIZE)
    && (forall a, p :: a in st.tables && p in st.free ==> p < a / PAGE_SIZE || p >= a / PAGE_SIZE + DEFAULT_PAGES)
    && (forall a, p :: a in st.tables && p in others ==> p < a / PAGE_SIZE || p >= a / PAGE_SIZE + DEFAULT_PAGES)
    && (forall p :: p in st.free ==> p !in others && 0 < p < LimitPages(st.limit))
  }

  /** The same with the block of a vector, whose pages are apart from all of them. */
  ghost predicate Placed(st: Store, vec: Vec, others: set<nat>) {
    && Separated(st, others + VecPages(vec))
    && VecPages(vec) !! others
    && forall p :: p in VecPages(vec) ==> 0 < p < LimitPages(st.limit)
  }

  /** The pages of live tables. */
  ghost function Held(tables: map<nat, Table>): set<nat> {
    set a, p | a in tables && p in Extent(a) :: p
  }

  /** Pages the page-table code manages: free or in a live table. */
  ghost function Managed(st: Store): set<nat> {
    st.free + Held(st.tables)
  }

  /** A step of one space leaves all tables outside that space as they were, and adds or
      removes none of them. */
  ghost predicate Frame(st: Store, sh: Shape, st': Store, sh': Shape) {
    && st'.limit == st.limit
    && (forall a :: a in st.tables && a !in sh.tabs.Values ==>
          a in st'.tables && a !in sh'.tabs.Values && st'.tables[a] == st.tables[a])
    && (forall a :: a in st'.tables && a !in sh'.tabs.Values ==> a in st.tables && a !in sh.tabs.Values)
  }

  // ---------------------------------------------------------------- the four-level walk

  /** The hardware walk: entry reached for v from table t at `level`. */
  function Walk(tables: map<nat, Table>, t: nat, v: Word, level: nat): Outcome<Option<Word>>
    requires 1 <= level <= 4
    decreases level
  {
    IndexIsDigit(v, level);
    if t !in tables then Fault
    else
      var e := tables[t][Index(v, level)];
      if !Present(e) then Done(None)
      else if level == 1 then Done(Some(e))
      else Walk(tables, FrameMask(e), v, level - 1)
  }
}
