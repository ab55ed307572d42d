/** unmap_page_entry removes exactly the 2 MiB region of a mapped page, reaches none of its
    halts, leaves no empty table linked, and stays inside the memory list's block exactly when
    each of its erases has the spare room that the copy of vector_erase takes. */
module Unmapping {
  import opened Words
  import opened Wrappers
  import opened Frames
  import opened Growth
  import opened Tables
  import opened TableSteps
  import opened Mapping

  // ---------------------------------------------------------------- emptiness scan

  /** Scanning all 4096 words of a linked buffer gives the same answer as scanning the 512
      entries the hardware uses, and tells whether anything hangs below the table. */
  lemma ScanExact(st: Store, sp: Space, sh: Shape, k: Key)
    requires Coherent(st.tables, sp.root, sh) && k in sh.tabs && k.level > 1
    ensures AllZero(st.tables[sh.tabs[k]]) <==> forall i :: 0 <= i < 512 ==> st.tables[sh.tabs[k]][i] == 0
    ensures AllZero(st.tables[sh.tabs[k]]) <==> forall c :: c in sh.tabs && c.level < 4 ==> Parent(c) != k
  {
    var t := st.tables[sh.tabs[k]];
    forall i | 0 <= i < TABLE_WORDS
      ensures t[i] == EntryOf(sh, k, i)
    {
    }
    forall c | c in sh.tabs && c.level < 4 && Parent(c) == k
      ensures !AllZero(t)
    {
      ChildEntry(sh, k, c);
      assert t[Slot(c)] != 0;
    }
    forall i | 0 <= i < TABLE_WORDS && t[i] != 0
      ensures i < 512 && exists c :: c in sh.tabs && c.level < 4 && Parent(c) == k
    {
      ChildParent(k, i);
      assert Child(k, i) in sh.tabs;
    }
  }

  lemma ChildEntry(sh: Shape, k: Key, c: Key)
    requires c in sh.tabs && Parent(c) == k && k.level > 1
    ensures Slot(c) < 512 && EntryOf(sh, k, Slot(c)) != 0
  {
    ParentChild(c);
    EntryParts(sh.tabs[c], VM_USERMODE);
    PresentIsOdd(0);
  }

  // ---------------------------------------------------------------- memory list

  /** Erasing the one occurrence of x removes x and nothing else. */
  lemma {:induction false} EraseFirstExact(list: seq<nat>, x: nat)
    requires NoDup(list)
    ensures NoDup(EraseFirst(list, x))
    ensures forall y :: y in EraseFirst(list, x) <==> y in list && y != x
  {
    if list != [] && list[0] != x {
      var rest := list[1..];
      assert NoDup(rest);
      EraseFirstExact(rest, x);
      assert list == [list[0]] + rest;
      assert list[0] !in EraseFirst(rest, x);
      ConsNoDup(list[0], EraseFirst(rest, x));
    } else if list != [] {
      assert list == [x] + list[1..];
    }
  }

  lemma ConsNoDup(x: nat, list: seq<nat>)
    requires NoDup(list) && x !in list
    ensures NoDup([x] + list)
  {
  }

  /** Erasing a listed element shortens the list by one. */
  lemma {:induction false} EraseShortens(list: seq<nat>, x: nat)
    ensures |EraseFirst(list, x)| == if x in list then |list| - 1 else |list|
  {
    if list != [] && list[0] != x {
      EraseShortens(list[1..], x);
      assert list == [list[0]] + list[1..];
    }
  }

  /** Erasing xs from a list, one after the other, stays inside the list's block. */
  predicate DropsSafe(limit: nat, vec: Vec, list: seq<nat>, xs: seq<nat>)
    decreases |xs|
  {
    xs == [] || (DropSafe(limit, vec, list, xs[0]) && DropsSafe(limit, vec, EraseFirst(list, xs[0]), xs[1..]))
  }

  function DropAll(list: seq<nat>, xs: seq<nat>): seq<nat>
    decreases |xs|
  {
    if xs == [] then list else DropAll(EraseFirst(list, xs[0]), xs[1..])
  }

  lemma {:induction false} DropsAdd(limit: nat, vec: Vec, list: seq<nat>, xs: seq<nat>, ys: seq<nat>)
    ensures DropsSafe(limit, vec, list, xs + ys)
       <==> DropsSafe(limit, vec, list, xs) && DropsSafe(limit, vec, DropAll(list, xs), ys)
    ensures DropAll(list, xs + ys) == DropAll(DropAll(list, xs), ys)
    decreases |xs|
  {
    hide DropSafe, EraseFirst;
    if xs == [] {
      assert xs + ys == ys;
    } else {
      assert (xs + ys)[1..] == xs[1..] + ys;
      DropsAdd(limit, vec, EraseFirst(list, xs[0]), xs[1..], ys);
    }
  }

  /** A block with spare room for any erase has it for all that follow. */
  lemma {:induction false} RoomyDropsSafe(limit: nat, vec: Vec, list: seq<nat>, xs: seq<nat>)
    requires Roomy(vec, LIST_ENTRY, |list|) && (list != [] ==> vec.cap > 0)
    requires forall p :: p in VecPages(vec) ==> p < LimitPages(limit)
    ensures DropsSafe(limit, vec, list, xs)
    decreases |xs|
  {
    hide LimitPages, VecPages, EraseSafe, SizePages;
    if xs != [] {
      var x := xs[0];
      EraseShortens(list, x);
      if FirstIndex(list, x) < |list| {
        RoomyIsSafe(limit, vec, LIST_ENTRY, |list|, FirstIndex(list, x));
      }
      RoomyDropsSafe(limit, vec, EraseFirst(list, x), xs[1..]);
    }
  }

  lemma ListedAfterUnlink(root: nat, sp: Space, sh: Shape, k: Key)
    requires Listed(sp, sh) && Rooted(root, sh) && k in sh.tabs && k.level < 4
    ensures Listed(sp.(list := EraseFirst(sp.list, sh.tabs[k])), Unlinked(sh, k))
  {
    EraseFirstExact(sp.list, sh.tabs[k]);
    var sp', sh' := sp.(list := EraseFirst(sp.list, sh.tabs[k])), Unlinked(sh, k);
    forall a | a in sp'.list
      ensures exists l :: l in sh'.tabs && l.level < 4 && sh'.tabs[l] == a
    {
      var l :| l in sh.tabs && l.level < 4 && sh.tabs[l] == a;
      assert sh'.tabs[l] == a;
    }
  }

  // ---------------------------------------------------------------- one level

  lemma TightAfterUnlink(sh: Shape, k: Key)
    requires TightBut(sh, k) && k in sh.tabs
    ensures TightBut(Unlinked(sh, k), Parent(k))
  {
    hide Parent, TableOf;
    var sh' := Unlinked(sh, k);
    forall l | l in sh'.tabs && l.level < 4 && l != Parent(k)
      ensures Used(sh', l)
    {
      assert Used(sh, l);
      if l.level == 1 {
        var u :| u in sh.pages && TableOf(u) == l;
        assert u in sh'.pages;
      } else {
        var c :| c in sh.tabs && c.level < 4 && Parent(c) == l;
        assert c in sh'.tabs;
      }
    }
  }

  /** The store without table k. */
  lemma TableUnlinked(st: Store, others: set<nat>, sp: Space, sh: Shape, k: Key)
    requires OpenInv(st, sp, sh, k, others) && Removable(sh, k)
    ensures Parent(k) in sh.tabs && Slot(k) < 512 && sh.tabs[Parent(k)] in st.tables
    ensures var freed := FreeTable(SetEntry(st, sh.tabs[Parent(k)], Slot(k), 0), sh.tabs[k]);
      && freed.Done?
      && Placed(freed.value, sp.vec, others) && Managed(freed.value) == Managed(st) && freed.value.limit == st.limit
      && Coherent(freed.value.tables, sp.root, Unlinked(sh, k)) && Frame(st, sh, freed.value, Unlinked(sh, k))
  {
    var p := sh.tabs[Parent(k)];
    hide Slot, Parent, EntryOf, Placed, TightBut, Listed, Managed, Fits, Child;
    SlotBound(k);
    SetKeepsPlaced(st, p, Slot(k), 0, sp.vec, others);
    FreeKeepsPlaced(SetEntry(st, p, Slot(k), 0), sh.tabs[k], sp.vec, others);
    UnlinkStored(st.tables, sp.root, sh, k);
    UnlinkFrame(st, sp, sh, k);
  }

  /** Unlinking a table with nothing below it never meets a double free, and stays inside the
      memory list's block if and only if erasing the table from the list does. */
  lemma UnlinkCorrect(st: Store, others: set<nat>, sp: Space, sh: Shape, k: Key)
    requires OpenInv(st, sp, sh, k, others) && Removable(sh, k)
    ensures Parent(k) in sh.tabs && Slot(k) < 512
    ensures var a := sh.tabs[k];
      var r := Unlink(st, sp, sh.tabs[Parent(k)], Slot(k), a);
      && !r.Halt?
      && (r.Done? <==> DropSafe(st.limit, sp.vec, sp.list, a))
      && (r.Done? ==>
            var (st', sp') := r.value;
            && sp' == sp.(list := EraseFirst(sp.list, a)) && st'.limit == st.limit
            && OpenInv(st', sp', Unlinked(sh, k), Parent(k), others) && Kept(st, sp, sh, st', sp', Unlinked(sh, k)))
  {
    TableUnlinked(st, others, sp, sh, k);
    TightAfterUnlink(sh, k);
    ListedAfterUnlink(sp.root, sp, sh, k);
    EraseShortens(sp.list, sh.tabs[k]);
    hide Slot, Parent, SetEntry, FreeTable, VecPages, Placed, Coherent, TightBut, Listed, Frame, Managed, DropSafe,
      EraseFirst, Unlinked;
  }

  lemma SlotBound(k: Key)
    ensures Slot(k) < 512
  {
  }

  lemma UnlinkFrame(st: Store, sp: Space, sh: Shape, k: Key)
    requires Coherent(st.tables, sp.root, sh) && k in sh.tabs && Parent(k) in sh.tabs
    requires FreeTable(SetEntry(st, sh.tabs[Parent(k)], Slot(k), 0), sh.tabs[k]).Done?
    ensures Frame(st, sh, FreeTable(SetEntry(st, sh.tabs[Parent(k)], Slot(k), 0), sh.tabs[k]).value, Unlinked(sh, k))
  {
    hide Parent, Slot, EntryOf, TableOf;
    var sh' := Unlinked(sh, k);
    assert sh'.tabs.Values == sh.tabs.Values - {sh.tabs[k]} by {
      forall a | a in sh.tabs.Values - {sh.tabs[k]}
        ensures a in sh'.tabs.Values
      {
        var l :| l in sh.tabs && sh.tabs[l] == a;
        assert sh'.tabs[l] == a;
      }
    }
    assert sh.tabs[Parent(k)] in sh.tabs.Values && sh.tabs[k] in sh.tabs.Values;
  }

  // ---------------------------------------------------------------- clearing the leaf

  function WithoutPage(sh: Shape, w: nat): Shape {
    Shape(sh.tabs, sh.pages - {w})
  }

  lemma ClearedEntryOf(sh: Shape, w: nat, l: Key, i: nat)
    requires l.level > 0
    ensures EntryOf(WithoutPage(sh, w), l, i) == if l == TableOf(w) && i == w % 512 then 0 else EntryOf(sh, l, i)
  {
    hide MakeTableEntry;
  }

  function ClearedTables(tables: map<nat, Table>, sh: Shape, w: nat): map<nat, Table>
    requires TableOf(w) in sh.tabs && sh.tabs[TableOf(w)] in tables
  {
    var pt := sh.tabs[TableOf(w)];
    tables[pt := tables[pt][w % 512 := 0]]
  }

  lemma ClearedRooted(root: nat, sh: Shape, w: nat)
    requires Rooted(root, sh)
    ensures Rooted(root, WithoutPage(sh, w))
  {
    hide TableOf, Parent;
  }

  lemma ClearedStored(tables: map<nat, Table>, root: nat, sh: Shape, w: nat)
    requires Coherent(tables, root, sh) && TableOf(w) in sh.tabs
    ensures Coherent(ClearedTables(tables, sh, w), root, WithoutPage(sh, w))
  {
    hide MakeTableEntry, EntryOf;
    var k := TableOf(w);
    var sh', tables' := WithoutPage(sh, w), ClearedTables(tables, sh, w);
    ClearedRooted(root, sh, w);
    OneKeyEach(root, sh, k);
    hide Rooted, TableOf;
    forall l, i | l in sh'.tabs && 0 <= i < TABLE_WORDS
      ensures tables'[sh'.tabs[l]][i] == EntryOf(sh', l, i)
    {
      ClearedEntryOf(sh, w, l, i);
      assert tables[sh.tabs[l]][i] == EntryOf(sh, l, i);
      assert l == k || sh.tabs[l] != sh.tabs[k];
    }
  }

  lemma ClearLeafCorrect(st: Store, others: set<nat>, sp: Space, sh: Shape, w: nat)
    requires Placed(st, sp.vec, others) && SpaceInv(st, sp, sh) && TableOf(w) in sh.tabs
    ensures var pt := sh.tabs[TableOf(w)];
      && pt in st.tables
      && var st' := SetEntry(st, pt, w % 512, 0);
         OpenInv(st', sp, WithoutPage(sh, w), TableOf(w), others) && Kept(st, sp, sh, st', sp, WithoutPage(sh, w))
  {
    hide MakeTableEntry, TableOf, EntryOf, Managed, TightBut, Placed, Fits, Listed, Parent, Child;
    var pt := sh.tabs[TableOf(w)];
    assert pt in st.tables;
    SetKeepsPlaced(st, pt, w % 512, 0, sp.vec, others);
    ClearedStored(st.tables, sp.root, sh, w);
    ClearedTight(sh, w);
    ListedByTabs(sp, sh, WithoutPage(sh, w));
    assert pt in sh.tabs.Values;
  }

  lemma ClearedTight(sh: Shape, w: nat)
    requires Tight(sh)
    ensures TightBut(WithoutPage(sh, w), TableOf(w))
  {
    hide TableOf, Parent;
    var sh' := WithoutPage(sh, w);
    forall k | k in sh'.tabs && k.level < 4 && k != TableOf(w)
      ensures Used(sh', k)
    {
      assert Used(sh, k);
      if k.level == 1 {
        var u :| u in sh.pages && TableOf(u) == k;
        assert u in sh'.pages;
      }
    }
  }

  // ---------------------------------------------------------------- unmap_page_entry

  /** The pages left after the 2 MiB region of page w goes. */
  function DropRegion(pages: map<nat, Leaf>, w: nat): map<nat, Leaf> {
    map u | u in pages && TableOf(u) != TableOf(w) :: pages[u]
  }

  /** No other table has k's parent. */
  predicate OnlyChild(sh: Shape, k: Key) {
    forall c :: c in sh.tabs && c.level < 4 && Parent(c) == Parent(k) ==> c == k
  }

  /** The tables that go with page w: its page table, and those above it that are left empty. */
  function Gone(sh: Shape, w: nat): seq<Key> {
    var k1, k2, k3 := TableOf(w), KeyAt(2, w), KeyAt(3, w);
    if w !in sh.pages then []
    else if !OnlyChild(sh, k1) then [k1]
    else if !OnlyChild(sh, k2) then [k1, k2]
    else [k1, k2, k3]
  }

  /** Their addresses, in the order in which they are erased from the memory list. */
  function Bases(sh: Shape, ks: seq<Key>): seq<nat> {
    if ks == [] then []
    else [if ks[0] in sh.tabs then sh.tabs[ks[0]] else 0] + Bases(sh, ks[1..])
  }

  /** The space after unmapping page w: those tables and the page's region are gone. */
  function Cleared(sh: Shape, w: nat): Shape {
    if w in sh.pages then Shape(sh.tabs - (set k | k in Gone(sh, w)), DropRegion(sh.pages, w)) else sh
  }

  lemma RemovableLeafTable(sh: Shape, w: nat)
    requires TableOf(w) in sh.tabs
    ensures Removable(WithoutPage(sh, w), TableOf(w))
    ensures Unlinked(WithoutPage(sh, w), TableOf(w)) == Shape(sh.tabs - {TableOf(w)}, DropRegion(sh.pages, w))
  {
  }

  lemma UnlinkedAgain(sh: Shape, k: Key)
    requires k.level > 1
    ensures Unlinked(sh, k) == Shape(sh.tabs - {k}, sh.pages)
  {
  }

  /** A table that turned out empty can be unlinked; one that did not closes the gap. It is
      empty if the table unlinked before was its only child. */
  lemma ScanDecides(st: Store, sp: Space, sh: Shape, k: Key, others: set<nat>)
    requires OpenInv(st, sp, sh, k, others) && k in sh.tabs && 1 < k.level < 4
    ensures sh.tabs[k] in st.tables
    ensures AllZero(st.tables[sh.tabs[k]]) <==> Childless(sh, k)
    ensures AllZero(st.tables[sh.tabs[k]]) ==> Removable(sh, k)
    ensures !AllZero(st.tables[sh.tabs[k]]) ==> SpaceInv(st, sp, sh)
  {
    hide Placed, Listed, AllZero, EntryOf, Parent, Fits;
    ScanExact(st, sp, sh, k);
  }

  predicate Childless(sh: Shape, k: Key) {
    forall c :: c in sh.tabs && c.level < 4 ==> Parent(c) != k
  }

  lemma ChildlessAfter(sh: Shape, k: Key, tabs: map<Key, Word>, rest: map<Key, Word>, pages: map<nat, Leaf>)
    requires k in sh.tabs && 1 <= k.level < 4 && tabs == rest - {k}
    requires forall c :: c in sh.tabs && c.level == k.level ==> c in rest
    requires rest.Keys <= sh.tabs.Keys
    ensures Childless(Shape(tabs, pages), Parent(k)) <==> OnlyChild(sh, k)
  {
    forall c | c in sh.tabs && Parent(c) == Parent(k)
      ensures c.level == k.level
    {
      ParentLevel(c);
      ParentLevel(k);
    }
  }

  /** What unmapping page w must come to, from the state with its leaf cleared. */
  ghost predicate TailGood(st: Store, others: set<nat>, sp: Space, sh: Shape, w: nat, r: Outcome<(Store, Space)>) {
    var xs := Bases(sh, Gone(sh, w));
    && !r.Halt?
    && (r.Done? <==> DropsSafe(st.limit, sp.vec, sp.list, xs))
    && (r.Done? ==>
          var (st', sp') := r.value;
          && sp' == sp.(list := DropAll(sp.list, xs)) && st'.limit == st.limit
          && Placed(st', sp'.vec, others) && SpaceInv(st', sp', Cleared(sh, w))
          && Kept(st, sp, WithoutPage(sh, w), st', sp', Cleared(sh, w)))
  }

  /** The state after the tables at xs have been unlinked: open is the one that may be empty. */
  ghost predicate Stage(st: Store, others: set<nat>, sp: Space, sh: Shape, st1: Store, sp1: Space, sh1: Shape,
                        xs: seq<nat>, open: Key) {
    && DropsSafe(st.limit, sp.vec, sp.list, xs)
    && sp1 == sp.(list := DropAll(sp.list, xs)) && st1.limit == st.limit
    && OpenInv(st1, sp1, sh1, open, others) && Kept(st, sp, sh, st1, sp1, sh1)
  }

  lemma StageNext(st: Store, others: set<nat>, sp: Space, sh: Shape, st1: Store, sp1: Space, sh1: Shape,
                  xs: seq<nat>, k: Key)
    requires Stage(st, others, sp, sh, st1, sp1, sh1, xs, k) && Removable(sh1, k)
    ensures Parent(k) in sh1.tabs && Slot(k) < 512
    ensures var a := sh1.tabs[k];
      var r := Unlink(st1, sp1, sh1.tabs[Parent(k)], Slot(k), a);
      && !r.Halt?
      && (r.Done? <==> DropsSafe(st.limit, sp.vec, sp.list, xs + [a]))
      && (r.Done? ==>
            Stage(st, others, sp, sh, r.value.0, r.value.1, Unlinked(sh1, k), xs + [a], Parent(k)))
  {
    var a := sh1.tabs[k];
    UnlinkCorrect(st1, others, sp1, sh1, k);
    DropsAdd(st.limit, sp.vec, sp.list, xs, [a]);
    OneDrop(st.limit, sp.vec, sp1.list, a);
    hide Unlink, Parent, Slot, OpenInv, Kept, DropSafe, DropsSafe, DropAll, EraseFirst, Removable, Unlinked;
    var r := Unlink(st1, sp1, sh1.tabs[Parent(k)], Slot(k), a);
    if r.Done? {
      KeptTrans(st, sp, sh, st1, sp1, sh1, r.value.0, r.value.1, Unlinked(sh1, k));
    }
  }

  lemma OneDrop(limit: nat, vec: Vec, list: seq<nat>, x: nat)
    ensures DropsSafe(limit, vec, list, [x]) <==> DropSafe(limit, vec, list, x)
    ensures DropAll(list, [x]) == EraseFirst(list, x)
  {
    hide DropSafe, EraseFirst;
    assert [x][1..] == [];
    assert DropsSafe(limit, vec, EraseFirst(list, x), []);
    assert DropAll(EraseFirst(list, x), []) == EraseFirst(list, x);
  }

  /** The end of the tail: what was unlinked is what had to go. */
  lemma StageEnds(st: Store, others: set<nat>, sp: Space, sh: Shape, w: nat, st1: Store, sp1: Space, sh1: Shape,
                  open: Key)
    requires Stage(st, others, sp, WithoutPage(sh, w), st1, sp1, sh1, Bases(sh, Gone(sh, w)), open)
    requires SpaceInv(st1, sp1, sh1) && sh1 == Cleared(sh, w)
    ensures TailGood(st, others, sp, sh, w, Done((st1, sp1)))
  {
    hide SpaceInv, Kept, DropsSafe, DropAll, Cleared, Gone, Bases, Coherent, TightBut, Listed, Fits, Placed;
  }

  /** No table, one, two or three of the path go. */
  lemma BasesAre(sh: Shape, w: nat)
    requires w in sh.pages && TableOf(w) in sh.tabs && KeyAt(2, w) in sh.tabs && KeyAt(3, w) in sh.tabs
    ensures var a1, a2, a3 := sh.tabs[TableOf(w)], sh.tabs[KeyAt(2, w)], sh.tabs[KeyAt(3, w)];
      Bases(sh, Gone(sh, w))
        == if !OnlyChild(sh, TableOf(w)) then [a1]
           else if !OnlyChild(sh, KeyAt(2, w)) then [a1] + [a2]
           else [a1] + [a2] + [a3]
  {
    hide OnlyChild, KeyAt, TableOf;
    BasesOf(sh, TableOf(w), KeyAt(2, w), KeyAt(3, w));
  }

  lemma BasesOf(sh: Shape, k1: Key, k2: Key, k3: Key)
    requires k1 in sh.tabs && k2 in sh.tabs && k3 in sh.tabs
    ensures Bases(sh, [k1]) == [sh.tabs[k1]]
    ensures Bases(sh, [k1, k2]) == [sh.tabs[k1]] + [sh.tabs[k2]]
    ensures Bases(sh, [k1, k2, k3]) == [sh.tabs[k1]] + [sh.tabs[k2]] + [sh.tabs[k3]]
  {
    assert [k1][1..] == [] && [k2][1..] == [] && [k3][1..] == [];
    assert [k2, k3][1..] == [k3] && [k1, k2, k3][1..] == [k2, k3] && [k1, k2][1..] == [k2];
    assert Bases(sh, []) == [];
    assert Bases(sh, [k3]) == [sh.tabs[k3]];
    assert Bases(sh, [k2]) == [sh.tabs[k2]];
    assert Bases(sh, [k2, k3]) == [sh.tabs[k2]] + [sh.tabs[k3]];
  }

  lemma ClearedIs(sh: Shape, w: nat)
    requires w in sh.pages
    ensures var k1, k2, k3, pages := TableOf(w), KeyAt(2, w), KeyAt(3, w), DropRegion(sh.pages, w);
      Cleared(sh, w)
        == if !OnlyChild(sh, k1) then Shape(sh.tabs - {k1}, pages)
           else if !OnlyChild(sh, k2) then Shape(sh.tabs - {k1} - {k2}, pages)
           else Shape(sh.tabs - {k1} - {k2} - {k3}, pages)
  {
    hide OnlyChild, DropRegion, KeyAt, TableOf;
    var k1, k2, k3 := TableOf(w), KeyAt(2, w), KeyAt(3, w);
    assert (set k | k in [k1]) == {k1};
    assert (set k | k in [k1, k2]) == {k1, k2};
    assert (set k | k in [k1, k2, k3]) == {k1, k2, k3};
    assert sh.tabs - {k1} - {k2} == sh.tabs - {k1, k2};
    assert sh.tabs - {k1} - {k2} - {k3} == sh.tabs - {k1, k2, k3};
  }

  lemma StageStart(st: Store, others: set<nat>, sp: Space, sh: Shape, k: Key)
    requires OpenInv(st, sp, sh, k, others)
    ensures Stage(st, others, sp, sh, st, sp, sh, [], k)
  {
    hide OpenInv;
  }

  /** If some prefix of the erases is unsafe, the fault is the right outcome. */
  lemma TailFaults(st: Store, others: set<nat>, sp: Space, sh: Shape, w: nat, xs: seq<nat>, ys: seq<nat>)
    requires !DropsSafe(st.limit, sp.vec, sp.list, xs) && Bases(sh, Gone(sh, w)) == xs + ys
    ensures TailGood(st, others, sp, sh, w, Fault)
  {
    hide Bases, Gone, DropsSafe;
    DropsAdd(st.limit, sp.vec, sp.list, xs, ys);
  }

  /** The path of page w in a shape that has it. */
  ghost predicate OnPath(sh: Shape, w: nat) {
    w in sh.pages && TableOf(w) in sh.tabs && KeyAt(2, w) in sh.tabs && KeyAt(3, w) in sh.tabs
  }

  /** The last level: the pointer table, and the root's entry for it. */
  lemma PointersCorrect(st: Store, others: set<nat>, sp: Space, sh: Shape, v: Word, st2: Store, sp2: Space)
    requires var w := Vpn(v);
      var k3, k2, k1 := KeyAt(3, w), KeyAt(2, w), TableOf(w);
      && OnPath(sh, w) && OnlyChild(sh, k1)
      && Stage(st, others, sp, WithoutPage(sh, w), st2, sp2, Shape(sh.tabs - {k1} - {k2}, DropRegion(sh.pages, w)),
               [sh.tabs[k1]] + [sh.tabs[k2]], k3)
    ensures TailGood(st, others, sp, sh, Vpn(v), UnmapPointers(st2, sp2, v, sh.tabs[KeyAt(3, Vpn(v))]))
  {
    PathOf(v);
    hide Vpn, KeyAt, TableOf, Index, Slot, Parent, Unlink, AllZero, Stage, OpenInv, SpaceInv, Removable, Unlinked,
      Cleared, Gone, Bases, TailGood, OnlyChild, Childless, DropsSafe, DropAll, DropRegion, WithoutPage;
    var w := Vpn(v);
    var k3, k2, k1 := KeyAt(3, w), KeyAt(2, w), TableOf(w);
    var a1, a2, a3 := sh.tabs[k1], sh.tabs[k2], sh.tabs[k3];
    var sh0, sh2 := WithoutPage(sh, w), Shape(sh.tabs - {k1} - {k2}, DropRegion(sh.pages, w));
    BasesAre(sh, w);
    ClearedIs(sh, w);
    ChildlessAfter(sh, k2, sh2.tabs, sh.tabs - {k1}, sh2.pages);
    StageOpen(st, others, sp, sh0, st2, sp2, sh2, [a1] + [a2], k3);
    ScanDecides(st2, sp2, sh2, k3, others);
    if OnlyChild(sh, k2) {
      StageNext(st, others, sp, sh0, st2, sp2, sh2, [a1] + [a2], k3);
      UnlinkedAgain(sh2, k3);
      var r := Unlink(st2, sp2, sp2.root, Slot(k3), a3);
      if r.Done? {
        StageClosed(st, others, sp, sh0, r.value.0, r.value.1, Unlinked(sh2, k3), [a1] + [a2] + [a3]);
        StageEnds(st, others, sp, sh, w, r.value.0, r.value.1, Unlinked(sh2, k3), ROOT);
      } else {
        assert [a1] + [a2] + [a3] + [] == [a1] + [a2] + [a3];
        TailFaults(st, others, sp, sh, w, [a1] + [a2] + [a3], []);
      }
    } else {
      StageEnds(st, others, sp, sh, w, st2, sp2, sh2, k3);
    }
  }

  lemma StageOpen(st: Store, others: set<nat>, sp: Space, sh: Shape, st1: Store, sp1: Space, sh1: Shape,
                  xs: seq<nat>, k: Key)
    requires Stage(st, others, sp, sh, st1, sp1, sh1, xs, k)
    ensures OpenInv(st1, sp1, sh1, k, others) && ROOT in sh1.tabs && sh1.tabs[ROOT] == sp1.root
  {
  }

  lemma StageClosed(st: Store, others: set<nat>, sp: Space, sh: Shape, st1: Store, sp1: Space, sh1: Shape, xs: seq<nat>)
    requires Stage(st, others, sp, sh, st1, sp1, sh1, xs, ROOT)
    ensures SpaceInv(st1, sp1, sh1)
  {
  }

  /** The middle level: the page directory, and what is above it. */
  lemma DirectoryCorrect(st: Store, others: set<nat>, sp: Space, sh: Shape, v: Word, st1: Store, sp1: Space)
    requires var w := Vpn(v);
      var k2, k1 := KeyAt(2, w), TableOf(w);
      && OnPath(sh, w)
      && Stage(st, others, sp, WithoutPage(sh, w), st1, sp1, Shape(sh.tabs - {k1}, DropRegion(sh.pages, w)),
               [sh.tabs[k1]], k2)
    ensures TailGood(st, others, sp, sh, Vpn(v),
                     UnmapDirectory(st1, sp1, v, sh.tabs[KeyAt(3, Vpn(v))], sh.tabs[KeyAt(2, Vpn(v))]))
  {
    PathOf(v);
    hide Vpn, KeyAt, TableOf, Index, Slot, Parent, Unlink, AllZero, Stage, OpenInv, SpaceInv, Removable, Unlinked,
      Cleared, Gone, Bases, TailGood, OnlyChild, Childless, DropsSafe, DropAll, DropRegion, WithoutPage, UnmapPointers;
    var w := Vpn(v);
    var k3, k2, k1 := KeyAt(3, w), KeyAt(2, w), TableOf(w);
    var a1, a2, a3 := sh.tabs[k1], sh.tabs[k2], sh.tabs[k3];
    var sh0, sh1 := WithoutPage(sh, w), Shape(sh.tabs - {k1}, DropRegion(sh.pages, w));
    BasesAre(sh, w);
    ClearedIs(sh, w);
    ChildlessAfter(sh, k1, sh1.tabs, sh.tabs, sh1.pages);
    StageOpen(st, others, sp, sh0, st1, sp1, sh1, [a1], k2);
    ScanDecides(st1, sp1, sh1, k2, others);
    if OnlyChild(sh, k1) {
      StageNext(st, others, sp, sh0, st1, sp1, sh1, [a1], k2);
      UnlinkedAgain(sh1, k2);
      var r := Unlink(st1, sp1, a3, Slot(k2), a2);
      if r.Done? {
        PointersCorrect(st, others, sp, sh, v, r.value.0, r.value.1);
      } else {
        assert [a1] + [a2] + [] == [a1] + [a2];
        TailFaults(st, others, sp, sh, w, [a1] + [a2], if OnlyChild(sh, k2) then [a3] else []);
      }
    } else {
      StageEnds(st, others, sp, sh, w, st1, sp1, sh1, k2);
    }
  }

  /** The part of unmap_page_entry after the leaf is cleared. */
  lemma UnmapPresentCorrect(st: Store, others: set<nat>, sp: Space, sh: Shape, v: Word)
    requires OnPath(sh, Vpn(v)) && OpenInv(st, sp, WithoutPage(sh, Vpn(v)), TableOf(Vpn(v)), others)
    ensures var w := Vpn(v);
      TailGood(st, others, sp, sh, w,
               UnmapPresent(st, sp, v, sh.tabs[KeyAt(3, w)], sh.tabs[KeyAt(2, w)], sh.tabs[TableOf(w)]))
  {
    PathOf(v);
    hide Vpn, KeyAt, TableOf, Index, Slot, Parent, Unlink, AllZero, Stage, OpenInv, SpaceInv, Removable, Unlinked,
      Gone, Bases, TailGood, OnlyChild, DropsSafe, DropAll, DropRegion, UnmapDirectory;
    var w := Vpn(v);
    var k3, k2, k1 := KeyAt(3, w), KeyAt(2, w), TableOf(w);
    var a1, a2, a3 := sh.tabs[k1], sh.tabs[k2], sh.tabs[k3];
    var sh0 := WithoutPage(sh, w);
    RemovableLeafTable(sh, w);
    BasesAre(sh, w);
    StageStart(st, others, sp, sh0, k1);
    StageNext(st, others, sp, sh0, st, sp, sh0, [], k1);
    assert [] + [a1] == [a1];
    var r := Unlink(st, sp, a2, Slot(k1), a1);
    if r.Done? {
      DirectoryCorrect(st, others, sp, sh, v, r.value.0, r.value.1);
    } else {
      assert Bases(sh, Gone(sh, w)) == [a1] + Bases(sh, Gone(sh, w))[1..];
      TailFaults(st, others, sp, sh, w, [a1], Bases(sh, Gone(sh, w))[1..]);
    }
  }

  /** What the four entries on the path of v hold. */
  lemma PathEntries(st: Store, others: set<nat>, sp: Space, sh: Shape, v: Word)
    requires Separated(st, others) && Coherent(st.tables, sp.root, sh)
    ensures Index(v, 1) < 512 && Index(v, 2) < 512 && Index(v, 3) < 512 && Index(v, 4) < 512
    ensures var w := Vpn(v);
      var k3, k2, k1 := KeyAt(3, w), KeyAt(2, w), TableOf(w);
      && sp.root in st.tables
      && Follows(st.tables[sp.root][Index(v, 4)], sh, k3)
      && (k3 in sh.tabs ==> sh.tabs[k3] in st.tables && Follows(st.tables[sh.tabs[k3]][Index(v, 3)], sh, k2))
      && (k2 in sh.tabs ==>
            k3 in sh.tabs && sh.tabs[k2] in st.tables && Follows(st.tables[sh.tabs[k2]][Index(v, 2)], sh, k1))
      && (k1 in sh.tabs ==>
            k2 in sh.tabs && sh.tabs[k1] in st.tables && IsLeaf(st.tables[sh.tabs[k1]][Index(v, 1)], sh, w))
      && (w in sh.pages ==> k1 in sh.tabs)
  {
    PathOf(v);
    var w := Vpn(v);
    hide Vpn, KeyAt, Index, Slot, Parent, EntryOf, FrameMask, ShortMask, Present;
    assert ROOT in sh.tabs;
    EntryFollows(st, sp, sh, others, KeyAt(3, w));
    if KeyAt(3, w) in sh.tabs {
      EntryFollows(st, sp, sh, others, KeyAt(2, w));
    }
    if KeyAt(2, w) in sh.tabs {
      EntryFollows(st, sp, sh, others, KeyAt(1, w));
    }
    if TableOf(w) in sh.tabs {
      LeafEntry(st, sp, sh, w);
    }
    PathBounds(w);
  }

  lemma PathBounds(w: nat)
    ensures Slot(KeyAt(1, w)) < 512 && Slot(KeyAt(2, w)) < 512 && Slot(KeyAt(3, w)) < 512
  {
  }

  /** Entry e leads to table k, or is zero if k is not linked. */
  predicate Follows(e: Word, sh: Shape, k: Key) {
    if k in sh.tabs then Present(e) && FrameMask(e) == ShortMask(e) == sh.tabs[k] else !Present(e) && e == 0
  }

  predicate IsLeaf(e: Word, sh: Shape, w: nat) {
    if w in sh.pages then
      && Present(e) && FrameMask(e) == sh.pages[w].frame
      && e == MakeTableEntry(sh.pages[w].frame, sh.pages[w].flags)
    else !Present(e) && e == 0
  }

  lemma LeafEntry(st: Store, sp: Space, sh: Shape, w: nat)
    requires Coherent(st.tables, sp.root, sh) && TableOf(w) in sh.tabs
    ensures IsLeaf(st.tables[sh.tabs[TableOf(w)]][w % 512], sh, w)
  {
    var e := st.tables[sh.tabs[TableOf(w)]][w % 512];
    assert e == EntryOf(sh, TableOf(w), w % 512);
    PageOfTable(w);
    PresentIsOdd(0);
    if w in sh.pages {
      EntryParts(sh.pages[w].frame, sh.pages[w].flags);
    }
  }

  lemma PageOfTable(w: nat)
    ensures PageOf(TableOf(w), w % 512) == w
  {
  }

  /** unmap_page_entry on an unmapped page changes nothing; on a mapped page it never follows a
      bad address and never halts. It removes that page's 2 MiB region from the map and nothing
      else, with the tables left empty, and leaves the space good, if and only if each erase of
      a table from the memory list has the spare room its copy takes. */
  lemma UnmapEntryCorrect(st: Store, others: set<nat>, sp: Space, sh: Shape, v: Word)
    requires Placed(st, sp.vec, others) && SpaceInv(st, sp, sh)
    ensures var w := Vpn(v);
      var r, xs := UnmapEntry(st, sp, v), Bases(sh, Gone(sh, Vpn(v)));
      && !r.Halt?
      && (r.Done? <==> DropsSafe(st.limit, sp.vec, sp.list, xs))
      && (w !in sh.pages ==> r == Done((st, sp)))
      && (r.Done? ==>
            var (st', sp') := r.value;
            && sp' == sp.(list := DropAll(sp.list, xs))
            && Placed(st', sp'.vec, others) && SpaceInv(st', sp', Cleared(sh, w))
            && Kept(st, sp, sh, st', sp', Cleared(sh, w)))
  {
    PathEntries(st, others + VecPages(sp.vec), sp, sh, v);
    PathOf(v);
    var w := Vpn(v);
    hide Vpn, KeyAt, Index, Slot, Parent, TableOf, FrameMask, ShortMask, Present, Placed, Coherent, Tight, Listed,
      Fits, UnmapPresent, Kept, OpenInv, Cleared, Gone, Bases, DropsSafe, DropAll;
    Opened(st, sp, sh, others);
    if w in sh.pages {
      ClearLeafCorrect(st, others, sp, sh, w);
      var st1 := SetEntry(st, sh.tabs[TableOf(w)], Index(v, 1), 0);
      UnmapPresentCorrect(st1, others, sp, sh, v);
      hide SpaceInv;
      var r := UnmapPresent(st1, sp, v, sh.tabs[KeyAt(3, w)], sh.tabs[KeyAt(2, w)], sh.tabs[TableOf(w)]);
      if r.Done? {
        KeptTrans(st, sp, sh, st1, sp, WithoutPage(sh, w), r.value.0, r.value.1, Cleared(sh, w));
      }
    } else {
      NothingGone(sp, sh, w);
    }
  }

  lemma NothingGone(sp: Space, sh: Shape, w: nat)
    requires w !in sh.pages
    ensures Bases(sh, Gone(sh, w)) == [] && DropAll(sp.list, []) == sp.list && Cleared(sh, w) == sh
    ensures forall limit :: DropsSafe(limit, sp.vec, sp.list, [])
  {
  }

  /** So with spare room for any erase it completes. */
  lemma RoomyUnmaps(st: Store, others: set<nat>, sp: Space, sh: Shape, v: Word)
    requires Placed(st, sp.vec, others) && SpaceInv(st, sp, sh) && Roomy(sp.vec, LIST_ENTRY, |sp.list|)
    ensures UnmapEntry(st, sp, v).Done?
  {
    UnmapEntryCorrect(st, others, sp, sh, v);
    hide UnmapEntry, Coherent, Tight, Listed, Separated, DropsSafe, Bases, Gone, Cleared, LimitPages, VecPages, Kept,
      DropAll, Roomy;
    RoomyDropsSafe(st.limit, sp.vec, sp.list, Bases(sh, Gone(sh, Vpn(v))));
  }

  /** On a list of 274 to 340 tables, grown from empty, unmapping a page whose table is the
      last of the list writes behind the list's block. */
  lemma LongListFaults(st: Store, others: set<nat>, sp: Space, sh: Shape, v: Word)
    requires Placed(st, sp.vec, others) && SpaceInv(st, sp, sh)
    requires 274 <= |sp.list| <= 340 && sp.vec.cap == CapAfter(0, 0, |sp.list|, LIST_ENTRY)
    requires Vpn(v) in sh.pages && TableOf(Vpn(v)) in sh.tabs && sp.list[|sp.list| - 1] == sh.tabs[TableOf(Vpn(v))]
    ensures UnmapEntry(st, sp, v).Fault?
  {
    UnmapEntryCorrect(st, others, sp, sh, v);
    hide UnmapEntry, Coherent, Tight, NoDup, Placed, DropSafe, CapAfter, Vpn, TableOf, Gone, Bases, Kept, Cleared,
      DropAll;
    LastDropUnsafe(st.limit, sp.vec, sp.list);
    FirstBase(sh, Vpn(v));
  }

  lemma LastDropUnsafe(limit: nat, vec: Vec, list: seq<nat>)
    requires NoDup(list) && 274 <= |list| <= 340 && vec.cap == CapAfter(0, 0, |list|, LIST_ENTRY)
    ensures !DropSafe(limit, vec, list, list[|list| - 1])
  {
    LongListUnsafe(limit, vec.base, |list|);
    FirstOfLast(list);
    hide NoDup, EraseSafe, CapAfter, FirstIndex;
    assert vec == Vec(vec.base, 2720);
  }

  lemma FirstBase(sh: Shape, w: nat)
    requires w in sh.pages && TableOf(w) in sh.tabs
    ensures Bases(sh, Gone(sh, w)) != [] && Bases(sh, Gone(sh, w))[0] == sh.tabs[TableOf(w)]
  {
    hide OnlyChild, TableOf, KeyAt;
  }

  lemma FirstOfLast(list: seq<nat>)
    requires NoDup(list) && list != []
    ensures FirstIndex(list, list[|list| - 1]) == |list| - 1
  {
    assert list[..|list|] == list;
  }
}
