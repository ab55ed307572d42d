/** The whole memory manager: free pages, kmalloc blocks, the tables of every address space, and
    the blocks behind the memory lists and the log. */
module Systems {
  import opened Words
  import opened Frames
  import opened Growth
  import opened Tables
  import opened TableSteps
  import opened Replay

  /** A kmalloc block: the requested size and the payload pages after the header page. The
      payload pages of a block that became a root table are held by that table. */
  datatype Block = Data(size: Word, payload: seq<Byte>) | RootHeader {
    function Length(): nat {
      1 + if Data? then |payload| / PAGE_SIZE else 0
    }

    predicate Sized() {
      Data? ==> |payload| == PAGE_SIZE * NumPages(size)
    }
  }

  /** What marks the header of a live block. */
  const KMEM_MAGIC_NUMBER: Word := 0xBEEF_BEEF

  /** Blocks are known by their header page; space 0 is the kernel's. The blocks of the vectors
      are not among `blocks`: that of a memory list goes with its space, and that of the log,
      global_mem_map, is logVec. `structs` tells which block holds the ADDR_SPACE structure of a
      space; that of the kernel is a static variable. */
  datatype System = System(st: Store, blocks: map<nat, Block>, spaces: map<nat, Space>, structs: map<nat, nat>,
                           log: seq<Record>, logVec: Vec)

  /** Whose backing store a vector block is. */
  datatype Holder = TheLog | ListOf(space: nat)

  ghost function Vecs(s: System): map<Holder, Vec> {
    (map i | i in s.spaces :: ListOf(i) := s.spaces[i].vec)[TheLog := s.logVec]
  }

  ghost function VecsPages(vecs: map<Holder, Vec>): set<nat> {
    set h, p | h in vecs && p in VecPages(vecs[h]) :: p
  }

  /** What each address space stands for. */
  type Shapes = map<nat, Shape>

  ghost function BlockPages(blocks: map<nat, Block>): set<nat> {
    set b, p | b in blocks && p in Pages(b, blocks[b].Length()) :: p
  }

  /** All pages the memory manager hands around. */
  ghost function AllPages(s: System): set<nat> {
    ManagedAll(s.st, Vecs(s)) + BlockPages(s.blocks)
  }

  /** Free pages, pages of tables, and blocks of vectors. */
  ghost function ManagedAll(st: Store, vecs: map<Holder, Vec>): set<nat> {
    Managed(st) + VecsPages(vecs)
  }

  // ---------------------------------------------------------------- invariant

  ghost predicate BlocksApart(blocks: map<nat, Block>, limit: nat) {
    && (forall b :: b in blocks ==> 0 < b && b + blocks[b].Length() <= LimitPages(limit) && blocks[b].Sized())
    && (forall b, c :: b in blocks && c in blocks && b < c ==> b + blocks[b].Length() <= c)
  }

  ghost predicate SpacesGood(st: Store, spaces: map<nat, Space>, shapes: Shapes) {
    && spaces.Keys == shapes.Keys
    && (forall i :: i in spaces ==> SpaceInv(st, spaces[i], shapes[i]))
    && (forall i, j :: i in shapes && j in shapes && i != j ==> shapes[i].tabs.Values !! shapes[j].tabs.Values)
    && (forall a :: a in st.tables ==> exists i :: i in shapes && a in shapes[i].tabs.Values)
  }

  /** The invariant of every reachable state; `reserved` are pages never handed out, such as
      the bitmap's own. */
  ghost predicate SysInv(s: System, shapes: Shapes, reserved: set<nat>) {
    && Pool(s, reserved)
    && Housed(s.st, BlockPages(s.blocks) + reserved, Vecs(s))
    && SpacesGood(s.st, s.spaces, shapes)
  }

  /** The blocks of the vectors are apart from each other and from `rest`. */
  ghost predicate VecsApart(vecs: map<Holder, Vec>, rest: set<nat>, limit: nat) {
    && (forall h :: h in vecs ==> VecPages(vecs[h]) !! rest)
    && (forall h, p :: h in vecs && p in VecPages(vecs[h]) ==> 0 < p < LimitPages(limit))
    && (forall g, h :: g in vecs && h in vecs && g != h ==> VecPages(vecs[g]) !! VecPages(vecs[h]))
  }

  ghost predicate Housed(st: Store, rest: set<nat>, vecs: map<Holder, Vec>) {
    VecsApart(vecs, rest, st.limit) && Separated(st, rest + VecsPages(vecs))
  }

  /** The part that only concerns who holds which pages. */
  ghost predicate Pool(s: System, reserved: set<nat>) {
    && BlocksApart(s.blocks, s.st.limit)
    && BlockPages(s.blocks) !! reserved
    && Separated(s.st, BlockPages(s.blocks) + reserved)
  }

  // ---------------------------------------------------------------- who owns a page

  datatype Owner = FreeOwner | BlockOwner(base: nat) | TableOwner(space: nat, key: Key) | VecOwner(holder: Holder)

  ghost predicate Owns(s: System, shapes: Shapes, o: Owner, p: nat) {
    match o
    case FreeOwner => p in s.st.free
    case BlockOwner(b) => b in s.blocks && p in Pages(b, s.blocks[b].Length())
    case TableOwner(i, k) => i in shapes && k in shapes[i].tabs && p in Extent(shapes[i].tabs[k])
    case VecOwner(h) => h in Vecs(s) && p in VecPages(Vecs(s)[h])
  }

  /** In every good state each page that is handed around is free, or in exactly one kmalloc
      block, or in exactly one table of one address space, or in the block of exactly one
      vector: the memory list of one space, or the log. */
  lemma OneOwner(s: System, shapes: Shapes, reserved: set<nat>, p: nat)
    requires SysInv(s, shapes, reserved)
    ensures p in AllPages(s) <==> exists o :: Owns(s, shapes, o, p)
    ensures forall o, o' :: Owns(s, shapes, o, p) && Owns(s, shapes, o', p) ==> o == o'
    ensures p in reserved ==> p !in AllPages(s)
  {
    hide Pages, SpaceInv, Vecs, VecPages, Housed, Pool;
    KindsApart(s, shapes, reserved, p);
    forall o, o' | Owns(s, shapes, o, p) && Owns(s, shapes, o', p)
      ensures o == o'
    {
      OwnersAgree(s, shapes, reserved, p, o, o');
    }
    if p in Held(s.st.tables) {
      var a :| a in s.st.tables && p in Extent(a);
      var i :| i in shapes && a in shapes[i].tabs.Values;
      var k :| k in shapes[i].tabs && shapes[i].tabs[k] == a;
      assert Owns(s, shapes, TableOwner(i, k), p);
    }
    if p in BlockPages(s.blocks) {
      var b :| b in s.blocks && p in Pages(b, s.blocks[b].Length());
      assert Owns(s, shapes, BlockOwner(b), p);
    }
    if p in VecsPages(Vecs(s)) {
      var h :| h in Vecs(s) && p in VecPages(Vecs(s)[h]);
      assert Owns(s, shapes, VecOwner(h), p);
    }
    if p in s.st.free {
      assert Owns(s, shapes, FreeOwner, p);
    }
    if o :| Owns(s, shapes, o, p) {
      OwnedIsManaged(s, shapes, reserved, p, o);
    }
  }

  /** If it is one of these pages, p has exactly one owner, and otherwise none. */
  ghost predicate OwnedOnce(s: System, shapes: Shapes, pages: set<nat>, p: nat) {
    && (p in pages <==> exists o :: Owns(s, shapes, o, p))
    && (forall o, o' :: Owns(s, shapes, o, p) && Owns(s, shapes, o', p) ==> o == o')
  }

  ghost predicate Partition(s: System, shapes: Shapes, pages: set<nat>) {
    forall p: nat :: OwnedOnce(s, shapes, pages, p)
  }

  lemma AllPartitioned(s: System, shapes: Shapes, reserved: set<nat>)
    requires SysInv(s, shapes, reserved)
    ensures Partition(s, shapes, AllPages(s))
  {
    hide SysInv, AllPages, Owns;
    forall p: nat
      ensures OwnedOnce(s, shapes, AllPages(s), p)
    {
      OneOwner(s, shapes, reserved, p);
    }
  }

  lemma OwnedIsManaged(s: System, shapes: Shapes, reserved: set<nat>, p: nat, o: Owner)
    requires SysInv(s, shapes, reserved) && Owns(s, shapes, o, p)
    ensures p in AllPages(s)
    ensures o.TableOwner? ==> p in Held(s.st.tables)
    ensures o.BlockOwner? ==> p in BlockPages(s.blocks)
    ensures o.VecOwner? ==> p in VecsPages(Vecs(s))
  {
    hide Pages, Extent, SpaceInv, BlocksApart, Separated, Vecs, VecPages, Housed;
    if o.TableOwner? {
      var a := shapes[o.space].tabs[o.key];
      TableIsLive(s.st, s.spaces[o.space], shapes[o.space], o.key);
    }
  }

  lemma TableIsLive(st: Store, sp: Space, sh: Shape, k: Key)
    requires SpaceInv(st, sp, sh) && k in sh.tabs
    ensures sh.tabs[k] in st.tables
  {
  }

  lemma OwnersAgree(s: System, shapes: Shapes, reserved: set<nat>, p: nat, o: Owner, o': Owner)
    requires SysInv(s, shapes, reserved) && Owns(s, shapes, o, p) && Owns(s, shapes, o', p)
    ensures o == o'
  {
    OwnedIsManaged(s, shapes, reserved, p, o);
    OwnedIsManaged(s, shapes, reserved, p, o');
    hide Pages, SpaceInv, LimitPages, VecPages, Vecs, VecsPages;
    KindsApart(s, shapes, reserved, p);
    if o.BlockOwner? && o'.BlockOwner? {
      assert o.base < o'.base || o'.base < o.base || o == o';
    } else if o.VecOwner? && o'.VecOwner? {
      VecOwnersAgree(s.st, BlockPages(s.blocks) + reserved, Vecs(s), p, o.holder, o'.holder);
    } else if o.TableOwner? && o'.TableOwner? {
      TablesAgree(s, shapes, reserved, p, o.space, o.key, o'.space, o'.key);
    }
  }

  lemma VecOwnersAgree(st: Store, rest: set<nat>, vecs: map<Holder, Vec>, p: nat, g: Holder, h: Holder)
    requires Housed(st, rest, vecs) && g in vecs && h in vecs && p in VecPages(vecs[g]) && p in VecPages(vecs[h])
    ensures g == h
  {
    hide VecPages, Separated, VecsPages, LimitPages;
  }

  lemma KindsApart(s: System, shapes: Shapes, reserved: set<nat>, p: nat)
    requires SysInv(s, shapes, reserved)
    ensures !(p in s.st.free && p in Held(s.st.tables))
    ensures !(p in s.st.free && p in BlockPages(s.blocks))
    ensures !(p in BlockPages(s.blocks) && p in Held(s.st.tables))
    ensures p in VecsPages(Vecs(s)) ==> p !in s.st.free && p !in Held(s.st.tables) && p !in BlockPages(s.blocks)
    ensures p in reserved ==> p !in AllPages(s)
  {
    hide Pages, SpacesGood, BlockPages, VecPages, Vecs, LimitPages;
  }

  lemma SameBuffer(st: Store, others: set<nat>, a: nat, b: nat, p: nat)
    requires Separated(st, others) && a in st.tables && b in st.tables && p in Extent(a) && p in Extent(b)
    ensures a == b
  {
    hide Pages;
    assert a == b || a < b || b < a;
  }

  lemma TablesAgree(s: System, shapes: Shapes, reserved: set<nat>, p: nat, i: nat, k: Key, j: nat, l: Key)
    requires SysInv(s, shapes, reserved) && Owns(s, shapes, TableOwner(i, k), p) && Owns(s, shapes, TableOwner(j, l), p)
    ensures i == j && k == l
  {
    hide Pages, BlockPages, Extent, Separated, SpaceInv, BlocksApart;
    var a, b := shapes[i].tabs[k], shapes[j].tabs[l];
    TableIsLive(s.st, s.spaces[i], shapes[i], k);
    TableIsLive(s.st, s.spaces[j], shapes[j], l);
    SameBuffer(s.st, BlockPages(s.blocks) + reserved, a, b, p);
    SpaceOfTable(s.st, s.spaces, shapes, i, k, j, l);
    KeyOfTable(s.st, s.spaces[i], shapes[i], k, l);
  }

  lemma SpaceOfTable(st: Store, spaces: map<nat, Space>, shapes: Shapes, i: nat, k: Key, j: nat, l: Key)
    requires SpacesGood(st, spaces, shapes) && i in shapes && j in shapes
    requires k in shapes[i].tabs && l in shapes[j].tabs && shapes[i].tabs[k] == shapes[j].tabs[l]
    ensures i == j
  {
    hide SpaceInv;
    assert shapes[i].tabs[k] in shapes[i].tabs.Values;
    assert shapes[j].tabs[l] in shapes[j].tabs.Values;
  }

  lemma KeyOfTable(st: Store, sp: Space, sh: Shape, k: Key, l: Key)
    requires SpaceInv(st, sp, sh) && k in sh.tabs && l in sh.tabs && sh.tabs[k] == sh.tabs[l]
    ensures k == l
  {
    hide Stored;
  }

  // ---------------------------------------------------------------- one vector at a time

  /** What is not h's: everything apart from the free pages, the tables and h's own block. */
  ghost function Around(rest: set<nat>, vecs: map<Holder, Vec>, h: Holder): set<nat> {
    rest + VecsPages(vecs - {h})
  }

  lemma VecsSplit(vecs: map<Holder, Vec>, h: Holder)
    requires h in vecs
    ensures VecsPages(vecs) == VecsPages(vecs - {h}) + VecPages(vecs[h])
  {
    hide VecPages;
    var fewer := vecs - {h};
    forall p
      ensures p in VecsPages(vecs) <==> p in VecsPages(fewer) || p in VecPages(vecs[h])
    {
      if p in VecsPages(vecs) {
        var g :| g in vecs && p in VecPages(vecs[g]);
        assert g == h || (g in fewer && fewer[g] == vecs[g]);
      }
      if p in VecsPages(fewer) {
        var g :| g in fewer && p in VecPages(fewer[g]);
        assert g in vecs && vecs[g] == fewer[g];
      }
    }
  }

  /** One vector, with all others among the pages of others. */
  lemma PlaceOne(st: Store, rest: set<nat>, vecs: map<Holder, Vec>, h: Holder)
    requires Housed(st, rest, vecs) && h in vecs
    ensures Placed(st, vecs[h], Around(rest, vecs, h))
  {
    hide VecPages, Separated, LimitPages;
    VecsSplit(vecs, h);
    assert rest + VecsPages(vecs) == Around(rest, vecs, h) + VecPages(vecs[h]);
    forall p | p in VecsPages(vecs - {h})
      ensures p !in VecPages(vecs[h])
    {
      var g :| g in vecs - {h} && p in VecPages((vecs - {h})[g]);
      assert g in vecs && g != h && vecs[g] == (vecs - {h})[g];
    }
  }

  /** And back, when it has grown, or is new. */
  lemma PlaceBack(st: Store, rest: set<nat>, vecs: map<Holder, Vec>, h: Holder, vec: Vec)
    requires VecsApart(vecs, rest, st.limit) && Placed(st, vec, Around(rest, vecs, h))
    ensures Housed(st, rest, vecs[h := vec])
  {
    var after := vecs[h := vec];
    assert after - {h} == vecs - {h};
    VecsSplit(after, h);
    BackApart(st, rest, vecs, h, vec);
    hide VecPages, Separated, VecsPages, VecsApart;
    assert rest + VecsPages(after) == Around(rest, vecs, h) + VecPages(vec);
  }

  lemma BackApart(st: Store, rest: set<nat>, vecs: map<Holder, Vec>, h: Holder, vec: Vec)
    requires VecsApart(vecs, rest, st.limit) && Placed(st, vec, Around(rest, vecs, h))
    ensures VecsApart(vecs[h := vec], rest, st.limit)
  {
    hide VecPages, Separated, LimitPages;
    forall g | g in vecs && g != h
      ensures VecPages(vecs[g]) !! VecPages(vec)
    {
      assert g in vecs - {h} && (vecs - {h})[g] == vecs[g];
      assert VecPages(vecs[g]) <= VecsPages(vecs - {h});
    }
  }

  /** If free pages, tables and one vector keep their pages among them, so do all. */
  lemma ManagedStays(st: Store, st': Store, vecs: map<Holder, Vec>, h: Holder, vec: Vec)
    requires h in vecs && ManagedWith(st', vec) == ManagedWith(st, vecs[h])
    ensures ManagedAll(st', vecs[h := vec]) == ManagedAll(st, vecs)
  {
    hide VecPages, Managed, VecsPages;
    VecsSplit(vecs, h);
    VecsSplit(vecs[h := vec], h);
    assert vecs[h := vec] - {h} == vecs - {h};
    assert ManagedAll(st', vecs[h := vec]) == ManagedWith(st', vec) + VecsPages(vecs - {h});
    assert ManagedAll(st, vecs) == ManagedWith(st, vecs[h]) + VecsPages(vecs - {h});
  }

  /** A vector without a block takes no place. */
  lemma EmptyPlaced(st: Store, rest: set<nat>, vecs: map<Holder, Vec>, h: Holder)
    requires Housed(st, rest, vecs) && h !in vecs
    ensures Housed(st, rest, vecs[h := NO_VEC]) && ManagedAll(st, vecs[h := NO_VEC]) == ManagedAll(st, vecs)
  {
    hide VecPages, Separated, VecsApart, Managed, VecsPages;
    EmptyApart(vecs, rest, st.limit, h);
    NoPagesAdded(vecs, h);
  }

  lemma EmptyApart(vecs: map<Holder, Vec>, rest: set<nat>, limit: nat, h: Holder)
    requires VecsApart(vecs, rest, limit) && h !in vecs
    ensures VecsApart(vecs[h := NO_VEC], rest, limit)
  {
    assert VecPages(NO_VEC) == {};
    hide VecPages, LimitPages;
  }

  lemma NoPagesAdded(vecs: map<Holder, Vec>, h: Holder)
    requires h !in vecs
    ensures VecsPages(vecs[h := NO_VEC]) == VecsPages(vecs)
  {
    assert VecPages(NO_VEC) == {};
    hide VecPages;
    VecsSplit(vecs[h := NO_VEC], h);
    hide VecsPages;
    assert vecs[h := NO_VEC] - {h} == vecs;
  }

  lemma FewerOthers(st: Store, others: set<nat>, fewer: set<nat>)
    requires Separated(st, others) && fewer <= others
    ensures Separated(st, fewer)
  {
    hide LimitPages;
  }

  /** Pages that leave the free ones for a new owner, or come back from one. */
  lemma HousedTake(st: Store, rest: set<nat>, vecs: map<Holder, Vec>, run: set<nat>)
    requires Housed(st, rest, vecs) && run <= st.free
    ensures Housed(st.(free := st.free - run), rest + run, vecs)
  {
    hide VecPages, LimitPages;
    BlockTakesFree(st, rest + VecsPages(vecs), run);
    FreeRange(st, rest + VecsPages(vecs));
    VecsInAll(vecs);
    hide Separated, VecsPages;
    assert rest + run + VecsPages(vecs) == rest + VecsPages(vecs) + run;
  }

  lemma VecsInAll(vecs: map<Holder, Vec>)
    ensures forall h :: h in vecs ==> VecPages(vecs[h]) <= VecsPages(vecs)
  {
    hide VecPages;
  }

  lemma HousedGive(st: Store, rest: set<nat>, vecs: map<Holder, Vec>, run: set<nat>)
    requires Housed(st, rest + run, vecs) && run !! rest
    requires forall p :: p in run ==> 0 < p < LimitPages(st.limit)
    ensures Housed(st.(free := st.free + run), rest, vecs)
  {
    hide VecPages, LimitPages;
    assert rest + run + VecsPages(vecs) == rest + VecsPages(vecs) + run;
    assert run !! VecsPages(vecs);
    hide Separated, VecsPages;
    BlockGivesFree(st, rest + VecsPages(vecs), run);
  }

  // ---------------------------------------------------------------- kmalloc blocks

  /** Handing a run of free pages to a new block. */
  function AddBlock(s: System, b: nat, blk: Block): System {
    s.(st := s.st.(free := s.st.free - Pages(b, blk.Length())), blocks := s.blocks[b := blk])
  }

  /** Returning a block's pages. */
  function DropBlock(s: System, b: nat): System
    requires b in s.blocks
  {
    s.(st := s.st.(free := s.st.free + Pages(b, s.blocks[b].Length())), blocks := s.blocks - {b})
  }

  lemma BlockPagesSplit(blocks: map<nat, Block>, b: nat)
    requires b in blocks
    ensures BlockPages(blocks) == BlockPages(blocks - {b}) + Pages(b, blocks[b].Length())
  {
    hide Pages;
    var rest := blocks - {b};
    forall p
      ensures p in BlockPages(blocks) <==> p in BlockPages(rest) || p in Pages(b, blocks[b].Length())
    {
      if p in BlockPages(blocks) {
        var c :| c in blocks && p in Pages(c, blocks[c].Length());
        assert c == b || (c in rest && rest[c] == blocks[c]);
      }
      if p in BlockPages(rest) {
        var c :| c in rest && p in Pages(c, rest[c].Length());
        assert c in blocks && rest[c] == blocks[c];
      }
    }
  }

  lemma AddBlockKeeps(s: System, shapes: Shapes, reserved: set<nat>, b: nat, blk: Block)
    requires SysInv(s, shapes, reserved) && blk.Sized()
    requires Pages(b, blk.Length()) <= s.st.free
    ensures b !in s.blocks
    ensures SysInv(AddBlock(s, b, blk), shapes, reserved) && AllPages(AddBlock(s, b, blk)) == AllPages(s)
  {
    hide Pool, SpacesGood, Housed, BlockPages, ManagedAll, Pages;
    AddBlockPool(s, reserved, b, blk);
    SameSpaces(s.st, AddBlock(s, b, blk).st, s.spaces, shapes);
    var s' := AddBlock(s, b, blk);
    HousedTake(s.st, BlockPages(s.blocks) + reserved, Vecs(s), Pages(b, blk.Length()));
    BlockPagesSplit(s'.blocks, b);
    assert s'.blocks - {b} == s.blocks;
    assert BlockPages(s'.blocks) + reserved == BlockPages(s.blocks) + reserved + Pages(b, blk.Length());
    MovedPages(s.st, s'.st, Vecs(s), BlockPages(s.blocks), BlockPages(s'.blocks));
  }

  lemma AddBlockPool(s: System, reserved: set<nat>, b: nat, blk: Block)
    requires Pool(s, reserved) && blk.Sized()
    requires Pages(b, blk.Length()) <= s.st.free
    ensures b !in s.blocks
    ensures var s' := AddBlock(s, b, blk);
      Pool(s', reserved) && Managed(s'.st) + BlockPages(s'.blocks) == Managed(s.st) + BlockPages(s.blocks)
  {
    hide Pages, SpacesGood, Managed, Separated, BlockPages, BlocksApart;
    var s' := AddBlock(s, b, blk);
    AddedApart(s, reserved, b, blk);
    BlockPagesSplit(s'.blocks, b);
    assert s'.blocks - {b} == s.blocks;
    FreeAndReserved(s, reserved, Pages(b, blk.Length()));
    BlockTakesFree(s.st, BlockPages(s.blocks) + reserved, Pages(b, blk.Length()));
    assert BlockPages(s'.blocks) + reserved == BlockPages(s.blocks) + reserved + Pages(b, blk.Length());
  }

  /** Pages handed over between the free ones and the blocks stay among all pages. */
  lemma MovedPages(st: Store, st': Store, vecs: map<Holder, Vec>, blocks: set<nat>, blocks': set<nat>)
    requires Managed(st') + blocks' == Managed(st) + blocks
    ensures ManagedAll(st', vecs) + blocks' == ManagedAll(st, vecs) + blocks
  {
    hide Managed, VecsPages;
    assert ManagedAll(st', vecs) + blocks' == Managed(st') + blocks' + VecsPages(vecs);
    assert ManagedAll(st, vecs) + blocks == Managed(st) + blocks + VecsPages(vecs);
  }

  lemma AddedApart(s: System, reserved: set<nat>, b: nat, blk: Block)
    requires Pool(s, reserved) && blk.Sized() && Pages(b, blk.Length()) <= s.st.free
    ensures b !in s.blocks && BlocksApart(s.blocks[b := blk], s.st.limit)
  {
    RunBelowLimit(s.st, BlockPages(s.blocks) + reserved, b, blk.Length());
    NewBlockApart(s, reserved, b, blk.Length());
    hide Pages, Separated, SpacesGood, BlockPages, LimitPages;
  }

  lemma RunBelowLimit(st: Store, others: set<nat>, b: nat, n: nat)
    requires Separated(st, others) && n > 0 && Pages(b, n) <= st.free
    ensures 0 < b && b + n <= LimitPages(st.limit)
  {
    assert b in Pages(b, n) && b + n - 1 in Pages(b, n);
  }

  lemma NewBlockApart(s: System, reserved: set<nat>, b: nat, n: nat)
    requires Pool(s, reserved) && n > 0 && Pages(b, n) <= s.st.free
    ensures b !in s.blocks
    ensures forall c :: c in s.blocks ==> c + s.blocks[c].Length() <= b || b + n <= c
  {
    hide Pages, SpacesGood, BlockPages;
    forall c | c in s.blocks
      ensures c != b && (c + s.blocks[c].Length() <= b || b + n <= c)
    {
      assert b in Pages(b, n);
      assert c in Pages(c, s.blocks[c].Length());
      PageInBlock(s.blocks, c, c);
      assert c in Pages(b, n) <==> b <= c < b + n;
      if c <= b < c + s.blocks[c].Length() {
        PageInBlock(s.blocks, c, b);
      }
    }
  }

  lemma PageInBlock(blocks: map<nat, Block>, b: nat, p: nat)
    requires b in blocks && p in Pages(b, blocks[b].Length())
    ensures p in BlockPages(blocks)
  {
  }

  lemma FreeAndReserved(s: System, reserved: set<nat>, run: set<nat>)
    requires Pool(s, reserved) && run <= s.st.free
    ensures run !! reserved
  {
    hide BlockPages, Pages, SpacesGood;
  }

  lemma SameSpaces(st: Store, st': Store, spaces: map<nat, Space>, shapes: Shapes)
    requires SpacesGood(st, spaces, shapes) && st'.tables == st.tables
    ensures SpacesGood(st', spaces, shapes)
  {
    hide Coherent, Tight, Listed;
  }

  lemma DropBlockKeeps(s: System, shapes: Shapes, reserved: set<nat>, b: nat)
    requires SysInv(s, shapes, reserved) && b in s.blocks
    ensures SysInv(DropBlock(s, b), shapes, reserved) && AllPages(DropBlock(s, b)) == AllPages(s)
    ensures Pages(b, s.blocks[b].Length()) !! s.st.free
  {
    hide Pool, SpacesGood, Housed, BlockPages, ManagedAll, Pages;
    DropBlockPool(s, reserved, b);
    SameSpaces(s.st, DropBlock(s, b).st, s.spaces, shapes);
    var s' := DropBlock(s, b);
    var run := Pages(b, s.blocks[b].Length());
    RestApart(s, reserved, b);
    BlockPagesSplit(s.blocks, b);
    assert BlockPages(s.blocks) + reserved == BlockPages(s'.blocks) + reserved + run;
    HousedGive(s.st, BlockPages(s'.blocks) + reserved, Vecs(s), run);
    MovedPages(s.st, s'.st, Vecs(s), BlockPages(s.blocks), BlockPages(s'.blocks));
  }

  lemma DropBlockPool(s: System, reserved: set<nat>, b: nat)
    requires Pool(s, reserved) && b in s.blocks
    ensures var s' := DropBlock(s, b);
      Pool(s', reserved) && Managed(s'.st) + BlockPages(s'.blocks) == Managed(s.st) + BlockPages(s.blocks)
    ensures Pages(b, s.blocks[b].Length()) !! s.st.free
  {
    hide Pages, SpacesGood, Managed, Separated, BlockPages, BlocksApart;
    var s' := DropBlock(s, b);
    var run := Pages(b, s.blocks[b].Length());
    BlockPagesSplit(s.blocks, b);
    FewerApart(s.blocks, s.st.limit, b);
    RestApart(s, reserved, b);
    BlockGivesFree(s.st, BlockPages(s'.blocks) + reserved, run);
  }

  lemma FewerApart(blocks: map<nat, Block>, limit: nat, b: nat)
    requires BlocksApart(blocks, limit)
    ensures BlocksApart(blocks - {b}, limit)
  {
  }

  lemma RestApart(s: System, reserved: set<nat>, b: nat)
    requires Pool(s, reserved) && b in s.blocks
    ensures var run, rest := Pages(b, s.blocks[b].Length()), BlockPages(s.blocks - {b});
      && run !! rest + reserved && run !! s.st.free
      && forall p :: p in run ==> 0 < p < LimitPages(s.st.limit)
    ensures Separated(s.st, BlockPages(s.blocks - {b}) + reserved + Pages(b, s.blocks[b].Length()))
  {
    var run, rest := Pages(b, s.blocks[b].Length()), BlockPages(s.blocks - {b});
    BlockPagesSplit(s.blocks, b);
    BlockRange(s.blocks, s.st.limit, b);
    hide Pages, SpacesGood, BlockPages;
    forall p | p in run
      ensures p !in rest
    {
      NotInRest(s.blocks, s.st.limit, b, p);
    }
    assert BlockPages(s.blocks) + reserved == rest + reserved + run;
  }

  lemma BlockRange(blocks: map<nat, Block>, limit: nat, b: nat)
    requires BlocksApart(blocks, limit) && b in blocks
    ensures forall p :: p in Pages(b, blocks[b].Length()) ==> 0 < p < LimitPages(limit)
  {
    hide Pages;
  }

  lemma NotInRest(blocks: map<nat, Block>, limit: nat, b: nat, p: nat)
    requires BlocksApart(blocks, limit) && b in blocks && p in Pages(b, blocks[b].Length())
    ensures p !in BlockPages(blocks - {b})
  {
    hide Pages;
    forall c | c in blocks && c != b
      ensures p !in Pages(c, blocks[c].Length())
    {
      assert b < c || c < b;
    }
  }
}
