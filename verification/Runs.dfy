/** Every interleaving of kmalloc, kfree, krealloc, writes to blocks, vm_map, vm_unmap and
    create_address_space, from boot on. */
module Runs {
  import opened Words
  import opened Wrappers
  import opened Bytes
  import opened Frames
  import opened Growth
  import opened Boot
  import opened Tables
  import opened TableSteps
  import opened Lookup
  import opened Ranges
  import opened Replay
  import opened Init
  import opened Systems
  import opened Calls

  // ---------------------------------------------------------------- one space changes

  /** Tables outside a space do not matter to it. */
  lemma SpaceInvFrame(st: Store, st': Store, sp: Space, sh: Shape)
    requires SpaceInv(st, sp, sh)
    requires forall a :: a in sh.tabs.Values && a in st.tables ==> a in st'.tables && st'.tables[a] == st.tables[a]
    ensures SpaceInv(st', sp, sh)
  {
    hide EntryOf, Tight, Listed;
    forall k | k in sh.tabs
      ensures sh.tabs[k] in st'.tables && st'.tables[sh.tabs[k]] == st.tables[sh.tabs[k]]
    {
      assert sh.tabs[k] in sh.tabs.Values && sh.tabs[k] in st.tables;
    }
  }

  lemma ValuesLive(st: Store, sp: Space, sh: Shape)
    requires SpaceInv(st, sp, sh)
    ensures sh.tabs.Values <= st.tables.Keys
  {
    hide EntryOf, Tight, Listed;
  }

  /** An operation on one space that keeps its frame leaves all other spaces as they were. */
  lemma OneSpaceChanges(st: Store, spaces: map<nat, Space>, shapes: Shapes, i: nat, st': Store, sp': Space, sh': Shape)
    requires SpacesGood(st, spaces, shapes) && i in spaces
    requires SpaceInv(st', sp', sh') && Frame(st, shapes[i], st', sh')
    ensures SpacesGood(st', spaces[i := sp'], shapes[i := sh'])
  {
    hide SpaceInv;
    forall j | j in spaces && j != i
      ensures SpaceInv(st', spaces[j], shapes[j]) && shapes[j].tabs.Values !! sh'.tabs.Values
    {
      ValuesLive(st, spaces[j], shapes[j]);
      assert shapes[j].tabs.Values !! shapes[i].tabs.Values;
      SpaceInvFrame(st, st', spaces[j], shapes[j]);
    }
    StillCovered(st, shapes, i, st', sh', shapes[i := sh']);
  }

  lemma StillCovered(st: Store, shapes: Shapes, i: nat, st': Store, sh': Shape, shapes': Shapes)
    requires i in shapes && Frame(st, shapes[i], st', sh') && shapes' == shapes[i := sh']
    requires forall a :: a in st.tables ==> exists j :: j in shapes && a in shapes[j].tabs.Values
    ensures forall a :: a in st'.tables ==> exists j :: j in shapes' && a in shapes'[j].tabs.Values
  {
    forall a | a in st'.tables
      ensures exists j :: j in shapes' && a in shapes'[j].tabs.Values
    {
      if a in sh'.tabs.Values {
        assert a in shapes'[i].tabs.Values;
      } else {
        var j :| j in shapes && a in shapes[j].tabs.Values;
        assert a in shapes'[j].tabs.Values;
      }
    }
  }

  /** Replacing the space i of a system, and the block of the log. */
  function WithSpace(s: System, i: nat, st': Store, lv: Vec, sp': Space): System {
    s.(st := st', spaces := s.spaces[i := sp'], logVec := lv)
  }

  lemma VecsMoved(s: System, i: nat, st': Store, lv: Vec, sp': Space)
    ensures Vecs(WithSpace(s, i, st', lv, sp')) == Moved(Vecs(s), i, lv, sp')
  {
    hide Vecs;
    var before, after := Vecs(s), Vecs(WithSpace(s, i, st', lv, sp'));
    forall h
      ensures h in after <==> h in Moved(before, i, lv, sp')
      ensures h in after ==> after[h] == Moved(before, i, lv, sp')[h]
    {
      VecIs(s, h);
      VecIs(WithSpace(s, i, st', lv, sp'), h);
    }
  }

  lemma VecIs(s: System, h: Holder)
    ensures h in Vecs(s) <==> h.TheLog? || h.space in s.spaces
    ensures h in Vecs(s) ==> Vecs(s)[h] == if h.TheLog? then s.logVec else s.spaces[h.space].vec
  {
    if h.ListOf? && h.space in s.spaces {
      assert ListOf(h.space) in Vecs(s);
    }
  }

  /** The pages that neither the tables nor a vector may touch. */
  ghost function Rest(s: System, reserved: set<nat>): set<nat> {
    BlockPages(s.blocks) + reserved
  }

  lemma SpaceReady(s: System, shapes: Shapes, reserved: set<nat>, i: nat)
    requires SysInv(s, shapes, reserved) && i in s.spaces
    ensures i in shapes && CallReady(s.st, Rest(s, reserved), Vecs(s), i, s.logVec, s.spaces[i], shapes[i])
  {
    hide SpaceInv, Housed, BlockPages, Pool;
  }

  lemma SpaceStepKeeps(s: System, shapes: Shapes, reserved: set<nat>, i: nat, st': Store, lv: Vec, sp': Space,
                       sh': Shape)
    requires SysInv(s, shapes, reserved) && i in s.spaces && i in shapes
    requires CallReady(st', Rest(s, reserved), Moved(Vecs(s), i, lv, sp'), i, lv, sp', sh')
    requires KeptAll(s.st, Vecs(s), s.spaces[i], shapes[i], st', Moved(Vecs(s), i, lv, sp'), sp', sh')
    ensures SysInv(WithSpace(s, i, st', lv, sp'), shapes[i := sh'], reserved)
    ensures AllPages(WithSpace(s, i, st', lv, sp')) == AllPages(s) && st'.limit == s.st.limit
  {
    hide BlockPages, SpaceInv, SpacesGood, ManagedAll, Vecs, Moved, Housed, Separated, BlocksApart, Frame;
    VecsMoved(s, i, st', lv, sp');
    FrameLimit(s.st, shapes[i], st', sh');
    OneSpaceChanges(s.st, s.spaces, shapes, i, st', sp', sh');
    HousedSeparated(st', Rest(s, reserved), Moved(Vecs(s), i, lv, sp'));
  }

  lemma FrameLimit(st: Store, sh: Shape, st': Store, sh': Shape)
    requires Frame(st, sh, st', sh')
    ensures st'.limit == st.limit
  {
  }

  lemma HousedSeparated(st: Store, rest: set<nat>, vecs: map<Holder, Vec>)
    requires Housed(st, rest, vecs)
    ensures Separated(st, rest)
  {
    hide VecsPages, VecsApart, Separated;
    FewerOthers(st, rest + VecsPages(vecs), rest);
  }

  // ---------------------------------------------------------------- structures

  /** sizeof(ADDR_SPACE). */
  const ADDR_SPACE_SIZE: Word := 48

  predicate IsData(s: System, b: nat) {
    b in s.blocks && s.blocks[b].Data?
  }

  predicate IsStruct(s: System, b: nat) {
    IsData(s, b) && s.blocks[b].size == 48
  }

  /** Every space but the kernel's has its structure in a block of its own. */
  ghost predicate StructsGood(s: System) {
    && s.structs.Keys == s.spaces.Keys - {0}
    && (forall i :: i in s.structs ==> IsStruct(s, s.structs[i]))
    && (forall i, j :: i in s.structs && j in s.structs && i != j ==> s.structs[i] != s.structs[j])
  }

  /** The blocks of s are in t what they were. */
  ghost predicate BlocksStay(s: System, t: System) {
    forall b :: b in s.blocks ==> b in t.blocks && t.blocks[b] == s.blocks[b]
  }

  /** The structures of s are in t what they were, where they were. */
  ghost predicate StructsStay(s: System, t: System) {
    forall i :: i in s.structs ==>
      && i in t.structs && t.structs[i] == s.structs[i]
      && s.structs[i] in s.blocks && s.structs[i] in t.blocks && t.blocks[s.structs[i]] == s.blocks[s.structs[i]]
  }

  lemma StructsKept(s: System, t: System)
    requires StructsGood(s) && t.structs == s.structs && t.spaces.Keys - {0} == s.spaces.Keys - {0}
    requires forall b :: b in s.blocks && b in s.structs.Values ==> b in t.blocks && t.blocks[b] == s.blocks[b]
    ensures StructsGood(t) && StructsStay(s, t)
  {
    assert forall i :: i in s.structs ==> s.structs[i] in s.structs.Values;
  }

  lemma StructAddedTo(s: System, t: System, i: nat, b: nat)
    requires StructsGood(s) && i != 0 && i !in s.spaces && b !in s.blocks && BlocksStay(s, t) && IsStruct(t, b)
    requires t.structs == s.structs[i := b] && t.spaces.Keys == s.spaces.Keys + {i}
    ensures StructsGood(t) && StructsStay(s, t)
  {
  }

  lemma StructsStayOn(s: System, t: System, u: System)
    requires StructsStay(s, t) && StructsStay(t, u)
    ensures StructsStay(s, u)
  {
  }

  // ---------------------------------------------------------------- a new root table

  function EmptyShape(root: Word): Shape {
    Shape(map[ROOT := root], map[])
  }

  /** kmalloc(PAGE_SIZE * DEFAULT_PAGES) whose payload becomes the root of space i. */
  function AddRoot(s: System, i: nat): Outcome<(System, Word)> {
    match FirstFit(s.st.free, 1 + DEFAULT_PAGES, 0, s.st.limit)
    case None => Halt
    case Some(a) =>
      var root := a + PAGE_SIZE;
      if root >= TWO64 then Fault
      else
        var s1 := AddBlock(s, a / PAGE_SIZE, RootHeader);
        Done((WithSpace(s1, i, WithRoot(s1.st, root), s1.logVec, Space(root, [], NO_VEC)), root))
  }

  /** A zeroed buffer at root. */
  function WithRoot(st: Store, root: Word): Store {
    Store(st.limit, st.free - Extent(root), st.tables[root := ZEROS])
  }

  /** A zeroed root is a good, empty space. */
  lemma EmptySpaceGood(st: Store, root: Word)
    requires root in st.tables && st.tables[root] == ZEROS
    ensures SpaceInv(st, Space(root, [], NO_VEC), EmptyShape(root))
  {
    var sh := EmptyShape(root);
    forall k, i | k in sh.tabs && 0 <= i < TABLE_WORDS
      ensures st.tables[sh.tabs[k]][i] == EntryOf(sh, k, i)
    {
      if i < 512 {
        assert Child(ROOT, i).level == 3;
      }
    }
  }

  lemma RootFits(free: set<nat>, limit: Word, a: nat)
    requires FirstFit(free, 1 + DEFAULT_PAGES, 0, limit) == Some(a)
    requires forall p :: p in free ==> 0 < p < LimitPages(limit)
    ensures a % PAGE_SIZE == 0 && a > 0 && a + PAGE_SIZE < TWO64
    ensures Pages(a / PAGE_SIZE, 1) <= free && Extent(a + PAGE_SIZE) <= free
    ensures Pages(a / PAGE_SIZE, 1) !! Extent(a + PAGE_SIZE)
  {
    FirstFitExact(free, 1 + DEFAULT_PAGES, 0, limit);
    assert Steps(0, a);
    var p := a / PAGE_SIZE;
    hide Pages, FirstFit;
    assert a == PAGE_SIZE * p && (a + PAGE_SIZE) / PAGE_SIZE == p + 1;
    assert p in Pages(p, 9) && p + 8 in Pages(p, 9);
    assert forall q :: q in Pages(p, 1) || q in Pages(p + 1, 8) ==> q in Pages(p, 9);
  }

  lemma FreeBounds(s: System, shapes: Shapes, reserved: set<nat>)
    requires SysInv(s, shapes, reserved)
    ensures forall p :: p in s.st.free ==> 0 < p < LimitPages(s.st.limit)
  {
    hide SpacesGood, BlocksApart, BlockPages, LimitPages, Housed;
  }

  lemma AddRootKeeps(s: System, shapes: Shapes, reserved: set<nat>, i: nat)
    requires SysInv(s, shapes, reserved) && i !in s.spaces
    ensures !AddRoot(s, i).Fault?
    ensures AddRoot(s, i).Done? ==>
      var (s', root) := AddRoot(s, i).value;
      && SysInv(s', shapes[i := EmptyShape(root)], reserved) && AllPages(s') == AllPages(s)
      && i in s'.spaces && s'.spaces[i] == Space(root, [], NO_VEC) && s'.st.limit == s.st.limit
      && s'.spaces.Keys == s.spaces.Keys + {i} && s'.log == s.log && s'.logVec == s.logVec
      && s'.structs == s.structs && BlocksStay(s, s')
  {
    hide SysInv, Pages, Extent, FirstFit, AllPages;
    var r := FirstFit(s.st.free, 1 + DEFAULT_PAGES, 0, s.st.limit);
    if r.Some? {
      FreeBounds(s, shapes, reserved);
      RootFits(s.st.free, s.st.limit, r.value);
      var b, root := r.value / PAGE_SIZE, r.value + PAGE_SIZE;
      var s1 := AddBlock(s, b, RootHeader);
      AddBlockKeeps(s, shapes, reserved, b, RootHeader);
      assert Extent(root) <= s1.st.free;
      RootClaimed(s1, shapes, reserved, i, root);
    }
  }

  lemma RootClaimed(s: System, shapes: Shapes, reserved: set<nat>, i: nat, root: Word)
    requires SysInv(s, shapes, reserved) && i !in s.spaces
    requires root > 0 && root % PAGE_SIZE == 0 && Extent(root) <= s.st.free
    ensures var s' := WithSpace(s, i, WithRoot(s.st, root), s.logVec, Space(root, [], NO_VEC));
      && SysInv(s', shapes[i := EmptyShape(root)], reserved) && AllPages(s') == AllPages(s)
  {
    var st' := WithRoot(s.st, root);
    hide Extent, BlockPages, BlocksApart, Separated, SpacesGood, VecsApart, VecsPages, Managed, SpaceInv, Vecs,
      ManagedAll, Moved;
    ClaimedApart(s.st, Rest(s, reserved), root);
    ClaimedApart(s.st, Rest(s, reserved) + VecsPages(Vecs(s)), root);
    EmptySpaceGood(st', root);
    HeldAfterClaim(s.st, st', root);
    SpaceAdded(s.st, s.spaces, shapes, i, st', root);
    VecsMoved(s, i, st', s.logVec, Space(root, [], NO_VEC));
    NewVec(s, i, root);
    ManagedAllBy(s.st, st', Vecs(s));
    EmptyPlaced(st', Rest(s, reserved), Vecs(s), ListOf(i));
  }

  lemma ManagedAllBy(st: Store, st': Store, vecs: map<Holder, Vec>)
    requires Managed(st') == Managed(st)
    ensures ManagedAll(st', vecs) == ManagedAll(st, vecs)
  {
    hide Managed, VecsPages;
  }

  lemma NewVec(s: System, i: nat, root: Word)
    requires i !in s.spaces
    ensures Moved(Vecs(s), i, s.logVec, Space(root, [], NO_VEC)) == Vecs(s)[ListOf(i) := NO_VEC]
    ensures ListOf(i) !in Vecs(s)
  {
  }

  lemma HeldAfterClaim(st: Store, st': Store, root: Word)
    requires root !in st.tables && Extent(root) <= st.free
    requires st' == WithRoot(st, root)
    ensures Managed(st') == Managed(st)
  {
    hide Extent;
    assert Held(st'.tables) == Held(st.tables) + Extent(root);
  }

  lemma SpaceAdded(st: Store, spaces: map<nat, Space>, shapes: Shapes, i: nat, st': Store, root: Word)
    requires SpacesGood(st, spaces, shapes) && i !in spaces && root !in st.tables
    requires st'.tables == st.tables[root := ZEROS] && SpaceInv(st', Space(root, [], NO_VEC), EmptyShape(root))
    ensures SpacesGood(st', spaces[i := Space(root, [], NO_VEC)], shapes[i := EmptyShape(root)])
  {
    var shapes' := shapes[i := EmptyShape(root)];
    hide SpaceInv;
    assert EmptyShape(root).tabs[ROOT] == root;
    assert EmptyShape(root).tabs.Values == {root};
    forall j | j in spaces
      ensures SpaceInv(st', spaces[j], shapes[j]) && root !in shapes[j].tabs.Values
    {
      ValuesLive(st, spaces[j], shapes[j]);
      SpaceInvFrame(st, st', spaces[j], shapes[j]);
    }
    forall a | a in st'.tables
      ensures exists j :: j in shapes' && a in shapes'[j].tabs.Values
    {
      if a == root {
        assert a in shapes'[i].tabs.Values;
      } else {
        var j :| j in shapes && a in shapes[j].tabs.Values;
        assert a in shapes'[j].tabs.Values;
      }
    }
  }

  // ---------------------------------------------------------------- a new space

  /** A new space, mapped by a sequence of calls. */
  function BuildSpace(s: System, i: nat, calls: seq<Call>): Outcome<System> {
    var (s1, root) :- AddRoot(s, i);
    var (st', lv, sp') :- MapCalls(s1.st, s1.logVec, |s1.log|, Space(root, [], NO_VEC), calls);
    Done(WithSpace(s1, i, st', lv, sp').(log := s1.log + Logged(calls)))
  }

  lemma EmptyPages(root: Word)
    ensures EmptyShape(root).pages == map[]
  {
  }

  lemma BuildSpaceKeeps(s: System, shapes: Shapes, reserved: set<nat>, i: nat, calls: seq<Call>) returns (sh': Shape)
    requires SysInv(s, shapes, reserved) && i !in s.spaces && GoodLog(Records(calls))
    ensures !BuildSpace(s, i, calls).Fault?
    ensures BuildSpace(s, i, calls).Done? ==>
      var s' := BuildSpace(s, i, calls).value;
      && SysInv(s', shapes[i := sh'], reserved) && AllPages(s') == AllPages(s)
      && s'.st.limit == s.st.limit && s'.spaces.Keys == s.spaces.Keys + {i}
      && s'.structs == s.structs && BlocksStay(s, s')
      && s'.log == s.log + Logged(calls) && s'.logVec.cap == LogCap(s.logVec, |s.log|, calls)
      && sh'.pages == ReplayLog(Records(calls))
  {
    hide SysInv, BlockPages, AllPages, AddRoot, MapCalls, EmptyShape, CallReady, KeptAll, Logged, Records, Vecs,
      Moved, GoodLog, LogCap;
    sh' := EmptyShape(0);
    AddRootKeeps(s, shapes, reserved, i);
    if AddRoot(s, i).Done? {
      var (s1, root) := AddRoot(s, i).value;
      var sp, shapes1 := Space(root, [], NO_VEC), shapes[i := EmptyShape(root)];
      SpaceReady(s1, shapes1, reserved, i);
      EmptyPages(root);
      sh' := MapCallsCorrect(s1.st, Rest(s1, reserved), Vecs(s1), i, s1.logVec, |s1.log|, sp, EmptyShape(root), calls);
      if MapCalls(s1.st, s1.logVec, |s1.log|, sp, calls).Done? {
        var (st', lv, sp') := MapCalls(s1.st, s1.logVec, |s1.log|, sp, calls).value;
        SpaceStepKeeps(s1, shapes1, reserved, i, st', lv, sp', sh');
        assert shapes1[i := sh'] == shapes[i := sh'];
        LogDoesNotMatter(WithSpace(s1, i, st', lv, sp'), shapes[i := sh'], reserved, s1.log + Logged(calls));
      }
    }
  }

  // ---------------------------------------------------------------- events

  /** What may happen next. Payloads stand for block contents: zeroed by kmalloc, copied by
      krealloc, or written by their owner. */
  datatype Event =
    | Kmalloc(size: Word, payload: seq<Byte>)
    | Kfree(b: nat)
    | Krealloc(b: nat, size: Word, payload: seq<Byte>)
    | Write(b: nat, payload: seq<Byte>)
    | VmInit(entries: seq<MemEntry>, load: LoadAddress)
    | MapPages(i: nat, r: Record)
    | UnmapPages(i: nat, v: Word, n: nat)
    | CreateSpace(i: nat, payload: seq<Byte>)

  function Min(a: nat, b: nat): nat {
    if a < b then a else b
  }

  /** A fresh block of `size` bytes: zeroed, except for the part `kept`, which is a copy. */
  predicate Fresh(size: Word, payload: seq<Byte>, kept: seq<Byte>) {
    && |payload| == PAGE_SIZE * NumPages(size)
    && |kept| <= |payload|
    && payload[..|kept|] == kept
    && forall j :: |kept| <= j < Min(size, |payload|) ==> payload[j] == 0
  }

  /** Blocks in the hands of callers: all data blocks but the structures of live spaces. */
  predicate Lent(s: System, b: nat) {
    IsData(s, b) && b !in s.structs.Values
  }

  /** Page p lies in the payload of such a block and does not begin like the header of a block. */
  predicate Unmarked(s: System, p: nat) {
    exists c ::
      && c in s.blocks && Lent(s, c) && c < p < c + s.blocks[c].Length()
      && WordAt(s.blocks[c].payload, PAGE_SIZE * (p - c - 1)) != KMEM_MAGIC_NUMBER
  }

  /** What callers owe: flags that mark pages present, blocks of their own, new space numbers,
      and sizes and limits small enough that no address computed from them wraps. A kfree may
      also get a place inside a block, if nothing there looks like a header. */
  predicate Allowed(s: System, e: Event) {
    s.st.limit <= MAX_LIMIT &&
    match e
    case Kmalloc(size, payload) => Fresh(size, payload, []) && Unwrapped(NumPages(size) + 1, s.st.limit)
    case Kfree(b) => Lent(s, b) || Unmarked(s, b)
    case Krealloc(b, size, payload) =>
      && Lent(s, b)
      && s.blocks[b].size <= |s.blocks[b].payload|
      && (NumPages(s.blocks[b].size) != NumPages(size) ==>
            && Unwrapped(NumPages(size) + 1, s.st.limit)
            && Fresh(size, payload, s.blocks[b].payload[..Min(size, s.blocks[b].size)]))
    case Write(b, payload) => Lent(s, b) && |payload| == |s.blocks[b].payload|
    case VmInit(entries, load) => 0 !in s.spaces && s.log == []
    case MapPages(i, r) => i in s.spaces && GoodRecord(r)
    case UnmapPages(i, v, n) => i in s.spaces && n * PAGE_SIZE < TWO64
    case CreateSpace(i, payload) => i != 0 && i !in s.spaces && Fresh(ADDR_SPACE_SIZE, payload, [])
  }

  /** kmalloc_impl: the header page and the payload pages come from one first-fit run. */
  function NewBlock(s: System, size: Word, payload: seq<Byte>): Outcome<System> {
    match FirstFit(s.st.free, NumPages(size) + 1, 0, s.st.limit)
    case None => Halt
    case Some(a) => Done(AddBlock(s, a / PAGE_SIZE, Data(size, payload)))
  }

  /** The header page that this block gets. */
  function NewBase(s: System, size: Word): nat {
    match FirstFit(s.st.free, NumPages(size) + 1, 0, s.st.limit)
    case None => 0
    case Some(a) => a / PAGE_SIZE
  }

  function WithStruct(s: System, i: nat, b: nat): System {
    s.(structs := s.structs[i := b])
  }

  function Next(s: System, e: Event): Outcome<System> {
    match e
    case Kmalloc(size, payload) => NewBlock(s, size, payload)
    case Kfree(b) => if IsData(s, b) then Done(DropBlock(s, b)) else Done(s)
    case Krealloc(b, size, payload) =>
      if !IsData(s, b) then Fault
      else if NumPages(s.blocks[b].size) == NumPages(size) then
        Done(s.(blocks := s.blocks[b := Data(size, s.blocks[b].payload)]))
      else
        var s1 :- NewBlock(s, size, payload);
        if b in s1.blocks then Done(DropBlock(s1, b)) else Fault
    case Write(b, payload) =>
      if IsData(s, b) then Done(s.(blocks := s.blocks[b := Data(s.blocks[b].size, payload)])) else Fault
    case VmInit(entries, load) => BuildSpace(s, 0, InitCalls(s.st.limit, entries, load))
    case MapPages(i, r) =>
      if i !in s.spaces then Fault
      else
        var (st', lv, sp') :- MapCall(s.st, s.logVec, |s.log|, s.spaces[i], Call(r, i == 0));
        Done(WithSpace(s, i, st', lv, sp').(log := if i == 0 then s.log + [r] else s.log))
    case UnmapPages(i, v, n) =>
      if i !in s.spaces then Fault
      else
        var (st', sp') :- UnmapCall(s.st, s.logVec, s.log, s.spaces[i], v, n, i == 0);
        Done(WithSpace(s, i, st', s.logVec, sp').(log := if i == 0 then EraseRecord(s.log, v) else s.log))
    case CreateSpace(i, payload) =>
      var s1 :- NewBlock(s, ADDR_SPACE_SIZE, payload);
      BuildSpace(WithStruct(s1, i, NewBase(s, ADDR_SPACE_SIZE)), i, CallsOf(s.log, false))
  }

  /** The calls of vm_init: the low map, the whole direct map without a record, the entries. */
  function InitCalls(limit: Word, entries: seq<MemEntry>, load: LoadAddress): seq<Call> {
    [Call(LowRecord(limit), true), Call(DirectAll(limit), false)] + CallsOf(EntryRecords(entries, load), true)
  }

  lemma InitCallsAre(limit: Word, entries: seq<MemEntry>, load: LoadAddress)
    ensures Records(InitCalls(limit, entries, load)) == InitPlan(limit, entries, load)
    ensures Logged(InitCalls(limit, entries, load)) == InitLog(limit, entries, load)
  {
    hide EntryRecords, LowRecord, DirectAll, Records, Logged, CallsOf;
    FirstTwoCalls(LowRecord(limit), DirectAll(limit));
    CallsOfAre([Call(LowRecord(limit), true), Call(DirectAll(limit), false)], EntryRecords(entries, load), true);
  }

  lemma FirstTwoCalls(low: Record, direct: Record)
    ensures Records([Call(low, true), Call(direct, false)]) == [low, direct]
    ensures Logged([Call(low, true), Call(direct, false)]) == [low]
  {
    assert Records([]) == [] && Logged([]) == [];
    hide Records, Logged;
    CallsSnoc([], Call(low, true));
    CallsSnoc([Call(low, true)], Call(direct, false));
    assert [] + [Call(low, true)] == [Call(low, true)];
    assert [Call(low, true)] + [Call(direct, false)] == [Call(low, true), Call(direct, false)];
  }

  lemma QuietCallsAre(rs: seq<Record>)
    ensures Records(CallsOf(rs, false)) == rs && Logged(CallsOf(rs, false)) == []
  {
    CallsOfAre([], rs, false);
    assert [] + CallsOf(rs, false) == CallsOf(rs, false);
    assert Records([]) == [] && Logged([]) == [];
  }

  // ---------------------------------------------------------------- every step keeps the invariant

  lemma NewBlockKeeps(s: System, shapes: Shapes, reserved: set<nat>, size: Word, payload: seq<Byte>)
    requires SysInv(s, shapes, reserved) && |payload| == PAGE_SIZE * NumPages(size)
    ensures !NewBlock(s, size, payload).Fault?
    ensures NewBlock(s, size, payload).Done? ==>
      var s' := NewBlock(s, size, payload).value;
      && SysInv(s', shapes, reserved) && AllPages(s') == AllPages(s)
      && var b := NewBase(s, size);
         b !in s.blocks && Pages(b, NumPages(size) + 1) <= s.st.free && s' == AddBlock(s, b, Data(size, payload))
  {
    hide SysInv, AllPages, FirstFit, Pages, NumPages, AddBlock, Steps;
    FirstFitExact(s.st.free, NumPages(size) + 1, 0, s.st.limit);
    var r := FirstFit(s.st.free, NumPages(size) + 1, 0, s.st.limit);
    if r.Some? {
      BlockLength(size, payload);
      AddBlockKeeps(s, shapes, reserved, r.value / PAGE_SIZE, Data(size, payload));
    }
  }

  lemma BlockLength(size: Word, payload: seq<Byte>)
    requires |payload| == PAGE_SIZE * NumPages(size)
    ensures Data(size, payload).Length() == NumPages(size) + 1 && Data(size, payload).Sized()
  {
    hide NumPages;
  }

  /** Changing the contents or the size of a block, but not its pages. */
  lemma SameLengthKeeps(s: System, shapes: Shapes, reserved: set<nat>, b: nat, blk: Block)
    requires SysInv(s, shapes, reserved) && b in s.blocks && blk.Sized() && blk.Length() == s.blocks[b].Length()
    ensures var s' := s.(blocks := s.blocks[b := blk]);
      SysInv(s', shapes, reserved) && AllPages(s') == AllPages(s)
  {
    hide Separated, SpacesGood, ManagedAll, Housed, BlocksApart, BlockPages, Vecs;
    SameRuns(s.blocks, s.st.limit, b, blk);
    VecsByFields(s, s.(blocks := s.blocks[b := blk]));
  }

  lemma VecsByFields(s: System, t: System)
    requires t.spaces == s.spaces && t.logVec == s.logVec
    ensures Vecs(t) == Vecs(s)
  {
  }

  lemma SameRuns(blocks: map<nat, Block>, limit: nat, b: nat, blk: Block)
    requires BlocksApart(blocks, limit) && b in blocks && blk.Sized() && blk.Length() == blocks[b].Length()
    ensures BlocksApart(blocks[b := blk], limit) && BlockPages(blocks[b := blk]) == BlockPages(blocks)
  {
    hide Pages, LimitPages;
    assert blocks[b := blk] - {b} == blocks - {b};
    BlockPagesSplit(blocks, b);
    BlockPagesSplit(blocks[b := blk], b);
    hide BlockPages;
  }

  /** What a step does to the space it works on. */
  ghost predicate Meaning(s: System, shapes: Shapes, e: Event, shapes': Shapes) {
    match e
    case VmInit(entries, load) =>
      0 in shapes' && shapes'[0].pages == ReplayLog(InitPlan(s.st.limit, entries, load))
    case MapPages(i, r) => i in shapes && i in shapes' && shapes'[i].pages == Apply(shapes[i].pages, r)
    case UnmapPages(i, v, n) => i in shapes && i in shapes' && shapes'[i].pages == UnmapRange(shapes[i].pages, v, n)
    case CreateSpace(i, _) => i in shapes' && shapes'[i].pages == ReplayLog(s.log)
    case _ => shapes' == shapes
  }

  /** Spaces other than the one a step works on stay as they were. */
  ghost predicate OthersKept(s: System, shapes: Shapes, e: Event, s': System, shapes': Shapes) {
    forall j :: j in s.spaces && !((e.MapPages? || e.UnmapPages?) && e.i == j) ==>
      j in s'.spaces && j in shapes && j in shapes' && s'.spaces[j] == s.spaces[j] && shapes'[j] == shapes[j]
  }

  ghost predicate Inv(s: System, shapes: Shapes, reserved: set<nat>) {
    SysInv(s, shapes, reserved) && GoodLog(s.log) && LogFits(s) && StructsGood(s)
  }

  /** The log fits its block. */
  predicate LogFits(s: System) {
    RECORD_SIZE * |s.log| <= s.logVec.cap
  }

  /** One step of any kind: the invariant holds again, the same pages are handed around as
      before, the space worked on changes as told, and no other space changes; the structure of
      every space stays where and what it is. */
  ghost predicate StepGood(s: System, shapes: Shapes, reserved: set<nat>, e: Event, s': System, shapes': Shapes) {
    && Inv(s', shapes', reserved)
    && AllPages(s') == AllPages(s) && s'.st.limit == s.st.limit
    && Meaning(s, shapes, e, shapes')
    && OthersKept(s, shapes, e, s', shapes')
    && StructsStay(s, s')
  }

  lemma SameKeys(s: System, shapes: Shapes, reserved: set<nat>)
    requires SysInv(s, shapes, reserved)
    ensures s.spaces.Keys == shapes.Keys
  {
  }

  lemma MapStepGood(s: System, shapes: Shapes, reserved: set<nat>, i: nat, r: Record) returns (shapes': Shapes)
    requires Inv(s, shapes, reserved) && Allowed(s, MapPages(i, r))
    ensures !Next(s, MapPages(i, r)).Fault?
    ensures Next(s, MapPages(i, r)).Done? ==>
      StepGood(s, shapes, reserved, MapPages(i, r), Next(s, MapPages(i, r)).value, shapes')
  {
    hide SysInv, AllPages, MapCall, Apply, CallReady, KeptAll, Vecs, Moved, GoodRecord, NextCap;
    SpaceReady(s, shapes, reserved, i);
    SameKeys(s, shapes, reserved);
    var c := Call(r, i == 0);
    var sh' := MapCallCorrect(s.st, Rest(s, reserved), Vecs(s), i, s.logVec, |s.log|, s.spaces[i], shapes[i], c);
    shapes' := shapes[i := sh'];
    if MapCall(s.st, s.logVec, |s.log|, s.spaces[i], c).Done? {
      var (st', lv, sp') := MapCall(s.st, s.logVec, |s.log|, s.spaces[i], c).value;
      SpaceStepKeeps(s, shapes, reserved, i, st', lv, sp', sh');
      NextCapHolds(s.logVec.cap, |s.log| + 1);
      LogDoesNotMatter(WithSpace(s, i, st', lv, sp'), shapes', reserved, if i == 0 then s.log + [r] else s.log);
      StructsKept(s, Next(s, MapPages(i, r)).value);
    }
  }

  lemma NextCapHolds(cap: nat, len: nat)
    ensures RECORD_SIZE * len <= NextCap(cap, len, RECORD_SIZE)
  {
  }

  lemma LogDoesNotMatter(s: System, shapes: Shapes, reserved: set<nat>, log: seq<Record>)
    requires SysInv(s, shapes, reserved)
    ensures SysInv(s.(log := log), shapes, reserved) && AllPages(s.(log := log)) == AllPages(s)
  {
    hide Vecs, ManagedAll, BlockPages, Housed, SpacesGood, BlocksApart, Separated;
    var t := s.(log := log);
    assert t.st == s.st && t.blocks == s.blocks && t.spaces == s.spaces && t.logVec == s.logVec;
    VecsByFields(s, t);
  }

  lemma StructsDoNotMatter(s: System, shapes: Shapes, reserved: set<nat>, structs: map<nat, nat>)
    requires SysInv(s, shapes, reserved)
    ensures SysInv(s.(structs := structs), shapes, reserved) && AllPages(s.(structs := structs)) == AllPages(s)
  {
    hide Vecs, ManagedAll, BlockPages, Housed, SpacesGood, BlocksApart, Separated;
    VecsByFields(s, s.(structs := structs));
  }

  lemma EraseKeepsGood(log: seq<Record>, v: Word)
    requires GoodLog(log)
    ensures GoodLog(EraseRecord(log, v))
  {
  }

  lemma ErasedFits(s: System, v: Word)
    requires LogFits(s)
    ensures RECORD_SIZE * |EraseRecord(s.log, v)| <= s.logVec.cap
  {
  }

  /** The one way in which an allowed call may leave the memory it owns: an erase from a memory
      list, or from the log, without the spare room that its copy takes. */
  ghost predicate EraseOverruns(s: System, shapes: Shapes, e: Event) {
    && e.UnmapPages? && e.i in s.spaces && e.i in shapes
    && !UnmapSafe(s.st.limit, s.logVec, s.log, s.spaces[e.i], shapes[e.i], e.v, e.n, e.i == 0)
  }

  lemma UnmapStepGood(s: System, shapes: Shapes, reserved: set<nat>, i: nat, v: Word, n: nat) returns (shapes': Shapes)
    requires Inv(s, shapes, reserved) && Allowed(s, UnmapPages(i, v, n))
    ensures !Next(s, UnmapPages(i, v, n)).Halt?
    ensures Next(s, UnmapPages(i, v, n)).Fault? <==> EraseOverruns(s, shapes, UnmapPages(i, v, n))
    ensures Next(s, UnmapPages(i, v, n)).Done? ==>
      StepGood(s, shapes, reserved, UnmapPages(i, v, n), Next(s, UnmapPages(i, v, n)).value, shapes')
  {
    hide SysInv, AllPages, UnmapCall, UnmapRange, ClearedRange, CallReady, KeptAll, Vecs, UnmapSafe, EraseRecord,
      GoodLog, LogDropSafe;
    SpaceReady(s, shapes, reserved, i);
    SameKeys(s, shapes, reserved);
    UnmapCallCorrect(s.st, Rest(s, reserved), Vecs(s), i, s.logVec, s.log, s.spaces[i], shapes[i], v, n, i == 0);
    var sh' := ClearedRange(shapes[i], v, n);
    shapes' := shapes[i := sh'];
    if UnmapCall(s.st, s.logVec, s.log, s.spaces[i], v, n, i == 0).Done? {
      var (st', sp') := UnmapCall(s.st, s.logVec, s.log, s.spaces[i], v, n, i == 0).value;
      VecsStay(s, i, sp');
      SpaceStepKeeps(s, shapes, reserved, i, st', s.logVec, sp', sh');
      EraseKeepsGood(s.log, v);
      ErasedFits(s, v);
      LogDoesNotMatter(WithSpace(s, i, st', s.logVec, sp'), shapes', reserved,
                       if i == 0 then EraseRecord(s.log, v) else s.log);
      StructsKept(s, Next(s, UnmapPages(i, v, n)).value);
    }
  }

  lemma VecsStay(s: System, i: nat, sp': Space)
    requires i in s.spaces && sp'.vec == s.spaces[i].vec
    ensures Moved(Vecs(s), i, s.logVec, sp') == Vecs(s)
  {
  }

  lemma CreateStepGood(s: System, shapes: Shapes, reserved: set<nat>, i: nat, payload: seq<Byte>)
      returns (shapes': Shapes)
    requires Inv(s, shapes, reserved) && Allowed(s, CreateSpace(i, payload))
    ensures !Next(s, CreateSpace(i, payload)).Fault?
    ensures Next(s, CreateSpace(i, payload)).Done? ==>
      StepGood(s, shapes, reserved, CreateSpace(i, payload), Next(s, CreateSpace(i, payload)).value, shapes')
  {
    hide SysInv, AllPages, NewBlock, BuildSpace, ReplayLog, CallsOf, GoodRecord, StructsGood, StructsStay, StepGood;
    shapes' := shapes;
    NewBlockKeeps(s, shapes, reserved, ADDR_SPACE_SIZE, payload);
    QuietCallsAre(s.log);
    if NewBlock(s, ADDR_SPACE_SIZE, payload).Done? {
      var b := NewBase(s, ADDR_SPACE_SIZE);
      var s1 := WithStruct(NewBlock(s, ADDR_SPACE_SIZE, payload).value, i, b);
      StructsDoNotMatter(NewBlock(s, ADDR_SPACE_SIZE, payload).value, shapes, reserved, s1.structs);
      var calls := CallsOf(s.log, false);
      var sh' := BuildSpaceKeeps(s1, shapes, reserved, i, calls);
      shapes' := shapes[i := sh'];
      if BuildSpace(s1, i, calls).Done? {
        BuildKeepsOthers(s1, i, calls);
        NoCapChange(s1.logVec, |s1.log|, calls);
        StructAddedTo(s, BuildSpace(s1, i, calls).value, i, b);
        SpaceAddedGood(s, shapes, reserved, i, payload, BuildSpace(s1, i, calls).value, sh');
      }
    }
  }

  lemma SpaceAddedGood(s: System, shapes: Shapes, reserved: set<nat>, i: nat, payload: seq<Byte>, t: System, sh': Shape)
    requires Inv(s, shapes, reserved) && i !in s.spaces
    requires SysInv(t, shapes[i := sh'], reserved) && AllPages(t) == AllPages(s) && t.st.limit == s.st.limit
    requires t.log == s.log && t.logVec.cap == s.logVec.cap && sh'.pages == ReplayLog(s.log)
    requires forall j :: j in s.spaces ==> j in t.spaces && t.spaces[j] == s.spaces[j]
    requires StructsGood(t) && StructsStay(s, t)
    ensures StepGood(s, shapes, reserved, CreateSpace(i, payload), t, shapes[i := sh'])
  {
    hide SysInv, AllPages, ReplayLog, GoodLog, StructsGood, StructsStay;
    SameKeys(s, shapes, reserved);
  }

  lemma NoCapChange(lv: Vec, len: nat, calls: seq<Call>)
    requires Logged(calls) == []
    ensures LogCap(lv, len, calls) == lv.cap
  {
  }

  lemma BuildKeepsOthers(s: System, i: nat, calls: seq<Call>)
    requires BuildSpace(s, i, calls).Done? && i !in s.spaces
    ensures forall j :: j in s.spaces ==>
      j in BuildSpace(s, i, calls).value.spaces && BuildSpace(s, i, calls).value.spaces[j] == s.spaces[j]
  {
    hide MapCalls, Logged;
  }

  lemma InitStepGood(s: System, shapes: Shapes, reserved: set<nat>, entries: seq<MemEntry>, load: LoadAddress)
      returns (shapes': Shapes)
    requires Inv(s, shapes, reserved) && Allowed(s, VmInit(entries, load))
    ensures !Next(s, VmInit(entries, load)).Fault?
    ensures Next(s, VmInit(entries, load)).Done? ==>
      StepGood(s, shapes, reserved, VmInit(entries, load), Next(s, VmInit(entries, load)).value, shapes')
    ensures Next(s, VmInit(entries, load)).Done? ==>
      Next(s, VmInit(entries, load)).value.log == InitLog(s.st.limit, entries, load)
  {
    hide SysInv, AllPages, BuildSpace, ReplayLog, InitCalls, GoodRecord, InitPlan, InitLog;
    InitRecordsGood(s.st.limit, entries, load);
    InitCallsAre(s.st.limit, entries, load);
    var calls := InitCalls(s.st.limit, entries, load);
    var sh' := BuildSpaceKeeps(s, shapes, reserved, 0, calls);
    shapes' := shapes[0 := sh'];
    SameKeys(s, shapes, reserved);
    if BuildSpace(s, 0, calls).Done? {
      BuildKeepsOthers(s, 0, calls);
      StructsKept(s, BuildSpace(s, 0, calls).value);
      CapHoldsLog(s.logVec, calls);
      assert s.log + Logged(calls) == Logged(calls);
    }
  }

  lemma CapHoldsLog(lv: Vec, calls: seq<Call>)
    ensures RECORD_SIZE * |Logged(calls)| <= LogCap(lv, 0, calls)
  {
    hide Logged;
    CapHolds(lv.cap, |Logged(calls)|);
  }

  lemma {:induction false} CapHolds(cap: nat, k: nat)
    ensures RECORD_SIZE * k <= CapAfter(cap, 0, k, RECORD_SIZE)
  {
    if k > 0 {
      NextCapHolds(CapAfter(cap, 0, k - 1, RECORD_SIZE), k);
    }
  }

  lemma {:induction false} EntryRecordsGood(entries: seq<MemEntry>, load: LoadAddress)
    ensures GoodLog(EntryRecords(entries, load))
  {
    if entries != [] {
      EntryRecordsGood(entries[..|entries| - 1], load);
    }
  }

  /** vm_init maps good records only. */
  lemma InitRecordsGood(limit: Word, entries: seq<MemEntry>, load: LoadAddress)
    ensures GoodLog(InitPlan(limit, entries, load)) && GoodLog(InitLog(limit, entries, load))
  {
    EntryRecordsGood(entries, load);
    hide EntryRecords;
  }

  lemma BlockStepGood(s: System, shapes: Shapes, reserved: set<nat>, e: Event)
    requires Inv(s, shapes, reserved) && Allowed(s, e)
    requires e.Kmalloc? || e.Kfree? || e.Krealloc? || e.Write?
    ensures !Next(s, e).Fault?
    ensures Next(s, e).Done? ==> StepGood(s, shapes, reserved, e, Next(s, e).value, shapes)
  {
    hide SysInv, AllPages, NewBlock, NewBase, NumPages, Unmarked, StructsGood, StructsStay;
    SameKeys(s, shapes, reserved);
    if Next(s, e).Done? {
      BlockStepStructs(s, shapes, reserved, e);
    }
    match e
    case Kmalloc(size, payload) =>
      NewBlockKeeps(s, shapes, reserved, size, payload);
    case Kfree(b) =>
      if IsData(s, b) {
        DropBlockKeeps(s, shapes, reserved, b);
      }
    case Krealloc(b, size, payload) =>
      BlockSized(s, shapes, reserved, b);
      if NumPages(s.blocks[b].size) == NumPages(size) {
        SameLengthKeeps(s, shapes, reserved, b, Data(size, s.blocks[b].payload));
      } else {
        NewBlockKeeps(s, shapes, reserved, size, payload);
        if NewBlock(s, size, payload).Done? {
          DropBlockKeeps(NewBlock(s, size, payload).value, shapes, reserved, b);
        }
      }
    case Write(b, payload) =>
      BlockSized(s, shapes, reserved, b);
      SameLengthKeeps(s, shapes, reserved, b, Data(s.blocks[b].size, payload));
  }

  /** They touch no structure. */
  lemma BlockStepStructs(s: System, shapes: Shapes, reserved: set<nat>, e: Event)
    requires Inv(s, shapes, reserved) && Allowed(s, e) && Next(s, e).Done?
    requires e.Kmalloc? || e.Kfree? || e.Krealloc? || e.Write?
    ensures StructsGood(Next(s, e).value) && StructsStay(s, Next(s, e).value)
  {
    hide SysInv, AllPages, NumPages, Unmarked, StructsGood, StructsStay, NewBlock, NewBase, Pages, GoodLog;
    var t := Next(s, e).value;
    match e
    case Kmalloc(size, payload) =>
      NewBlockKeeps(s, shapes, reserved, size, payload);
      StructsKept(s, t);
    case Kfree(b) =>
      if Unmarked(s, b) {
        UnmarkedIsNoBlock(s, shapes, reserved, b);
      }
      StructsKept(s, t);
    case Krealloc(b, size, payload) =>
      if NumPages(s.blocks[b].size) != NumPages(size) {
        NewBlockKeeps(s, shapes, reserved, size, payload);
      }
      StructsKept(s, t);
    case Write(b, payload) => StructsKept(s, t);
  }

  lemma UnmarkedIsNoBlock(s: System, shapes: Shapes, reserved: set<nat>, p: nat)
    requires SysInv(s, shapes, reserved) && Unmarked(s, p)
    ensures p !in s.blocks
  {
    hide WordAt, Separated, SpacesGood, Housed, BlockPages, LimitPages;
  }

  lemma BlockSized(s: System, shapes: Shapes, reserved: set<nat>, b: nat)
    requires SysInv(s, shapes, reserved) && b in s.blocks
    ensures s.blocks[b].Sized()
  {
  }

  /** The main invariant theorem, for one step: an allowed call leaves the memory it owns only by
      the copy of an erase that has not the room for it, and in no other way; otherwise, unless
      memory runs out, the step is good. */
  lemma StepKeepsInv(s: System, shapes: Shapes, reserved: set<nat>, e: Event) returns (shapes': Shapes)
    requires Inv(s, shapes, reserved) && Allowed(s, e)
    ensures Next(s, e).Fault? <==> EraseOverruns(s, shapes, e)
    ensures Next(s, e).Done? ==> StepGood(s, shapes, reserved, e, Next(s, e).value, shapes')
  {
    hide Next, StepGood, Inv, UnmapSafe;
    match e
    case VmInit(entries, load) => shapes' := InitStepGood(s, shapes, reserved, entries, load);
    case MapPages(i, r) => shapes' := MapStepGood(s, shapes, reserved, i, r);
    case UnmapPages(i, v, n) => shapes' := UnmapStepGood(s, shapes, reserved, i, v, n);
    case CreateSpace(i, payload) => shapes' := CreateStepGood(s, shapes, reserved, i, payload);
    case _ =>
      BlockStepGood(s, shapes, reserved, e);
      shapes' := shapes;
  }

  // ---------------------------------------------------------------- runs

  /** A run from s: each event allowed where it happens. Halt ends the machine. */
  ghost predicate Reaches(s: System, es: seq<Event>, t: System)
    decreases |es|
  {
    if es == [] then t == s
    else Allowed(s, es[0]) && Next(s, es[0]).Done? && Reaches(Next(s, es[0]).value, es[1..], t)
  }

  /** In every state of every run the invariant holds and the pages handed around are those of
      the start: none is lost, invented, or used twice. No structure of a space is ever freed,
      moved or written. */
  lemma {:induction false} RunKeepsInv(s: System, shapes: Shapes, reserved: set<nat>, es: seq<Event>, t: System)
      returns (shapes': Shapes)
    requires Inv(s, shapes, reserved) && Reaches(s, es, t)
    ensures Inv(t, shapes', reserved) && AllPages(t) == AllPages(s) && t.st.limit == s.st.limit && StructsStay(s, t)
    decreases |es|
  {
    hide Next, AllPages, Allowed, StructsStay, SysInv, LogFits, GoodLog;
    if es == [] {
      shapes' := shapes;
      StructsKept(s, s);
    } else {
      hide StructsGood;
      var s1 := Next(s, es[0]).value;
      var shapes1 := StepKeepsInv(s, shapes, reserved, es[0]);
      shapes' := RunKeepsInv(s1, shapes1, reserved, es[1..], t);
      StructsStayOn(s, s1, t);
    }
  }

  /** In every reachable state an allowed event follows a bad address exactly if it is an unmap
      with an overrunning erase. An unmap on vectors with spare room for any erase, or short
      enough to have it, completes, and so do kfree and writes. */
  lemma FaultsInAnyRun(s: System, shapes: Shapes, reserved: set<nat>, es: seq<Event>, t: System, e: Event)
      returns (shapes': Shapes)
    requires Inv(s, shapes, reserved) && Reaches(s, es, t) && Allowed(t, e)
    ensures Inv(t, shapes', reserved)
    ensures Next(t, e).Fault? <==> EraseOverruns(t, shapes', e)
    ensures e.UnmapPages? && (RoomyFor(t, e.i) || ShortFor(t, e.i)) ==> Next(t, e).Done?
    ensures e.Kfree? || e.Write? ==> Next(t, e).Done?
  {
    hide SysInv, UnmapSafe, RoomyFor, ShortFor, Reaches, Next, Inv, StepGood;
    shapes' := RunKeepsInv(s, shapes, reserved, es, t);
    var _ := StepKeepsInv(t, shapes', reserved, e);
    if e.Kfree? || e.Write? {
      NeverHalts(t, e);
    }
    if e.UnmapPages? {
      var _ := UnmapStepGood(t, shapes', reserved, e.i, e.v, e.n);
      if ShortFor(t, e.i) {
        ShortIsRoomy(t, shapes', reserved, e.i);
      }
      if RoomyFor(t, e.i) {
        RoomyDoesNotOverrun(t, shapes', reserved, e);
      }
    }
  }

  lemma NeverHalts(s: System, e: Event)
    requires e.Kfree? || e.Write?
    ensures !Next(s, e).Halt?
  {
  }

  /** Spare room in the vectors that an unmap of space i erases from. */
  predicate RoomyFor(s: System, i: nat) {
    && i in s.spaces
    && Roomy(s.spaces[i].vec, LIST_ENTRY, |s.spaces[i].list|)
    && (i == 0 ==> Roomy(s.logVec, RECORD_SIZE, |s.log|))
  }

  /** At most 273 tables, and for the kernel at most 65 records. */
  predicate ShortFor(s: System, i: nat) {
    i in s.spaces && |s.spaces[i].list| <= 273 && (i == 0 ==> |s.log| <= 65)
  }

  lemma ShortIsRoomy(s: System, shapes: Shapes, reserved: set<nat>, i: nat)
    requires Inv(s, shapes, reserved) && ShortFor(s, i)
    ensures RoomyFor(s, i)
  {
    hide SysInv, SpaceInv, Housed, Vecs, Rest, StructsGood, GoodLog;
    SpaceReady(s, shapes, reserved, i);
    ListFits(s.st, s.spaces[i], shapes[i]);
    hide CallReady, Roomy;
    ShortListsRoomy(s.spaces[i].vec, |s.spaces[i].list|);
    ShortListsRoomy(s.logVec, |s.log|);
  }

  lemma ListFits(st: Store, sp: Space, sh: Shape)
    requires SpaceInv(st, sp, sh)
    ensures LIST_ENTRY * |sp.list| <= sp.vec.cap
  {
    hide Coherent, Tight, Listed;
  }

  lemma RoomyDoesNotOverrun(s: System, shapes: Shapes, reserved: set<nat>, e: Event)
    requires Inv(s, shapes, reserved) && e.UnmapPages? && RoomyFor(s, e.i)
    ensures !EraseOverruns(s, shapes, e)
  {
    hide SysInv, CallReady, UnmapSafe, Roomy, Vecs;
    SpaceReady(s, shapes, reserved, e.i);
    RoomyIsUnmapSafe(s.st, Rest(s, reserved), Vecs(s), e.i, s.logVec, s.log, s.spaces[e.i], shapes[e.i], e.v, e.n,
                     e.i == 0);
  }

  /** The state after pm_init. */
  function Booted(limit: Word, free: set<nat>): System {
    System(Store(limit, free, map[]), map[], map[], map[], [], NO_VEC)
  }

  lemma NothingHeld(s: System)
    requires s.blocks == map[] && s.st.tables == map[] && s.spaces == map[] && s.logVec == NO_VEC
    ensures BlockPages(s.blocks) == {} && Held(s.st.tables) == {} && VecsPages(Vecs(s)) == {}
    ensures forall h :: h in Vecs(s) ==> VecPages(Vecs(s)[h]) == {}
    ensures BlocksApart(s.blocks, s.st.limit)
  {
    assert VecPages(NO_VEC) == {};
    hide VecPages, Pages;
    assert Vecs(s) == map[TheLog := NO_VEC];
  }

  lemma BootedGood(limit: Word, free: set<nat>, reserved: set<nat>)
    requires forall p :: p in free ==> 0 < p < LimitPages(limit)
    requires free !! reserved
    ensures Inv(Booted(limit, free), map[], reserved) && AllPages(Booted(limit, free)) == free
  {
    hide LimitPages, VecPages, Pages, BlockPages, Held, VecsPages, Vecs, Separated, SpacesGood, BlocksApart,
      VecsApart, ManagedAll;
    var s := Booted(limit, free);
    NothingHeld(s);
    BareStore(limit, free, reserved);
    NoSpaces(s.st);
    EmptyVecsApart(Vecs(s), reserved, limit);
    OnlyFree(s.st, Vecs(s));
    assert {} + reserved == reserved;
    assert reserved + {} == reserved;
  }

  lemma OnlyFree(st: Store, vecs: map<Holder, Vec>)
    requires Held(st.tables) == {} && VecsPages(vecs) == {}
    ensures ManagedAll(st, vecs) + {} == st.free
  {
  }

  lemma EmptyVecsApart(vecs: map<Holder, Vec>, rest: set<nat>, limit: nat)
    requires forall h :: h in vecs ==> VecPages(vecs[h]) == {}
    ensures VecsApart(vecs, rest, limit)
  {
    hide VecPages, LimitPages;
  }

  lemma NoSpaces(st: Store)
    requires st.tables == map[]
    ensures SpacesGood(st, map[], map[])
  {
  }

  lemma BareStore(limit: Word, free: set<nat>, others: set<nat>)
    requires free !! others && forall p :: p in free ==> 0 < p < LimitPages(limit)
    ensures Separated(Store(limit, free, map[]), others)
  {
  }

  /** At every state reachable after boot, the invariant holds for the shapes of its spaces, and
      with them each page that was free after boot is free, or in exactly one block, or in
      exactly one table of one space, or in the block of one vector; no other page is used. */
  lemma PartitionInEveryRun(limit: Word, free: set<nat>, reserved: set<nat>, es: seq<Event>, t: System)
      returns (shapes: Shapes)
    requires forall q :: q in free ==> 0 < q < LimitPages(limit)
    requires free !! reserved && Reaches(Booted(limit, free), es, t)
    ensures Inv(t, shapes, reserved) && Partition(t, shapes, free)
  {
    hide Inv, Reaches, LimitPages, AllPages, Booted, Partition, SysInv;
    BootedGood(limit, free, reserved);
    shapes := RunKeepsInv(Booted(limit, free), map[], reserved, es, t);
    InvIsSysInv(t, shapes, reserved);
    AllPartitioned(t, shapes, reserved);
  }

  /** The same from the memory map. With no stale bitmap bit, page 0 not usable, and a limit that
      leaves the bitmap room (Boot.GuardFits, without which Boot.BitmapOverlapped shows it fail),
      exactly the usable pages outside the bitmap are ever owned, each by one owner at a time,
      and no owner ever holds a page with a bitmap byte that the allocator uses. */
  lemma PartitionFromBoot(entries: seq<MemEntry>, home: Word, es: seq<Event>, t: System) returns (shapes: Shapes)
    requires Bounded(entries) && Home(entries, BitmapSize(entries)) == Some(home) && 0 !in UsablePages(entries)
    requires Limit(entries) < TWO64 && GuardFits(Limit(entries), home)
    requires Reaches(Booted(Limit(entries), BootFree(entries, {}, home)), es, t)
    ensures Inv(t, shapes, BitmapHome(Limit(entries), home)) && Partition(t, shapes, BootFree(entries, {}, home))
    ensures forall p ::
      p in BootFree(entries, {}, home) <==>
        (exists e :: e in entries && Provides(e, p)) && p !in BitmapHome(Limit(entries), home)
    ensures forall q: nat, o ::
      q <= LimitPages(Limit(entries)) ==> !Owns(t, shapes, o, BytePage(home, q / 8))
  {
    hide Reaches, LimitPages, Limit, UsablePages, NumPages, Pages, Owns, Home, Booted, Inv, GuardFits, BytePage,
      Provides;
    var free := BootFree(entries, {}, home);
    forall p
      ensures p in UsablePages(entries) <==> exists e :: e in entries && Provides(e, p)
    {
      UsableIsUnion(entries, p);
    }
    UsableBelowLimit(entries);
    shapes := PartitionInEveryRun(Limit(entries), free, BitmapHome(Limit(entries), home), es, t);
    BitmapProtected(Limit(entries), home);
    forall q: nat, o | q <= LimitPages(Limit(entries))
      ensures !Owns(t, shapes, o, BytePage(home, q / 8))
    {
      assert OwnedOnce(t, shapes, free, BytePage(home, q / 8));
    }
  }

  lemma InvIsSysInv(s: System, shapes: Shapes, reserved: set<nat>)
    requires Inv(s, shapes, reserved)
    ensures SysInv(s, shapes, reserved)
  {
  }

  // ---------------------------------------------------------------- what steps mean together

  /** Bytes lo to hi - 1 are zero, as far as there are any. */
  predicate ZerosBetween(payload: seq<Byte>, lo: nat, hi: nat) {
    forall j :: lo <= j < hi && j < |payload| ==> payload[j] == 0
  }

  lemma MovedZeros(s: System, b: nat, size: Word, payload: seq<Byte>)
    requires Allowed(s, Krealloc(b, size, payload)) && NumPages(s.blocks[b].size) != NumPages(size)
    ensures ZerosBetween(payload, s.blocks[b].size, size)
  {
    hide NumPages;
  }

  /** krealloc, in place or moving, frees and claims exactly the difference in pages, keeps the
      first min(old, new) bytes, clears what a larger new block has behind them, and leaves every
      other block as it was. */
  lemma ReallocExact(s: System, shapes: Shapes, reserved: set<nat>, b: nat, size: Word, payload: seq<Byte>)
      returns (c: nat)
    requires Inv(s, shapes, reserved) && Allowed(s, Krealloc(b, size, payload))
    requires Next(s, Krealloc(b, size, payload)).Done?
    ensures var t := Next(s, Krealloc(b, size, payload)).value;
      var was := s.blocks[b];
      && c in t.blocks && t.blocks[c].Data? && t.blocks[c].size == size
      && t.blocks - {c} == s.blocks - {b}
      && (c == b <==> NumPages(was.size) == NumPages(size))
      && |t.st.free| + NumPages(size) == |s.st.free| + NumPages(was.size)
      && Min(size, was.size) <= |t.blocks[c].payload|
      && t.blocks[c].payload[..Min(size, was.size)] == was.payload[..Min(size, was.size)]
      && (c != b ==> ZerosBetween(t.blocks[c].payload, was.size, size))
      && t.st.tables == s.st.tables && t.spaces == s.spaces
  {
    hide SysInv, NumPages, Separated, Pages, ZerosBetween;
    if NumPages(s.blocks[b].size) == NumPages(size) {
      c := b;
    } else {
      MovedZeros(s, b, size, payload);
      BlockSized(s, shapes, reserved, b);
      NewBlockKeeps(s, shapes, reserved, size, payload);
      var s1 := NewBlock(s, size, payload).value;
      hide NewBlock, NewBase, AddBlock;
      c := NewBase(s, size);
      MoveExact(s, shapes, reserved, b, c, size, payload);
    }
  }

  lemma MoveExact(s: System, shapes: Shapes, reserved: set<nat>, b: nat, c: nat, size: Word, payload: seq<Byte>)
    requires SysInv(s, shapes, reserved) && SysInv(AddBlock(s, c, Data(size, payload)), shapes, reserved)
    requires b in s.blocks && c !in s.blocks && s.blocks[b].Data? && s.blocks[b].Sized()
    requires Pages(c, NumPages(size) + 1) <= s.st.free && |payload| == PAGE_SIZE * NumPages(size)
    ensures var t := DropBlock(AddBlock(s, c, Data(size, payload)), b);
      && c in t.blocks && t.blocks[c] == Data(size, payload)
      && t.blocks - {c} == s.blocks - {b}
      && |t.st.free| + NumPages(size) == |s.st.free| + NumPages(s.blocks[b].size)
  {
    hide SysInv, NumPages, Pages, AllPages, Managed, BlockPages;
    var s1 := AddBlock(s, c, Data(size, payload));
    BlockLength(size, payload);
    BlockLength(s.blocks[b].size, s.blocks[b].payload);
    DropBlockKeeps(s1, shapes, reserved, b);
    MovedBlocks(s.blocks, b, c, Data(size, payload));
    var take, give := Pages(c, NumPages(size) + 1), Pages(b, NumPages(s.blocks[b].size) + 1);
    PagesSize(c, NumPages(size) + 1);
    PagesSize(b, NumPages(s.blocks[b].size) + 1);
    MovedCount(s.st.free, take, give);
  }

  lemma MovedBlocks(blocks: map<nat, Block>, b: nat, c: nat, blk: Block)
    requires b in blocks && c !in blocks
    ensures blocks[c := blk] - {b} - {c} == blocks - {b}
  {
  }

  lemma MovedCount(free: set<nat>, take: set<nat>, give: set<nat>)
    requires take <= free && give !! free - take
    ensures |free - take + give| + |take| == |free| + |give|
  {
    CountAfterAllocate(free, take);
  }

  /** Space j translates v in t as in s. */
  ghost predicate SameWalk(s: System, t: System, j: nat, v: Word) {
    && j in s.spaces && j in t.spaces
    && Walk(t.st.tables, t.spaces[j].root, v, 4) == Walk(s.st.tables, s.spaces[j].root, v, 4)
  }

  /** Whatever a step does elsewhere, another space translates every address as before. */
  lemma OthersTranslateAsBefore(s: System, shapes: Shapes, reserved: set<nat>, e: Event, t: System, j: nat, v: Word)
    requires Inv(s, shapes, reserved) && Allowed(s, e) && Next(s, e) == Done(t)
    requires j in s.spaces && !((e.MapPages? || e.UnmapPages?) && e.i == j)
    ensures SameWalk(s, t, j, v)
  {
    hide Next, SysInv, Walk, Allowed, AllPages, SpaceInv;
    var shapes' := StepKeepsInv(s, shapes, reserved, e);
    SpaceWalk(s, shapes, reserved, j, v);
    SpaceWalk(t, shapes', reserved, j, v);
  }

  lemma SpaceWalk(s: System, shapes: Shapes, reserved: set<nat>, j: nat, v: Word)
    requires SysInv(s, shapes, reserved) && j in s.spaces
    ensures j in shapes && Walk(s.st.tables, s.spaces[j].root, v, 4) == Done(Target(shapes[j], Vpn(v)))
  {
    SpaceReady(s, shapes, reserved, j);
    hide SysInv, Walk, Separated, Coherent, Tight, Listed, VecsApart;
    WalkIsMap(s.st, Rest(s, reserved) + VecsPages(Vecs(s)), s.spaces[j], shapes[j], v);
  }

  /** And what the processor permits there is what the flags of the page say. */
  lemma SpaceAccess(s: System, shapes: Shapes, reserved: set<nat>, j: nat, v: Word)
    requires SysInv(s, shapes, reserved) && j in s.spaces
    ensures j in shapes && Access(s.st.tables, s.spaces[j].root, v, 4) == Done(FlagRights(shapes[j], Vpn(v)))
  {
    SpaceReady(s, shapes, reserved, j);
    hide SysInv, Access, Separated, Coherent, Tight, Listed, VecsApart, FlagRights;
    AccessIsFlags(s.st, Rest(s, reserved) + VecsPages(Vecs(s)), s.spaces[j], shapes[j], v);
  }
}
