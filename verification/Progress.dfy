/** When the calls of the memory manager complete: in every good state, a free run long enough for
    their tables and blocks, those of growing vectors included, is all they need. */
module Progress {
  import opened Words
  import opened Wrappers
  import opened Frames
  import opened Growth
  import opened Boot
  import opened Tables
  import opened Mapping
  import opened Ranges
  import opened Room
  import opened Replay
  import opened Init
  import opened Systems
  import opened Calls
  import opened Runs

  /** Tables for a range of n pages, whatever is linked already. */
  function TableBound(n: nat): nat {
    (n / 512 + 2) + (n / 0x4_0000 + 2) + (n / 0x800_0000 + 2)
  }

  function CallsBound(calls: seq<Call>): nat {
    if calls == [] then 0 else CallsBound(calls[..|calls| - 1]) + TableBound(calls[|calls| - 1].r.n)
  }

  /** Pages that a sequence of calls takes at most: for their tables and the memory list that
      holds them, and for the log. */
  function CallsNeed(lv: Vec, len: nat, sp: Space, calls: seq<Call>): nat {
    ListNeed(lv.cap, len, |Logged(calls)|, RECORD_SIZE) + TablesNeed(sp, CallsBound(calls))
  }

  lemma LackBound(sh: Shape, v: Word, n: nat)
    ensures RangeLack(sh, v, n) <= TableBound(n)
  {
    VmMapCostBound(v, n, sh.tabs.Keys);
    hide RangeKeys;
  }

  lemma LogAppendCompletes(st: Store, rest: set<nat>, vecs: map<Holder, Vec>, i: nat, lv: Vec, len: nat, sp: Space,
                           sh: Shape, room: nat)
    requires CallReady(st, rest, vecs, i, lv, sp, sh)
    requires HasRoom(st, room) && room >= GrowNeed(lv.cap, len + 1, RECORD_SIZE)
    ensures LogAppend(st, lv, len).Done?
    ensures HasRoom(LogAppend(st, lv, len).value.0, room - GrowNeed(lv.cap, len + 1, RECORD_SIZE))
  {
    hide Housed, Placed, SpaceInv, Grow, GrowNeed, HasRoom, Around;
    PlaceOne(st, rest, vecs, TheLog);
    GrowLeavesRoom(st, lv, Around(rest, vecs, TheLog), len + 1, RECORD_SIZE, room);
  }

  /** vm_map, given room for its tables. */
  lemma MapLeavesRoom(st: Store, rest: set<nat>, vecs: map<Holder, Vec>, i: nat, lv: Vec, sp: Space, sh: Shape,
                      r: Record, room: nat) returns (k: nat)
    requires CallReady(st, rest, vecs, i, lv, sp, sh) && GoodRecord(r)
    requires HasRoom(st, room) && room >= TablesNeed(sp, TableBound(r.n))
    ensures k <= TableBound(r.n) && TablesNeed(sp, k) <= room
    ensures VmMap(st, sp, r.virt, r.phys, r.n, r.flags).Done?
    ensures HasRoom(VmMap(st, sp, r.virt, r.phys, r.n, r.flags).value.0, room - TablesNeed(sp, k))
    ensures |VmMap(st, sp, r.virt, r.phys, r.n, r.flags).value.1.list| == |sp.list| + k
    ensures ListGrown(sp, VmMap(st, sp, r.virt, r.phys, r.n, r.flags).value.1)
  {
    hide Housed, Placed, SpaceInv, VmMap, HasRoom, Around, TablesNeed, RangeLack, TableBound, ListGrown, KeptAll,
      Grown, Apply;
    k := RangeLack(sh, r.virt, r.n);
    LackBound(sh, r.virt, r.n);
    NeedGrows(sp, k, TableBound(r.n));
    PlaceOne(st, rest, vecs, ListOf(i));
    VmMapCompletes(st, Around(rest, vecs, ListOf(i)), sp, sh, r.virt, r.phys, r.n, r.flags, room);
    var _ := MapKeeps(st, rest, vecs, i, lv, sp, sh, r);
  }

  /** One call, given room for its record and its tables. */
  lemma MapCallCompletes(st: Store, rest: set<nat>, vecs: map<Holder, Vec>, i: nat, lv: Vec, len: nat, sp: Space,
                         sh: Shape, c: Call, room: nat) returns (k: nat)
    requires CallReady(st, rest, vecs, i, lv, sp, sh) && GoodRecord(c.r) && HasRoom(st, room)
    requires room >= LogNeed(lv, len, c) + TablesNeed(sp, TableBound(c.r.n))
    ensures k <= TableBound(c.r.n) && LogNeed(lv, len, c) + TablesNeed(sp, k) <= room
    ensures MapCall(st, lv, len, sp, c).Done?
    ensures HasRoom(MapCall(st, lv, len, sp, c).value.0, room - LogNeed(lv, len, c) - TablesNeed(sp, k))
    ensures |MapCall(st, lv, len, sp, c).value.2.list| == |sp.list| + k
    ensures ListGrown(sp, MapCall(st, lv, len, sp, c).value.2)
  {
    hide CallReady, VmMap, HasRoom, TablesNeed, TableBound, ListGrown, KeptAll, LogAppend, GrowNeed, NextCap,
      GoodRecord;
    if c.logged {
      LogAppendCompletes(st, rest, vecs, i, lv, len, sp, sh, room);
      LogAppendKeeps(st, rest, vecs, i, lv, len, sp, sh);
      var (st1, lv1) := LogAppend(st, lv, len).value;
      k := MapLeavesRoom(st1, rest, vecs[TheLog := lv1], i, lv1, sp, sh, c.r, room - LogNeed(lv, len, c));
    } else {
      k := MapLeavesRoom(st, rest, vecs, i, lv, sp, sh, c.r, room);
    }
  }

  /** Pages for the record of a call. */
  function LogNeed(lv: Vec, len: nat, c: Call): nat {
    if c.logged then GrowNeed(lv.cap, len + 1, RECORD_SIZE) else 0
  }

  lemma LogNeedStep(lv: Vec, len: nat, calls: seq<Call>, lv1: Vec)
    requires calls != [] && lv1.cap == LogCap(lv, len, calls[..|calls| - 1])
    ensures var front, c := calls[..|calls| - 1], calls[|calls| - 1];
      ListNeed(lv.cap, len, |Logged(calls)|, RECORD_SIZE)
        == ListNeed(lv.cap, len, |Logged(front)|, RECORD_SIZE) + LogNeed(lv1, len + |Logged(front)|, c)
  {
    hide GrowNeed, CapAfter;
  }

  /** A sequence of calls completes with room for all of it. */
  lemma {:induction false} MapCallsComplete(st: Store, rest: set<nat>, vecs: map<Holder, Vec>, i: nat, lv: Vec,
                                            len: nat, sp: Space, sh: Shape, calls: seq<Call>, room: nat)
    returns (k: nat)
    requires CallReady(st, rest, vecs, i, lv, sp, sh) && sh.pages == map[] && GoodLog(Records(calls))
    requires HasRoom(st, room) && room >= CallsNeed(lv, len, sp, calls)
    ensures k <= CallsBound(calls)
    ensures ListNeed(lv.cap, len, |Logged(calls)|, RECORD_SIZE) + TablesNeed(sp, k) <= room
    ensures MapCalls(st, lv, len, sp, calls).Done?
    ensures HasRoom(MapCalls(st, lv, len, sp, calls).value.0,
                    room - ListNeed(lv.cap, len, |Logged(calls)|, RECORD_SIZE) - TablesNeed(sp, k))
    ensures |MapCalls(st, lv, len, sp, calls).value.2.list| == |sp.list| + k
    ensures ListGrown(sp, MapCalls(st, lv, len, sp, calls).value.2)
  {
    hide CallReady, KeptAll, MapCall, HasRoom, TablesNeed, TableBound, ListGrown, LogNeed, ListNeed, Logged, Records,
      GoodRecord, Moved, LogCap, GoodLog;
    k := 0;
    if calls != [] {
      var front, c := calls[..|calls| - 1], calls[|calls| - 1];
      FrontReady(calls);
      var lv0 := Vec(0, LogCap(lv, len, front));
      LogNeedStep(lv, len, calls, lv0);
      NeedGrows(sp, CallsBound(front), CallsBound(calls));
      var k1 := MapCallsComplete(st, rest, vecs, i, lv, len, sp, sh, front, room);
      var sh1 := MapCallsCorrect(st, rest, vecs, i, lv, len, sp, sh, front);
      var (st1, lv1, sp1) := MapCalls(st, lv, len, sp, front).value;
      LogNeedStep(lv, len, calls, lv1);
      NeedAdds(sp, sp1, k1, TableBound(c.r.n));
      NeedGrows(sp, k1 + TableBound(c.r.n), CallsBound(calls));
      var left := room - ListNeed(lv.cap, len, |Logged(front)|, RECORD_SIZE) - TablesNeed(sp, k1);
      var k2 := MapCallCompletes(st1, rest, Moved(vecs, i, lv1, sp1), i, lv1, len + |Logged(front)|, sp1, sh1, c, left);
      k := k1 + k2;
      NeedAdds(sp, sp1, k1, k2);
      ListGrownTrans(sp, sp1, MapCalls(st, lv, len, sp, calls).value.2);
    } else {
      NoNeed(lv, len, sp);
    }
  }

  lemma FrontReady(calls: seq<Call>)
    requires calls != [] && GoodLog(Records(calls))
    ensures GoodLog(Records(calls[..|calls| - 1])) && GoodRecord(calls[|calls| - 1].r)
  {
    FrontGood(Records(calls[..|calls| - 1]), calls[|calls| - 1].r);
  }

  lemma NoNeed(lv: Vec, len: nat, sp: Space)
    ensures ListNeed(lv.cap, len, |Logged([])|, RECORD_SIZE) == 0 && TablesNeed(sp, 0) == 0 && ListGrown(sp, sp)
  {
    NeedOfOne(sp);
    assert CapAfter(sp.vec.cap, |sp.list|, 0, LIST_ENTRY) == sp.vec.cap;
  }

  const ROOT_PAGES: nat := 1 + DEFAULT_PAGES

  lemma AddRootLeavesRoom(s: System, shapes: Shapes, reserved: set<nat>, i: nat, room: nat)
    requires SysInv(s, shapes, reserved) && i !in s.spaces && HasRoom(s.st, room) && room >= ROOT_PAGES
    ensures AddRoot(s, i).Done? && HasRoom(AddRoot(s, i).value.0.st, room - ROOT_PAGES)
  {
    var p: nat :| Pages(p, room) <= s.st.free;
    RunFits(s.st, Rest(s, reserved), p, room, ROOT_PAGES);
    FreeBounds(s, shapes, reserved);
    hide SysInv, SpacesGood, Separated, BlockPages, Pages, LimitPages;
    var a := FirstFit(s.st.free, ROOT_PAGES, 0, s.st.limit).value;
    RootFits(s.st.free, s.st.limit, a);
    RestOfRun(s.st.free, p, room, a / PAGE_SIZE, ROOT_PAGES);
    hide FirstFit, AddRoot;
    RootTakes(s, i, a);
    assert Pages(p + ROOT_PAGES, room - ROOT_PAGES) <= AddRoot(s, i).value.0.st.free;
  }

  lemma RootTakes(s: System, i: nat, a: nat)
    requires FirstFit(s.st.free, ROOT_PAGES, 0, s.st.limit) == Some(a) && a % PAGE_SIZE == 0 && a + PAGE_SIZE < TWO64
    ensures AddRoot(s, i).Done? && AddRoot(s, i).value.0.st.free == s.st.free - Pages(a / PAGE_SIZE, ROOT_PAGES)
  {
    hide FirstFit, Pages;
    var b := a / PAGE_SIZE;
    assert (a + PAGE_SIZE) / PAGE_SIZE == b + 1;
    assert forall q :: q in Pages(b, ROOT_PAGES) <==> q in Pages(b, 1) || q in Pages(b + 1, DEFAULT_PAGES);
    assert s.st.free - Pages(b, 1) - Pages(b + 1, DEFAULT_PAGES) == s.st.free - Pages(b, ROOT_PAGES);
  }

  /** A new space completes with room for its root and for the calls that map it. */
  lemma BuildSpaceCompletes(s: System, shapes: Shapes, reserved: set<nat>, i: nat, calls: seq<Call>, room: nat)
    requires SysInv(s, shapes, reserved) && i !in s.spaces && GoodLog(Records(calls))
    requires HasRoom(s.st, room) && room >= ROOT_PAGES + CallsNeed(s.logVec, |s.log|, EMPTY_SPACE, calls)
    ensures BuildSpace(s, i, calls).Done?
    ensures HasRoom(BuildSpace(s, i, calls).value.st,
                    room - ROOT_PAGES - CallsNeed(s.logVec, |s.log|, EMPTY_SPACE, calls))
  {
    hide SysInv, CallReady, AddRoot, MapCalls, EmptyShape, HasRoom, CallsNeed, GoodLog, Vecs, AllPages, Rest, Logged,
      ListNeed, TablesNeed, CallsBound;
    AddRootKeeps(s, shapes, reserved, i);
    AddRootLeavesRoom(s, shapes, reserved, i, room);
    var (s1, root) := AddRoot(s, i).value;
    var sp := Space(root, [], NO_VEC);
    SpaceReady(s1, shapes[i := EmptyShape(root)], reserved, i);
    EmptyPages(root);
    SameNeed(s.logVec, |s.log|, root, calls);
    var k := MapCallsComplete(s1.st, Rest(s1, reserved), Vecs(s1), i, s1.logVec, |s1.log|, sp, EmptyShape(root), calls,
                              room - ROOT_PAGES);
    AtMostNeed(s1.logVec, |s1.log|, sp, calls, k);
    LessRoom(BuildSpace(s, i, calls).value.st,
             room - ROOT_PAGES - ListNeed(s1.logVec.cap, |s1.log|, |Logged(calls)|, RECORD_SIZE) - TablesNeed(sp, k),
             room - ROOT_PAGES - CallsNeed(s.logVec, |s.log|, EMPTY_SPACE, calls));
  }

  lemma AtMostNeed(lv: Vec, len: nat, sp: Space, calls: seq<Call>, k: nat)
    requires k <= CallsBound(calls)
    ensures ListNeed(lv.cap, len, |Logged(calls)|, RECORD_SIZE) + TablesNeed(sp, k) <= CallsNeed(lv, len, sp, calls)
  {
    NeedGrows(sp, k, CallsBound(calls));
    hide ListNeed, Logged, CallsBound, TablesNeed;
  }

  const EMPTY_SPACE: Space := Space(0, [], NO_VEC)

  lemma SameNeed(lv: Vec, len: nat, root: nat, calls: seq<Call>)
    ensures CallsNeed(lv, len, Space(root, [], NO_VEC), calls) == CallsNeed(lv, len, EMPTY_SPACE, calls)
  {
    hide ListNeed, Logged, CallsBound;
  }

  /** kmalloc of `size` bytes leaves the rest of the run. */
  lemma NewBlockLeavesRoom(s: System, reserved: set<nat>, size: Word, payload: seq<Byte>, room: nat)
    requires Pool(s, reserved) && |payload| == PAGE_SIZE * NumPages(size)
    requires HasRoom(s.st, room) && room >= NumPages(size) + 1
    ensures NewBlock(s, size, payload).Done? && HasRoom(NewBlock(s, size, payload).value.st, room - NumPages(size) - 1)
  {
    var n := NumPages(size) + 1;
    BlockLength(size, payload);
    hide NumPages, LimitPages;
    var p: nat :| Pages(p, room) <= s.st.free;
    RunFits(s.st, Rest(s, reserved), p, room, n);
    hide Pool, FirstFit, BlockPages, Pages;
    var a := FirstFit(s.st.free, n, 0, s.st.limit).value;
    RestOfRun(s.st.free, p, room, a / PAGE_SIZE, n);
    assert Pages(p + n, room - n) <= NewBlock(s, size, payload).value.st.free;
  }

  /** Free pages in a row that are enough for a call, whatever else is going on. */
  function EventNeed(s: System, e: Event): nat {
    match e
    case Kmalloc(size, _) => NumPages(size) + 1
    case Krealloc(_, size, _) => NumPages(size) + 1
    case VmInit(entries, load) =>
      ROOT_PAGES + CallsNeed(s.logVec, |s.log|, EMPTY_SPACE, InitCalls(s.st.limit, entries, load))
    case MapPages(i, r) =>
      if i !in s.spaces then 0
      else LogNeed(s.logVec, |s.log|, Call(r, i == 0)) + TablesNeed(s.spaces[i], TableBound(r.n))
    case CreateSpace(_, _) =>
      NumPages(ADDR_SPACE_SIZE) + 1 + ROOT_PAGES + CallsNeed(s.logVec, |s.log|, EMPTY_SPACE, CallsOf(s.log, false))
    case _ => 0
  }

  lemma MapPagesCompletes(s: System, shapes: Shapes, reserved: set<nat>, i: nat, r: Record, room: nat)
    requires SysInv(s, shapes, reserved) && i in s.spaces && GoodRecord(r)
    requires HasRoom(s.st, room)
    requires room >= LogNeed(s.logVec, |s.log|, Call(r, i == 0)) + TablesNeed(s.spaces[i], TableBound(r.n))
    ensures MapCall(s.st, s.logVec, |s.log|, s.spaces[i], Call(r, i == 0)).Done?
  {
    hide SysInv, HasRoom, TableBound, TablesNeed, LogNeed, MapCall, CallReady, ListGrown, GoodRecord, Vecs;
    SpaceReady(s, shapes, reserved, i);
    var _ := MapCallCompletes(s.st, Rest(s, reserved), Vecs(s), i, s.logVec, |s.log|, s.spaces[i], shapes[i],
                              Call(r, i == 0), room);
  }

  lemma CreateCompletes(s: System, shapes: Shapes, reserved: set<nat>, i: nat, payload: seq<Byte>, room: nat)
    requires Inv(s, shapes, reserved) && Allowed(s, CreateSpace(i, payload))
    requires HasRoom(s.st, room) && room >= EventNeed(s, CreateSpace(i, payload))
    ensures Next(s, CreateSpace(i, payload)).Done?
  {
    hide SysInv, GoodLog, HasRoom, Next, EventNeed, NumPages;
    CreateFrom(s, shapes, reserved, i, payload, room);
  }

  lemma CreateFrom(s: System, shapes: Shapes, reserved: set<nat>, i: nat, payload: seq<Byte>, room: nat)
    requires SysInv(s, shapes, reserved) && GoodLog(s.log) && i !in s.spaces
    requires |payload| == PAGE_SIZE * NumPages(ADDR_SPACE_SIZE)
    requires HasRoom(s.st, room) && room >= EventNeed(s, CreateSpace(i, payload))
    ensures Next(s, CreateSpace(i, payload)).Done?
  {
    hide SpacesGood, Housed, HasRoom, CallsNeed, NewBlock, NewBase, BuildSpace, CallsOf, NumPages, GoodLog, Separated,
      BlocksApart;
    NewBlockLeavesRoom(s, reserved, ADDR_SPACE_SIZE, payload, room);
    QuietCallsAre(s.log);
    hide SysInv;
    var s1 := StructKeeps(s, shapes, reserved, i, payload);
    var left := room - NumPages(ADDR_SPACE_SIZE) - 1;
    assert left >= ROOT_PAGES + CallsNeed(s1.logVec, |s1.log|, EMPTY_SPACE, CallsOf(s.log, false));
    BuildSpaceCompletes(s1, shapes, reserved, i, CallsOf(s.log, false), left);
  }

  lemma StructKeeps(s: System, shapes: Shapes, reserved: set<nat>, i: nat, payload: seq<Byte>) returns (s1: System)
    requires SysInv(s, shapes, reserved) && |payload| == PAGE_SIZE * NumPages(ADDR_SPACE_SIZE)
    requires NewBlock(s, ADDR_SPACE_SIZE, payload).Done?
    ensures s1 == WithStruct(NewBlock(s, ADDR_SPACE_SIZE, payload).value, i, NewBase(s, ADDR_SPACE_SIZE))
    ensures SysInv(s1, shapes, reserved) && s1.spaces == s.spaces && s1.log == s.log && s1.logVec == s.logVec
    ensures s1.st == NewBlock(s, ADDR_SPACE_SIZE, payload).value.st
  {
    hide SysInv, NumPages, FirstFit, AllPages, NewBase;
    NewBlockKeeps(s, shapes, reserved, ADDR_SPACE_SIZE, payload);
    s1 := WithStruct(NewBlock(s, ADDR_SPACE_SIZE, payload).value, i, NewBase(s, ADDR_SPACE_SIZE));
    StructsDoNotMatter(NewBlock(s, ADDR_SPACE_SIZE, payload).value, shapes, reserved, s1.structs);
  }

  lemma InitCompletes(s: System, shapes: Shapes, reserved: set<nat>, entries: seq<MemEntry>, load: LoadAddress,
                      room: nat)
    requires Inv(s, shapes, reserved) && Allowed(s, VmInit(entries, load))
    requires HasRoom(s.st, room) && room >= EventNeed(s, VmInit(entries, load))
    ensures Next(s, VmInit(entries, load)).Done?
  {
    hide SysInv, HasRoom, CallsNeed, BuildSpace, NumPages, GoodRecord, InitCalls, InitPlan, InitLog;
    InitRecordsGood(s.st.limit, entries, load);
    InitCallsAre(s.st.limit, entries, load);
    BuildSpaceCompletes(s, shapes, reserved, 0, InitCalls(s.st.limit, entries, load), room);
  }

  lemma BlockCompletes(s: System, shapes: Shapes, reserved: set<nat>, e: Event, room: nat)
    requires Inv(s, shapes, reserved) && Allowed(s, e) && (e.Kmalloc? || e.Krealloc? || e.Kfree? || e.Write?)
    requires HasRoom(s.st, room) && room >= EventNeed(s, e)
    ensures !Next(s, e).Halt?
  {
    hide Pool, SpacesGood, Housed, HasRoom, NumPages, AllPages, FirstFit, NewBlock;
    match e
    case Kmalloc(size, payload) => NewBlockLeavesRoom(s, reserved, size, payload, room);
    case Krealloc(b, size, payload) =>
      if NumPages(s.blocks[b].size) != NumPages(size) {
        NewBlockLeavesRoom(s, reserved, size, payload, room);
      }
    case _ =>
  }

  /** Every allowed call that does not overrun a vector completes in every good state that has
      this much room: out of memory is the only reason for any of them to halt. */
  lemma RoomSuffices(s: System, shapes: Shapes, reserved: set<nat>, e: Event, room: nat)
    requires Inv(s, shapes, reserved) && Allowed(s, e) && HasRoom(s.st, room) && room >= EventNeed(s, e)
    requires !EraseOverruns(s, shapes, e)
    ensures Next(s, e).Done?
  {
    hide SysInv, HasRoom, EventNeed, Next, EraseOverruns, GoodRecord;
    var _ := StepKeepsInv(s, shapes, reserved, e);
    match e
    case VmInit(entries, load) => InitCompletes(s, shapes, reserved, entries, load, room);
    case MapPages(i, r) =>
      MapNeed(s, i, r);
      MapPagesCompletes(s, shapes, reserved, i, r, room);
      MapIsCall(s, i, r);
    case CreateSpace(i, payload) => CreateCompletes(s, shapes, reserved, i, payload, room);
    case UnmapPages(i, v, n) =>
      var _ := UnmapStepGood(s, shapes, reserved, i, v, n);
    case _ => BlockCompletes(s, shapes, reserved, e, room);
  }

  lemma MapNeed(s: System, i: nat, r: Record)
    requires i in s.spaces
    ensures EventNeed(s, MapPages(i, r))
         == LogNeed(s.logVec, |s.log|, Call(r, i == 0)) + TablesNeed(s.spaces[i], TableBound(r.n))
  {
    hide LogNeed, TablesNeed, TableBound;
  }

  lemma MapIsCall(s: System, i: nat, r: Record)
    requires i in s.spaces && MapCall(s.st, s.logVec, |s.log|, s.spaces[i], Call(r, i == 0)).Done?
    ensures Next(s, MapPages(i, r)).Done?
  {
    hide MapCall;
  }

  // ---------------------------------------------------------------- a machine that gets through

  /** A memory map with 3 MiB of usable memory behind the first megabyte. */
  const SMALL_MAP: seq<MemEntry> := [MemEntry(0x10_0000, 0x30_0000, Usable)]

  const SMALL_LIMIT: Word := 0x40_0000

  /** pm_init puts the bitmap on page 256, which holds all bits in use, and frees the pages after it. */
  lemma SmallMap()
    ensures Bounded(SMALL_MAP) && Limit(SMALL_MAP) == SMALL_LIMIT
    ensures Home(SMALL_MAP, BitmapSize(SMALL_MAP)) == Some(0x10_0000)
    ensures BootFree(SMALL_MAP, {}, 0x10_0000) == Pages(257, 767) && UsablePages(SMALL_MAP) == Pages(256, 768)
  {
    var e := MemEntry(0x10_0000, 0x30_0000, Usable);
    SmallEntry(e);
    hide Limit, UsablePages, Home, NumPages, BitmapPages, BootFree, Pages, MemEntry.Run, MemEntry.High;
    OneEntry(e);
    assert SMALL_MAP == [e];
  }

  lemma SmallEntry(e: MemEntry)
    requires e == MemEntry(0x10_0000, 0x30_0000, Usable)
    ensures e.High() && e.End() == SMALL_LIMIT && e.Run() == Pages(256, 768)
    ensures NumPages(e.length) == 768 && e.base / PAGE_SIZE == 256 && NumPages(e.End() / (PAGE_SIZE * 8)) == 1
  {
    hide Pages;
  }

  lemma SmallPages()
    ensures GuardFits(SMALL_LIMIT, 0x10_0000) && 0 !in Pages(256, 768) && Pages(257, 767) !! {256}
    ensures forall p :: p in Pages(257, 767) ==> 0 < p < LimitPages(SMALL_LIMIT)
  {
    assert NumPages(128) == 1 && LimitPages(SMALL_LIMIT) == 1024;
    hide NumPages, LimitPages;
  }

  /** The structure of a new space, as kmalloc and memset leave it. */
  function NewStruct(): seq<Byte> {
    seq(PAGE_SIZE, _ => 0)
  }

  /** From this memory map, vm_init and then create_address_space complete. */
  lemma SmallMachineRuns(load: LoadAddress) returns (t: System)
    ensures Bounded(SMALL_MAP) && Home(SMALL_MAP, BitmapSize(SMALL_MAP)) == Some(0x10_0000)
    ensures 0 !in UsablePages(SMALL_MAP)
    ensures Limit(SMALL_MAP) == SMALL_LIMIT && GuardFits(SMALL_LIMIT, 0x10_0000)
    ensures Reaches(Booted(SMALL_LIMIT, BootFree(SMALL_MAP, {}, 0x10_0000)),
                    [VmInit(SMALL_MAP, load), CreateSpace(1, NewStruct())], t)
    ensures 0 in t.spaces && 1 in t.spaces
  {
    hide Pages, Inv, HasRoom, Next, EventNeed, AllPages, Allowed, Reaches, LimitPages, UnmapSafe, Limit, Home,
      UsablePages, BootFree, GuardFits, NewStruct;
    SmallMap();
    SmallPages();
    var s := Booted(SMALL_LIMIT, Pages(257, 767));
    BootedGood(SMALL_LIMIT, Pages(257, 767), {256});
    var s1, shapes := SmallInit(s, load);
    var e := CreateSpace(1, NewStruct());
    SmallCreate(s1, shapes, load);
    RoomSuffices(s1, shapes, {256}, e, 570);
    t := Next(s1, e).value;
    CreateAdds(s1, shapes, {256}, 1, NewStruct(), t);
    TwoSteps(s, VmInit(SMALL_MAP, load), e);
  }

  lemma CreateAdds(s: System, shapes: Shapes, reserved: set<nat>, i: nat, payload: seq<Byte>, t: System)
    requires Inv(s, shapes, reserved) && Allowed(s, CreateSpace(i, payload))
    requires Next(s, CreateSpace(i, payload)) == Done(t)
    ensures i in t.spaces && s.spaces.Keys <= t.spaces.Keys
  {
    hide Next, SysInv, AllPages, Allowed, StructsGood, StructsStay;
    var shapes' := CreateStepGood(s, shapes, reserved, i, payload);
    SameKeys(t, shapes', reserved);
  }

  lemma TwoSteps(s: System, e: Event, f: Event)
    requires Allowed(s, e) && Next(s, e).Done?
    requires Allowed(Next(s, e).value, f) && Next(Next(s, e).value, f).Done?
    ensures Reaches(s, [e, f], Next(Next(s, e).value, f).value)
  {
    hide Allowed, Next;
    var s1 := Next(s, e).value;
    assert [e, f][1..] == [f] && [f][1..] == [];
    assert Reaches(Next(s1, f).value, [], Next(s1, f).value);
    assert Reaches(s1, [f], Next(s1, f).value);
  }

  /** vm_init leaves 570 pages in a row. */
  lemma SmallInit(s: System, load: LoadAddress) returns (t: System, shapes: Shapes)
    requires s == Booted(SMALL_LIMIT, Pages(257, 767)) && Inv(s, map[], {256})
    ensures Allowed(s, VmInit(SMALL_MAP, load)) && Next(s, VmInit(SMALL_MAP, load)) == Done(t)
    ensures Inv(t, shapes, {256}) && t.spaces.Keys == {0} && t.st.limit == SMALL_LIMIT && HasRoom(t.st, 570)
    ensures t.log == InitLog(SMALL_LIMIT, SMALL_MAP, load)
  {
    hide Pages, SysInv, CallsNeed, BuildSpace, InitCalls, AllPages, InitPlan, InitLog;
    var calls := InitCalls(SMALL_LIMIT, SMALL_MAP, load);
    assert Pages(257, 767) <= s.st.free;
    InitRecordsGood(SMALL_LIMIT, SMALL_MAP, load);
    InitCallsAre(SMALL_LIMIT, SMALL_MAP, load);
    SmallInitNeed(s.logVec, load);
    BuildSpaceCompletes(s, map[], {256}, 0, calls, 767);
    var _ := BuildSpaceKeeps(s, map[], {256}, 0, calls);
    shapes := InitStepGood(s, map[], {256}, SMALL_MAP, load);
    t := BuildSpace(s, 0, calls).value;
  }

  lemma SmallCreate(s: System, shapes: Shapes, load: LoadAddress)
    requires Inv(s, shapes, {256}) && s.spaces.Keys == {0} && s.st.limit == SMALL_LIMIT
    requires s.log == InitLog(SMALL_LIMIT, SMALL_MAP, load)
    ensures Allowed(s, CreateSpace(1, NewStruct())) && EventNeed(s, CreateSpace(1, NewStruct())) <= 570
  {
    hide SysInv, CallsNeed, InitLog, CallsOf;
    assert NumPages(ADDR_SPACE_SIZE) == 1;
    SmallLogNeed(s.logVec, |s.log|, load);
  }

  /** Three ranges of at most 1024 pages: at most 23 tables, and two pages for a first block to
      list them and two for one of the log. */
  lemma SmallInitNeed(lv: Vec, load: LoadAddress)
    requires lv == NO_VEC
    ensures CallsNeed(lv, 0, EMPTY_SPACE, InitCalls(SMALL_LIMIT, SMALL_MAP, load)) == 188
  {
    var low, direct, entry := LowRecord(SMALL_LIMIT), DirectAll(SMALL_LIMIT), DirectRecord(SMALL_MAP[0]);
    hide LowRecord, DirectAll, DirectRecord, TableBound, TablesNeed, ListNeed, CallsBound, Logged;
    SmallRecords(load);
    assert InitCalls(SMALL_LIMIT, SMALL_MAP, load) == [Call(low, true), Call(direct, false)] + CallsOf([entry], true);
    OneCallOf(entry);
    var calls := [Call(low, true), Call(direct, false), Call(entry, true)];
    assert InitCalls(SMALL_LIMIT, SMALL_MAP, load) == calls;
    hide InitCalls;
    ThreeBounds(calls);
    InitCallsAre(SMALL_LIMIT, SMALL_MAP, load);
    SmallLog(load);
    FirstCaps(23);
    FewRecords();
    assert TablesNeed(EMPTY_SPACE, 23) == 186;
  }

  lemma SmallRecords(load: LoadAddress)
    ensures EntryRecords(SMALL_MAP, load) == [DirectRecord(SMALL_MAP[0])]
    ensures LowRecord(SMALL_LIMIT).n == DirectAll(SMALL_LIMIT).n == 1024 && DirectRecord(SMALL_MAP[0]).n == 768
    ensures TableBound(1024) == 8 && TableBound(768) == 7
  {
    assert SMALL_MAP[..0] == [];
    assert EntryRecords([], load) == [];
    assert NumPages(SMALL_LIMIT) == 1024 && NumPages(0x30_0000) == 768;
  }

  lemma SmallLog(load: LoadAddress)
    ensures InitLog(SMALL_LIMIT, SMALL_MAP, load) == [LowRecord(SMALL_LIMIT), DirectRecord(SMALL_MAP[0])]
  {
    SmallRecords(load);
    hide LowRecord, DirectRecord, EntryRecords;
  }

  lemma OneCallOf(r: Record)
    ensures CallsOf([r], true) == [Call(r, true)]
  {
    assert [r][..0] == [] && CallsOf([], true) == [];
    assert [] + [Call(r, true)] == [Call(r, true)];
  }

  lemma ThreeBounds(calls: seq<Call>)
    requires |calls| == 3
    ensures CallsBound(calls) == TableBound(calls[0].r.n) + TableBound(calls[1].r.n) + TableBound(calls[2].r.n)
  {
    hide TableBound;
    assert calls[..2][..1] == calls[..1] && calls[..1][..0] == [];
    assert CallsBound([]) == 0;
    assert CallsBound(calls[..1]) == TableBound(calls[0].r.n);
    assert CallsBound(calls[..2]) == CallsBound(calls[..1]) + TableBound(calls[1].r.n);
  }

  /** The two logged records once more, in a new space: at most 15 tables. */
  lemma SmallLogNeed(lv: Vec, len: nat, load: LoadAddress)
    ensures CallsNeed(lv, len, EMPTY_SPACE, CallsOf(InitLog(SMALL_LIMIT, SMALL_MAP, load), false)) == 122
  {
    var low, entry := LowRecord(SMALL_LIMIT), DirectRecord(SMALL_MAP[0]);
    hide LowRecord, DirectRecord, TableBound, TablesNeed, Logged, CallsBound;
    SmallLog(load);
    SmallRecords(load);
    QuietCallsAre([low, entry]);
    TwoQuiet(low, entry);
    FirstCaps(15);
    assert TablesNeed(EMPTY_SPACE, 15) == 122;
    assert ListNeed(lv.cap, len, 0, RECORD_SIZE) == 0;
    hide ListNeed, InitLog, CallsOf;
  }

  lemma TwoQuiet(r: Record, q: Record)
    ensures CallsBound(CallsOf([r, q], false)) == TableBound(r.n) + TableBound(q.n)
  {
    hide TableBound;
    assert [r, q][..1] == [r] && [r][..0] == [] && CallsOf([], false) == [];
    assert CallsOf([r], false) == [Call(r, false)];
    assert CallsOf([r, q], false) == [Call(r, false), Call(q, false)];
    assert [Call(r, false), Call(q, false)][..1] == [Call(r, false)] && [Call(r, false)][..0] == [];
    assert CallsBound([]) == 0;
    assert CallsBound([Call(r, false)]) == TableBound(r.n);
  }

  lemma FewRecords()
    ensures ListNeed(0, 0, 2, RECORD_SIZE) == 2
  {
    assert ListNeed(0, 0, 0, 32) == 0 && CapAfter(0, 0, 0, 32) == 0;
    assert ListNeed(0, 0, 1, 32) == 2 && CapAfter(0, 0, 1, 32) == 128;
  }
}
