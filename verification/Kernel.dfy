/** The kernel's own space after vm_init: what its log says about it, and how the spaces made from
    that log compare with it. */
module Kernel {
  import opened Words
  import opened Wrappers
  import opened Boot
  import opened Tables
  import opened Lookup
  import opened Ranges
  import opened Replay
  import opened Init
  import opened Systems
  import opened Calls
  import opened Runs

  /** The kernel's pages are those of its log, with the unlogged direct map in its place. */
  ghost predicate InStep(s: System, shapes: Shapes) {
    && 0 in shapes
    && s.log != [] && s.log[0] == LowRecord(s.st.limit)
    && shapes[0].pages == ReplayLog(Actual(s.log, s.st.limit))
  }

  /** vm_init leaves the kernel's space and its log in step. */
  lemma InitInStep(s: System, shapes: Shapes, reserved: set<nat>, entries: seq<MemEntry>, load: LoadAddress, t: System)
      returns (shapes': Shapes)
    requires Inv(s, shapes, reserved) && Allowed(s, VmInit(entries, load)) && Next(s, VmInit(entries, load)) == Done(t)
    ensures Inv(t, shapes', reserved) && InStep(t, shapes') && t.st.limit == s.st.limit && 0 in t.spaces
    ensures t.log == InitLog(s.st.limit, entries, load)
    ensures shapes'[0].pages == ReplayLog(InitPlan(s.st.limit, entries, load))
  {
    hide Next, SysInv, ReplayLog, AllPages, InitPlan, LowRecord, DirectAll, EntryRecords, GoodLog;
    shapes' := InitStepGood(s, shapes, reserved, entries, load);
    ActualOfInit(s.st.limit, entries, load);
    SameKeys(t, shapes', reserved);
  }

  // ---------------------------------------------------------------- staying in step

  predicate OnKernel(e: Event) {
    e.UnmapPages? && e.i == 0
  }

  /** What it takes for log and kernel to stay in step when the kernel unmaps n pages from v. With
      no record at v, that nothing of the range is mapped; otherwise, that the first such record
      goes along with the range. The log's first record may only go if the next is the same. */
  ghost predicate KeepsStep(log: seq<Record>, limit: Word, v: Word, n: nat) {
    var rs, j := Actual(log, limit), FindRecord(log, v);
    if j == |log| then forall w :: w in RangePages(v, n) ==> !Covers(rs, w)
    else if j == 0 then |log| > 1 && log[1] == log[0] && AllGoAlong(rs, 2, v, n)
    else AllGoAlong(rs, j + 1, v, n)
  }

  /** A kernel unmap of one whole record other than the first. */
  predicate WholeRecord(s: System, e: Event) {
    && OnKernel(e)
    && var j := FindRecord(s.log, e.v);
       0 < j < |s.log| && s.log[j].n == e.n
  }

  /** What keeps log and kernel in step. */
  ghost predicate Careful(s: System, e: Event) {
    !e.VmInit? && (OnKernel(e) ==> KeepsStep(s.log, s.st.limit, e.v, e.n))
  }

  ghost predicate StepIn(s: System, e: Event, t: System, shapes: Shapes) {
    && (!OnKernel(e) && !e.VmInit? ==> InStep(t, shapes))
    && (OnKernel(e) ==> (InStep(t, shapes) <==> KeepsStep(s.log, s.st.limit, e.v, e.n)))
    && (WholeRecord(s, e) ==> (InStep(t, shapes) <==> Alone(s.log, s.st.limit, FindRecord(s.log, e.v))))
  }

  /** Every event but a kernel unmap keeps log and kernel in step. A kernel unmap does exactly if
      its range and its record go along; one of a whole record, if and only if no other record,
      the unlogged direct map included, touches its regions. */
  lemma StepInStep(s: System, shapes: Shapes, reserved: set<nat>, e: Event, t: System) returns (shapes': Shapes)
    requires Inv(s, shapes, reserved) && InStep(s, shapes) && Allowed(s, e) && Next(s, e) == Done(t)
    ensures StepGood(s, shapes, reserved, e, t, shapes') && StepIn(s, e, t, shapes')
  {
    hide Next, SysInv, AllPages, UnmapRange, ReplayLog, Apply, GoodLog, EraseRecord, Allowed, Actual, LowRecord,
      Alone, FindRecord, StructsGood, StructsStay, KeepsStep;
    shapes' := StepKeepsInv(s, shapes, reserved, e);
    SameKeys(s, shapes, reserved);
    if !e.VmInit? {
      NextLog(s, e, t);
    }
    if e.MapPages? {
      ActualSnoc(s.log, e.r, s.st.limit);
      ReplaySnoc(Actual(s.log, s.st.limit), e.r);
    } else if OnKernel(e) {
      KernelUnmap(s.log, s.st.limit, e.v, e.n);
    }
  }

  /** The log tells the kernel's pages. */
  ghost predicate Tells(log: seq<Record>, limit: Word, pages: map<nat, Leaf>) {
    log != [] && log[0] == LowRecord(limit) && pages == ReplayLog(Actual(log, limit))
  }

  lemma KernelUnmap(log: seq<Record>, limit: Word, v: Word, n: nat)
    requires log != [] && log[0] == LowRecord(limit)
    ensures var j, after := FindRecord(log, v), UnmapRange(ReplayLog(Actual(log, limit)), v, n);
      && (Tells(EraseRecord(log, v), limit, after) <==> KeepsStep(log, limit, v, n))
      && (0 < j < |log| && log[j].n == n ==> (Tells(EraseRecord(log, v), limit, after) <==> Alone(log, limit, j)))
  {
    var rs, j := Actual(log, limit), FindRecord(log, v);
    assert log[0].virt == MEM_VIRT_OFFSET;
    hide UnmapRange, ReplayLog, Actual, Alone, AllGoAlong, LowRecord, RangePages, Covers, DirectAll;
    if j == |log| {
      UnmapNothingExact(rs, v, n);
    } else if j > 0 {
      ErasedActual(log, limit, j);
      UnmapWithoutExact(rs, j + 1, v, n);
      if log[j].n == n {
        UnmapActualExact(log, limit, j);
      }
    } else if |log| > 1 && log[1] == log[0] {
      FirstErased(log, limit);
      UnmapWithoutExact(rs, 2, v, n);
    }
  }

  /** The first of two equal records goes: as if the second did. */
  lemma FirstErased(log: seq<Record>, limit: Word)
    requires |log| > 1 && log[1] == log[0]
    ensures var rs := Actual(log, limit); |rs| > 2 && Actual(log[..0] + log[1..], limit) == rs[..2] + rs[3..]
  {
    hide DirectAll;
    assert log[..0] + log[1..] == log[..1] + log[2..];
    ErasedBehind(log, DirectAll(limit), 1);
  }

  /** The log after each event. */
  lemma NextLog(s: System, e: Event, t: System)
    requires Next(s, e) == Done(t) && !e.VmInit?
    ensures t.log
         == if e.MapPages? && e.i == 0 then s.log + [e.r]
            else if e.UnmapPages? && e.i == 0 then EraseRecord(s.log, e.v)
            else s.log
  {
    hide NewBlock, BuildSpace, MapCall, UnmapCall, EraseRecord, NumPages, CallsOf;
    match e
    case CreateSpace(i, payload) =>
      NewBlockKeepsLog(s, ADDR_SPACE_SIZE, payload);
      QuietCallsAre(s.log);
      BuildKeepsLog(WithStruct(NewBlock(s, ADDR_SPACE_SIZE, payload).value, i, NewBase(s, ADDR_SPACE_SIZE)), i,
                    CallsOf(s.log, false));
    case Krealloc(b, size, payload) =>
      NewBlockKeepsLog(s, size, payload);
    case Kmalloc(size, payload) =>
      NewBlockKeepsLog(s, size, payload);
    case _ =>
  }

  lemma NewBlockKeepsLog(s: System, size: Word, payload: seq<Byte>)
    ensures NewBlock(s, size, payload).Done? ==>
      NewBlock(s, size, payload).value.log == s.log && NewBlock(s, size, payload).value.logVec == s.logVec
  {
  }

  lemma BuildKeepsLog(s: System, i: nat, calls: seq<Call>)
    requires Logged(calls) == []
    ensures BuildSpace(s, i, calls).Done? ==> BuildSpace(s, i, calls).value.log == s.log
  {
    hide MapCalls;
  }

  /** A run of careful events. */
  ghost predicate CarefulRun(s: System, es: seq<Event>, t: System)
    decreases |es|
  {
    if es == [] then t == s
    else Allowed(s, es[0]) && Careful(s, es[0]) && Next(s, es[0]).Done? && CarefulRun(Next(s, es[0]).value, es[1..], t)
  }

  /** In every state that careful events lead to, log and kernel are in step. */
  lemma {:induction false} RunInStep(s: System, shapes: Shapes, reserved: set<nat>, es: seq<Event>, t: System)
      returns (shapes': Shapes)
    requires Inv(s, shapes, reserved) && InStep(s, shapes) && CarefulRun(s, es, t)
    ensures Inv(t, shapes', reserved) && InStep(t, shapes') && t.st.limit == s.st.limit
    decreases |es|
  {
    hide Next, SysInv, AllPages, Allowed, KeepsStep, InStep, GoodLog, StructsGood, StructsStay;
    if es == [] {
      shapes' := shapes;
    } else {
      var shapes1 := StepInStep(s, shapes, reserved, es[0], Next(s, es[0]).value);
      shapes' := RunInStep(Next(s, es[0]).value, shapes1, reserved, es[1..], t);
    }
  }

  /** So they are in every state that vm_init and then careful events lead to. */
  lemma InStepAfterInit(s: System, shapes: Shapes, reserved: set<nat>, entries: seq<MemEntry>, load: LoadAddress,
                        es: seq<Event>, t: System) returns (shapes': Shapes)
    requires Inv(s, shapes, reserved) && Allowed(s, VmInit(entries, load)) && Next(s, VmInit(entries, load)).Done?
    requires CarefulRun(Next(s, VmInit(entries, load)).value, es, t)
    ensures Inv(t, shapes', reserved) && InStep(t, shapes') && 0 in t.spaces && t.st.limit == s.st.limit
  {
    hide Next, SysInv, Allowed, CarefulRun, GoodLog, ReplayLog, Actual, LowRecord, InitPlan;
    var shapes1 := InitInStep(s, shapes, reserved, entries, load, Next(s, VmInit(entries, load)).value);
    shapes' := RunInStep(Next(s, VmInit(entries, load)).value, shapes1, reserved, es, t);
    SameKeys(t, shapes', reserved);
  }

  // ---------------------------------------------------------------- what a walk finds

  /** The frame that the hardware walk from root arrives at for v. */
  function WalkFrame(st: Store, root: nat, v: Word): Outcome<Option<Word>> {
    var e :- Walk(st.tables, root, v, 4);
    Done(match e case None => None case Some(w) => Some(FrameMask(w)))
  }

  lemma FrameOfWalk(s: System, shapes: Shapes, reserved: set<nat>, i: nat, v: Word)
    requires SysInv(s, shapes, reserved) && i in s.spaces
    ensures i in shapes
    ensures Walk(s.st.tables, s.spaces[i].root, v, 4) == Done(Target(shapes[i], Vpn(v)))
    ensures WalkFrame(s.st, s.spaces[i].root, v) == Done(FrameAt(shapes[i].pages, Vpn(v)))
  {
    hide SysInv, Walk, Vpn, FrameMask, MakeTableEntry, GoodLeaf;
    SpaceWalk(s, shapes, reserved, i, v);
    GoodShape(s, shapes, reserved, i);
    var w := Vpn(v);
    if w in shapes[i].pages {
      LeafParts(shapes[i].pages[w]);
    }
  }

  lemma GoodShape(s: System, shapes: Shapes, reserved: set<nat>, i: nat)
    requires SysInv(s, shapes, reserved) && i in s.spaces
    ensures i in shapes && forall w :: w in shapes[i].pages ==> GoodLeaf(shapes[i].pages[w])
  {
    SpaceReady(s, shapes, reserved, i);
    hide SysInv, Housed, Here, SpaceInv, GoodLeaf;
    LeavesGood(s.st, s.spaces[i], shapes[i]);
  }

  lemma LeavesGood(st: Store, sp: Space, sh: Shape)
    requires SpaceInv(st, sp, sh)
    ensures forall w :: w in sh.pages ==> GoodLeaf(sh.pages[w])
  {
    hide GoodLeaf, Stored, Tight, Listed, Fits;
  }

  lemma LeafParts(leaf: Leaf)
    requires GoodLeaf(leaf)
    ensures FrameMask(MakeTableEntry(leaf.frame, leaf.flags)) == leaf.frame
    ensures MakeTableEntry(leaf.frame, leaf.flags) == leaf.frame + leaf.flags
  {
    EntryParts(leaf.frame, leaf.flags);
    EntryIsSum(leaf.frame, leaf.flags);
  }

  /** Two good leaves with the same entry are the same. */
  lemma SameEntry(a: Leaf, b: Leaf)
    requires GoodLeaf(a) && GoodLeaf(b)
    ensures MakeTableEntry(a.frame, a.flags) == MakeTableEntry(b.frame, b.flags) <==> a == b
  {
    LeafParts(a);
    LeafParts(b);
    hide MakeTableEntry, FrameMask;
  }

  lemma SameTarget(a: Shape, b: Shape, w: nat)
    requires forall u :: u in a.pages ==> GoodLeaf(a.pages[u])
    requires forall u :: u in b.pages ==> GoodLeaf(b.pages[u])
    ensures Target(a, w) == Target(b, w) <==> LeafAt(a.pages, w) == LeafAt(b.pages, w)
  {
    hide MakeTableEntry;
    if w in a.pages && w in b.pages {
      SameEntry(a.pages[w], b.pages[w]);
    }
  }

  // ---------------------------------------------------------------- created spaces

  /** At address v, the space i made in the step from s to t against the kernel's: the same frame
      unless v is uncovered above 2 GiB, the same entry unless it is uncovered. */
  ghost predicate ComparesAt(s: System, t: System, i: nat, v: Word) {
    && i in t.spaces && 0 in t.spaces && 0 in s.spaces && s.log != []
    && var made, kernel := t.spaces[i].root, t.spaces[0].root;
       && (WalkFrame(t.st, made, v) == WalkFrame(t.st, kernel, v) <==>
             !Uncovered(s.log, Vpn(v), 0x8000_0000, s.st.limit))
       && (Walk(t.st.tables, made, v, 4) == Walk(t.st.tables, kernel, v, 4) <==>
             !Uncovered(s.log, Vpn(v), 0, s.st.limit))
       && Walk(t.st.tables, kernel, v, 4) == Walk(s.st.tables, s.spaces[0].root, v, 4)
  }

  /** A space made by create_address_space against the kernel's, address by address, in every
      state where log and kernel are in step. The walk arrives at the same frame except exactly
      at the direct-map addresses of physical pages from 2 GiB up that no record covers, which
      the new space lacks. It finds the same entry, flags included, except exactly at all
      direct-map addresses that no later record covers. */
  lemma CreatedAgainstKernel(s: System, shapes: Shapes, reserved: set<nat>, i: nat, payload: seq<Byte>, t: System,
                             v: Word)
    requires Inv(s, shapes, reserved) && InStep(s, shapes) && NumPages(s.st.limit) <= VPN_COUNT && 0 in s.spaces
    requires Allowed(s, CreateSpace(i, payload)) && Next(s, CreateSpace(i, payload)) == Done(t)
    ensures ComparesAt(s, t, i, v)
  {
    var e := CreateSpace(i, payload);
    hide Next, SysInv, Walk, AllPages, ReplayLog, WalkFrame, Uncovered, NumPages, Vpn, Actual, LowRecord, Target,
      LeafAt, FrameAt, GoodLog, GoodLeaf;
    var shapes' := StepKeepsInv(s, shapes, reserved, e);
    SameKeys(t, shapes', reserved);
    FrameOfWalk(t, shapes', reserved, i, v);
    FrameOfWalk(t, shapes', reserved, 0, v);
    OthersTranslateAsBefore(s, shapes, reserved, e, t, 0, v);
    ActualDiffers(s.log, s.st.limit, Vpn(v));
    GoodShape(t, shapes', reserved, i);
    GoodShape(t, shapes', reserved, 0);
    SameTarget(shapes'[i], shapes'[0], Vpn(v));
  }

  // ---------------------------------------------------------------- the direct map

  /** The hardware walk in the kernel's space takes MEM_VIRT_OFFSET + p to p. */
  ghost predicate Direct(s: System, p: Word) {
    0 in s.spaces && WalkFrame(s.st, s.spaces[0].root, PhysToVirt(p)) == Done(Some(AlignDown(p)))
  }

  ghost predicate AllHarmless(s: System) {
    s.log != [] && forall r :: r in s.log[1..] ==> Harmless(r, NumPages(s.st.limit))
  }

  /** In every state where log and kernel are in step, and no record but the first maps the window
      to other frames, the hardware walk translates MEM_VIRT_OFFSET + p to p for every physical
      address p in a page below the limit. */
  lemma DirectMapStays(s: System, shapes: Shapes, reserved: set<nat>, p: Word)
    requires Inv(s, shapes, reserved) && InStep(s, shapes) && NumPages(s.st.limit) <= VPN_COUNT && AllHarmless(s)
    requires p / PAGE_SIZE < NumPages(s.st.limit)
    ensures Direct(s, p)
  {
    hide SysInv, ReplayLog, WalkFrame, NumPages, DirectPage, PhysToVirt, Vpn, Harmless, LowRecord, DirectAll, GoodLog,
      StructsGood, LogFits, DirectMapped, AlignDown;
    SameKeys(s, shapes, reserved);
    assert [LowRecord(s.st.limit), DirectAll(s.st.limit)] + s.log[1..] == Actual(s.log, s.st.limit);
    PlanKeepsDirectMap(s.st.limit, s.log[1..]);
    DirectPageOf(p);
    FrameOfWalk(s, shapes, reserved, 0, PhysToVirt(p));
    DirectAt(shapes[0].pages, NumPages(s.st.limit), p / PAGE_SIZE);
  }

  lemma DirectAt(pages: map<nat, Leaf>, count: nat, q: nat)
    requires DirectMapped(pages, count) && q < count
    ensures FrameAt(pages, DirectPage(q)) == Some(PAGE_SIZE * q)
  {
    hide DirectPage;
  }

  /** So it is after vm_init, for every memory map that keeps kernel and modules off the window. */
  lemma DirectMapWalk(s: System, shapes: Shapes, reserved: set<nat>, entries: seq<MemEntry>, load: LoadAddress,
                      t: System, p: Word)
    requires Inv(s, shapes, reserved) && Allowed(s, VmInit(entries, load)) && Next(s, VmInit(entries, load)) == Done(t)
    requires NumPages(s.st.limit) <= VPN_COUNT && WindowKept(entries, load, NumPages(s.st.limit))
    requires p / PAGE_SIZE < NumPages(s.st.limit)
    ensures Direct(t, p)
  {
    hide Next, Inv, WalkFrame, NumPages, WindowKept, Allowed, InStep, EntryRecords, LowRecord, Harmless, AlignDown,
      PhysToVirt;
    var shapes' := InitInStep(s, shapes, reserved, entries, load, t);
    EntryRecordsHarmless(entries, load, NumPages(s.st.limit));
    assert t.log[1..] == EntryRecords(entries, load);
    DirectMapStays(t, shapes', reserved, p);
  }

  lemma DirectPageOf(p: Word)
    requires p / PAGE_SIZE < VPN_COUNT
    ensures Vpn(PhysToVirt(p)) == DirectPage(p / PAGE_SIZE) && AlignDown(p) == PAGE_SIZE * (p / PAGE_SIZE)
  {
    DirectRecordPage(p, 0);
    assert Offset(PhysToVirt(p), 0) == PhysToVirt(p);
  }
}
