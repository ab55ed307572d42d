/** What vm_init leaves at each virtual address, in terms of the boot loader's memory map alone,
    and what a space made from its log has there. */
module Layout {
  import opened Words
  import opened Wrappers
  import opened Boot
  import opened Tables
  import opened Lookup
  import opened Ranges
  import opened Replay
  import opened Init
  import opened Systems
  import opened Calls
  import opened Runs
  import opened Kernel

  // ---------------------------------------------------------------- the last page put decides

  /** Of the pages of one range that lie at page w, the last. */
  lemma {:induction false} LastOfRange(pages: map<nat, Leaf>, r: Record, n: nat, k: nat, w: nat)
    requires k < n && RangePage(r.virt, k) == w
    requires forall l: nat :: k < l < n ==> RangePage(r.virt, l) != w
    ensures LeafAt(MapRange(pages, r.virt, r.phys, n, r.flags), w) == Some(Leaf(AlignDown(Offset(r.phys, k)), r.flags))
  {
    hide RangePage, Offset, AlignDown;
    if k < n - 1 {
      LastOfRange(pages, r, n - 1, k, w);
    }
  }

  /** The frame of page k of an entry. */
  function FrameOf(e: MemEntry, k: nat): Word {
    AlignDown((e.base + 0x1000 * k) % 0x1_0000_0000_0000_0000)
  }

  lemma EntryFlags(e: MemEntry, load: LoadAddress)
    ensures EntryRecord(e, load).Some? ==>
      EntryRecord(e, load).value.flags == 3 && EntryRecord(e, load).value.phys == e.base
  {
  }

  lemma FrameIs(e: MemEntry, k: nat)
    ensures FrameOf(e, k) == AlignDown(Offset(e.base, k))
  {
  }

  lemma LastOfEntry(pages: map<nat, Leaf>, e: MemEntry, load: LoadAddress, k: nat, w: nat)
    requires PutsPage(e, load, k, w) && forall l: nat :: PutsPage(e, load, l, w) ==> l <= k
    ensures EntryRecord(e, load).Some?
    ensures LeafAt(Apply(pages, EntryRecord(e, load).value), w) == Some(Leaf(FrameOf(e, k), 3))
  {
    hide PutsPage, EntryRecord, RangePage, Offset, FrameOf, AlignDown, MapRange, LeafAt;
    PutsIs(e, load, k, w);
    EntryFlags(e, load);
    var r := EntryRecord(e, load).value;
    FrameIs(e, k);
    forall l: nat | k < l < r.n
      ensures RangePage(r.virt, l) != w
    {
      PutsIs(e, load, l, w);
    }
    LastOfRange(pages, r, r.n, k, w);
  }

  /** After any records and then those of all entries, a page that entries put is the last put. */
  lemma {:induction false} LastPutDecides(front: seq<Record>, entries: seq<MemEntry>, load: LoadAddress, i: nat,
                                          k: nat, w: nat)
    requires LastPut(entries, load, i, k, w)
    ensures LeafAt(ReplayLog(front + EntryRecords(entries, load)), w) == Some(Leaf(FrameOf(entries[i], k), 3))
  {
    var less, e := entries[..|entries| - 1], entries[|entries| - 1];
    var rs := EntryRecords(less, load);
    EntryRecordsLast(entries, load);
    hide PutsPage, EntryRecord, EntryRecords, RangePages, MapRange, ReplayLog, FrameOf, LeafAt;
    if EntryRecord(e, load).Some? {
      var r := EntryRecord(e, load).value;
      assert front + (rs + [r]) == (front + rs) + [r];
      ReplaySnoc(front + rs, r);
    }
    if i == |entries| - 1 {
      LastOfEntry(ReplayLog(front + rs), e, load, k, w);
    } else {
      assert forall l: nat :: !PutsPage(e, load, l, w);
      LastPutDecides(front, less, load, i, k, w);
      RecordPuts(e, load, w);
      if EntryRecord(e, load).Some? {
        Elsewhere(ReplayLog(front + rs), EntryRecord(e, load).value, w);
      }
    }
  }

  lemma Elsewhere(pages: map<nat, Leaf>, r: Record, w: nat)
    requires w !in r.Pages()
    ensures LeafAt(Apply(pages, r), w) == LeafAt(pages, w)
  {
    hide RangePages, MapRange;
    ApplyElsewhere(pages, r, w);
  }

  lemma EntryRecordsLast(entries: seq<MemEntry>, load: LoadAddress)
    requires entries != []
    ensures var less, e := entries[..|entries| - 1], entries[|entries| - 1];
      EntryRecords(entries, load)
        == EntryRecords(less, load) + match EntryRecord(e, load) case None => [] case Some(r) => [r]
  {
    hide EntryRecord;
  }

  /** A page that no entry puts is what it was before. */
  lemma NoPutKeeps(front: seq<Record>, entries: seq<MemEntry>, load: LoadAddress, w: nat)
    requires NoPut(entries, load, w)
    ensures LeafAt(ReplayLog(front + EntryRecords(entries, load)), w) == LeafAt(ReplayLog(front), w)
  {
    RecordsPut(entries, load, w);
    hide PutsPage, EntryRecords, ReplayLog, LeafAt, Covers;
    LastWriterDecides(front, EntryRecords(entries, load), w);
  }

  // ---------------------------------------------------------------- pages left by vm_init

  /** Page w holds physical page q of the direct map, for addresses below `end`. */
  predicate WindowAt(q: nat, w: nat, end: Word) {
    0x1000 * q < end && WindowPage(0x1000 * q) == w
  }

  lemma BelowLimit(limit: Word, q: nat)
    requires limit <= 0x1_0000_0000_0000
    ensures q < NumPages(limit) <==> 0x1000 * q < limit
    ensures NumPages(limit) <= VPN_COUNT
  {
    PageCount(limit, q);
    NumPagesExact(limit);
  }

  /** The leaf at page w, given by the memory map and the end of the direct map, with the flags the
      direct map has. */
  ghost predicate LaidOut(pages: map<nat, Leaf>, entries: seq<MemEntry>, load: LoadAddress, w: nat, end: Word,
                          flags: Word) {
    && (forall i: nat, k: nat :: LastPut(entries, load, i, k, w) ==>
          LeafAt(pages, w) == Some(Leaf(FrameOf(entries[i], k), 3)))
    && (NoPut(entries, load, w) ==>
          && (forall q: nat :: WindowAt(q, w, end) ==> LeafAt(pages, w) == Some(Leaf(0x1000 * q, flags)))
          && ((forall q: nat :: !WindowAt(q, w, end)) ==> LeafAt(pages, w) == None))
  }

  lemma PlanLaidOut(limit: Word, entries: seq<MemEntry>, load: LoadAddress, w: nat)
    requires limit <= 0x1_0000_0000_0000
    ensures LaidOut(ReplayLog(InitPlan(limit, entries, load)), entries, load, w, limit, 3)
    ensures LaidOut(ReplayLog(InitLog(limit, entries, load)), entries, load, w, Least(limit, 0x8000_0000), 7)
  {
    var low, plan := [LowRecord(limit)], [LowRecord(limit), DirectAll(limit)];
    forall i: nat, k: nat | LastPut(entries, load, i, k, w)
      ensures LeafAt(ReplayLog(plan + EntryRecords(entries, load)), w) == Some(Leaf(FrameOf(entries[i], k), 3))
      ensures LeafAt(ReplayLog(low + EntryRecords(entries, load)), w) == Some(Leaf(FrameOf(entries[i], k), 3))
    {
      LastPutDecides(plan, entries, load, i, k, w);
      LastPutDecides(low, entries, load, i, k, w);
    }
    if NoPut(entries, load, w) {
      NoPutKeeps(plan, entries, load, w);
      NoPutKeeps(low, entries, load, w);
      WindowLeaves(limit, w);
    }
    hide ReplayLog, LowRecord, DirectAll, EntryRecords, LastPut, NoPut, LeafAt, WindowAt, FrameOf;
  }

  function Least(a: Word, b: Word): Word {
    if a < b then a else b
  }

  lemma WindowLeaves(limit: Word, w: nat)
    requires limit <= 0x1_0000_0000_0000
    ensures var low, plan := ReplayLog([LowRecord(limit)]), ReplayLog([LowRecord(limit), DirectAll(limit)]);
      && (forall q: nat :: WindowAt(q, w, limit) ==> LeafAt(plan, w) == Some(Leaf(0x1000 * q, 3)))
      && ((forall q: nat :: !WindowAt(q, w, limit)) ==> LeafAt(plan, w) == None)
      && (forall q: nat :: WindowAt(q, w, Least(limit, 0x8000_0000)) ==> LeafAt(low, w) == Some(Leaf(0x1000 * q, 7)))
      && ((forall q: nat :: !WindowAt(q, w, Least(limit, 0x8000_0000))) ==> LeafAt(low, w) == None)
  {
    BelowLimit(limit, 0);
    hide ReplayLog, LowRecord, DirectAll, NumPages, WindowPage, LeafAt, DirectPage;
    if q: nat :| WindowAt(q, w, limit) {
      BelowLimit(limit, q);
      DirectIsWindow(q);
      DirectLeaves(limit, q);
      OnlyPage(w, q, limit);
      forall p: nat | WindowAt(p, w, limit)
        ensures p == q
      {
        BelowLimit(limit, p);
      }
    } else {
      forall q: nat | q < NumPages(limit)
        ensures DirectPage(q) != w
      {
        BelowLimit(limit, q);
        DirectIsWindow(q);
        assert !WindowAt(q, w, limit);
      }
      NoDirectLeaf(limit, w);
      assert forall q: nat :: WindowAt(q, w, Least(limit, 0x8000_0000)) ==> WindowAt(q, w, limit);
    }
  }

  // ---------------------------------------------------------------- walks

  /** At v, space i has an entry with this value, through which stores are permitted, and user
      mode if `user`. */
  ghost predicate Finds(s: System, i: nat, v: Word, e: nat, user: bool) {
    && i in s.spaces
    && Access(s.st.tables, s.spaces[i].root, v, 4) == Done(Some(Rights(true, user)))
    && match Walk(s.st.tables, s.spaces[i].root, v, 4)
       case Done(Some(x)) => x == e
       case _ => false
  }

  /** Nothing is mapped there. */
  ghost predicate FindsNone(s: System, i: nat, v: Word) {
    && i in s.spaces
    && Walk(s.st.tables, s.spaces[i].root, v, 4) == Done(None)
    && Access(s.st.tables, s.spaces[i].root, v, 4) == Done(None)
  }

  ghost predicate FindsThis(s: System, i: nat, v: Word, leaf: Option<Leaf>) {
    match leaf
    case Some(Leaf(frame, flags)) => flags == 3 || flags == 7 ==> Finds(s, i, v, frame + flags, flags == 7)
    case None => FindsNone(s, i, v)
  }

  lemma FindsLeaf(s: System, shapes: Shapes, reserved: set<nat>, i: nat, v: Word)
    requires SysInv(s, shapes, reserved) && i in s.spaces && i in shapes
    ensures FindsThis(s, i, v, LeafAt(shapes[i].pages, Vpn(v)))
  {
    hide SysInv, Walk, WalkFrame, Access, Vpn, MakeTableEntry, FrameMask, GoodLeaf;
    FrameOfWalk(s, shapes, reserved, i, v);
    SpaceAccess(s, shapes, reserved, i, v);
    GoodShape(s, shapes, reserved, i);
    var w := Vpn(v);
    if w in shapes[i].pages {
      LeafParts(shapes[i].pages[w]);
    }
  }

  /** Address v in space i, from the memory map: the last page that an entry puts there, present,
      writable and for the kernel only; otherwise the direct map of addresses below `end`, whose
      entries end in `flags`; otherwise nothing. */
  ghost predicate LaidAt(s: System, i: nat, entries: seq<MemEntry>, load: LoadAddress, v: Word, end: Word,
                         flags: Word) {
    && (forall j: nat, k: nat :: LastPut(entries, load, j, k, PageNumber(v)) ==>
          Finds(s, i, v, FrameOf(entries[j], k) + 3, false))
    && (NoPut(entries, load, PageNumber(v)) ==>
          && (forall q: nat :: WindowAt(q, PageNumber(v), end) ==> Finds(s, i, v, 0x1000 * q + flags, flags == 7))
          && ((forall q: nat :: !WindowAt(q, PageNumber(v), end)) ==> FindsNone(s, i, v)))
  }

  lemma LaidFromPages(s: System, shapes: Shapes, reserved: set<nat>, i: nat, entries: seq<MemEntry>,
                      load: LoadAddress, v: Word, end: Word, flags: Word)
    requires SysInv(s, shapes, reserved) && i in s.spaces && i in shapes && (flags == 3 || flags == 7)
    requires LaidOut(shapes[i].pages, entries, load, Vpn(v), end, flags)
    ensures LaidAt(s, i, entries, load, v, end, flags)
  {
    hide SysInv, Finds, FindsNone, PutsPage, NoPut, WindowAt, FrameOf, Vpn, PageNumber, LeafAt;
    VpnIs(v);
    FindsLeaf(s, shapes, reserved, i, v);
    var w, leaf := Vpn(v), LeafAt(shapes[i].pages, Vpn(v));
    forall j: nat, k: nat | LastPut(entries, load, j, k, w)
      ensures Finds(s, i, v, FrameOf(entries[j], k) + 3, false)
    {
      assert leaf == Some(Leaf(FrameOf(entries[j], k), 3));
    }
    if NoPut(entries, load, w) {
      forall q: nat | WindowAt(q, w, end)
        ensures Finds(s, i, v, 0x1000 * q + flags, flags == 7)
      {
        InWindow(q, w, end);
        assert leaf == Some(Leaf(0x1000 * q, flags));
      }
    }
  }

  lemma VpnIs(v: Word)
    ensures PageNumber(v) == Vpn(v)
  {
  }

  lemma InWindow(q: nat, w: nat, end: Word)
    requires WindowAt(q, w, end)
    ensures 0x1000 * q < end
  {
  }

  /** The kernel's space after vm_init, address by address. */
  lemma InitLayout(s: System, shapes: Shapes, reserved: set<nat>, entries: seq<MemEntry>, load: LoadAddress,
                   t: System, v: Word)
    requires Inv(s, shapes, reserved) && Allowed(s, VmInit(entries, load)) && Next(s, VmInit(entries, load)) == Done(t)
    requires s.st.limit <= 0x1_0000_0000_0000
    ensures LaidAt(t, 0, entries, load, v, s.st.limit, 3)
  {
    hide Next, SysInv, ReplayLog, AllPages, InitPlan, InitLog, GoodLog, LaidOut, LaidAt;
    var shapes' := InitInStep(s, shapes, reserved, entries, load, t);
    SameKeys(t, shapes', reserved);
    PlanLaidOut(s.st.limit, entries, load, Vpn(v));
    LaidFromPages(t, shapes', reserved, 0, entries, load, v, s.st.limit, 3);
  }

  /** A space created right after it: the same, but the direct map ends at 2 GiB and is open to
      user mode. */
  lemma CreatedLayout(s: System, shapes: Shapes, reserved: set<nat>, entries: seq<MemEntry>, load: LoadAddress,
                      i: nat, payload: seq<Byte>, t: System, v: Word)
    requires Inv(s, shapes, reserved) && Allowed(s, VmInit(entries, load)) && Next(s, VmInit(entries, load)).Done?
    requires var s1 := Next(s, VmInit(entries, load)).value;
      Allowed(s1, CreateSpace(i, payload)) && Next(s1, CreateSpace(i, payload)) == Done(t)
    requires s.st.limit <= 0x1_0000_0000_0000
    ensures LaidAt(t, i, entries, load, v, Least(s.st.limit, 0x8000_0000), 7)
  {
    hide Next, SysInv, ReplayLog, AllPages, InitPlan, InitLog, GoodLog, LaidOut, LaidAt, Allowed;
    var s1 := Next(s, VmInit(entries, load)).value;
    var shapes1 := InitInStep(s, shapes, reserved, entries, load, s1);
    var shapes2 := StepKeepsInv(s1, shapes1, reserved, CreateSpace(i, payload));
    SameKeys(t, shapes2, reserved);
    PlanLaidOut(s.st.limit, entries, load, Vpn(v));
    LaidFromPages(t, shapes2, reserved, i, entries, load, v, Least(s.st.limit, 0x8000_0000), 7);
  }

  // ---------------------------------------------------------------- by address

  /** Where vm_init means byte a of entry e to be seen. */
  function LinkAddress(e: MemEntry, load: LoadAddress, a: Word): Word {
    if e.kind == KernelAndModules then (load.virtualBase + a - load.physicalBase) % 0x1_0000_0000_0000_0000
    else (0xFFFF_8000_0000_0000 + a) % 0x1_0000_0000_0000_0000
  }

  predicate Seen(kind: EntryKind) {
    kind in {KernelAndModules, Usable, Framebuffer, AcpiReclaimable, BootloaderReclaimable}
  }

  /** A page-aligned entry, with kernel and modules linked at a page-aligned distance. */
  predicate PageAligned(e: MemEntry, load: LoadAddress) {
    e.base % 0x1000 == 0 && load.virtualBase % 0x1000 == load.physicalBase % 0x1000
  }

  lemma PageModulo(x: int)
    ensures PageNumber(x % 0x1_0000_0000_0000_0000) == PageNumber(x)
  {
    var m, r := x / 0x1_0000_0000_0000_0000, x % 0x1_0000_0000_0000_0000;
    FloorPage(x, 0x10_0000_0000_0000 * m + r / 0x1000, r % 0x1000);
    FloorWindow(x / 0x1000, 0x1_0000 * m + r / 0x1000 / 0x10_0000_0000, r / 0x1000 % 0x10_0000_0000);
  }

  /** Below 2^36 pages of a range, all go to different places. */
  lemma SamePlace(y: int, k: nat, l: nat)
    requires k < 0x10_0000_0000 && l < 0x10_0000_0000
    requires PageNumber(y + 0x1000 * k) == PageNumber(y + 0x1000 * l)
    ensures k == l
  {
    var q, r := y / 0x1000, y % 0x1000;
    FloorPage(y + 0x1000 * k, q + k, r);
    FloorPage(y + 0x1000 * l, q + l, r);
  }

  /** The page that holds byte a is page (a - base) / 4096 of its entry. */
  lemma ByteIsPut(e: MemEntry, load: LoadAddress, a: Word)
    requires Seen(e.kind) && PageAligned(e, load) && e.base <= a < e.base + e.length
    requires e.length <= 0x1_0000_0000_0000
    ensures var k, w := (a - e.base) / 0x1000, PageNumber(LinkAddress(e, load, a));
      && PutsPage(e, load, k, w) && FrameOf(e, k) == AlignDown(a)
      && forall l: nat :: PutsPage(e, load, l, w) ==> l <= k
  {
    var k, o, y := (a - e.base) / 0x1000, (a - e.base) % 0x1000, Shift(e, load) + e.base;
    var w := PageNumber(y + 0x1000 * k);
    FrameOfByte(e, a);
    ShiftAligned(e, load);
    PageModulo(Shift(e, load) + a);
    hide PageNumber, FrameOf, AlignDown, PutsPage, Shift, PageAligned;
    PageOfByte(y, k, o);
    PutsByShift(e, load, k, w);
    forall l: nat | PutsPage(e, load, l, w)
      ensures l <= k
    {
      PutsByShift(e, load, l, w);
      SamePlace(y, k, l);
    }
  }

  /** How far from its physical address an entry is seen. */
  function Shift(e: MemEntry, load: LoadAddress): int {
    if e.kind == KernelAndModules then load.virtualBase - load.physicalBase else 0xFFFF_8000_0000_0000
  }

  lemma ShiftAligned(e: MemEntry, load: LoadAddress)
    requires PageAligned(e, load)
    ensures (Shift(e, load) + e.base) % 0x1000 == 0
  {
  }

  lemma PutsByShift(e: MemEntry, load: LoadAddress, k: nat, w: nat)
    requires Seen(e.kind) && e.length <= 0x1_0000_0000_0000
    ensures PutsPage(e, load, k, w)
       <==> 0x1000 * k < e.length && w == PageNumber(Shift(e, load) + e.base + 0x1000 * k)
  {
    hide PageNumber;
  }

  lemma PageOfByte(y: int, k: nat, o: nat)
    requires y % 0x1000 == 0 && o < 0x1000
    ensures PageNumber(y + 0x1000 * k + o) == PageNumber(y + 0x1000 * k)
  {
    FloorPage(y + 0x1000 * k + o, y / 0x1000 + k, o);
    FloorPage(y + 0x1000 * k, y / 0x1000 + k, 0);
  }

  lemma FrameOfByte(e: MemEntry, a: Word)
    requires e.base % 0x1000 == 0 && e.base <= a
    ensures FrameOf(e, (a - e.base) / 0x1000) == AlignDown(a)
  {
    var k, o, b := (a - e.base) / 0x1000, (a - e.base) % 0x1000, e.base / 0x1000;
    assert e.base + 0x1000 * k == 0x1000 * (b + k) && a == 0x1000 * (b + k) + o;
    FloorPage(a, b + k, o);
    FloorPage(0x1000 * (b + k), b + k, 0);
  }

  lemma ByteIsLastPut(entries: seq<MemEntry>, load: LoadAddress, i: nat, a: Word)
    requires i < |entries| && Seen(entries[i].kind) && PageAligned(entries[i], load)
    requires entries[i].base <= a < entries[i].base + entries[i].length && entries[i].length <= 0x1_0000_0000_0000
    requires NoPut(entries[i + 1..], load, PageNumber(LinkAddress(entries[i], load, a)))
    ensures var e := entries[i];
      var k := (a - e.base) / 0x1000;
      LastPut(entries, load, i, k, PageNumber(LinkAddress(e, load, a))) && FrameOf(e, k) == AlignDown(a)
  {
    ByteIsPut(entries[i], load, a);
    hide PutsPage, PageNumber, LinkAddress, FrameOf, AlignDown, PageAligned;
    var w := PageNumber(LinkAddress(entries[i], load, a));
    forall j: nat, l: nat | i < j < |entries|
      ensures !PutsPage(entries[j], load, l, w)
    {
      assert entries[j] == entries[i + 1..][j - i - 1];
    }
  }

  /** After vm_init every byte of a page-aligned entry is seen at its link address, unless a later
      entry puts a page there: through a present, writable entry that is closed to user mode. */
  lemma EntrySeen(s: System, shapes: Shapes, reserved: set<nat>, entries: seq<MemEntry>, load: LoadAddress,
                  t: System, i: nat, a: Word)
    requires Inv(s, shapes, reserved) && Allowed(s, VmInit(entries, load)) && Next(s, VmInit(entries, load)) == Done(t)
    requires s.st.limit <= 0x1_0000_0000_0000
    requires i < |entries| && Seen(entries[i].kind) && PageAligned(entries[i], load)
    requires entries[i].base <= a < entries[i].base + entries[i].length && entries[i].length <= 0x1_0000_0000_0000
    requires NoPut(entries[i + 1..], load, PageNumber(LinkAddress(entries[i], load, a)))
    ensures Finds(t, 0, LinkAddress(entries[i], load, a), AlignDown(a) + 3, false)
  {
    ByteIsLastPut(entries, load, i, a);
    InitLayout(s, shapes, reserved, entries, load, t, LinkAddress(entries[i], load, a));
    hide Next, Inv, Finds, FindsNone, Allowed, LastPut, NoPut, PageNumber, LinkAddress, FrameOf, AlignDown;
  }

  // ---------------------------------------------------------------- the log

  /** Number of entries that vm_init maps. */
  function SeenCount(entries: seq<MemEntry>): nat {
    if entries == [] then 0
    else SeenCount(entries[..|entries| - 1]) + if Seen(entries[|entries| - 1].kind) then 1 else 0
  }

  /** The record of an entry. */
  predicate RecordOf(r: Record, e: MemEntry, load: LoadAddress) {
    && r.virt == LinkAddress(e, load, e.base) && r.phys == e.base && r.flags == 3
    && r.n == NumPages(e.length)
  }

  /** The log left by vm_init: at most 2 GiB of the direct map, open to user mode, and then one
      record for each entry mapped, in their order. */
  lemma LogLayout(s: System, shapes: Shapes, reserved: set<nat>, entries: seq<MemEntry>, load: LoadAddress, t: System)
    requires Inv(s, shapes, reserved) && Allowed(s, VmInit(entries, load)) && Next(s, VmInit(entries, load)) == Done(t)
    ensures |t.log| == 1 + SeenCount(entries)
    ensures t.log[0] == Record(0xFFFF_8000_0000_0000, 0, 7, Least(NumPages(s.st.limit), 0x8_0000))
    ensures forall i :: 0 <= i < |entries| && Seen(entries[i].kind) ==>
      SeenCount(entries[..i]) < SeenCount(entries) && RecordOf(t.log[1 + SeenCount(entries[..i])], entries[i], load)
  {
    hide Next, Inv, Allowed, NumPages, EntryRecords, SeenCount, RecordOf;
    var shapes' := InitInStep(s, shapes, reserved, entries, load, t);
    RecordCount(entries, load);
    forall i | 0 <= i < |entries| && Seen(entries[i].kind)
      ensures SeenCount(entries[..i]) < SeenCount(entries)
           && RecordOf(t.log[1 + SeenCount(entries[..i])], entries[i], load)
    {
      RecordAt(entries, load, i);
    }
  }

  lemma SeenAreRecorded(e: MemEntry, load: LoadAddress)
    ensures Seen(e.kind) <==> EntryRecord(e, load).Some?
    ensures Seen(e.kind) ==> RecordOf(EntryRecord(e, load).value, e, load)
  {
    hide NumPages;
  }

  lemma {:induction false} RecordCount(entries: seq<MemEntry>, load: LoadAddress)
    ensures |EntryRecords(entries, load)| == SeenCount(entries)
  {
    hide EntryRecord, Seen;
    if entries != [] {
      RecordCount(entries[..|entries| - 1], load);
      SeenAreRecorded(entries[|entries| - 1], load);
    }
  }

  lemma {:induction false} RecordAt(entries: seq<MemEntry>, load: LoadAddress, i: nat)
    requires i < |entries| && Seen(entries[i].kind)
    ensures SeenCount(entries[..i]) < SeenCount(entries) == |EntryRecords(entries, load)|
    ensures RecordOf(EntryRecords(entries, load)[SeenCount(entries[..i])], entries[i], load)
  {
    RecordCount(entries, load);
    EntryRecordsLast(entries, load);
    hide EntryRecord, Seen, EntryRecords, RecordOf;
    var less := entries[..|entries| - 1];
    RecordCount(less, load);
    if i < |less| {
      RecordAt(less, load, i);
      assert less[..i] == entries[..i];
    } else {
      SeenAreRecorded(entries[i], load);
    }
  }
}
