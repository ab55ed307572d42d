/** vm_init: the direct map of physical memory, and what a new address space inherits of it. */
module Init {
  import opened Words
  import opened Wrappers
  import opened Boot
  import opened Tables
  import opened Ranges
  import opened Replay

  // ---------------------------------------------------------------- what vm_init maps

  /** 1024 * 512 pages. */
  const LOGGED_PAGES: nat := 0x8_0000

  /** The kernel's load address, virtual and physical. */
  datatype LoadAddress = LoadAddress(virtualBase: Word, physicalBase: Word)

  /** The vm_map call vm_init makes for an entry. */
  function EntryRecord(e: MemEntry, load: LoadAddress): Option<Record> {
    match e.kind
    case KernelAndModules =>
      Some(Record(Wrap(load.virtualBase + e.base - load.physicalBase), e.base, VM_DEFAULT, NumPages(e.length)))
    case Framebuffer => Some(DirectRecord(e))
    case Usable => Some(DirectRecord(e))
    case AcpiReclaimable => Some(DirectRecord(e))
    case BootloaderReclaimable => Some(DirectRecord(e))
    case _ => None
  }

  function DirectRecord(e: MemEntry): Record {
    Record(PhysToVirt(e.base), e.base, VM_DEFAULT, NumPages(e.length))
  }

  function EntryRecords(entries: seq<MemEntry>, load: LoadAddress): seq<Record> {
    if entries == [] then []
    else
      var front := EntryRecords(entries[..|entries| - 1], load);
      match EntryRecord(entries[|entries| - 1], load)
      case None => front
      case Some(r) => front + [r]
  }

  /** The first, logged mapping: at most 2 GiB of the direct map. */
  function LowRecord(limit: Word): Record {
    Record(MEM_VIRT_OFFSET, 0, VM_USERMODE, if NumPages(limit) < LOGGED_PAGES then NumPages(limit) else LOGGED_PAGES)
  }

  /** The loop after it, which maps all of physical memory without logging it. */
  function DirectAll(limit: Word): Record {
    Record(MEM_VIRT_OFFSET, 0, VM_DEFAULT, NumPages(limit))
  }

  /** Everything vm_init maps, in order. */
  function InitPlan(limit: Word, entries: seq<MemEntry>, load: LoadAddress): seq<Record> {
    [LowRecord(limit), DirectAll(limit)] + EntryRecords(entries, load)
  }

  /** What it leaves in the log. */
  function InitLog(limit: Word, entries: seq<MemEntry>, load: LoadAddress): seq<Record> {
    [LowRecord(limit)] + EntryRecords(entries, load)
  }

  // ---------------------------------------------------------------- where its pages go

  /** Number of the page that holds address x, modulo 2^64 and then modulo the 2^36 pages the four
      levels tell apart. */
  function PageNumber(x: int): nat {
    x / 0x1000 % 0x10_0000_0000
  }

  /** Where MEM_VIRT_OFFSET + a lies. */
  function WindowPage(a: int): nat {
    PageNumber(0xFFFF_8000_0000_0000 + a)
  }

  /** Page k of entry e goes to page w: kernel and modules to their link address, four kinds to the
      direct map, and all others nowhere. */
  predicate PutsPage(e: MemEntry, load: LoadAddress, k: nat, w: nat) {
    && 0x1000 * k < e.length <= 0xFFFF_FFFF_FFFF_F000
    && match e.kind
       case KernelAndModules => w == PageNumber(load.virtualBase + e.base + 0x1000 * k - load.physicalBase)
       case Usable => w == WindowPage(e.base + 0x1000 * k)
       case Framebuffer => w == WindowPage(e.base + 0x1000 * k)
       case AcpiReclaimable => w == WindowPage(e.base + 0x1000 * k)
       case BootloaderReclaimable => w == WindowPage(e.base + 0x1000 * k)
       case _ => false
  }

  /** Of all entries and their pages, page k of entry i is the last that goes to page w. */
  ghost predicate LastPut(entries: seq<MemEntry>, load: LoadAddress, i: nat, k: nat, w: nat) {
    && i < |entries| && PutsPage(entries[i], load, k, w)
    && forall j: nat, l: nat :: i <= j < |entries| && PutsPage(entries[j], load, l, w) ==> j == i && l <= k
  }

  ghost predicate NoPut(entries: seq<MemEntry>, load: LoadAddress, w: nat) {
    forall e, k: nat :: e in entries ==> !PutsPage(e, load, k, w)
  }

  lemma PageCount(length: Word, k: nat)
    ensures 0x1000 * k < length <= 0xFFFF_FFFF_FFFF_F000 <==> k < NumPages(length)
  {
    if length <= 0xFFFF_FFFF_FFFF_F000 {
      var n := length / 0x1000;
      DivModUnique(length, 0x1000, n, length % 0x1000);
      NumPagesExact(length);
    }
  }

  lemma PageOfWrap(x: int, k: nat)
    ensures RangePage(Wrap(x), k) == PageNumber(x + 0x1000 * k)
  {
    var m, r := x / TWO64, x % TWO64;
    RangePageIs(r, k);
    var q := r / 0x1000 + k;
    assert x + 0x1000 * k == 0x1000 * (0x10_0000_0000_0000 * m + q) + r % 0x1000;
    FloorPage(x + 0x1000 * k, 0x10_0000_0000_0000 * m + q, r % 0x1000);
    FloorWindow(0x10_0000_0000_0000 * m + q, 0x1_0000 * m + q / 0x10_0000_0000, q % 0x10_0000_0000);
  }

  lemma FloorPage(x: int, q: int, r: int)
    requires x == 0x1000 * q + r && 0 <= r < 0x1000
    ensures x / 0x1000 == q
  {
  }

  lemma FloorWindow(x: int, q: int, r: int)
    requires x == 0x10_0000_0000 * q + r && 0 <= r < 0x10_0000_0000
    ensures x % 0x10_0000_0000 == r
  {
  }

  /** The calls that vm_init makes put exactly those pages. */
  lemma PutsIs(e: MemEntry, load: LoadAddress, k: nat, w: nat)
    ensures PutsPage(e, load, k, w)
       <==> var r := EntryRecord(e, load); r.Some? && k < r.value.n && RangePage(r.value.virt, k) == w
  {
    PageCount(e.length, k);
    PageOfWrap(load.virtualBase + e.base - load.physicalBase, k);
    PageOfWrap(e.base + MEM_VIRT_OFFSET, k);
    hide RangePage, NumPages, PageNumber;
  }

  // ---------------------------------------------------------------- the direct map

  /** Page number of physical page q in the direct map. */
  function DirectPage(q: nat): nat {
    (0x8_0000_0000 + q) % VPN_COUNT
  }

  lemma DirectIsWindow(q: nat)
    ensures WindowPage(0x1000 * q) == DirectPage(q)
  {
    FloorPage(0xFFFF_8000_0000_0000 + 0x1000 * q, 0xF_FFF8_0000_0000 + q, 0);
    var m, r := (0x8_0000_0000 + q) / VPN_COUNT, (0x8_0000_0000 + q) % VPN_COUNT;
    FloorWindow(0xF_FFF8_0000_0000 + q, 0xFFFF + m, r);
  }

  /** Physical pages below `count` are mapped at their direct-map addresses. */
  ghost predicate DirectMapped(pages: map<nat, Leaf>, count: nat) {
    forall q: nat :: q < count ==> DirectPage(q) in pages && pages[DirectPage(q)].frame == PAGE_SIZE * q
  }

  /** A record harmless to the direct map of the pages below `count`: it maps directly itself,
      or stays out of the window. */
  ghost predicate Harmless(r: Record, count: nat) {
    || (r.virt == PhysToVirt(r.phys) && r.phys / PAGE_SIZE + r.n <= VPN_COUNT)
    || (forall q: nat :: q < count ==> DirectPage(q) !in r.Pages())
  }

  /** Page k of a direct record. */
  lemma DirectRecordPage(phys: Word, k: nat)
    requires phys / PAGE_SIZE + k < VPN_COUNT
    ensures RangePage(PhysToVirt(phys), k) == DirectPage(phys / PAGE_SIZE + k)
    ensures AlignDown(Offset(phys, k)) == PAGE_SIZE * (phys / PAGE_SIZE + k)
  {
    DirectVirtualPage(phys);
    RangePageIs(PhysToVirt(phys), k);
    var p, o := phys / PAGE_SIZE, phys % PAGE_SIZE;
    var shift := PhysToVirt(phys) / PAGE_SIZE;
    SameRemainder(shift + k, 0x8_0000_0000 + p + k);
    assert Offset(phys, k) == PAGE_SIZE * (p + k) + o;
    DivModUnique(Offset(phys, k), PAGE_SIZE, p + k, o);
  }

  /** The window starts at page 2^52 - 2^35 of the 64-bit space. */
  lemma DirectVirtualPage(phys: Word)
    ensures var p, shift := phys / PAGE_SIZE, PhysToVirt(phys) / PAGE_SIZE;
      shift == 0x8_0000_0000 + p + VPN_COUNT * 0xFFFF || shift == 0x8_0000_0000 + p - VPN_COUNT
  {
    var p, o := phys / PAGE_SIZE, phys % PAGE_SIZE;
    var shift := if p + 0xF_FFF8_0000_0000 >= 0x10_0000_0000_0000 then p + 0xF_FFF8_0000_0000 - 0x10_0000_0000_0000
                 else p + 0xF_FFF8_0000_0000;
    DivModUnique(PhysToVirt(phys), PAGE_SIZE, shift, o);
  }

  lemma SameRemainder(a: nat, b: nat)
    requires a == b + VPN_COUNT * 0xFFFF || a == b - VPN_COUNT
    ensures a % VPN_COUNT == b % VPN_COUNT
  {
    var q, r := b / VPN_COUNT, b % VPN_COUNT;
    if a == b - VPN_COUNT {
      DivModUnique(a, VPN_COUNT, q - 1, r);
    } else {
      DivModUnique(a, VPN_COUNT, q + 0xFFFF, r);
    }
  }

  lemma DirectPageInjective(p: nat, q: nat)
    requires p < VPN_COUNT && q < VPN_COUNT && DirectPage(p) == DirectPage(q)
    ensures p == q
  {
  }

  /** A direct record writes each direct-map page it covers with its own frame. */
  lemma {:induction false} DirectRecordKeeps(pages: map<nat, Leaf>, phys: Word, n: nat, flags: Word, q: nat)
    requires phys / PAGE_SIZE + n <= VPN_COUNT && q < VPN_COUNT
    requires DirectPage(q) in pages && pages[DirectPage(q)].frame == PAGE_SIZE * q
    ensures var after := MapRange(pages, PhysToVirt(phys), phys, n, flags);
      DirectPage(q) in after && after[DirectPage(q)].frame == PAGE_SIZE * q
  {
    if n > 0 {
      DirectRecordKeeps(pages, phys, n - 1, flags, q);
      DirectRecordPage(phys, n - 1);
      hide DirectPage, RangePage, Offset, AlignDown, PhysToVirt;
      if DirectPage(q) == DirectPage(phys / PAGE_SIZE + (n - 1)) {
        DirectPageInjective(q, phys / PAGE_SIZE + (n - 1));
      }
    }
  }

  lemma HarmlessKeeps(pages: map<nat, Leaf>, r: Record, count: nat)
    requires count <= VPN_COUNT && Harmless(r, count) && DirectMapped(pages, count)
    ensures DirectMapped(Apply(pages, r), count)
  {
    hide DirectPage, PhysToVirt, RangePages;
    forall q: nat | q < count
      ensures DirectPage(q) in Apply(pages, r) && Apply(pages, r)[DirectPage(q)].frame == PAGE_SIZE * q
    {
      if r.virt == PhysToVirt(r.phys) && r.phys / PAGE_SIZE + r.n <= VPN_COUNT {
        DirectRecordKeeps(pages, r.phys, r.n, r.flags, q);
      } else {
        ApplyElsewhere(pages, r, DirectPage(q));
      }
    }
  }

  /** The unlogged loop establishes the direct map, whatever was mapped before. */
  lemma DirectAllMaps(pages: map<nat, Leaf>, limit: Word)
    requires NumPages(limit) <= VPN_COUNT
    ensures DirectMapped(Apply(pages, DirectAll(limit)), NumPages(limit))
  {
    var r := DirectAll(limit);
    assert PhysToVirt(0) == MEM_VIRT_OFFSET;
    hide DirectPage, NumPages, PhysToVirt;
    forall q: nat | q < NumPages(limit)
      ensures var after := Apply(pages, r);
        DirectPage(q) in after && after[DirectPage(q)].frame == PAGE_SIZE * q
    {
      DirectRecordPage(0, q);
      MapRangeExact(pages, r.virt, r.phys, r.n, r.flags, q);
    }
  }

  /** Memory maps for which vm_init keeps the direct map: physical ranges fit the window, and
      kernel and module ranges stay out of it. */
  ghost predicate WindowKept(entries: seq<MemEntry>, load: LoadAddress, count: nat) {
    forall e :: e in entries ==>
      if e.kind == KernelAndModules then
        forall k: nat, q: nat :: q < count ==> !PutsPage(e, load, k, WindowPage(0x1000 * q))
      else
        e.kind in {Usable, Framebuffer, AcpiReclaimable, BootloaderReclaimable} ==>
          e.base / 0x1000 + NumPages(e.length) <= 0x10_0000_0000
  }

  lemma EntryHarmless(e: MemEntry, load: LoadAddress, count: nat)
    requires WindowKept([e], load, count) && EntryRecord(e, load).Some?
    ensures Harmless(EntryRecord(e, load).value, count)
  {
    var r := EntryRecord(e, load).value;
    assert e in [e];
    RangePagesAre(r.virt, r.n);
    if e.kind == KernelAndModules {
      forall q: nat | q < count
        ensures DirectPage(q) !in r.Pages()
      {
        DirectIsWindow(q);
        hide DirectPage, PutsPage, EntryRecord, RangePage, RangePages, WindowPage;
        forall k: nat
          ensures !(k < r.n && RangePage(r.virt, k) == DirectPage(q))
        {
          PutsIs(e, load, k, DirectPage(q));
          assert !PutsPage(e, load, k, WindowPage(0x1000 * q));
        }
      }
    }
  }

  lemma {:induction false} EntryRecordsHarmless(entries: seq<MemEntry>, load: LoadAddress, count: nat)
    requires WindowKept(entries, load, count)
    ensures forall r :: r in EntryRecords(entries, load) ==> Harmless(r, count)
  {
    hide DirectPage, PhysToVirt, NumPages, RangePages, PutsPage, WindowPage, Harmless, EntryRecord;
    if entries != [] {
      var front, e := entries[..|entries| - 1], entries[|entries| - 1];
      assert e in entries;
      assert forall x :: x in front ==> x in entries;
      EntryRecordsHarmless(front, load, count);
      if EntryRecord(e, load).Some? {
        EntryHarmless(e, load, count);
      }
    }
  }

  lemma {:induction false} PlanKeepsDirectMap(limit: Word, rs: seq<Record>)
    requires NumPages(limit) <= VPN_COUNT
    requires forall r :: r in rs ==> Harmless(r, NumPages(limit))
    ensures DirectMapped(ReplayLog([LowRecord(limit), DirectAll(limit)] + rs), NumPages(limit))
  {
    var plan := [LowRecord(limit), DirectAll(limit)] + rs;
    hide NumPages, DirectMapped, Harmless;
    if rs == [] {
      assert plan == [LowRecord(limit)] + [DirectAll(limit)];
      ReplaySnoc([LowRecord(limit)], DirectAll(limit));
      DirectAllMaps(ReplayLog([LowRecord(limit)]), limit);
    } else {
      var front, r := rs[..|rs| - 1], rs[|rs| - 1];
      assert r in rs;
      assert forall x :: x in front ==> x in rs;
      assert plan == ([LowRecord(limit), DirectAll(limit)] + front) + [r];
      ReplaySnoc([LowRecord(limit), DirectAll(limit)] + front, r);
      PlanKeepsDirectMap(limit, front);
      HarmlessKeeps(ReplayLog([LowRecord(limit), DirectAll(limit)] + front), r, NumPages(limit));
    }
  }

  /** After vm_init every physical page below the limit is translated from
      MEM_VIRT_OFFSET + p to p, whatever the order and overlap of the entries mapped later. */
  lemma DirectMapAfterInit(limit: Word, entries: seq<MemEntry>, load: LoadAddress)
    requires NumPages(limit) <= VPN_COUNT && WindowKept(entries, load, NumPages(limit))
    ensures DirectMapped(ReplayLog(InitPlan(limit, entries, load)), NumPages(limit))
  {
    EntryRecordsHarmless(entries, load, NumPages(limit));
    PlanKeepsDirectMap(limit, EntryRecords(entries, load));
  }

  // ---------------------------------------------------------------- what the log misses

  /** A space rebuilt from the log left by vm_init has physical page q in its direct map if and
      only if q lies in the first 2 GiB or some entry's own pages cover its place. */
  lemma InheritedDirectMap(limit: Word, entries: seq<MemEntry>, load: LoadAddress, q: nat)
    requires q < NumPages(limit) <= VPN_COUNT
    ensures WindowPage(0x1000 * q) in ReplayLog(InitLog(limit, entries, load))
       <==> || 0x1000 * q < 0x8000_0000
            || exists e, k: nat :: e in entries && PutsPage(e, load, k, WindowPage(0x1000 * q))
  {
    var log, rs, w := InitLog(limit, entries, load), EntryRecords(entries, load), WindowPage(0x1000 * q);
    DirectIsWindow(q);
    LowRecordCovers(limit, q);
    RecordsPut(entries, load, w);
    hide DirectPage, NumPages, RangePages, EntryRecords, LowRecord, WindowPage, PutsPage;
    ReplayKeys(log, w);
    assert log[0] == LowRecord(limit);
    assert forall j :: 0 < j < |log| ==> log[j] == rs[j - 1];
    if r :| r in rs && w in r.Pages() {
      var j :| 0 <= j < |rs| && rs[j] == r;
      assert log[j + 1] == r;
    }
  }

  /** Some logged record of an entry covers a page exactly if the entry puts a page there. */
  lemma {:induction false} RecordsPut(entries: seq<MemEntry>, load: LoadAddress, w: nat)
    ensures Covers(EntryRecords(entries, load), w) <==> exists e, k: nat :: e in entries && PutsPage(e, load, k, w)
  {
    hide PutsPage, EntryRecord, RangePages;
    if entries != [] {
      var front, e := entries[..|entries| - 1], entries[|entries| - 1];
      RecordsPut(front, load, w);
      RecordPuts(e, load, w);
      assert forall x :: x in entries <==> x in front || x == e;
      if EntryRecord(e, load).Some? {
        var r := EntryRecord(e, load).value;
        assert EntryRecords(entries, load) == EntryRecords(front, load) + [r];
        assert (EntryRecords(front, load) + [r])[..|EntryRecords(front, load)|] == EntryRecords(front, load);
        FrontCovers(EntryRecords(entries, load), w);
      }
    }
  }

  lemma RecordPuts(e: MemEntry, load: LoadAddress, w: nat)
    ensures (EntryRecord(e, load).Some? && w in EntryRecord(e, load).value.Pages())
       <==> exists k: nat :: PutsPage(e, load, k, w)
  {
    hide PutsPage, EntryRecord, RangePages, RangePage;
    if EntryRecord(e, load).Some? {
      RangePagesAre(EntryRecord(e, load).value.virt, EntryRecord(e, load).value.n);
    }
    forall k: nat
      ensures PutsPage(e, load, k, w)
         <==> var r := EntryRecord(e, load); r.Some? && k < r.value.n && RangePage(r.value.virt, k) == w
    {
      PutsIs(e, load, k, w);
    }
  }

  lemma LowRecordCovers(limit: Word, q: nat)
    requires q < NumPages(limit) <= VPN_COUNT
    ensures DirectPage(q) in LowRecord(limit).Pages() <==> q < LOGGED_PAGES
  {
    var r := LowRecord(limit);
    assert PhysToVirt(0) == MEM_VIRT_OFFSET;
    assert r.n <= NumPages(limit);
    RangePagesAre(r.virt, r.n);
    hide DirectPage, NumPages, PhysToVirt, RangePages;
    if q < LOGGED_PAGES {
      DirectRecordPage(0, q);
    }
    forall k: nat | k < r.n && RangePage(r.virt, k) == DirectPage(q)
      ensures k == q
    {
      DirectRecordPage(0, k);
      DirectPageInjective(k, q);
    }
  }

  // ---------------------------------------------------------------- what the kernel maps

  /** The records in effect for the kernel's own space: the log, with the unlogged direct map
      where vm_init made it, after the first record. */
  function Actual(log: seq<Record>, limit: Word): seq<Record> {
    if log == [] then [] else [log[0], DirectAll(limit)] + log[1..]
  }

  lemma ActualOfInit(limit: Word, entries: seq<MemEntry>, load: LoadAddress)
    ensures Actual(InitLog(limit, entries, load), limit) == InitPlan(limit, entries, load)
  {
    hide EntryRecords, LowRecord, DirectAll;
    var log := InitLog(limit, entries, load);
    assert log[1..] == EntryRecords(entries, load);
  }

  lemma ActualSnoc(log: seq<Record>, r: Record, limit: Word)
    requires log != []
    ensures Actual(log + [r], limit) == Actual(log, limit) + [r]
  {
    hide DirectAll;
    assert (log + [r])[1..] == log[1..] + [r];
  }

  /** No other record in effect touches a region of record i of the log. */
  ghost predicate Alone(log: seq<Record>, limit: Word, i: nat) {
    && i < |log|
    && (forall j :: 0 <= j < |log| && j != i ==> !ShareRegion(log[i], log[j]))
    && !ShareRegion(log[i], DirectAll(limit))
  }

  /** Unmapping a whole record other than the first: the log and the direct map still tell the
      kernel's pages if and only if no other record, the unlogged one included, touches a 2 MiB
      region of that range. */
  lemma UnmapActualExact(log: seq<Record>, limit: Word, i: nat)
    requires 0 < i < |log| && FindRecord(log, log[i].virt) == i && log[0].virt == MEM_VIRT_OFFSET
    ensures UnmapRange(ReplayLog(Actual(log, limit)), log[i].virt, log[i].n)
         == ReplayLog(Actual(EraseRecord(log, log[i].virt), limit))
       <==> Alone(log, limit, i)
  {
    var a, v := Actual(log, limit), log[i].virt;
    assert a[0] == log[0] && a[1] == DirectAll(limit);
    assert forall j :: 1 < j < |a| ==> a[j] == log[j - 1];
    assert forall j :: 0 <= j < i ==> log[j].virt != v;
    hide ReplayLog, UnmapRange, ShareRegion, Actual, DirectAll, NumPages, FindRecord;
    OnlyFirst(a, v, i + 1);
    ErasedActual(log, limit, i);
    UnmapReplayExact(a, i + 1);
    SameCompany(log, a, limit, i);
  }

  /** Record i of the log has the company in effect that record i + 1 has among all. */
  lemma SameCompany(log: seq<Record>, a: seq<Record>, limit: Word, i: nat)
    requires 0 < i < |log| && |a| == |log| + 1 && a[0] == log[0] && a[1] == DirectAll(limit)
    requires forall j :: 1 < j < |a| ==> a[j] == log[j - 1]
    ensures Alone(log, limit, i) <==> forall j :: 0 <= j < |a| && j != i + 1 ==> !ShareRegion(a[i + 1], a[j])
  {
    hide ShareRegion, DirectAll;
    if Alone(log, limit, i) {
      forall j | 0 <= j < |a| && j != i + 1
        ensures !ShareRegion(a[i + 1], a[j])
      {
        assert j == 0 || j == 1 || a[j] == log[j - 1];
      }
    } else {
      AnotherShares(log, a, i);
    }
  }

  lemma OnlyFirst(a: seq<Record>, v: Word, i: nat)
    requires i < |a| && a[i].virt == v && forall j :: 0 <= j < i ==> a[j].virt != v
    ensures FindRecord(a, v) == i
  {
    var k := FindRecord(a, v);
    assert k <= i;
  }

  lemma ErasedActual(log: seq<Record>, limit: Word, i: nat)
    requires 0 < i < |log| && FindRecord(log, log[i].virt) == i
    ensures var a := Actual(log, limit);
      && |a| == |log| + 1 && a[i + 1] == log[i]
      && Actual(EraseRecord(log, log[i].virt), limit) == a[..i + 1] + a[i + 2..]
  {
    hide DirectAll, FindRecord;
    ErasedBehind(log, DirectAll(limit), i);
  }

  lemma ErasedBehind(log: seq<Record>, d: Record, i: nat)
    requires 0 < i < |log|
    ensures var less := log[..i] + log[i + 1..];
      var a := [log[0], d] + log[1..];
      [less[0], d] + less[1..] == a[..i + 1] + a[i + 2..]
  {
    var less, a := log[..i] + log[i + 1..], [log[0], d] + log[1..];
    var left, right := [less[0], d] + less[1..], a[..i + 1] + a[i + 2..];
    assert |left| == |right| == |log|;
    forall j | 0 <= j < |log|
      ensures left[j] == right[j]
    {
      if 1 < j {
        assert left[j] == less[j - 1];
      }
    }
  }

  lemma AnotherShares(log: seq<Record>, a: seq<Record>, i: nat)
    requires 0 < i < |log| && |a| == |log| + 1 && a[0] == log[0] && a[i + 1] == log[i]
    requires forall j :: 1 < j < |a| ==> a[j] == log[j - 1]
    requires !(forall j :: 0 <= j < |log| && j != i ==> !ShareRegion(log[i], log[j])) || ShareRegion(log[i], a[1])
    ensures exists j :: 0 <= j < |a| && j != i + 1 && ShareRegion(a[i + 1], a[j])
  {
    hide ShareRegion;
    if !ShareRegion(log[i], a[1]) {
      var j :| 0 <= j < |log| && j != i && ShareRegion(log[i], log[j]);
      var k := if j == 0 then 0 else j + 1;
      assert ShareRegion(a[i + 1], a[k]);
    }
  }

  // ---------------------------------------------------------------- the log against the kernel

  function LeafAt(pages: map<nat, Leaf>, w: nat): Option<Leaf> {
    if w in pages then Some(pages[w]) else None
  }

  function FrameAt(pages: map<nat, Leaf>, w: nat): Option<Word> {
    if w in pages then Some(pages[w].frame) else None
  }

  ghost predicate Covers(rs: seq<Record>, w: nat) {
    exists r :: r in rs && w in r.Pages()
  }

  /** Page w is the direct-map page of some physical page at or above address lo, and no later
      record of the log covers it. */
  ghost predicate Uncovered(log: seq<Record>, w: nat, lo: nat, limit: Word)
    requires log != []
  {
    !Covers(log[1..], w) && exists q: nat :: lo <= 0x1000 * q && q < NumPages(limit) && WindowPage(0x1000 * q) == w
  }

  /** Where the pages that the log stands for differ from those that the kernel has mapped, after
      vm_init and as long as the log stays in step: in the frame, exactly at the direct-map pages
      above 2 GiB that no record covers; in frame or flags, exactly at all uncovered ones. */
  lemma ActualDiffers(log: seq<Record>, limit: Word, w: nat)
    requires log != [] && log[0] == LowRecord(limit) && NumPages(limit) <= VPN_COUNT
    ensures var logged, actual := ReplayLog(log), ReplayLog(Actual(log, limit));
      && (FrameAt(logged, w) == FrameAt(actual, w) <==> !Uncovered(log, w, 0x8000_0000, limit))
      && (LeafAt(logged, w) == LeafAt(actual, w) <==> !Uncovered(log, w, 0, limit))
  {
    var low, direct, rest := LowRecord(limit), DirectAll(limit), log[1..];
    assert log == [low] + rest && Actual(log, limit) == [low, direct] + rest;
    hide ReplayLog, DirectPage, NumPages, Actual, LowRecord, DirectAll, WindowPage;
    LastWriterDecides([low], rest, w);
    LastWriterDecides([low, direct], rest, w);
    LastWriterAgrees([low], [low, direct], rest, w);
    if !Covers(rest, w) {
      if q: nat :| q < NumPages(limit) && WindowPage(0x1000 * q) == w {
        DirectIsWindow(q);
        DirectLeaves(limit, q);
        OnlyPage(w, q, limit);
      } else {
        forall q: nat | q < NumPages(limit)
          ensures DirectPage(q) != w
        {
          DirectIsWindow(q);
        }
        NoDirectLeaf(limit, w);
      }
    }
  }

  lemma OnlyPage(w: nat, q: nat, limit: Word)
    requires q < NumPages(limit) <= VPN_COUNT && WindowPage(0x1000 * q) == w
    ensures forall p: nat :: p < NumPages(limit) && WindowPage(0x1000 * p) == w ==> p == q
  {
    DirectIsWindow(q);
    hide DirectPage, NumPages, WindowPage;
    forall p: nat | p < NumPages(limit) && WindowPage(0x1000 * p) == w
      ensures p == q
    {
      DirectIsWindow(p);
      DirectPageInjective(p, q);
    }
  }

  lemma FrontCovers(rs: seq<Record>, w: nat)
    requires rs != []
    ensures Covers(rs, w) <==> Covers(rs[..|rs| - 1], w) || w in rs[|rs| - 1].Pages()
  {
    hide RangePages;
    var front, r := rs[..|rs| - 1], rs[|rs| - 1];
    assert forall x :: x in rs <==> x in front || x == r;
    if Covers(front, w) {
      var x :| x in front && w in x.Pages();
      assert x in rs;
    }
    if w in r.Pages() {
      assert r in rs;
    }
  }

  /** Records that do not cover a page do not matter for it. */
  lemma {:induction false} LastWriterDecides(a: seq<Record>, rest: seq<Record>, w: nat)
    ensures !Covers(rest, w) ==> LeafAt(ReplayLog(a + rest), w) == LeafAt(ReplayLog(a), w)
  {
    if rest == [] {
      assert a + rest == a;
    } else {
      var front, r := rest[..|rest| - 1], rest[|rest| - 1];
      LastWriterDecides(a, front, w);
      assert a + rest == (a + front) + [r];
      FrontCovers(rest, w);
      hide RangePages, MapRange, Covers, ReplayLog;
      ReplaySnoc(a + front, r);
      if w !in r.Pages() {
        ApplyElsewhere(ReplayLog(a + front), r, w);
      }
    }
  }

  /** A record that covers a page decides what is there, whatever came before. */
  lemma {:induction false} LastWriterAgrees(a: seq<Record>, b: seq<Record>, rest: seq<Record>, w: nat)
    ensures Covers(rest, w) ==> LeafAt(ReplayLog(a + rest), w) == LeafAt(ReplayLog(b + rest), w)
  {
    if rest != [] {
      var front, r := rest[..|rest| - 1], rest[|rest| - 1];
      LastWriterAgrees(a, b, front, w);
      assert a + rest == (a + front) + [r] && b + rest == (b + front) + [r];
      FrontCovers(rest, w);
      hide RangePages, MapRange, Covers, ReplayLog;
      ReplaySnoc(a + front, r);
      ReplaySnoc(b + front, r);
      if w in r.Pages() {
        CoveredAlike(ReplayLog(a + front), ReplayLog(b + front), r.virt, r.phys, r.n, r.flags, w);
      } else {
        ApplyElsewhere(ReplayLog(a + front), r, w);
        ApplyElsewhere(ReplayLog(b + front), r, w);
      }
    }
  }

  lemma {:induction false} CoveredAlike(a: map<nat, Leaf>, b: map<nat, Leaf>, v: Word, phys: Word, n: nat,
                                        flags: Word, w: nat)
    requires w in RangePages(v, n)
    ensures LeafAt(MapRange(a, v, phys, n, flags), w) == LeafAt(MapRange(b, v, phys, n, flags), w)
  {
    hide RangePage, Offset, AlignDown;
    if n > 0 && w != RangePage(v, n - 1) {
      CoveredAlike(a, b, v, phys, n - 1, flags, w);
    }
  }

  // ---------------------------------------------------------------- unmapping any range

  /** Unmapping n pages from v takes page u with it: it lies in the 2 MiB region of one of them
      that is mapped. */
  ghost predicate Clears(rs: seq<Record>, v: Word, n: nat, u: nat) {
    exists w :: w in RangePages(v, n) && Covers(rs, w) && TableOf(w) == TableOf(u)
  }

  /** Record i does not show at page u: it does not cover it, or a later one does, or those before
      it leave the same there. */
  ghost predicate Hidden(rs: seq<Record>, i: nat, u: nat)
    requires i < |rs|
  {
    || u !in rs[i].Pages()
    || Covers(rs[i + 1..], u)
    || LeafAt(ReplayLog(rs[..i]), u) == LeafAt(Apply(ReplayLog(rs[..i]), rs[i]), u)
  }

  /** What it takes, page by page, to lose record i along with the range: pages that go are those
      of no other record, and at pages that stay the record does not show. */
  ghost predicate GoesAlong(rs: seq<Record>, i: nat, v: Word, n: nat, u: nat)
    requires i < |rs|
  {
    if Clears(rs, v, n, u) then !Covers(rs[..i] + rs[i + 1..], u) else Hidden(rs, i, u)
  }

  ghost predicate AllGoAlong(rs: seq<Record>, i: nat, v: Word, n: nat)
    requires i < |rs|
  {
    forall u: nat :: GoesAlong(rs, i, v, n, u)
  }

  lemma CoversIsKeys(rs: seq<Record>, w: nat)
    ensures Covers(rs, w) <==> w in ReplayLog(rs)
  {
    hide RangePages, ReplayLog;
    ReplayKeys(rs, w);
  }

  lemma LeafAfterUnmap(rs: seq<Record>, v: Word, n: nat, u: nat)
    ensures LeafAt(UnmapRange(ReplayLog(rs), v, n), u) == if Clears(rs, v, n, u) then None else LeafAt(ReplayLog(rs), u)
  {
    hide ReplayLog, UnmapRange, RangePages, TableOf, Covers;
    UnmapRangeExact(ReplayLog(rs), v, n, u);
    forall w
      ensures Covers(rs, w) <==> w in ReplayLog(rs)
    {
      CoversIsKeys(rs, w);
    }
  }

  lemma LeafWithout(rs: seq<Record>, i: nat, u: nat)
    requires i < |rs|
    ensures LeafAt(ReplayLog(rs[..i] + rs[i + 1..]), u) == LeafAt(ReplayLog(rs), u) <==> Hidden(rs, i, u)
  {
    hide ReplayLog, Covers, RangePages, MapRange;
    var before, r, rest := rs[..i], rs[i], rs[i + 1..];
    assert rs == before + [r] + rest;
    ReplaySnoc(before, r);
    LastWriterDecides(before + [r], rest, u);
    LastWriterDecides(before, rest, u);
    LastWriterAgrees(before + [r], before, rest, u);
    if u !in r.Pages() {
      ApplyElsewhere(ReplayLog(before), r, u);
    }
  }

  lemma SameLeaves(a: map<nat, Leaf>, b: map<nat, Leaf>)
    ensures a == b <==> forall u: nat :: LeafAt(a, u) == LeafAt(b, u)
  {
    if forall u: nat :: LeafAt(a, u) == LeafAt(b, u) {
      assert forall u :: u in a ==> LeafAt(a, u) == LeafAt(b, u);
      assert forall u :: u in b ==> LeafAt(a, u) == LeafAt(b, u);
    }
  }

  /** Unmapping any range and dropping any record. */
  lemma UnmapWithoutExact(rs: seq<Record>, i: nat, v: Word, n: nat)
    requires i < |rs|
    ensures UnmapRange(ReplayLog(rs), v, n) == ReplayLog(rs[..i] + rs[i + 1..]) <==> AllGoAlong(rs, i, v, n)
  {
    var after, less := UnmapRange(ReplayLog(rs), v, n), ReplayLog(rs[..i] + rs[i + 1..]);
    hide ReplayLog, UnmapRange, Covers, Hidden, Clears;
    SameLeaves(after, less);
    forall u: nat
      ensures LeafAt(after, u) == LeafAt(less, u) <==> GoesAlong(rs, i, v, n, u)
    {
      LeafAfterUnmap(rs, v, n, u);
      LeafWithout(rs, i, u);
      CoversIsKeys(rs[..i] + rs[i + 1..], u);
    }
    hide LeafAt, GoesAlong;
  }

  /** Unmapping a range and dropping no record. */
  lemma UnmapNothingExact(rs: seq<Record>, v: Word, n: nat)
    ensures UnmapRange(ReplayLog(rs), v, n) == ReplayLog(rs) <==> forall w :: w in RangePages(v, n) ==> !Covers(rs, w)
  {
    var after := UnmapRange(ReplayLog(rs), v, n);
    hide ReplayLog, UnmapRange, Covers, RangePages, TableOf;
    SameLeaves(after, ReplayLog(rs));
    forall u
      ensures LeafAt(after, u) == if Clears(rs, v, n, u) then None else LeafAt(ReplayLog(rs), u)
      ensures Covers(rs, u) <==> LeafAt(ReplayLog(rs), u) != None
    {
      LeafAfterUnmap(rs, v, n, u);
      CoversIsKeys(rs, u);
    }
    hide LeafAt;
    if w :| w in RangePages(v, n) && Covers(rs, w) {
      assert Clears(rs, v, n, w);
    }
  }

  /** The two maps of vm_init at physical page q. */
  lemma DirectLeaves(limit: Word, q: nat)
    requires q < NumPages(limit) <= VPN_COUNT
    ensures var low, direct, w := LowRecord(limit), DirectAll(limit), DirectPage(q);
      && LeafAt(ReplayLog([low]), w) == (if q < LOGGED_PAGES then Some(Leaf(PAGE_SIZE * q, VM_USERMODE)) else None)
      && LeafAt(ReplayLog([low, direct]), w) == Some(Leaf(PAGE_SIZE * q, VM_DEFAULT))
  {
    var low, direct, w := LowRecord(limit), DirectAll(limit), DirectPage(q);
    LowRecordCovers(limit, q);
    assert low.n <= NumPages(limit) && (q < LOGGED_PAGES ==> q < low.n);
    assert low.virt == direct.virt == MEM_VIRT_OFFSET && low.phys == direct.phys == 0;
    assert low.flags == VM_USERMODE && direct.flags == VM_DEFAULT && direct.n == NumPages(limit);
    TwoReplays(low, direct);
    hide DirectPage, NumPages, ReplayLog, LowRecord, DirectAll, RangePages, MapRange;
    DirectLeaf(Apply(map[], low), direct.n, VM_DEFAULT, q);
    if q < LOGGED_PAGES {
      DirectLeaf(map[], low.n, VM_USERMODE, q);
    } else {
      ApplyElsewhere(map[], low, w);
    }
  }

  lemma TwoReplays(low: Record, direct: Record)
    ensures ReplayLog([low]) == Apply(map[], low)
    ensures ReplayLog([low, direct]) == Apply(Apply(map[], low), direct)
  {
    assert ReplayLog([]) == map[];
    hide Apply, ReplayLog;
    ReplaySnoc([], low);
    ReplaySnoc([low], direct);
    assert [] + [low] == [low] && [low] + [direct] == [low, direct];
  }

  lemma DirectLeaf(pages: map<nat, Leaf>, n: nat, flags: Word, q: nat)
    requires q < n <= VPN_COUNT
    ensures LeafAt(MapRange(pages, MEM_VIRT_OFFSET, 0, n, flags), DirectPage(q)) == Some(Leaf(PAGE_SIZE * q, flags))
  {
    assert PhysToVirt(0) == MEM_VIRT_OFFSET;
    hide DirectPage, PhysToVirt, RangePage, Offset, AlignDown, MapRange;
    DirectRecordPage(0, q);
    MapRangeExact(pages, MEM_VIRT_OFFSET, 0, n, flags, q);
  }

  lemma NoDirectLeaf(limit: Word, w: nat)
    requires NumPages(limit) <= VPN_COUNT && forall q: nat :: q < NumPages(limit) ==> DirectPage(q) != w
    ensures var low, direct := LowRecord(limit), DirectAll(limit);
      LeafAt(ReplayLog([low]), w) == None && LeafAt(ReplayLog([low, direct]), w) == None
  {
    var low, direct := LowRecord(limit), DirectAll(limit);
    assert low.n <= NumPages(limit) && direct.n == NumPages(limit) && low.virt == direct.virt == MEM_VIRT_OFFSET;
    TwoReplays(low, direct);
    hide DirectPage, NumPages, ReplayLog, LowRecord, DirectAll, RangePages, MapRange;
    NotDirect(low.n, w);
    NotDirect(direct.n, w);
    ApplyElsewhere(map[], low, w);
    ApplyElsewhere(Apply(map[], low), direct, w);
  }

  lemma NotDirect(n: nat, w: nat)
    requires n <= VPN_COUNT && forall q: nat :: q < n ==> DirectPage(q) != w
    ensures w !in RangePages(MEM_VIRT_OFFSET, n)
  {
    assert PhysToVirt(0) == MEM_VIRT_OFFSET;
    RangePagesAre(MEM_VIRT_OFFSET, n);
    hide DirectPage, PhysToVirt, RangePage, RangePages, Offset, AlignDown;
    forall k: nat | k < n
      ensures RangePage(MEM_VIRT_OFFSET, k) != w
    {
      DirectRecordPage(0, k);
    }
  }
}
