/** pm_init: building the frame allocator from the boot loader's memory map. */
module Boot {
  import opened Words
  import opened Wrappers
  import opened Frames

  datatype EntryKind =
    | Usable | Reserved | AcpiReclaimable | AcpiNvs | BadMemory
    | BootloaderReclaimable | KernelAndModules | Framebuffer

  datatype MemEntry = MemEntry(base: Word, length: Word, kind: EntryKind) {
    function End(): nat {
      base + length
    }

    /** ENTRY_TYPE_CHECK. */
    predicate Counts() {
      kind.Usable? || kind.BootloaderReclaimable? || kind.KernelAndModules? || kind.AcpiReclaimable?
    }

    /** Usable memory ending above the first megabyte. */
    predicate High() {
      kind.Usable? && End() > 0x10_0000
    }

    function Run(): set<nat> {
      Pages(base / PAGE_SIZE, NumPages(length))
    }
  }

  // ---------------------------------------------------------------- specification

  /** Highest end of a counted entry. */
  function Limit(entries: seq<MemEntry>): nat {
    if entries == [] then 0
    else
      var rest, e := Limit(entries[..|entries| - 1]), entries[|entries| - 1];
      if e.Counts() && e.End() > rest then e.End() else rest
  }

  function TotalLength(entries: seq<MemEntry>): nat {
    if entries == [] then 0
    else
      var rest, e := TotalLength(entries[..|entries| - 1]), entries[|entries| - 1];
      if e.Counts() then rest + e.length else rest
  }

  function UsablePages(entries: seq<MemEntry>): set<nat> {
    if entries == [] then {}
    else
      var rest, e := UsablePages(entries[..|entries| - 1]), entries[|entries| - 1];
      if e.High() then rest + e.Run() else rest
  }

  /** Base of the first high usable entry with room for the bitmap. */
  function Home(entries: seq<MemEntry>, size: nat): Option<Word> {
    if entries == [] then None
    else if entries[0].High() && entries[0].length >= size then Some(entries[0].base)
    else Home(entries[1..], size)
  }

  function BitmapSize(entries: seq<MemEntry>): nat {
    Limit(entries) / (PAGE_SIZE * 8)
  }

  function BitmapPages(entries: seq<MemEntry>): nat
    requires Bounded(entries)
  {
    LimitBound(entries);
    NumPages(BitmapSize(entries))
  }

  /** Entries lie in the 52-bit physical address space. */
  predicate Bounded(entries: seq<MemEntry>) {
    forall e :: e in entries ==> e.End() <= 0x10_0000_0000_0000
  }

  /** The pages free after pm_init, where `stale` are the bits found set beyond the bytes
      that pm_init clears. */
  function BootFree(entries: seq<MemEntry>, stale: set<nat>, home: Word): set<nat>
    requires Bounded(entries)
  {
    (stale + UsablePages(entries)) - Pages(home / PAGE_SIZE, BitmapPages(entries))
  }

  function BootCount(entries: seq<MemEntry>, stale: set<nat>): Word
    requires Bounded(entries)
  {
    Wrap(Wrap(PAGE_SIZE * Missing(UsablePages(entries), stale)) - PAGE_SIZE * BitmapPages(entries))
  }

  lemma {:induction false} LimitBound(entries: seq<MemEntry>)
    requires Bounded(entries)
    ensures Limit(entries) <= 0x10_0000_0000_0000
  {
    if entries != [] {
      var front := entries[..|entries| - 1];
      assert forall e :: e in front ==> e in entries;
      LimitBound(front);
      assert entries[|entries| - 1] in entries;
    }
  }

  /** The pages of one entry end at or below the page limit, aligned or not. */
  lemma RunBelow(e: MemEntry, limit: nat)
    requires e.End() <= limit <= 0x10_0000_0000_0000
    ensures e.base / PAGE_SIZE + NumPages(e.length) <= LimitPages(limit)
  {
  }

  /** Entry e is usable, ends above the first megabyte, and holds page p. */
  predicate Provides(e: MemEntry, p: nat) {
    && e.kind == Usable && e.base + e.length > 0x10_0000
    && e.base / PAGE_SIZE <= p < e.base / PAGE_SIZE + NumPages(e.length)
  }

  /** Free pages are exactly those of some high usable entry, whatever the order and overlap. */
  lemma {:induction false} UsableIsUnion(entries: seq<MemEntry>, p: nat)
    ensures p in UsablePages(entries) <==> exists e :: e in entries && Provides(e, p)
  {
    if entries != [] {
      var front, last := entries[..|entries| - 1], entries[|entries| - 1];
      UsableIsUnion(front, p);
      assert forall e :: e in entries <==> e in front || e == last;
      assert p in last.Run() && last.High() <==> Provides(last, p);
    }
  }

  /** The kinds of memory that pm_init counts, whether it frees them or not. */
  predicate CountedKind(kind: EntryKind) {
    kind in {Usable, BootloaderReclaimable, KernelAndModules, AcpiReclaimable}
  }

  /** The limit is the least bound on the ends of all counted entries. */
  lemma {:induction false} LimitIsLeast(entries: seq<MemEntry>, bound: nat)
    ensures Limit(entries) <= bound <==> forall e :: e in entries && CountedKind(e.kind) ==> e.base + e.length <= bound
  {
    if entries != [] {
      var front, last := entries[..|entries| - 1], entries[|entries| - 1];
      LimitIsLeast(front, bound);
      assert forall e :: e in entries <==> e in front || e == last;
    }
  }

  /** The lengths of all entries of one kind together. */
  function LengthOf(entries: seq<MemEntry>, kind: EntryKind): nat {
    if entries == [] then 0
    else (if entries[0].kind == kind then entries[0].length else 0) + LengthOf(entries[1..], kind)
  }

  lemma {:induction false} LengthSnoc(entries: seq<MemEntry>, e: MemEntry, kind: EntryKind)
    ensures LengthOf(entries + [e], kind) == LengthOf(entries, kind) + if e.kind == kind then e.length else 0
  {
    if entries == [] {
      assert [] + [e] == [e];
    } else {
      LengthSnoc(entries[1..], e, kind);
      assert (entries + [e])[1..] == entries[1..] + [e];
    }
  }

  /** The total is that of the four counted kinds. */
  lemma {:induction false} TotalIsSum(entries: seq<MemEntry>)
    ensures TotalLength(entries)
         == LengthOf(entries, Usable) + LengthOf(entries, BootloaderReclaimable)
            + LengthOf(entries, KernelAndModules) + LengthOf(entries, AcpiReclaimable)
  {
    if entries != [] {
      var front, last := entries[..|entries| - 1], entries[|entries| - 1];
      TotalIsSum(front);
      assert entries == front + [last];
      LengthSnoc(front, last, Usable);
      LengthSnoc(front, last, BootloaderReclaimable);
      LengthSnoc(front, last, KernelAndModules);
      LengthSnoc(front, last, AcpiReclaimable);
    }
  }

  lemma {:induction false} UsableBelowLimit(entries: seq<MemEntry>)
    requires Bounded(entries)
    ensures forall p :: p in UsablePages(entries) ==> p < LimitPages(Limit(entries))
  {
    if entries != [] {
      var front, last := entries[..|entries| - 1], entries[|entries| - 1];
      assert forall e :: e in front ==> e in entries;
      assert last in entries;
      UsableBelowLimit(front);
      LimitBound(entries);
      if last.High() {
        RunBelow(last, Limit(entries));
      }
    }
  }

  /** Entry e is usable, ends above the first megabyte, and is long enough for the bitmap. */
  predicate CanHold(e: MemEntry, size: nat) {
    e.kind == Usable && e.base + e.length > 0x10_0000 && e.length >= size
  }

  /** Entry i is the first of these, and b its base. */
  predicate FirstToHold(entries: seq<MemEntry>, size: nat, i: nat, b: Word) {
    && i < |entries| && entries[i].base == b && CanHold(entries[i], size)
    && forall j :: 0 <= j < i ==> !CanHold(entries[j], size)
  }

  /** The home is the base of the first entry that can hold the bitmap, if there is one. */
  lemma {:induction false} HomeIsFirst(entries: seq<MemEntry>, size: nat, b: Word)
    ensures Home(entries, size) == Some(b) <==> exists i: nat :: FirstToHold(entries, size, i, b)
    ensures Home(entries, size) == None <==> forall e :: e in entries ==> !CanHold(e, size)
  {
    if entries != [] && CanHold(entries[0], size) {
      assert FirstToHold(entries, size, 0, entries[0].base);
    } else if entries != [] {
      var rest := entries[1..];
      HomeIsFirst(rest, size, b);
      assert entries == [entries[0]] + rest;
      if i: nat :| FirstToHold(entries, size, i, b) {
        assert i > 0 && FirstToHold(rest, size, i - 1, b);
      }
      if i: nat :| FirstToHold(rest, size, i, b) {
        assert FirstToHold(entries, size, i + 1, b);
      }
    }
  }

  /** The chosen home is a usable entry whose pages have room for the bitmap. */
  lemma {:induction false} HomeInside(entries: seq<MemEntry>, size: Word)
    requires Home(entries, size).Some? && size <= TWO64 - PAGE_SIZE
    requires Bounded(entries)
    ensures exists e :: e in entries && e.High() && e.base == Home(entries, size).value
                        && NumPages(size) <= NumPages(e.length)
  {
    var e := entries[0];
    assert e in entries;
    if e.High() && e.length >= size {
      assert NumPages(size) <= NumPages(e.length);
    } else {
      HomeInside(entries[1..], size);
    }
  }

  /** So the bitmap's own pages are among the freed ones and the final pm_allocate succeeds. */
  lemma BitmapIsUsable(entries: seq<MemEntry>, home: Word)
    requires Bounded(entries) && Home(entries, BitmapSize(entries)) == Some(home)
    ensures Pages(home / PAGE_SIZE, BitmapPages(entries)) <= UsablePages(entries)
    ensures home / PAGE_SIZE + BitmapPages(entries) <= LimitPages(Limit(entries))
  {
    LimitBound(entries);
    hide Limit, UsablePages, LimitPages, Pages, Home, Bounded;
    HomeInside(entries, BitmapSize(entries));
    var e :| e in entries && e.High() && e.base == home && BitmapPages(entries) <= NumPages(e.length);
    FrontUsable(entries, e, BitmapPages(entries));
  }

  lemma FrontUsable(entries: seq<MemEntry>, e: MemEntry, n: nat)
    requires Bounded(entries) && e in entries && e.High() && n <= NumPages(e.length)
    ensures Pages(e.base / PAGE_SIZE, n) <= UsablePages(entries)
    ensures e.base / PAGE_SIZE + n <= LimitPages(Limit(entries))
  {
    hide Limit, UsablePages, LimitPages;
    EntryFits(entries, e);
    forall p | p in Pages(e.base / PAGE_SIZE, n)
      ensures p in UsablePages(entries)
    {
      assert p in e.Run();
      UsableIsUnion(entries, p);
    }
  }

  /** pm_init leaves the byte count equal to the number of free pages exactly when no stale
      bit was set past the cleared part of the bitmap. */
  lemma CountedIffNoStaleBits(entries: seq<MemEntry>, stale: set<nat>, home: Word)
    requires Bounded(entries) && Home(entries, BitmapSize(entries)) == Some(home)
    requires |stale| <= 8 * MAX_BITMAP
    ensures BootCount(entries, stale) == PAGE_SIZE * |BootFree(entries, stale, home)| <==> stale == {}
  {
    hide UsablePages, Pages, Home, Limit, NumPages, Wrap;
    var usable, own := UsablePages(entries), Pages(home / PAGE_SIZE, BitmapPages(entries));
    BitmapIsUsable(entries, home);
    PagesSize(home / PAGE_SIZE, BitmapPages(entries));
    assert stale + usable == stale + (usable - stale);
    CountAfterAllocate(stale + usable, own);
    UsableBelowLimit(entries);
    LimitBound(entries);
    BelowBound(usable - stale, LimitPages(Limit(entries)));
    CountArithmetic(|stale|, |usable - stale|, |own|);
  }

  lemma CountArithmetic(stale: nat, added: nat, own: nat)
    requires stale <= 8 * MAX_BITMAP && own <= stale + added && added <= 0x100_0000_0000
    ensures Wrap(Wrap(PAGE_SIZE * added) - PAGE_SIZE * own) == PAGE_SIZE * (stale + added - own)
       <==> stale == 0
  {
  }

  /** Aligned usable entries whose lengths add up to less than 2^64 never make the free size,
      even with the bitmap's own pages added, exceed the total size, so the `used` figure of
      pm_used does not underflow, even when entries overlap. */
  lemma UsedNeverNegative(entries: seq<MemEntry>, home: Word)
    requires Bounded(entries) && Home(entries, BitmapSize(entries)) == Some(home)
    requires forall e :: e in entries && e.High() ==> e.length % PAGE_SIZE == 0
    requires TotalLength(entries) < TWO64
    ensures BootCount(entries, {}) + PAGE_SIZE * BitmapPages(entries) <= Wrap(TotalLength(entries))
  {
    hide UsablePages, Pages, BootCount, TotalLength, Home, Limit, NumPages;
    var usable, own := UsablePages(entries), Pages(home / PAGE_SIZE, BitmapPages(entries));
    UsableLength(entries);
    CountedIffNoStaleBits(entries, {}, home);
    BitmapIsUsable(entries, home);
    PagesSize(home / PAGE_SIZE, BitmapPages(entries));
    assert {} + usable == usable;
    CountAfterAllocate(usable, own);
  }

  lemma {:induction false} UsableLength(entries: seq<MemEntry>)
    requires Bounded(entries)
    requires forall e :: e in entries && e.High() ==> e.length % PAGE_SIZE == 0
    ensures PAGE_SIZE * |UsablePages(entries)| <= TotalLength(entries)
  {
    if entries != [] {
      var front, last := entries[..|entries| - 1], entries[|entries| - 1];
      assert forall e :: e in front ==> e in entries;
      assert last in entries;
      UsableLength(front);
      if last.High() {
        RunLength(last);
        UnionSize(UsablePages(front), last.Run());
      }
    }
  }

  lemma RunLength(e: MemEntry)
    requires e.End() <= 0x10_0000_0000_0000 && e.length % PAGE_SIZE == 0
    ensures PAGE_SIZE * |e.Run()| == e.length
  {
    PagesSize(e.base / PAGE_SIZE, NumPages(e.length));
  }

  lemma UnionSize(a: set<nat>, b: set<nat>)
    ensures |a + b| <= |a| + |b|
  {
    assert a + b == a + (b - a);
    SubsetSize(b - a, b);
  }

  // ---------------------------------------------------------------- pm_init

  /** Halted: the memory map is missing. NullBitmap: no entry has room for the bitmap, and the
      source goes on to clear memory through a null pointer. */
  datatype InitResult = Ready(home: Word) | Halted | NullBitmap

  /** Bits set past the cleared part. */
  ghost function StaleBits(bitmap: seq<bv8>, size: nat): set<nat> {
    set p | p in FreeSet(bitmap) && p >= 8 * size
  }

  method ScanEntries(k: FrameAllocator, entries: seq<MemEntry>)
    requires Bounded(entries)
    modifies k`limit, k`totalSize
    ensures k.limit == Limit(entries)
    ensures k.totalSize == Wrap(TotalLength(entries))
  {
    hide Limit, TotalLength, Wrap;
    ScanStart();
    k.limit := 0;
    k.totalSize := 0;
    for i := 0 to |entries|
      invariant k.limit == Limit(entries[..i])
      invariant k.totalSize == Wrap(TotalLength(entries[..i]))
    {
      var e := entries[i];
      assert e in entries;
      ScanStep(entries, i);
      WrapSum(TotalLength(entries[..i]), e.length);
      if e.Counts() {
        k.totalSize := Wrap(k.totalSize + e.length);
        if e.base + e.length > k.limit {
          k.limit := e.base + e.length;
        }
      }
    }
    assert entries[..|entries|] == entries;
  }

  lemma ScanStart()
    ensures Limit([]) == 0 && Wrap(TotalLength([])) == 0
  {
  }

  lemma ScanStep(entries: seq<MemEntry>, i: nat)
    requires i < |entries|
    ensures var e := entries[i];
      && Limit(entries[..i + 1])
           == (if e.Counts() && e.End() > Limit(entries[..i]) then e.End() else Limit(entries[..i]))
      && TotalLength(entries[..i + 1]) == TotalLength(entries[..i]) + (if e.Counts() then e.length else 0)
  {
    assert entries[..i + 1][..i] == entries[..i];
  }

  method FindHome(entries: seq<MemEntry>, size: nat) returns (home: Option<Word>)
    ensures home == Home(entries, size)
    ensures home.Some? ==> exists i: nat :: FirstToHold(entries, size, i, home.value)
    ensures home.None? ==> forall e :: e in entries ==> !CanHold(e, size)
  {
    HomeIsFirst(entries, size, 0);
    for i := 0 to |entries|
      invariant forall j :: 0 <= j < i ==> !CanHold(entries[j], size)
    {
      var e := entries[i];
      if e.base + e.length <= 0x10_0000 {
        continue;
      }
      if e.length >= size && e.kind.Usable? {
        assert FirstToHold(entries, size, i, e.base);
        HomeIsFirst(entries, size, e.base);
        return Some(e.base);
      }
    }
    return None;
  }

  /** memset(kmem.bitmap, 0, bitmap_size). */
  method ClearBitmap(k: FrameAllocator, size: nat)
    requires size <= k.bitmap.Length
    modifies k.bitmap
    ensures k.Free() == StaleBits(old(k.bitmap[..]), size)
  {
    for i := 0 to size
      invariant forall j :: 0 <= j < i ==> k.bitmap[j] == 0
      invariant forall j :: i <= j < k.bitmap.Length ==> k.bitmap[j] == old(k.bitmap[j])
    {
      k.bitmap[i] := 0;
    }
    ClearedBits(old(k.bitmap[..]), k.bitmap[..], size);
  }

  lemma ClearedBits(before: seq<bv8>, after: seq<bv8>, size: nat)
    requires size <= |before| == |after|
    requires forall j :: 0 <= j < size ==> after[j] == 0
    requires forall j :: size <= j < |before| ==> after[j] == before[j]
    ensures FreeSet(after) == StaleBits(before, size)
  {
    forall p: nat | p < 8 * |before|
      ensures PageFree(after, p) <==> p >= 8 * size && PageFree(before, p)
    {
      if p < 8 * size {
        ZeroByte(p % 8);
      }
    }
  }

  lemma ZeroByte(k: nat)
    requires k < 8
    ensures !Bit(0, k)
  {
  }

  method FreeEntries(k: FrameAllocator, entries: seq<MemEntry>)
    requires k.Sane() && Bounded(entries) && k.freeSize == 0
    requires LimitPages(Limit(entries)) <= 8 * k.bitmap.Length
    modifies k`freeSize, k.bitmap
    ensures k.Free() == old(k.Free()) + UsablePages(entries)
    ensures k.freeSize == Wrap(PAGE_SIZE * Missing(UsablePages(entries), old(k.Free())))
  {
    hide FreeSet, UsablePages, Missing, Wrap, Limit, LimitPages;
    ghost var stale := k.Free();
    NothingFreed(stale);
    for i := 0 to |entries|
      invariant k.Free() == stale + UsablePages(entries[..i])
      invariant k.freeSize == Wrap(PAGE_SIZE * Missing(UsablePages(entries[..i]), stale))
    {
      var e := entries[i];
      UsableStep(entries, i);
      if e.base + e.length <= 0x10_0000 {
        continue;
      }
      if e.kind.Usable? {
        EntryFits(entries, e);
        FreedSoFar(stale, UsablePages(entries[..i]), e);
        var _ := k.PmFree(e.base, NumPages(e.length));
      }
    }
    assert entries[..|entries|] == entries;
  }

  lemma NothingFreed(stale: set<nat>)
    ensures UsablePages([]) == {} && Wrap(PAGE_SIZE * Missing({}, stale)) == 0
  {
    assert {} - stale == {};
  }

  lemma UsableStep(entries: seq<MemEntry>, i: nat)
    requires i < |entries|
    ensures UsablePages(entries[..i + 1])
         == if entries[i].High() then UsablePages(entries[..i]) + entries[i].Run() else UsablePages(entries[..i])
  {
    assert entries[..i + 1][..i] == entries[..i];
  }

  lemma {:induction false} EntryFits(entries: seq<MemEntry>, e: MemEntry)
    requires Bounded(entries) && e in entries && e.Counts()
    ensures e.base / PAGE_SIZE + NumPages(e.length) <= LimitPages(Limit(entries))
  {
    LimitBound(entries);
    EndBelowLimit(entries, e);
    RunBelow(e, Limit(entries));
  }

  lemma {:induction false} EndBelowLimit(entries: seq<MemEntry>, e: MemEntry)
    requires e in entries && e.Counts()
    ensures e.End() <= Limit(entries)
  {
    if e != entries[|entries| - 1] {
      EndBelowLimit(entries[..|entries| - 1], e);
    }
  }

  lemma FreedSoFar(stale: set<nat>, done: set<nat>, e: MemEntry)
    ensures Wrap(Wrap(PAGE_SIZE * Missing(done, stale))
                 + PAGE_SIZE * Missing(e.Run(), stale + done))
         == Wrap(PAGE_SIZE * Missing(done + e.Run(), stale))
  {
    MissingSum(stale, done, e.Run());
    hide Missing;
    WrapSum(PAGE_SIZE * Missing(done, stale), PAGE_SIZE * Missing(e.Run(), stale + done));
  }

  lemma MissingSum(stale: set<nat>, done: set<nat>, run: set<nat>)
    ensures Missing(done, stale) + Missing(run, stale + done) == Missing(done + run, stale)
  {
    assert (done + run) - stale == (done - stale) + (run - (stale + done));
  }

  lemma WrapSum(a: nat, b: nat)
    ensures Wrap(Wrap(a) + b) == Wrap(a + b)
  {
  }

  method PmInit(k: FrameAllocator, entries: seq<MemEntry>) returns (r: InitResult)
    requires k.Sane() && Bounded(entries)
    requires LimitPages(Limit(entries)) <= 8 * k.bitmap.Length
    modifies k, k.bitmap
    ensures r.Halted? <==> entries == []
    ensures r.Ready? ==> exists i: nat :: FirstToHold(entries, k.limit / 0x8000, i, r.home)
    ensures entries != [] ==>
      match Home(entries, BitmapSize(entries))
      case None => r.NullBitmap?
      case Some(home) =>
        var stale := StaleBits(old(k.bitmap[..]), BitmapSize(entries));
        && r == Ready(home)
        && k.limit == Limit(entries) && k.totalSize == Wrap(TotalLength(entries))
        && k.Free() == BootFree(entries, stale, home)
        && k.freeSize == BootCount(entries, stale)
        && (stale == {} && LimitPages(Limit(entries)) < 8 * k.bitmap.Length ==> k.Valid())
  {
    hide FreeSet, UsablePages, Missing, Wrap, Limit, LimitPages, Home, NumPages, Pages, FrameAllocator.Valid,
      BootFree, BootCount, StaleBits, FrameAllocator.Free, FrameAllocator.Counted, BitmapPages, Bounded,
      Visited;
    if |entries| == 0 {
      return Halted;
    }
    k.freeSize := 0;
    ScanEntries(k, entries);
    LimitBound(entries);
    var size := k.limit / (PAGE_SIZE * 8);
    var home := FindHome(entries, size);
    if home.None? {
      return NullBitmap;
    }
    SizeFits(entries, k.bitmap.Length);
    ClearBitmap(k, size);
    FreeEntries(k, entries);
    BitmapIsUsable(entries, home.value);
    SizeIs(entries, size, home.value);
    var ok := k.PmAllocate(home.value, NumPages(size));
    assert ok;
    BootIs(entries, StaleBits(old(k.bitmap[..]), size), home.value);
    ReadyIsValid(k, entries, StaleBits(old(k.bitmap[..]), size), home.value);
    return Ready(home.value);
  }

  lemma BootIs(entries: seq<MemEntry>, stale: set<nat>, home: Word)
    requires Bounded(entries)
    ensures BootFree(entries, stale, home)
         == (stale + UsablePages(entries)) - Pages(home / PAGE_SIZE, BitmapPages(entries))
    ensures BootCount(entries, stale)
         == Wrap(Wrap(PAGE_SIZE * Missing(UsablePages(entries), stale)) - PAGE_SIZE * BitmapPages(entries))
  {
  }

  lemma ReadyIsValid(k: FrameAllocator, entries: seq<MemEntry>, stale: set<nat>, home: Word)
    requires k.Sane() && Bounded(entries) && Home(entries, BitmapSize(entries)) == Some(home)
    requires k.limit == Limit(entries)
    requires k.Free() == BootFree(entries, stale, home) && k.freeSize == BootCount(entries, stale)
    ensures stale == {} && LimitPages(Limit(entries)) < 8 * k.bitmap.Length ==> k.Valid()
  {
    BootIsValid(entries, home);
    hide BootFree, BootCount, Limit, LimitPages, FreeSet;
  }

  lemma SizeIs(entries: seq<MemEntry>, size: Word, home: Word)
    requires Bounded(entries) && size == Limit(entries) / (PAGE_SIZE * 8)
    requires home / PAGE_SIZE + BitmapPages(entries) <= LimitPages(Limit(entries))
    ensures size == BitmapSize(entries) && NumPages(size) == BitmapPages(entries)
    ensures Visited(home, NumPages(size)) == NumPages(size)
  {
    LimitBound(entries);
    hide Limit, NumPages;
    VisitsAll(home, NumPages(size));
  }

  lemma SizeFits(entries: seq<MemEntry>, length: nat)
    requires LimitPages(Limit(entries)) <= 8 * length
    ensures BitmapSize(entries) <= length
  {
  }

  /** With no stale bit, the count is right and all free pages lie below the limit; with a
      bitmap long enough for one bit more, that is the allocator's invariant. */
  lemma BootIsValid(entries: seq<MemEntry>, home: Word)
    requires Bounded(entries) && Home(entries, BitmapSize(entries)) == Some(home)
    ensures BootCount(entries, {}) == PAGE_SIZE * |BootFree(entries, {}, home)|
    ensures forall p :: p in BootFree(entries, {}, home) ==> p < LimitPages(Limit(entries))
  {
    CountedIffNoStaleBits(entries, {}, home);
    UsableBelowLimit(entries);
  }

  // ---------------------------------------------------------------- where the bitmap lies

  /** The pages that pm_init takes for the bitmap. */
  function BitmapHome(limit: Word, home: Word): set<nat> {
    Pages(home / PAGE_SIZE, NumPages(limit / (PAGE_SIZE * 8)))
  }

  /** They hold the bits of all pages below the limit, and the one after them that a search for a
      run may read. */
  predicate GuardFits(limit: Word, home: Word) {
    home % PAGE_SIZE + LimitPages(limit) / 8 < PAGE_SIZE * NumPages(limit / (PAGE_SIZE * 8))
  }

  /** pm_init rounds the bitmap's size down before it takes the pages. The bits that the
      allocator uses lie in those pages if and only if the limit leaves room for the rest. */
  lemma BitmapProtected(limit: Word, home: Word)
    ensures GuardFits(limit, home)
       <==> forall p: nat :: p <= LimitPages(limit) ==> BytePage(home, p / 8) in BitmapHome(limit, home)
  {
    var n := NumPages(limit / (PAGE_SIZE * 8));
    var o, b := home % PAGE_SIZE, home / PAGE_SIZE;
    hide NumPages, LimitPages;
    forall j: nat
      ensures BytePage(home, j) in BitmapHome(limit, home) <==> o + j < PAGE_SIZE * n
    {
      ByteInRun(home, j, n);
    }
    if GuardFits(limit, home) {
      forall p: nat | p <= LimitPages(limit)
        ensures BytePage(home, p / 8) in BitmapHome(limit, home)
      {
        assert p / 8 <= LimitPages(limit) / 8;
      }
    } else {
      var last := LimitPages(limit);
      assert BytePage(home, last / 8) !in BitmapHome(limit, home);
    }
  }

  lemma ByteInRun(home: Word, j: nat, n: nat)
    ensures BytePage(home, j) in Pages(home / PAGE_SIZE, n) <==> home % PAGE_SIZE + j < PAGE_SIZE * n
  {
    var b, o := home / PAGE_SIZE, home % PAGE_SIZE;
    assert home + j == PAGE_SIZE * b + (o + j);
    assert (home + j) / PAGE_SIZE == b + (o + j) / PAGE_SIZE by {
      DivModUnique(home + j, PAGE_SIZE, b + (o + j) / PAGE_SIZE, (o + j) % PAGE_SIZE);
    }
  }

  /** For a page-aligned bitmap, which is what the boot loader provides: it fails for every limit
      whose bitmap size is a whole number of pages, and for those just below. */
  lemma GuardFails(limit: Word, home: Word)
    requires home % PAGE_SIZE == 0
    ensures !GuardFits(limit, home)
       <==> var size := limit / (PAGE_SIZE * 8);
            size % PAGE_SIZE == 0 || (size % PAGE_SIZE == PAGE_SIZE - 1 && limit % (PAGE_SIZE * 8) > 7 * PAGE_SIZE)
  {
    var size, o := limit / (PAGE_SIZE * 8), limit % (PAGE_SIZE * 8);
    var q, r := size / PAGE_SIZE, size % PAGE_SIZE;
    assert limit == PAGE_SIZE * 8 * size + o;
    BitsBelow(limit, size, o);
    assert size == PAGE_SIZE * q + r;
    SizeInPages(size, q, r);
  }

  lemma BitsBelow(limit: Word, size: nat, o: nat)
    requires limit == PAGE_SIZE * 8 * size + o && o < PAGE_SIZE * 8
    ensures LimitPages(limit) / 8 == if o > 7 * PAGE_SIZE then size + 1 else size
  {
    var k := (o + PAGE_SIZE - 1) / PAGE_SIZE;
    DivModUnique(limit + PAGE_SIZE - 1, PAGE_SIZE, 8 * size + k, (o + PAGE_SIZE - 1) % PAGE_SIZE);
    assert LimitPages(limit) == 8 * size + k && k <= 8;
  }

  lemma SizeInPages(size: Word, q: nat, r: nat)
    requires size == PAGE_SIZE * q + r && r < PAGE_SIZE && size <= TWO64 - PAGE_SIZE
    ensures NumPages(size) == if r == 0 then q else q + 1
  {
    DivModUnique(size + PAGE_SIZE - 1, PAGE_SIZE, if r == 0 then q else q + 1, if r == 0 then PAGE_SIZE - 1 else r - 1);
  }

  /** One usable entry from 1 MiB to just above 128 MiB: the bitmap size is 4096 bytes and one
      page is taken for it, but the bit of page 32768 lies in the page after it. That page is
      free, and the first that pm_get hands out. */
  lemma BitmapOverlapped(n: nat)
    requires 0 < n <= 9
    ensures var entries := [MemEntry(0x10_0000, 0x7F0_1000, Usable)];
      && Bounded(entries) && Limit(entries) == 0x800_1000 && Home(entries, BitmapSize(entries)) == Some(0x10_0000)
      && var free := BootFree(entries, {}, 0x10_0000);
         && (forall p: nat :: p in free <==> 257 <= p <= 32768)
         && BytePage(0x10_0000, 32768 / 8) == 257
         && FirstFit(free, n, 0, Limit(entries)) == Some(PAGE_SIZE * 257)
  {
    var e := MemEntry(0x10_0000, 0x7F0_1000, Usable);
    assert NumPages(0x7F0_1000) == 32513 && NumPages(0x1000) == 1;
    hide Limit, UsablePages, Home, NumPages, BootFree, FirstFit, BitmapPages;
    OneEntry(e);
    FirstAfter(BootFree([e], {}, 0x10_0000), 257, 32769, n, 0x800_1000);
  }

  /** First fit finds the start of the only run. */
  lemma FirstAfter(free: set<nat>, lo: nat, hi: nat, n: nat, limit: nat)
    requires forall p: nat :: p in free <==> lo <= p < hi
    requires 0 < n && lo + n <= hi && PAGE_SIZE * lo < limit
    ensures FirstFit(free, n, 0, limit) == Some(PAGE_SIZE * lo)
  {
    var at := PAGE_SIZE * lo;
    FirstFitExact(free, n, 0, limit);
    forall a: nat | a < at
      ensures !(Pages(a / PAGE_SIZE, n) <= free)
    {
      assert a / PAGE_SIZE in Pages(a / PAGE_SIZE, n);
    }
    hide Pages, FirstFit;
    assert Steps(0, at) && at / PAGE_SIZE == lo;
  }

  /** A memory map of one entry, with room for the bitmap. */
  lemma OneEntry(e: MemEntry)
    requires e.High() && e.End() <= 0x10_0000_0000_0000 && e.length >= e.End() / (PAGE_SIZE * 8)
    ensures Bounded([e]) && Limit([e]) == e.End() && UsablePages([e]) == e.Run()
    ensures BitmapSize([e]) == e.End() / (PAGE_SIZE * 8) && Home([e], BitmapSize([e])) == Some(e.base)
    ensures BitmapPages([e]) == NumPages(e.End() / (PAGE_SIZE * 8))
    ensures BitmapPages([e]) <= NumPages(e.length) ==>
      BootFree([e], {}, e.base) == Pages(e.base / PAGE_SIZE + BitmapPages([e]), NumPages(e.length) - BitmapPages([e]))
  {
    assert [e][..0] == [];
    assert Limit([]) == 0 && UsablePages([]) == {};
    hide NumPages, Pages;
    if BitmapPages([e]) <= NumPages(e.length) {
      FrontTaken(e.base / PAGE_SIZE, NumPages(e.length), BitmapPages([e]));
    }
  }

  lemma FrontTaken(p: nat, n: nat, k: nat)
    requires k <= n
    ensures {} + Pages(p, n) - Pages(p, k) == Pages(p + k, n - k)
  {
  }
}
