/** The physical frame allocator of mmu.c: a bitmap with one bit per 4 KiB page (1 = free),
    a running byte count, and first-fit search, specified by the set of free page numbers. */
module Frames {
  import opened Words
  import opened Wrappers

  // ---------------------------------------------------------------- specification

  /** n consecutive page numbers from p. */
  function Pages(p: nat, n: nat): (s: set<nat>)
    ensures forall q :: q in s <==> p <= q < p + n
  {
    if n == 0 then {} else Pages(p, n - 1) + {p + n - 1}
  }

  lemma {:induction false} PagesSize(p: nat, n: nat)
    ensures |Pages(p, n)| == n
  {
    if n > 0 {
      PagesSize(p, n - 1);
    }
  }

  /** The search of pm_get: try `at`, `at` + 4096, ... below `limit`. */
  function FirstFit(free: set<nat>, n: nat, at: nat, limit: nat): (r: Option<nat>)
    ensures r.Some? ==> at <= r.value < limit
    decreases limit - at
  {
    if at >= limit then None
    else if Pages(at / PAGE_SIZE, n) <= free then Some(at)
    else FirstFit(free, n, at + PAGE_SIZE, limit)
  }

  predicate Steps(at: nat, a: nat) {
    at <= a && (a - at) % PAGE_SIZE == 0
  }

  /** First fit is sound, lowest and complete. */
  lemma {:induction false} FirstFitExact(free: set<nat>, n: nat, at: nat, limit: nat)
    ensures var r := FirstFit(free, n, at, limit);
      && (r.Some? ==> Steps(at, r.value) && r.value < limit && Pages(r.value / PAGE_SIZE, n) <= free)
      && forall a: nat :: Steps(at, a) && a < (if r.Some? then r.value else limit)
                     ==> !(Pages(a / PAGE_SIZE, n) <= free)
    decreases limit - at
  {
    hide Pages;
    if at < limit && !(Pages(at / PAGE_SIZE, n) <= free) {
      FirstFitExact(free, n, at + PAGE_SIZE, limit);
      forall a: nat | Steps(at, a) || Steps(at + PAGE_SIZE, a)
        ensures a == at || Steps(at + PAGE_SIZE, a)
        ensures Steps(at, a)
      {
        StepsOn(at, a);
      }
      hide Steps;
    }
  }

  lemma StepsOn(at: nat, a: nat)
    ensures Steps(at, a) <==> a == at || Steps(at + PAGE_SIZE, a)
  {
  }

  // ---------------------------------------------------------------- the search in 64 bits

  const PAGES_IN_64_BITS: nat := 0x10_0000_0000_0000

  /** Pages the loops of bitmap_set and bitmap_free visit: their bound, address + n * 4096, is
      computed in 64 bits, and if it wraps below the address they visit none. */
  function Visited(address: nat, n: nat): nat {
    var m := n % PAGES_IN_64_BITS;
    if address + m * PAGE_SIZE < TWO64 then m else 0
  }

  lemma VisitsAll(address: nat, n: nat)
    requires address + n * PAGE_SIZE < TWO64
    ensures Visited(address, n) == n
  {
  }

  /** The loop condition of bitmap_set and bitmap_free after k pages. */
  lemma LoopBound(address: Word, n: nat, k: nat)
    requires k <= Visited(address, n)
    ensures address + k * PAGE_SIZE < Wrap(address + n * PAGE_SIZE) <==> k < Visited(address, n)
  {
    var m, q := n % PAGES_IN_64_BITS, n / PAGES_IN_64_BITS;
    assert n * PAGE_SIZE == TWO64 * q + m * PAGE_SIZE;
    if address + m * PAGE_SIZE < TWO64 {
      DivModUnique(address + n * PAGE_SIZE, TWO64, q, address + m * PAGE_SIZE);
    } else {
      DivModUnique(address + n * PAGE_SIZE, TWO64, q + 1, address + m * PAGE_SIZE - TWO64);
    }
  }

  /** What pm_get finds: the first address whose visited pages are all free. */
  function Search(free: set<nat>, n: nat, at: nat, limit: nat): (r: Option<nat>)
    ensures r.Some? ==> at <= r.value < limit
    decreases limit - at
  {
    if at >= limit then None
    else if Pages(at / PAGE_SIZE, Visited(at, n)) <= free then Some(at)
    else Search(free, n, at + PAGE_SIZE, limit)
  }

  /** A run of n pages from below the limit ends at or below 2^64. */
  predicate Unwrapped(n: nat, limit: nat) {
    limit + n * PAGE_SIZE <= TWO64
  }

  lemma {:induction false} SearchIsFirstFit(free: set<nat>, n: nat, at: nat, limit: nat)
    requires Unwrapped(n, limit)
    ensures Search(free, n, at, limit) == FirstFit(free, n, at, limit)
    decreases limit - at
  {
    hide Pages, Visited;
    if at < limit {
      VisitsAll(at, n);
      SearchIsFirstFit(free, n, at + PAGE_SIZE, limit);
    }
  }

  predicate FindsFirst(free: set<nat>, n: nat, at: nat, limit: nat) {
    Search(free, n, at, limit) == FirstFit(free, n, at, limit)
  }

  /** pm_get is first fit for every bitmap and every page-aligned start exactly when the run
      from the last page below the limit does not wrap. Otherwise it hands out a run it has not
      tested. */
  lemma SearchExact(n: nat, limit: nat)
    requires n > 0 && limit > 0
    ensures (forall free: set<nat>, at: nat :: at % PAGE_SIZE == 0 ==> FindsFirst(free, n, at, limit))
       <==> (limit - 1) / PAGE_SIZE * PAGE_SIZE + n * PAGE_SIZE < TWO64
  {
    var last := (limit - 1) / PAGE_SIZE;
    if last * PAGE_SIZE + n * PAGE_SIZE < TWO64 {
      forall free: set<nat>, at: nat | at % PAGE_SIZE == 0
        ensures FindsFirst(free, n, at, limit)
      {
        AlignedSearch(free, n, at, limit);
      }
    } else {
      var at, v := last * PAGE_SIZE, Visited(last * PAGE_SIZE, n);
      assert v < n;
      var free := Pages(last, v);
      assert last + v in Pages(last, n) && last + v !in free;
      assert at < limit <= at + PAGE_SIZE && at / PAGE_SIZE == last && at % PAGE_SIZE == 0;
      assert Search(free, n, at, limit) == Some(at) && FirstFit(free, n, at, limit) != Some(at);
      assert !FindsFirst(free, n, at, limit);
    }
  }

  lemma {:induction false} AlignedSearch(free: set<nat>, n: nat, at: nat, limit: nat)
    requires limit > 0 && (limit - 1) / PAGE_SIZE * PAGE_SIZE + n * PAGE_SIZE < TWO64
    requires at % PAGE_SIZE == 0
    ensures Search(free, n, at, limit) == FirstFit(free, n, at, limit)
    decreases limit - at
  {
    hide Pages, Visited;
    if at < limit {
      assert at <= (limit - 1) / PAGE_SIZE * PAGE_SIZE;
      VisitsAll(at, n);
      AlignedSearch(free, n, at + PAGE_SIZE, limit);
    }
  }

  // ---------------------------------------------------------------- the limit

  /** Pages needed to reach `limit` bytes. */
  function LimitPages(limit: nat): nat {
    (limit + PAGE_SIZE - 1) / PAGE_SIZE
  }

  /** The run found, if any, ends below the limit. */
  predicate EndsBelowLimit(free: set<nat>, n: nat, at: nat, limit: nat) {
    var r := FirstFit(free, n, at, limit);
    r.Some? ==> r.value / PAGE_SIZE + n <= LimitPages(limit)
  }

  /** pm_get only bounds where a run starts. Whether every run it may return also ends below
      the limit depends on two bits: the last page and the one after it. */
  lemma RunsStayBelowLimit(free: set<nat>, limit: nat)
    requires limit > 0
    ensures (forall n: nat, at: nat :: at % PAGE_SIZE == 0 ==> EndsBelowLimit(free, n, at, limit))
       <==> !(LimitPages(limit) - 1 in free && LimitPages(limit) in free)
  {
    var last := LimitPages(limit) - 1;
    if last in free && last + 1 in free {
      var at := last * PAGE_SIZE;
      assert at / PAGE_SIZE == last && at < limit;
      assert Pages(last, 2) == {last, last + 1};
      assert FirstFit(free, 2, at, limit) == Some(at);
      assert at % PAGE_SIZE == 0 && !EndsBelowLimit(free, 2, at, limit);
    } else {
      forall n: nat, at: nat | at % PAGE_SIZE == 0 && FirstFit(free, n, at, limit).Some?
        ensures EndsBelowLimit(free, n, at, limit)
      {
        FirstFitExact(free, n, at, limit);
        var p := FirstFit(free, n, at, limit).value / PAGE_SIZE;
        assert p <= last;
        if p + n > last + 1 {
          StraddleHas(free, p, n, last);
        }
      }
    }
  }

  lemma StraddleHas(free: set<nat>, p: nat, n: nat, last: nat)
    requires Pages(p, n) <= free && p <= last && last + 1 < p + n
    ensures last in free && last + 1 in free
  {
    assert last in Pages(p, n) && last + 1 in Pages(p, n);
  }

  // ---------------------------------------------------------------- bitmap

  predicate Bit(b: bv8, k: nat)
    requires k < 8
  {
    b & ((1 as bv8) << k) != 0
  }

  function WithBit(b: bv8, k: nat): bv8
    requires k < 8
  {
    b | ((1 as bv8) << k)
  }

  function WithoutBit(b: bv8, k: nat): bv8
    requires k < 8
  {
    b & !((1 as bv8) << k)
  }

  /** Bit of page p in a bitmap. */
  predicate PageFree(bitmap: seq<bv8>, p: nat)
    requires p < 8 * |bitmap|
  {
    Bit(bitmap[p / 8], p % 8)
  }

  /** Bit k of a byte counts from its lowest, and a set bit is a free page. */
  lemma PageFreeIsBit(bitmap: seq<bv8>, p: nat)
    requires p < 8 * |bitmap|
    ensures PageFree(bitmap, p)
       <==> bitmap[p / 8] & [0x01, 0x02, 0x04, 0x08, 0x10, 0x20, 0x40, 0x80][p % 8] != 0
  {
    BitIsMask(bitmap[p / 8], p % 8);
  }

  lemma BitIsMask(b: bv8, k: nat)
    requires k < 8
    ensures Bit(b, k) <==> b & [0x01, 0x02, 0x04, 0x08, 0x10, 0x20, 0x40, 0x80][k] != 0
  {
    match k
    case 0 => assert (1 as bv8) << 0 == 0x01;
    case 1 => assert (1 as bv8) << 1 == 0x02;
    case 2 => assert (1 as bv8) << 2 == 0x04;
    case 3 => assert (1 as bv8) << 3 == 0x08;
    case 4 => assert (1 as bv8) << 4 == 0x10;
    case 5 => assert (1 as bv8) << 5 == 0x20;
    case 6 => assert (1 as bv8) << 6 == 0x40;
    case _ => assert (1 as bv8) << 7 == 0x80;
  }

  /** The set the bitmap stands for. */
  ghost function FreeSet(bitmap: seq<bv8>): set<nat> {
    set p: nat | p < 8 * |bitmap| && PageFree(bitmap, p)
  }

  lemma BitAfterSet(b: bv8, k: nat, j: nat)
    requires k < 8 && j < 8
    ensures Bit(WithBit(b, k), j) <==> j == k || Bit(b, j)
  {
  }

  lemma BitAfterClear(b: bv8, k: nat, j: nat)
    requires k < 8 && j < 8
    ensures Bit(WithoutBit(b, k), j) <==> j != k && Bit(b, j)
  {
  }

  lemma FreeSetAfterSet(bitmap: seq<bv8>, after: seq<bv8>, p: nat)
    requires p < 8 * |bitmap|
    requires after == bitmap[p / 8 := WithBit(bitmap[p / 8], p % 8)]
    ensures FreeSet(after) == FreeSet(bitmap) + {p}
  {
    hide Bit, WithBit, WithoutBit;
    forall q: nat | q < 8 * |bitmap|
      ensures PageFree(after, q) <==> q == p || PageFree(bitmap, q)
    {
      BitAfterSet(bitmap[p / 8], p % 8, q % 8);
    }
  }

  lemma FreeSetAfterClear(bitmap: seq<bv8>, after: seq<bv8>, p: nat)
    requires p < 8 * |bitmap|
    requires after == bitmap[p / 8 := WithoutBit(bitmap[p / 8], p % 8)]
    ensures FreeSet(after) == FreeSet(bitmap) - {p}
  {
    hide Bit, WithBit, WithoutBit;
    forall q: nat | q < 8 * |bitmap|
      ensures PageFree(after, q) <==> q != p && PageFree(bitmap, q)
    {
      BitAfterClear(bitmap[p / 8], p % 8, q % 8);
    }
  }

  /** Byte and bit position of an address, as the C code computes them. */
  lemma Position(i: nat, address: nat, k: nat)
    requires i == address + k * PAGE_SIZE
    ensures i / PAGE_SIZE == address / PAGE_SIZE + k
    ensures i / (PAGE_SIZE * 8) == (address / PAGE_SIZE + k) / 8
  {
    var p, o := address / PAGE_SIZE + k, address % PAGE_SIZE;
    assert i == PAGE_SIZE * p + o;
    DivModUnique(i, PAGE_SIZE, p, o);
    DivModUnique(i, PAGE_SIZE * 8, p / 8, PAGE_SIZE * (p % 8) + o);
  }

  // ---------------------------------------------------------------- the allocator

  /** Bytes of bitmap for 2^56 bytes of memory, sixteen times what the processor can address. */
  const MAX_BITMAP: nat := 0x200_0000_0000

  /** Physical memory beyond this, 2^60 bytes, could make a request for a vector wrap. */
  const MAX_LIMIT: nat := 0x1000_0000_0000_0000

  /** The page that holds byte j of a bitmap at physical address home. */
  function BytePage(home: Word, j: nat): nat {
    (home + j) / PAGE_SIZE
  }

  /** kmem. The bitmap array is the memory seen from `kmem.bitmap` on, so it may be longer
      than the bytes pm_init clears. Boot.GuardFits tells when the pages that pm_init takes for
      the bitmap hold an array long enough for Valid. */
  class FrameAllocator {
    const bitmap: array<bv8>
    var freeSize: Word
    var totalSize: Word
    var limit: Word

    constructor (raw: array<bv8>)
      ensures bitmap == raw && freeSize == totalSize == limit == 0
    {
      bitmap, freeSize, totalSize, limit := raw, 0, 0, 0;
    }

    ghost predicate Sane()
      reads this
    {
      bitmap.Length <= MAX_BITMAP
    }

    ghost function Free(): set<nat>
      reads bitmap
    {
      FreeSet(bitmap[..])
    }

    /** The running count agrees with the bitmap. */
    ghost predicate Counted()
      reads this, bitmap
    {
      freeSize == PAGE_SIZE * |Free()|
    }

    /** The state between calls once pm_init is done: counted, and no bit at or above the
        limit is set, at least one of those bits being part of the bitmap. */
    ghost predicate Valid()
      reads this, bitmap
    {
      && Sane()
      && Counted()
      && LimitPages(limit) < 8 * bitmap.Length
      && (forall p :: p in Free() ==> p < LimitPages(limit))
    }

    /** The bitmap's own size keeps runs of up to nine pages from wrapping. */
    lemma SmallRunsFit(n: nat)
      requires Valid() && n <= 9
      ensures Unwrapped(n, limit)
    {
    }

    lemma LimitFits()
      requires Valid()
      ensures limit <= MAX_LIMIT / 16
    {
    }

    /** kmem.bitmap[i / 32768] |= 1 << ((i / 4096) % 8). */
    method SetPage(i: nat)
      requires i / PAGE_SIZE < 8 * bitmap.Length
      modifies bitmap
      ensures Free() == old(Free()) + {i / PAGE_SIZE}
    {
      hide FreeSet, WithBit;
      Position(i, i, 0);
      bitmap[i / (PAGE_SIZE * 8)] := WithBit(bitmap[i / (PAGE_SIZE * 8)], i / PAGE_SIZE % 8);
      FreeSetAfterSet(old(bitmap[..]), bitmap[..], i / PAGE_SIZE);
    }

    /** kmem.bitmap[i / 32768] &= ~(1 << ((i / 4096) % 8)). */
    method ClearPage(i: nat)
      requires i / PAGE_SIZE < 8 * bitmap.Length
      modifies bitmap
      ensures Free() == old(Free()) - {i / PAGE_SIZE}
    {
      hide FreeSet, WithoutBit;
      Position(i, i, 0);
      bitmap[i / (PAGE_SIZE * 8)] := WithoutBit(bitmap[i / (PAGE_SIZE * 8)], i / PAGE_SIZE % 8);
      FreeSetAfterClear(old(bitmap[..]), bitmap[..], i / PAGE_SIZE);
    }

    /** kmem.bitmap[i / 32768] & (1 << ((i / 4096) % 8)). */
    method TestPage(i: nat) returns (free: bool)
      requires i / PAGE_SIZE < 8 * bitmap.Length
      ensures free <==> i / PAGE_SIZE in Free()
    {
      Position(i, i, 0);
      free := Bit(bitmap[i / (PAGE_SIZE * 8)], i / PAGE_SIZE % 8);
      assert free == PageFree(bitmap[..], i / PAGE_SIZE);
    }

    /** bitmap_set: mark the visited pages used. */
    method BitmapSet(address: Word, numPages: nat)
      requires Sane()
      requires address / PAGE_SIZE + Visited(address, numPages) <= 8 * bitmap.Length
      modifies bitmap
      ensures Free() == old(Free()) - Pages(address / PAGE_SIZE, Visited(address, numPages))
    {
      hide Free, FreeSet, Pages, Visited, Wrap;
      var i: nat := address;
      ghost var p, n := address / PAGE_SIZE, Visited(address, numPages);
      ghost var k := 0;
      LoopBound(address, numPages, 0);
      NoPages({}, p);
      while i < Wrap(address + numPages * PAGE_SIZE)
        invariant k <= n && i == address + k * PAGE_SIZE
        invariant i < Wrap(address + numPages * PAGE_SIZE) <==> k < n
        invariant Free() == old(Free()) - Pages(p, k)
        decreases n - k
      {
        Position(i, address, k);
        LoopBound(address, numPages, k + 1);
        NewPage({}, p, k);
        ClearPage(i);
        i := i + PAGE_SIZE;
        k := k + 1;
      }
    }

    /** bitmap_free: test whether the visited pages are free. The scan stops at the first used
        page, so it stays inside the bitmap if the run does or if it must meet a used page. */
    method BitmapFree(address: Word, numPages: nat) returns (allFree: bool)
      requires Sane()
      requires || address / PAGE_SIZE + Visited(address, numPages) <= 8 * bitmap.Length
               || exists q :: address / PAGE_SIZE <= q < 8 * bitmap.Length && q !in Free()
      ensures allFree <==> Pages(address / PAGE_SIZE, Visited(address, numPages)) <= Free()
    {
      hide Free, FreeSet, Visited, Wrap;
      var i: nat := address;
      ghost var p, n := address / PAGE_SIZE, Visited(address, numPages);
      ghost var k := 0;
      LoopBound(address, numPages, 0);
      while i < Wrap(address + numPages * PAGE_SIZE)
        invariant k <= n && i == address + k * PAGE_SIZE
        invariant i < Wrap(address + numPages * PAGE_SIZE) <==> k < n
        invariant Pages(p, k) <= Free()
        decreases n - k
      {
        Position(i, address, k);
        LoopBound(address, numPages, k + 1);
        if p + n > 8 * bitmap.Length {
          ghost var q :| p <= q < 8 * bitmap.Length && q !in Free();
          assert q !in Pages(p, k);
        }
        var free := TestPage(i);
        if !free {
          assert p + k in Pages(p, n);
          return false;
        }
        i := i + PAGE_SIZE;
        k := k + 1;
      }
      return true;
    }

    lemma InsideBitmap()
      ensures forall p :: p in Free() ==> p < 8 * bitmap.Length
    {
      InBitmap(bitmap[..]);
    }

    /** One turn of pm_free's loop: a page that was not free is counted, and then set free. */
    method FreePage(i: nat) returns (wasFree: bool)
      requires Sane() && i / PAGE_SIZE < 8 * bitmap.Length
      modifies this`freeSize, bitmap
      ensures wasFree <==> i / PAGE_SIZE in old(Free())
      ensures Free() == old(Free()) + {i / PAGE_SIZE}
      ensures freeSize == if wasFree then old(freeSize) else Wrap(old(freeSize) + PAGE_SIZE)
    {
      hide Free, FreeSet, Wrap, Visited;
      VisitsAll(i, 1);
      OnePage(i / PAGE_SIZE);
      wasFree := BitmapFree(i, 1);
      if !wasFree {
        freeSize := Wrap(freeSize + PAGE_SIZE);
      }
      SetPage(i);
    }

    /** pm_free: mark pages free, count the ones that were not, report any double free. */
    method PmFree(address: nat, numPages: nat) returns (ok: bool)
      requires Sane()
      requires address / PAGE_SIZE + numPages <= 8 * bitmap.Length
      modifies this`freeSize, bitmap
      ensures Free() == old(Free()) + Pages(address / PAGE_SIZE, numPages)
      ensures ok <==> Pages(address / PAGE_SIZE, numPages) !! old(Free())
      ensures freeSize == Wrap(old(freeSize) + PAGE_SIZE * Missing(Pages(address / PAGE_SIZE, numPages), old(Free())))
      ensures old(Counted()) ==> Counted()
    {
      hide Free, FreeSet, Wrap, Missing, Pages, Visited;
      ok := true;
      var i := address;
      ghost var p := address / PAGE_SIZE;
      ghost var k := 0;
      ghost var before := Free();
      NoPages(before, p);
      CountStep(freeSize, 0);
      while i < address + numPages * PAGE_SIZE
        invariant k <= numPages && i == address + k * PAGE_SIZE
        invariant Free() == before + Pages(p, k)
        invariant ok <==> Pages(p, k) !! before
        invariant freeSize == Wrap(old(freeSize) + PAGE_SIZE * Missing(Pages(p, k), before))
        decreases numPages - k
      {
        Position(i, address, k);
        FreeStep(before, p, k, old(freeSize));
        var wasFree := FreePage(i);
        if wasFree {
          ok := false;
        }
        i := i + PAGE_SIZE;
        k := k + 1;
      }
      if old(Counted()) {
        InsideBitmap();
        FreeKeepsCount(before, p, numPages, 8 * bitmap.Length, old(freeSize));
      }
    }

    /** pm_allocate: claim a run if all visited pages are free, otherwise change nothing. */
    method PmAllocate(address: Word, numPages: nat) returns (ok: bool)
      requires Sane()
      requires || address / PAGE_SIZE + Visited(address, numPages) <= 8 * bitmap.Length
               || exists q :: address / PAGE_SIZE <= q < 8 * bitmap.Length && q !in Free()
      modifies this`freeSize, bitmap
      ensures ok <==> Pages(address / PAGE_SIZE, Visited(address, numPages)) <= old(Free())
      ensures ok ==> Free() == old(Free()) - Pages(address / PAGE_SIZE, Visited(address, numPages))
      ensures ok ==> freeSize == Wrap(old(freeSize) - PAGE_SIZE * numPages)
      ensures !ok ==> bitmap[..] == old(bitmap[..]) && freeSize == old(freeSize)
      ensures old(Counted()) && Visited(address, numPages) == numPages ==> Counted()
    {
      hide FreeSet, PageFree, Pages, Visited, Wrap;
      var free := BitmapFree(address, numPages);
      if !free {
        return false;
      }
      ghost var n := Visited(address, numPages);
      RunInBitmap(bitmap[..], address / PAGE_SIZE, n);
      BitmapSet(address, numPages);
      freeSize := Wrap(freeSize - numPages * PAGE_SIZE);
      PagesSize(address / PAGE_SIZE, n);
      hide Free;
      if old(Counted()) && n == numPages {
        CountTaken(old(Free()), Pages(address / PAGE_SIZE, n), old(freeSize));
      }
      return true;
    }

    /** pm_get: first fit from `address`; None stands for the halt when no run is found. */
    method PmGet(numPages: nat, address: Word) returns (r: Option<nat>)
      requires Valid()
      modifies this`freeSize, bitmap
      ensures r == Search(old(Free()), numPages, address, limit)
      ensures r.Some? ==> Free() == old(Free()) - Pages(r.value / PAGE_SIZE, Visited(r.value, numPages))
      ensures r.Some? ==> freeSize == Wrap(old(freeSize) - PAGE_SIZE * numPages)
      ensures r.None? ==> Free() == old(Free()) && freeSize == old(freeSize)
      ensures Unwrapped(numPages, limit) ==>
        && Valid() && r == FirstFit(old(Free()), numPages, address, limit)
        && (r.Some? ==> Free() == old(Free()) - Pages(r.value / PAGE_SIZE, numPages))
    {
      hide FreeSet, PageFree, Pages, Visited;
      if Unwrapped(numPages, limit) {
        SearchIsFirstFit(Free(), numPages, address, limit);
      }
      var i: nat := address;
      while i < limit
        invariant Valid() && Free() == old(Free()) && freeSize == old(freeSize)
        invariant Search(old(Free()), numPages, address, limit) == Search(old(Free()), numPages, i, limit)
      {
        assert i / PAGE_SIZE <= LimitPages(limit) && LimitPages(limit) !in Free();
        if Unwrapped(numPages, limit) {
          VisitsAll(i, numPages);
        }
        var ok := PmAllocate(i, numPages);
        if ok {
          return Some(i);
        }
        i := i + PAGE_SIZE;
      }
      return None;
    }
  }

  lemma RunInBitmap(bitmap: seq<bv8>, p: nat, n: nat)
    requires Pages(p, n) <= FreeSet(bitmap)
    ensures n > 0 ==> p + n <= 8 * |bitmap|
  {
    if n > 0 {
      assert p + n - 1 in Pages(p, n);
    }
  }

  lemma OnePage(p: nat)
    ensures Pages(p, 1) == {p}
  {
    assert Pages(p, 0) == {};
  }

  /** How many of these pages are not free yet. */
  function Missing(pages: set<nat>, free: set<nat>): nat {
    |pages - free|
  }

  lemma NoPages(before: set<nat>, p: nat)
    ensures Pages(p, 0) == {} && Missing(Pages(p, 0), before) == 0
  {
    assert Pages(p, 0) - before == {};
  }

  lemma CountStep(start: Word, n: nat)
    ensures Wrap(start + PAGE_SIZE * 0) == start
    ensures Wrap(Wrap(start + PAGE_SIZE * n) + PAGE_SIZE) == Wrap(start + PAGE_SIZE * (n + 1))
  {
  }

  /** Page p + k was free before, and then the number of new pages stays; or it is new. */
  lemma NewPage(before: set<nat>, p: nat, k: nat)
    ensures Pages(p, k + 1) == Pages(p, k) + {p + k}
    ensures Pages(p, k + 1) !! before <==> Pages(p, k) !! before && p + k !in before
    ensures Missing(Pages(p, k + 1), before) == Missing(Pages(p, k), before) + (if p + k in before then 0 else 1)
  {
    if p + k in before {
      assert Pages(p, k + 1) - before == Pages(p, k) - before;
    } else {
      assert Pages(p, k + 1) - before == (Pages(p, k) - before) + {p + k};
    }
  }

  lemma InBitmap(bitmap: seq<bv8>)
    ensures forall p :: p in FreeSet(bitmap) ==> p < 8 * |bitmap|
  {
  }

  lemma CountAfterFree(before: set<nat>, run: set<nat>, bound: nat)
    requires forall p :: p in before || p in run ==> p < bound
    requires bound <= 8 * MAX_BITMAP
    ensures Wrap(PAGE_SIZE * |before| + PAGE_SIZE * |run - before|) == PAGE_SIZE * |before + run|
  {
    assert before + run == before + (run - before);
    BelowBound(before + run, bound);
    NoWrap(|before|, |run - before|);
  }

  lemma NoWrap(m: nat, n: nat)
    requires m + n <= 8 * MAX_BITMAP
    ensures Wrap(PAGE_SIZE * m + PAGE_SIZE * n) == PAGE_SIZE * (m + n)
  {
  }

  lemma BelowBound(s: set<nat>, bound: nat)
    requires forall p :: p in s ==> p < bound
    ensures |s| <= bound
  {
    PagesSize(0, bound);
    assert s <= Pages(0, bound);
    SubsetSize(s, Pages(0, bound));
  }

  /** One page freed: the set, the double-free test and the count. */
  lemma FreeStep(before: set<nat>, p: nat, k: nat, start: Word)
    ensures before + Pages(p, k + 1) == before + Pages(p, k) + {p + k}
    ensures Pages(p + k, 1) <= before + Pages(p, k) <==> p + k in before
    ensures Pages(p, k + 1) !! before <==> Pages(p, k) !! before && p + k !in before
    ensures var w := Wrap(start + PAGE_SIZE * Missing(Pages(p, k), before));
      Wrap(start + PAGE_SIZE * Missing(Pages(p, k + 1), before)) == if p + k in before then w else Wrap(w + PAGE_SIZE)
  {
    NewPage(before, p, k);
    CountStep(start, Missing(Pages(p, k), before));
    OnePage(p + k);
    assert p + k !in Pages(p, k);
    hide Wrap, Pages, Missing;
  }

  lemma FreeKeepsCount(before: set<nat>, p: nat, n: nat, bound: nat, count: Word)
    requires bound <= 8 * MAX_BITMAP && forall q :: q in before + Pages(p, n) ==> q < bound
    requires count == PAGE_SIZE * |before|
    ensures Wrap(count + PAGE_SIZE * Missing(Pages(p, n), before)) == PAGE_SIZE * |before + Pages(p, n)|
  {
    var run := Pages(p, n);
    hide Wrap, Pages;
    forall q | q in before || q in run
      ensures q < bound
    {
      assert q in before + run;
    }
    CountAfterFree(before, run, bound);
  }

  lemma CountAfterAllocate(before: set<nat>, run: set<nat>)
    requires run <= before
    ensures |before - run| + |run| == |before|
  {
    assert before == (before - run) + run;
  }

  lemma CountTaken(free: set<nat>, taken: set<nat>, count: Word)
    requires taken <= free && count == PAGE_SIZE * |free|
    ensures Wrap(count - PAGE_SIZE * |taken|) == PAGE_SIZE * |free - taken|
  {
    CountAfterAllocate(free, taken);
  }

  lemma SubsetSize(a: set<nat>, b: set<nat>)
    requires a <= b
    ensures |a| <= |b|
  {
    assert b == a + (b - a);
  }
}
