/** The backing store of a vector as the page accounting sees it: a kmalloc block that grows by
    krealloc when an append exceeds its capacity, and the overlong copy of an erase. */
module Growth {
  import opened Words
  import opened Wrappers
  import opened Division
  import opened Frames

  const RESIZE: nat := 4

  /** Header page of the data block and capacity in bytes; no block while the capacity is 0. */
  datatype Vec = Vec(base: nat, cap: nat)

  const NO_VEC: Vec := Vec(0, 0)

  /** Pages for `size` bytes, where the addition of NUM_PAGES does not wrap. */
  function SizePages(size: nat): nat {
    (size + PAGE_SIZE - 1) / PAGE_SIZE
  }

  lemma SizePagesAre(size: Word)
    requires size <= TWO64 - PAGE_SIZE
    ensures SizePages(size) == NumPages(size)
  {
  }

  /** Pages of a data block of capacity cap, header page included. */
  function BlockSize(cap: nat): nat {
    if cap == 0 then 0 else SizePages(cap) + 1
  }

  function VecPages(vec: Vec): set<nat> {
    Pages(vec.base, BlockSize(vec.cap))
  }

  // ---------------------------------------------------------------- append

  /** Capacity after an append that makes `len` elements of z bytes. */
  function NextCap(cap: nat, len: nat, z: nat): nat {
    if cap < len * z then len * z * RESIZE else cap
  }

  /** Pages that append asks of pm_get: none if it fits, or if krealloc stays in place. */
  function GrowNeed(cap: nat, len: nat, z: nat): nat {
    var next := NextCap(cap, len, z);
    if BlockSize(next) == BlockSize(cap) then 0 else BlockSize(next)
  }

  /** The growth step of vector_append: kmalloc, or krealloc in place, or kmalloc and then kfree
      of the old block. */
  function Grow(free: set<nat>, limit: nat, vec: Vec, len: nat, z: nat): Outcome<(set<nat>, Vec)> {
    var n, cap := GrowNeed(vec.cap, len, z), NextCap(vec.cap, len, z);
    if n == 0 then Done((free, Vec(vec.base, cap)))
    else
      match FirstFit(free, n, 0, limit)
      case None => Halt
      case Some(a) => Done((free - Pages(a / PAGE_SIZE, n) + VecPages(vec), Vec(a / PAGE_SIZE, cap)))
  }

  /** A growth that asks for no pages keeps the block's pages; otherwise the new block is the
      run asked for. */
  lemma GrowPages(free: set<nat>, limit: nat, vec: Vec, len: nat, z: nat)
    requires Grow(free, limit, vec, len, z).Done?
    ensures var (free', vec') := Grow(free, limit, vec, len, z).value;
      var n := GrowNeed(vec.cap, len, z);
      if n == 0 then free' == free && VecPages(vec') == VecPages(vec)
      else
        var r := FirstFit(free, n, 0, limit);
        r.Some? && VecPages(vec') == Pages(r.value / PAGE_SIZE, n) && free' == free - VecPages(vec') + VecPages(vec)
  {
    hide FirstFit, Pages, SizePages;
  }

  /** The append needs a new block and finds no run for it. */
  predicate GrowHalts(free: set<nat>, limit: nat, cap: nat, len: nat, z: nat) {
    var n := GrowNeed(cap, len, z);
    n > 0 && FirstFit(free, n, 0, limit).None?
  }

  lemma GrowOrHalt(free: set<nat>, limit: nat, vec: Vec, len: nat, z: nat)
    ensures Grow(free, limit, vec, len, z) == Halt <==> GrowHalts(free, limit, vec.cap, len, z)
    ensures !Grow(free, limit, vec, len, z).Fault?
  {
    hide FirstFit, GrowNeed, Pages;
  }

  /** After the append the elements fit, and the capacity is the expected one. */
  lemma GrowFits(free: set<nat>, limit: nat, vec: Vec, len: nat, z: nat)
    requires Grow(free, limit, vec, len, z).Done?
    ensures Grow(free, limit, vec, len, z).value.1.cap == NextCap(vec.cap, len, z)
    ensures len * z <= NextCap(vec.cap, len, z)
  {
    var need := len * z;
    assert need <= need * RESIZE;
  }

  /** Capacity never shrinks, and neither does the block. */
  lemma LargerBlock(cap: nat, more: nat)
    requires cap <= more
    ensures BlockSize(cap) <= BlockSize(more)
  {
  }

  lemma NextCapGrows(cap: nat, len: nat, z: nat)
    ensures cap <= NextCap(cap, len, z)
  {
    var need := len * z;
    assert need <= need * RESIZE;
  }

  lemma BlockCount(vec: Vec)
    ensures |VecPages(vec)| == BlockSize(vec.cap)
  {
    PagesSize(vec.base, BlockSize(vec.cap));
  }

  /** Capacity after k appends to `len` elements. */
  function CapAfter(cap: nat, len: nat, k: nat, z: nat): nat {
    if k == 0 then cap else NextCap(CapAfter(cap, len, k - 1, z), len + k, z)
  }

  /** Pages those appends ask of pm_get altogether. */
  function ListNeed(cap: nat, len: nat, k: nat, z: nat): nat {
    if k == 0 then 0
    else ListNeed(cap, len, k - 1, z) + GrowNeed(CapAfter(cap, len, k - 1, z), len + k, z)
  }

  /** Appending j and then k elements is appending j + k. */
  lemma {:induction false} AppendsAdd(cap: nat, len: nat, j: nat, k: nat, z: nat)
    ensures var mid := CapAfter(cap, len, j, z);
      && CapAfter(cap, len, j + k, z) == CapAfter(mid, len + j, k, z)
      && ListNeed(cap, len, j + k, z) == ListNeed(cap, len, j, z) + ListNeed(mid, len + j, k, z)
  {
    hide NextCap, GrowNeed;
    if k > 0 {
      AppendsAdd(cap, len, j, k - 1, z);
    }
  }

  // ---------------------------------------------------------------- erase

  /** vector_erase of element i of n, z bytes each, writes no further than the block's pages and
      reads no further than physical memory. */
  predicate EraseSafe(limit: nat, vec: Vec, z: nat, n: nat, i: nat) {
    && z * n + (z - 1) * i <= PAGE_SIZE * SizePages(vec.cap) + 1
    && PAGE_SIZE * (vec.base + 1) + z * n + (z - 1) * (i + 1) <= PAGE_SIZE * LimitPages(limit)
  }

  /** Enough spare room for every erase of a list of n elements, whatever its position. */
  predicate Roomy(vec: Vec, z: nat, n: nat) {
    (2 * z - 1) * n <= PAGE_SIZE * SizePages(vec.cap)
  }

  lemma RoomyIsSafe(limit: nat, vec: Vec, z: nat, n: nat, i: nat)
    requires z > 0 && i < n && Roomy(vec, z, n) && vec.cap > 0
    requires forall p :: p in VecPages(vec) ==> p < LimitPages(limit)
    ensures EraseSafe(limit, vec, z, n, i)
  {
    var last := vec.base + SizePages(vec.cap);
    assert last in VecPages(vec);
    assert (2 * z - 1) * n == z * n + (z - 1) * n;
    MulGrows(z - 1, i + 1, n);
    assert (z - 1) * i <= (z - 1) * (i + 1);
  }

  /** A memory list of up to 273 tables, and a log of up to 65 records, can always be erased
      from. */
  lemma ShortListsRoomy(vec: Vec, n: nat)
    ensures n <= 273 && 8 * n <= vec.cap ==> Roomy(vec, 8, n)
    ensures n <= 65 && 32 * n <= vec.cap ==> Roomy(vec, 32, n)
  {
    assert vec.cap > 0 ==> SizePages(vec.cap) >= 1;
  }

  /** A memory list of 274 to 340 tables, grown from empty, cannot be erased from at its end. */
  lemma LongListUnsafe(limit: nat, base: nat, n: nat)
    requires 274 <= n <= 340
    ensures CapAfter(0, 0, n, 8) == 2720
    ensures !EraseSafe(limit, Vec(base, 2720), 8, n, n - 1)
  {
    FirstCaps(n);
    assert SizePages(2720) == 1;
    hide CapAfter, LimitPages, SizePages;
  }

  /** The capacities of a memory list grown from empty: up to 340 tables, its first block of two
      pages is enough. */
  lemma {:induction false} FirstCaps(n: nat)
    requires 1 <= n <= 340
    ensures CapAfter(0, 0, n, 8) == if n < 5 then 32 else if n < 21 then 160 else if n < 85 then 672 else 2720
    ensures ListNeed(0, 0, n, 8) == 2
  {
    if n > 1 {
      FirstCaps(n - 1);
    } else {
      assert CapAfter(0, 0, 0, 8) == 0 && ListNeed(0, 0, 0, 8) == 0;
    }
  }
}
