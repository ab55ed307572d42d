/** Physical memory as one byte array behind the direct map, with the live table buffers and
    kmalloc blocks it holds: the loads, stores and allocations that mmu.c and kmalloc.c are
    made of, each tied to the abstract store. */
module Machine {
  import opened Words
  import opened Wrappers
  import opened Bytes
  import opened Frames
  import opened Growth
  import opened Tables
  import opened TableSteps
  import opened Systems

  // ---------------------------------------------------------------- layout

  const TABLE_BYTES: nat := 32768

  ghost predicate TableRep(m: seq<Byte>, a: nat, t: Table) {
    a + TABLE_BYTES <= |m| && forall i :: 0 <= i < TABLE_WORDS ==> WordAt(m, a + 8 * i) == t[i]
  }

  /** The header words of a block: KMEM_METADATA's magic, num_pages and size. */
  ghost predicate HeaderRep(m: seq<Byte>, base: nat, size: Word)
    requires base + PAGE_SIZE <= |m|
  {
    && WordAt(m, base) == KMEM_MAGIC_NUMBER
    && WordAt(m, base + 16) == NumPages(size)
    && WordAt(m, base + 24) == size
  }

  ghost predicate BlockRep(m: seq<Byte>, b: nat, blk: Block) {
    && PAGE_SIZE * (b + blk.Length()) <= |m|
    && (blk.Data? ==>
          && blk.Sized()
          && HeaderRep(m, PAGE_SIZE * b, blk.size)
          && PAGE_SIZE * (b + 1) + |blk.payload| <= |m|
          && m[PAGE_SIZE * (b + 1)..PAGE_SIZE * (b + 1) + |blk.payload|] == blk.payload)
  }

  /** Memory holds all live tables and blocks. */
  ghost predicate Rep(m: seq<Byte>, tables: map<nat, Table>, blocks: map<nat, Block>) {
    && (forall a :: a in tables ==> TableRep(m, a, tables[a]))
    && (forall b :: b in blocks ==> BlockRep(m, b, blocks[b]))
  }

  /** m and r differ at most on pages p to p + n - 1. */
  ghost predicate AgreeOutside(m: seq<Byte>, r: seq<Byte>, p: nat, n: nat) {
    |m| == |r| && forall x :: 0 <= x < |m| && !(p <= x / PAGE_SIZE < p + n) ==> m[x] == r[x]
  }

  lemma AgreeTrans(m: seq<Byte>, r: seq<Byte>, t: seq<Byte>, p: nat, n: nat)
    requires AgreeOutside(m, r, p, n) && AgreeOutside(r, t, p, n)
    ensures AgreeOutside(m, t, p, n)
  {
  }

  /** Writing inside the pages of a run changes nothing outside them. */
  lemma PutAgrees(m: seq<Byte>, a: nat, s: seq<Byte>, p: nat, n: nat)
    requires PAGE_SIZE * p <= a && a + |s| <= PAGE_SIZE * (p + n) && a + |s| <= |m|
    ensures AgreeOutside(m, Put(m, a, s), p, n)
  {
    var r := Put(m, a, s);
    forall x | 0 <= x < |m| && !(p <= x / PAGE_SIZE < p + n)
      ensures m[x] == r[x]
    {
      InPages(x, p, n);
    }
  }

  lemma InPages(x: nat, p: nat, n: nat)
    ensures p <= x / PAGE_SIZE < p + n <==> PAGE_SIZE * p <= x < PAGE_SIZE * (p + n)
  {
  }

  /** Slices on untouched pages are unchanged. */
  lemma SliceKept(m: seq<Byte>, r: seq<Byte>, p: nat, n: nat, lo: nat, hi: nat)
    requires AgreeOutside(m, r, p, n) && lo <= hi <= |m|
    requires hi <= PAGE_SIZE * p || PAGE_SIZE * (p + n) <= lo
    ensures m[lo..hi] == r[lo..hi]
  {
    forall x | lo <= x < hi
      ensures m[x] == r[x]
    {
      InPages(x, p, n);
    }
  }

  lemma TableKept(m: seq<Byte>, r: seq<Byte>, p: nat, n: nat, a: nat, t: Table)
    requires AgreeOutside(m, r, p, n) && TableRep(m, a, t)
    requires a + TABLE_BYTES <= PAGE_SIZE * p || PAGE_SIZE * (p + n) <= a
    ensures TableRep(r, a, t)
  {
    hide AgreeOutside;
    SameSize(m, r, p, n);
    forall i | 0 <= i < TABLE_WORDS
      ensures WordAt(r, a + 8 * i) == t[i]
    {
      SliceKept(m, r, p, n, a + 8 * i, a + 8 * i + 8);
      assert WordAt(m, a + 8 * i) == t[i];
    }
  }

  lemma SameSize(m: seq<Byte>, r: seq<Byte>, p: nat, n: nat)
    requires AgreeOutside(m, r, p, n)
    ensures |m| == |r|
  {
  }

  lemma BlockKept(m: seq<Byte>, r: seq<Byte>, p: nat, n: nat, b: nat, blk: Block)
    requires AgreeOutside(m, r, p, n) && BlockRep(m, b, blk)
    requires b + blk.Length() <= p || p + n <= b
    ensures BlockRep(r, b, blk)
  {
    SameSize(m, r, p, n);
    hide AgreeOutside, NumPages;
    if blk.Data? {
      BlockSpan(blk);
      var base := PAGE_SIZE * b;
      SliceKept(m, r, p, n, base, base + 8);
      SliceKept(m, r, p, n, base + 16, base + 24);
      SliceKept(m, r, p, n, base + 24, base + 32);
      SliceKept(m, r, p, n, base + PAGE_SIZE, base + PAGE_SIZE + |blk.payload|);
    }
  }

  lemma BlockSpan(blk: Block)
    requires blk.Data? && blk.Sized()
    ensures PAGE_SIZE * blk.Length() == PAGE_SIZE + |blk.payload|
  {
    hide NumPages;
  }

  /** Pages of no table and no block may be overwritten freely. */
  lemma RepElsewhere(m: seq<Byte>, r: seq<Byte>, p: nat, n: nat, tables: map<nat, Table>, blocks: map<nat, Block>)
    requires Rep(m, tables, blocks) && AgreeOutside(m, r, p, n)
    requires forall a :: a in tables ==> a % PAGE_SIZE == 0 && Pages(p, n) !! Extent(a)
    requires forall b :: b in blocks ==> Pages(p, n) !! Pages(b, blocks[b].Length())
    ensures Rep(r, tables, blocks)
  {
    hide TableRep, BlockRep, AgreeOutside, Pages;
    forall a | a in tables
      ensures TableRep(r, a, tables[a])
    {
      if n > 0 {
        ApartRuns(p, n, a / PAGE_SIZE, DEFAULT_PAGES);
      }
      TableKept'(m, r, p, n, a, tables[a]);
    }
    forall b | b in blocks
      ensures BlockRep(r, b, blocks[b])
    {
      if n > 0 {
        ApartRuns(p, n, b, blocks[b].Length());
      }
      BlockKept'(m, r, p, n, b, blocks[b]);
    }
  }

  lemma ApartRuns(p: nat, n: nat, q: nat, k: nat)
    requires Pages(p, n) !! Pages(q, k) && n > 0 && k > 0
    ensures p + n <= q || q + k <= p
  {
    assert p in Pages(p, n) && q in Pages(q, k);
  }

  lemma TableKept'(m: seq<Byte>, r: seq<Byte>, p: nat, n: nat, a: nat, t: Table)
    requires AgreeOutside(m, r, p, n) && TableRep(m, a, t) && a % PAGE_SIZE == 0
    requires n == 0 || p + n <= a / PAGE_SIZE || a / PAGE_SIZE + DEFAULT_PAGES <= p
    ensures TableRep(r, a, t)
  {
    if n == 0 {
      assert m == r;
    } else {
      assert a == PAGE_SIZE * (a / PAGE_SIZE);
      hide AgreeOutside, TableRep;
      TableKept(m, r, p, n, a, t);
    }
  }

  lemma BlockKept'(m: seq<Byte>, r: seq<Byte>, p: nat, n: nat, b: nat, blk: Block)
    requires AgreeOutside(m, r, p, n) && BlockRep(m, b, blk)
    requires n == 0 || p + n <= b || b + blk.Length() <= p
    ensures BlockRep(r, b, blk)
  {
    if n == 0 {
      assert m == r;
    } else {
      BlockKept(m, r, p, n, b, blk);
    }
  }

  /** Storing one table word in memory is storing it in the table. */
  lemma StoreInTable(m: seq<Byte>, a: nat, t: Table, i: nat, w: Word)
    requires TableRep(m, a, t) && i < TABLE_WORDS
    ensures TableRep(PutWord(m, a + 8 * i, w), a, t[i := w])
  {
    var r := PutWord(m, a + 8 * i, w);
    hide PutWord, WordAt;
    forall j | 0 <= j < TABLE_WORDS
      ensures WordAt(r, a + 8 * j) == t[i := w][j]
    {
      assert WordAt(m, a + 8 * j) == t[j];
      WordAfterPut(m, a + 8 * i, w, a + 8 * j);
    }
  }

  /** Zeroed memory is a zeroed table. */
  lemma ZeroTable(m: seq<Byte>, a: nat)
    requires a + TABLE_BYTES <= |m| && forall x :: a <= x < a + TABLE_BYTES ==> m[x] == 0
    ensures TableRep(m, a, ZEROS)
  {
    forall i | 0 <= i < TABLE_WORDS
      ensures WordAt(m, a + 8 * i) == ZEROS[i]
    {
      ZeroBytes(m[a + 8 * i..a + 8 * i + 8]);
    }
  }

  // ---------------------------------------------------------------- the machine

  class KernelMemory {
    const frames: FrameAllocator
    const mem: array<Byte>
    var checkno: Word
    ghost const reserved: set<nat>
    ghost const home: Word
    ghost var tables: map<nat, Table>
    ghost var blocks: map<nat, Block>

    /** After pm_init: the allocator is valid, nothing is in use yet. The bitmap lies at `home`, in
        the reserved pages of memory; as no other store goes there, it is kept as an array of its
        own. */
    constructor (frames: FrameAllocator, mem: array<Byte>, ghost reserved: set<nat>, ghost home: Word)
      requires frames.Valid() && mem.Length == PAGE_SIZE * LimitPages(frames.limit)
      requires 0 !in frames.Free() && frames.Free() !! reserved
      requires forall j: nat :: j < frames.bitmap.Length ==> BytePage(home, j) in reserved
      requires mem as object != frames.bitmap as object
      ensures this.frames == frames && this.mem == mem && this.reserved == reserved
      ensures Valid() && tables == map[] && blocks == map[]
    {
      this.frames, this.mem, this.reserved, this.home := frames, mem, reserved, home;
      checkno := 0;
      tables, blocks := map[], map[];
      new;
      assert BlockPages(blocks) == {};
    }

    ghost function State(): Store
      reads this, frames, frames.bitmap
    {
      Store(frames.limit, frames.Free(), tables)
    }

    ghost function Others(): set<nat>
      reads this
    {
      BlockPages(blocks) + reserved
    }

    /** The machine as a system without address spaces. */
    ghost function Sys(): System
      reads this, frames, frames.bitmap
    {
      System(State(), blocks, map[], map[], [], NO_VEC)
    }

    ghost predicate Layout()
      reads this, frames, frames.bitmap
    {
      Pool(Sys(), reserved)
    }

    /** No page outside the reserved ones holds a byte of the bitmap. */
    ghost predicate BitmapInside() {
      forall j: nat :: j < frames.bitmap.Length ==> BytePage(home, j) in reserved
    }

    ghost predicate Valid()
      reads this, frames, frames.bitmap, mem
    {
      && frames.Valid()
      && mem as object != frames.bitmap as object
      && mem.Length == PAGE_SIZE * LimitPages(frames.limit)
      && BitmapInside()
      && Layout()
      && Rep(mem[..], tables, blocks)
    }

    /** t[i]. */
    method LoadEntry(a: nat, i: nat) returns (w: Word)
      requires Valid() && a in tables && i < TABLE_WORDS
      ensures w == tables[a][i]
    {
      assert TableRep(mem[..], a, tables[a]);
      w := LoadWord(mem, a + 8 * i);
    }

    /** t[i] = w. */
    method StoreEntry(a: nat, i: nat, w: Word)
      requires Valid() && a in tables && i < TABLE_WORDS
      modifies mem, this`tables
      ensures Valid() && State() == SetEntry(old(State()), a, i, w)
    {
      hide TableRep, BlockRep, Separated, PutWord, BlocksApart, BlockPages, LimitPages, FrameAllocator.Valid,
        FrameAllocator.Free;
      TableFits(mem[..], a, tables[a], i);
      StoreWord(mem, a + 8 * i, w);
      tables := tables[a := tables[a][i := w]];
      StoreKeepsRep(old(mem[..]), old(State()), Others(), old(blocks), frames.limit, a, i, w);
      SetKeepsSeparated(old(State()), a, i, w, Others());
    }

    /** pm_get(DEFAULT_PAGES, 0x0). */
    method GetTablePages() returns (r: Option<nat>)
      requires Valid()
      modifies frames`freeSize, frames.bitmap
      ensures r == FirstFit(old(frames.Free()), DEFAULT_PAGES, 0, frames.limit)
      ensures frames.Valid()
      ensures frames.Free() ==
        if r.Some? then old(frames.Free()) - Pages(r.value / PAGE_SIZE, DEFAULT_PAGES) else old(frames.Free())
    {
      hide FrameAllocator.Free, FirstFit, Search, Visited, Pages, Layout, Rep;
      SmallRunsFit(DEFAULT_PAGES);
      r := frames.PmGet(DEFAULT_PAGES, 0);
    }

    /** pm_get(DEFAULT_PAGES, 0x0), the null check and the clearing memset; None is a halt. */
    method AllocTable() returns (r: Option<Word>)
      requires Valid()
      modifies mem, this`tables, frames`freeSize, frames.bitmap
      ensures r.None? <==> Tables.AllocTable(old(State())).Halt?
      ensures r.Some? ==> Valid() && Tables.AllocTable(old(State())) == Done((State(), r.value))
    {
      hide Rep, Separated, BlocksApart, BlockPages, LimitPages, Fill, Put, FirstFit, FrameAllocator.Valid,
        FrameAllocator.Free;
      AllocHaltsOnlyWhenFull(State(), Others());
      LimitStays();
      var got := GetTablePages();
      if got.None? {
        return None;
      }
      var a := got.value;
      if a == 0 {
        return None;
      }
      AllocKeepsSeparated(old(State()), Others());
      AllocKeepsRep(mem[..], old(State()), Others(), old(blocks), a);
      MemSet(mem, a, 0, TABLE_BYTES);
      tables := tables[a := ZEROS];
      return Some(a);
    }

    lemma SmallRunsFit(n: nat)
      requires Valid() && n <= 9
      ensures Unwrapped(n, frames.limit)
    {
      hide Layout, Rep;
      frames.SmallRunsFit(n);
    }

    lemma LimitStays()
      requires Valid()
      ensures mem.Length == PAGE_SIZE * LimitPages(frames.limit)
    {
    }

    /** The pages of a table go back to the allocator. */
    method ReturnTablePages(a: nat) returns (ok: bool)
      requires Valid() && a in tables
      modifies frames`freeSize, frames.bitmap
      ensures ok && frames.Valid() && frames.Free() == old(frames.Free()) + Extent(a)
    {
      hide Rep, BlocksApart, BlockPages, LimitPages, Pages, FrameAllocator.Free;
      TableRange(State(), Others(), a);
      TableNotFree(State(), Others(), a);
      hide Separated;
      ok := frames.PmFree(a, DEFAULT_PAGES);
    }

    /** pm_free(table, DEFAULT_PAGES): never a double free. */
    method FreeTable(a: nat) returns (ok: bool)
      requires Valid() && a in tables
      modifies this`tables, frames`freeSize, frames.bitmap
      ensures ok && Valid()
      ensures Tables.FreeTable(old(State()), a) == Done(State())
    {
      hide Rep, Separated, BlocksApart, BlockPages, LimitPages, Pages, Extent, FrameAllocator.Free,
        FrameAllocator.Valid;
      TableNotFree(State(), Others(), a);
      FreeKeepsSeparated(State(), a, Others());
      ok := ReturnTablePages(a);
      tables := tables - {a};
      FewerTables(mem[..], old(tables), a, blocks);
    }
  }

  lemma TableNotFree(st: Store, others: set<nat>, a: nat)
    requires Separated(st, others) && a in st.tables
    ensures Extent(a) !! st.free
  {
    hide LimitPages, Pages;
  }

  lemma TableRange(st: Store, others: set<nat>, a: nat)
    requires Separated(st, others) && a in st.tables
    ensures a / PAGE_SIZE + DEFAULT_PAGES <= LimitPages(st.limit)
    ensures forall p :: p in Extent(a) ==> p < LimitPages(st.limit)
  {
    hide LimitPages, Pages;
  }

  lemma FewerTables(m: seq<Byte>, tables: map<nat, Table>, a: nat, blocks: map<nat, Block>)
    requires Rep(m, tables, blocks)
    ensures Rep(m, tables - {a}, blocks)
  {
    hide TableRep, BlockRep;
  }

  /** A run of free pages lies apart from all buffers and blocks, and inside memory. */
  lemma FreeRunAlone(st: Store, others: set<nat>, blocks: map<nat, Block>, p: nat, n: nat)
    requires Separated(st, others) && Pages(p, n) <= st.free && BlockPages(blocks) <= others
    ensures forall c :: c in st.tables ==> c % PAGE_SIZE == 0 && Pages(p, n) !! Extent(c)
    ensures forall b :: b in blocks ==> Pages(p, n) !! Pages(b, blocks[b].Length())
    ensures n > 0 ==> p + n <= LimitPages(st.limit)
  {
    if n > 0 {
      assert p + n - 1 in Pages(p, n);
    }
    hide Pages, LimitPages;
    forall b, q | b in blocks && q in Pages(b, blocks[b].Length())
      ensures q !in Pages(p, n)
    {
      assert q in BlockPages(blocks);
    }
  }

  lemma AllocKeepsRep(m: seq<Byte>, st: Store, others: set<nat>, blocks: map<nat, Block>, a: nat)
    requires Rep(m, st.tables, blocks) && Separated(st, others) && BlockPages(blocks) <= others
    requires FirstFit(st.free, DEFAULT_PAGES, 0, st.limit) == Some(a)
    requires |m| == PAGE_SIZE * LimitPages(st.limit)
    ensures a + TABLE_BYTES <= |m| && Rep(Put(m, a, Fill(0, TABLE_BYTES)), st.tables[a := ZEROS], blocks)
  {
    FirstFitExact(st.free, DEFAULT_PAGES, 0, st.limit);
    assert Steps(0, a);
    var p := a / PAGE_SIZE;
    FreeRunAlone(st, others, blocks, p, DEFAULT_PAGES);
    var r := Put(m, a, Fill(0, TABLE_BYTES));
    PutAgrees(m, a, Fill(0, TABLE_BYTES), p, DEFAULT_PAGES);
    ZeroTable(r, a);
    hide TableRep, BlockRep, AgreeOutside, Put, Fill, Separated, Pages, FirstFit;
    RepElsewhere(m, r, p, DEFAULT_PAGES, st.tables, blocks);
  }

  lemma TableFits(m: seq<Byte>, a: nat, t: Table, i: nat)
    requires TableRep(m, a, t) && i < TABLE_WORDS
    ensures a + 8 * i + 8 <= |m|
  {
  }

  /** A table's pages lie apart from all other buffers and blocks. */
  lemma TableAlone(st: Store, others: set<nat>, blocks: map<nat, Block>, a: nat)
    requires Separated(st, others) && a in st.tables && BlockPages(blocks) <= others
    ensures forall c :: c in st.tables && c != a ==> c % PAGE_SIZE == 0 && Extent(a) !! Extent(c)
    ensures forall b :: b in blocks ==> Extent(a) !! Pages(b, blocks[b].Length())
  {
    hide Pages;
    forall c | c in st.tables && c != a
      ensures Extent(a) !! Extent(c)
    {
      assert a < c || c < a;
    }
    forall b, p | b in blocks && p in Pages(b, blocks[b].Length())
      ensures p !in Extent(a)
    {
      assert p in BlockPages(blocks);
    }
  }

  lemma StoreKeepsRep(m: seq<Byte>, st: Store, others: set<nat>, blocks: map<nat, Block>, limit: nat, a: nat, i: nat,
                      w: Word)
    requires Rep(m, st.tables, blocks) && Separated(st, others) && BlockPages(blocks) <= others
    requires a in st.tables && i < TABLE_WORDS && a + 8 * i + 8 <= |m|
    ensures Rep(PutWord(m, a + 8 * i, w), st.tables[a := st.tables[a][i := w]], blocks)
  {
    var r := PutWord(m, a + 8 * i, w);
    var rest := st.tables - {a};
    TableAlone(st, others, blocks, a);
    Aligned(st, others, a);
    PutAgrees(m, a + 8 * i, ToBytes(w, 8), a / PAGE_SIZE, DEFAULT_PAGES);
    StoreInTable(m, a, st.tables[a], i, w);
    hide TableRep, BlockRep, AgreeOutside, PutWord, Separated, Pages;
    RepElsewhere(m, r, a / PAGE_SIZE, DEFAULT_PAGES, rest, blocks);
    forall c | c in st.tables
      ensures TableRep(r, c, st.tables[a := st.tables[a][i := w]][c])
    {
      assert c == a || c in rest;
    }
  }

  lemma Aligned(st: Store, others: set<nat>, a: nat)
    requires Separated(st, others) && a in st.tables
    ensures a == PAGE_SIZE * (a / PAGE_SIZE)
  {
  }
}
