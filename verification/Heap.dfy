/** kmalloc_impl, kfree_impl and krealloc_impl on physical memory. */
module Heap {
  import opened Words
  import opened Wrappers
  import opened Bytes
  import opened Frames
  import opened Growth
  import opened Tables
  import opened Systems
  import opened Runs
  import opened Machine

  // ---------------------------------------------------------------- memory written by kmalloc

  /** The metadata words kmalloc stores; the file name is not modelled. */
  function PutHeader(m: seq<Byte>, base: nat, checkno: Word, size: Word, line: Word): (r: seq<Byte>)
    requires base + PAGE_SIZE <= |m|
    ensures |r| == |m|
  {
    var m1 := PutWord(m, base, KMEM_MAGIC_NUMBER);
    var m2 := PutWord(m1, base + 8, checkno);
    var m3 := PutWord(m2, base + 16, NumPages(size));
    var m4 := PutWord(m3, base + 24, size);
    PutWord(m4, base + 544, line)
  }

  lemma HeaderIsPut(m: seq<Byte>, base: nat, checkno: Word, size: Word, line: Word)
    requires base + PAGE_SIZE <= |m|
    ensures HeaderRep(PutHeader(m, base, checkno, size, line), base, size)
    ensures WordAt(PutHeader(m, base, checkno, size, line), base + 8) == checkno
    ensures WordAt(PutHeader(m, base, checkno, size, line), base + 544) == line
  {
    hide PutWord, WordAt, NumPages;
    var m1 := PutWord(m, base, KMEM_MAGIC_NUMBER);
    var m2 := PutWord(m1, base + 8, checkno);
    var m3 := PutWord(m2, base + 16, NumPages(size));
    var m4 := PutWord(m3, base + 24, size);
    KeptWord(m, base, KMEM_MAGIC_NUMBER, m1, base + 8, checkno);
    KeptWord(m1, base + 8, checkno, m2, base + 16, NumPages(size));
    KeptWord(m2, base + 16, NumPages(size), m3, base + 24, size);
    KeptWord(m3, base + 24, size, m4, base + 544, line);
    WordAfterPut(m2, base + 16, NumPages(size), base);
    WordAfterPut(m3, base + 24, size, base);
    WordAfterPut(m3, base + 24, size, base + 8);
    WordAfterPut(m4, base + 544, line, base + 8);
    WordAfterPut(m3, base + 24, size, base + 16);
    WordAfterPut(m4, base + 544, line, base);
    WordAfterPut(m4, base + 544, line, base + 16);
  }

  lemma KeptWord(m: seq<Byte>, a: nat, w: Word, m1: seq<Byte>, b: nat, x: Word)
    requires a + 8 <= b && b + 8 <= |m| && m1 == PutWord(m, a, w)
    ensures WordAt(PutWord(m1, b, x), a) == w && WordAt(PutWord(m1, b, x), b) == x
  {
    WordAfterPut(m, a, w, a);
    WordAfterPut(m1, b, x, a);
    WordAfterPut(m1, b, x, b);
  }

  /** The header words stay inside the header page. */
  lemma HeaderInPage(m: seq<Byte>, base: nat, checkno: Word, size: Word, line: Word)
    requires base + PAGE_SIZE <= |m| && base % PAGE_SIZE == 0
    ensures AgreeOutside(m, PutHeader(m, base, checkno, size, line), base / PAGE_SIZE, 1)
  {
    var p := base / PAGE_SIZE;
    var m1 := PutWord(m, base, KMEM_MAGIC_NUMBER);
    var m2 := PutWord(m1, base + 8, checkno);
    var m3 := PutWord(m2, base + 16, NumPages(size));
    var m4 := PutWord(m3, base + 24, size);
    var m5 := PutWord(m4, base + 544, line);
    assert base == PAGE_SIZE * p;
    hide AgreeOutside, NumPages, Put;
    PutAgrees(m, base, ToBytes(KMEM_MAGIC_NUMBER, 8), p, 1);
    PutAgrees(m1, base + 8, ToBytes(checkno, 8), p, 1);
    PutAgrees(m2, base + 16, ToBytes(NumPages(size), 8), p, 1);
    PutAgrees(m3, base + 24, ToBytes(size, 8), p, 1);
    PutAgrees(m4, base + 544, ToBytes(line, 8), p, 1);
    AgreeTrans(m, m1, m2, p, 1);
    AgreeTrans(m, m2, m3, p, 1);
    AgreeTrans(m, m3, m4, p, 1);
    AgreeTrans(m, m4, m5, p, 1);
  }

  /** The memory kmalloc leaves: cleared, then the header. */
  function Kmalloced(m: seq<Byte>, base: nat, checkno: Word, size: Word, line: Word): (r: seq<Byte>)
    requires base + Wrap(size + PAGE_SIZE) <= |m| && base + PAGE_SIZE <= |m|
    ensures |r| == |m|
  {
    PutHeader(Put(m, base, Fill(0, Wrap(size + PAGE_SIZE))), base, checkno, size, line)
  }

  lemma KmallocedHeader(m: seq<Byte>, base: nat, checkno: Word, size: Word, line: Word)
    requires base + Wrap(size + PAGE_SIZE) <= |m| && base + PAGE_SIZE <= |m|
    ensures var r := Kmalloced(m, base, checkno, size, line);
      WordAt(r, base + 8) == checkno && WordAt(r, base + 544) == line
  {
    hide PutHeader, WordAt, Put, Fill, Wrap, NumPages;
    HeaderIsPut(Put(m, base, Fill(0, Wrap(size + PAGE_SIZE))), base, checkno, size, line);
  }

  lemma ClearFits(size: Word)
    ensures Wrap(size + PAGE_SIZE) <= PAGE_SIZE * (NumPages(size) + 1)
  {
  }

  /** The payload of a new block is zero as far as it was asked for, and nothing outside the
      block's pages changes. */
  lemma KmallocedBlock(m: seq<Byte>, b: nat, checkno: Word, size: Word, line: Word)
    requires b > 0 && PAGE_SIZE * (b + NumPages(size) + 1) <= |m| <= TWO64
    ensures PAGE_SIZE * b + Wrap(size + PAGE_SIZE) <= |m|
    ensures var r := Kmalloced(m, PAGE_SIZE * b, checkno, size, line);
      var payload := r[PAGE_SIZE * (b + 1)..PAGE_SIZE * (b + 1 + NumPages(size))];
      && BlockRep(r, b, Data(size, payload)) && Fresh(size, payload, [])
      && AgreeOutside(m, r, b, NumPages(size) + 1)
  {
    ClearFits(size);
    var base, n := PAGE_SIZE * b, NumPages(size);
    var m1 := Put(m, base, Fill(0, Wrap(size + PAGE_SIZE)));
    var r := PutHeader(m1, base, checkno, size, line);
    DivModUnique(base, PAGE_SIZE, b, 0);
    HeaderIsPut(m1, base, checkno, size, line);
    HeaderInPage(m1, base, checkno, size, line);
    PutAgrees(m, base, Fill(0, Wrap(size + PAGE_SIZE)), b, n + 1);
    WiderAgrees(m1, r, b, 1, n + 1);
    AgreeTrans(m, m1, r, b, n + 1);
    var payload := r[PAGE_SIZE * (b + 1)..PAGE_SIZE * (b + 1 + n)];
    PayloadCleared(m, m1, r, b, size);
    hide PutHeader, AgreeOutside, HeaderRep, NumPages, Wrap, Put, Fill;
    assert |payload| == PAGE_SIZE * n;
  }

  lemma WiderAgrees(m: seq<Byte>, r: seq<Byte>, p: nat, n: nat, k: nat)
    requires AgreeOutside(m, r, p, n) && n <= k
    ensures AgreeOutside(m, r, p, k)
  {
  }

  lemma PayloadCleared(m: seq<Byte>, m1: seq<Byte>, r: seq<Byte>, b: nat, size: Word)
    requires b > 0 && |m| <= TWO64
    requires PAGE_SIZE * b + Wrap(size + PAGE_SIZE) <= |m| && PAGE_SIZE * (b + 1 + NumPages(size)) <= |m|
    requires m1 == Put(m, PAGE_SIZE * b, Fill(0, Wrap(size + PAGE_SIZE)))
    requires AgreeOutside(m1, r, b, 1)
    ensures Fresh(size, r[PAGE_SIZE * (b + 1)..PAGE_SIZE * (b + 1 + NumPages(size))], [])
  {
    var n := NumPages(size);
    var payload := r[PAGE_SIZE * (b + 1)..PAGE_SIZE * (b + 1 + n)];
    ClearCoversRequest(size, b);
    hide NumPages, Wrap, Fill;
    forall j | 0 <= j < Min(size, |payload|)
      ensures payload[j] == 0
    {
      var x := PAGE_SIZE * (b + 1) + j;
      InPages(x, b, 1);
      assert payload[j] == r[x];
      assert r[x] == m1[x];
    }
  }

  /** Clearing size + PAGE_SIZE bytes covers the request for every block that fits in memory. */
  lemma ClearCoversRequest(size: Word, b: nat)
    requires b > 0 && PAGE_SIZE * (b + 1 + NumPages(size)) <= TWO64
    ensures Min(size, PAGE_SIZE * NumPages(size)) == 0
         || PAGE_SIZE + Min(size, PAGE_SIZE * NumPages(size)) <= Wrap(size + PAGE_SIZE)
  {
  }

  // ---------------------------------------------------------------- kmalloc

  /** s' is s with a fresh block of `size` bytes whose payload starts at `address`: what the
      abstract kmalloc does, and no other block changed. */
  ghost predicate BlockAdded(s: System, s': System, size: Word, address: nat) {
    && address >= 2 * PAGE_SIZE && address % PAGE_SIZE == 0
    && var b := address / PAGE_SIZE - 1;
       && b !in s.blocks && b in s'.blocks && s'.blocks[b].Data? && s'.blocks[b].size == size
       && Fresh(size, s'.blocks[b].payload, [])
       && NewBlock(s, size, s'.blocks[b].payload) == Done(s')
       && s'.blocks == s.blocks[b := s'.blocks[b]]
  }

  lemma BoundsOf(k: KernelMemory)
    requires k.Valid()
    ensures k.mem.Length == PAGE_SIZE * LimitPages(k.frames.limit) <= TWO64
  {
  }

  /** The block kmalloc leaves in memory r. */
  function BlockAt(r: seq<Byte>, b: nat, size: Word): Block
    requires PAGE_SIZE * (b + NumPages(size) + 1) <= |r|
  {
    Data(size, r[PAGE_SIZE * (b + 1)..PAGE_SIZE * (b + 1 + NumPages(size))])
  }

  /** Claiming a block in memory: the run is free, so no table and no other block is touched. */
  lemma ClaimKeepsRep(m: seq<Byte>, s: System, reserved: set<nat>, base: nat, checkno: Word, size: Word, line: Word)
    requires Rep(m, s.st.tables, s.blocks) && Pool(s, reserved)
    requires |m| == PAGE_SIZE * LimitPages(s.st.limit) <= TWO64
    requires FirstFit(s.st.free, NumPages(size) + 1, 0, s.st.limit) == Some(base)
    ensures base + Wrap(size + PAGE_SIZE) <= |m| && base + PAGE_SIZE <= |m|
    ensures PAGE_SIZE * (base / PAGE_SIZE + NumPages(size) + 1) <= |m|
    ensures var r := Kmalloced(m, base, checkno, size, line);
      var blk := BlockAt(r, base / PAGE_SIZE, size);
      var s' := AddBlock(s, base / PAGE_SIZE, blk);
      && blk.Length() == NumPages(size) + 1
      && BlockAdded(s, s', size, base + PAGE_SIZE)
      && Pool(s', reserved)
      && Rep(r, s'.st.tables, s'.blocks)
  {
    hide FirstFit, Pages, LimitPages, NumPages, Fresh, TableRep, BlockRep, AgreeOutside, Kmalloced, Pool, Wrap,
      NewBlock, BlockAdded, BlockPages;
    ClaimedRun(s, reserved, base, NumPages(size) + 1);
    var b := base / PAGE_SIZE;
    KmallocedBlock(m, b, checkno, size, line);
    var r := Kmalloced(m, base, checkno, size, line);
    var blk := BlockAt(r, b, size);
    BlockLength(size, blk.payload);
    ClaimIsAllocation(s, reserved, base, size, blk.payload);
    RepElsewhere(m, r, b, NumPages(size) + 1, s.st.tables, s.blocks);
  }

  /** What a successful search says about the run it found. */
  lemma ClaimedRun(s: System, reserved: set<nat>, base: nat, n: nat)
    requires Pool(s, reserved) && n > 0 && FirstFit(s.st.free, n, 0, s.st.limit) == Some(base)
    ensures var b := base / PAGE_SIZE;
      && base == PAGE_SIZE * b && b > 0 && Pages(b, n) <= s.st.free && b + n <= LimitPages(s.st.limit)
      && (forall c :: c in s.st.tables ==> c % PAGE_SIZE == 0 && Pages(b, n) !! Extent(c))
      && (forall c :: c in s.blocks ==> Pages(b, n) !! Pages(c, s.blocks[c].Length()))
  {
    FirstFitExact(s.st.free, n, 0, s.st.limit);
    StepsFromZero(base);
    hide FirstFit, Pages, LimitPages;
    FreeRunAlone(s.st, BlockPages(s.blocks) + reserved, s.blocks, base / PAGE_SIZE, n);
    RunStart(s.st, BlockPages(s.blocks) + reserved, base / PAGE_SIZE, n);
  }

  lemma ClaimIsAllocation(s: System, reserved: set<nat>, base: nat, size: Word, payload: seq<Byte>)
    requires Pool(s, reserved) && Fresh(size, payload, [])
    requires FirstFit(s.st.free, NumPages(size) + 1, 0, s.st.limit) == Some(base)
    ensures var s' := AddBlock(s, base / PAGE_SIZE, Data(size, payload));
      BlockAdded(s, s', size, base + PAGE_SIZE) && Pool(s', reserved)
  {
    hide FirstFit, Pages, LimitPages, NumPages, Pool, Fresh;
    ClaimedRun(s, reserved, base, NumPages(size) + 1);
    var b := base / PAGE_SIZE;
    DivModUnique(base + PAGE_SIZE, PAGE_SIZE, b + 1, 0);
    FreshSize(size, payload);
    BlockLength(size, payload);
    AddBlockPool(s, reserved, b, Data(size, payload));
  }

  lemma FreshSize(size: Word, payload: seq<Byte>)
    requires Fresh(size, payload, [])
    ensures |payload| == PAGE_SIZE * NumPages(size)
  {
  }

  lemma RunStart(st: Store, others: set<nat>, p: nat, n: nat)
    requires Separated(st, others) && Pages(p, n) <= st.free && n > 0
    ensures p > 0
  {
    assert p in Pages(p, n);
  }

  /** The clearing memset and the metadata stores of kmalloc_impl. */
  method WriteBlock(mem: array<Byte>, base: nat, checkno: Word, size: Word, line: Word)
    requires base + Wrap(size + PAGE_SIZE) <= mem.Length && base + PAGE_SIZE <= mem.Length
    modifies mem
    ensures mem[..] == Kmalloced(old(mem[..]), base, checkno, size, line)
  {
    hide PutWord, Put, Fill, NumPages, Wrap;
    MemSet(mem, base, 0, Wrap(size + PAGE_SIZE));
    StoreWord(mem, base, KMEM_MAGIC_NUMBER);
    StoreWord(mem, base + 8, checkno);
    StoreWord(mem, base + 16, NumPages(size));
    StoreWord(mem, base + 24, size);
    StoreWord(mem, base + 544, line);
  }

  /** A block of `size` bytes as kmalloc leaves it in memory: magic number, page count and size in
      the page before it, and zeros. */
  ghost predicate FreshAt(m: seq<Byte>, address: nat, size: Word) {
    && 0x1000 <= address && address + size <= |m|
    && WordAt(m, address - 0x1000) == 0xBEEF_BEEF
    && WordAt(m, address - 0x1000 + 16) == NumPages(size)
    && WordAt(m, address - 0x1000 + 24) == size
    && forall j :: address <= j < address + size ==> m[j] == 0
  }

  lemma BlockIsFresh(m: seq<Byte>, s: System, size: Word, address: nat)
    requires Rep(m, s.st.tables, s.blocks) && address >= 2 * PAGE_SIZE && address % PAGE_SIZE == 0
    requires size <= TWO64 - PAGE_SIZE
    requires var b := address / PAGE_SIZE - 1;
      IsData(s, b) && s.blocks[b].size == size && Fresh(size, s.blocks[b].payload, [])
    ensures FreshAt(m, address, size)
  {
    var b := address / PAGE_SIZE - 1;
    assert PAGE_SIZE * (b + 1) == address;
    NumPagesExact(size);
    HeaderAt(m, s, b);
    PayloadPrefix(m, s, b, size);
    hide Rep, BlockRep, NumPages, WordAt;
    var payload := s.blocks[b].payload;
    forall j | address <= j < address + size
      ensures m[j] == 0
    {
      assert m[address..address + size][j - address] == payload[..size][j - address];
    }
  }

  lemma AddedIsFresh(k: KernelMemory, s: System, size: Word, address: nat)
    requires k.Valid() && BlockAdded(s, k.Sys(), size, address) && size <= TWO64 - PAGE_SIZE
    ensures FreshAt(k.mem[..], address, size)
  {
    hide NewBlock, FreshAt, Fresh;
    BlockIsFresh(k.mem[..], k.Sys(), size, address);
  }

  /** kmalloc_impl; None is the halt inside pm_get. The header and payload pages come from one
      first-fit run, the requested bytes are zero, and everything else is as before. */
  method Kmalloc(k: KernelMemory, size: Word, line: Word) returns (r: Option<nat>)
    requires k.Valid() && Unwrapped(NumPages(size) + 1, k.frames.limit)
    modifies k.mem, k`blocks, k.frames`freeSize, k.frames.bitmap
    ensures r.None? <==> FirstFit(old(k.frames.Free()), NumPages(size) + 1, 0, k.frames.limit).None?
    ensures r.Some? ==> k.Valid() && BlockAdded(old(k.Sys()), k.Sys(), size, r.value)
    ensures r.Some? && size <= TWO64 - PAGE_SIZE ==> FreshAt(k.mem[..], r.value, size)
    ensures r.Some? ==>
      && 0x1000 <= r.value <= k.mem.Length
      && WordAt(k.mem[..], r.value - 0x1000 + 8) == k.checkno && WordAt(k.mem[..], r.value - 0x1000 + 544) == line
  {
    hide FirstFit, Pages, LimitPages, NumPages, Rep, Pool, Wrap, Kmalloced, FrameAllocator.Valid, FrameAllocator.Free,
      BlockAdded, FreshAt, WordAt;
    ghost var was, m := k.Sys(), k.mem[..];
    BoundsOf(k);
    var got := k.frames.PmGet(NumPages(size) + 1, 0);
    if got.None? {
      return None;
    }
    var base := got.value;
    ClaimKeepsRep(m, was, k.reserved, base, k.checkno, size, line);
    KmallocedHeader(m, base, k.checkno, size, line);
    WriteBlock(k.mem, base, k.checkno, size, line);
    k.blocks := k.blocks[base / PAGE_SIZE := BlockAt(k.mem[..], base / PAGE_SIZE, size)];
    assert k.Sys() == AddBlock(was, base / PAGE_SIZE, BlockAt(k.mem[..], base / PAGE_SIZE, size));
    if size <= TWO64 - PAGE_SIZE {
      AddedIsFresh(k, was, size, base + PAGE_SIZE);
    }
    return Some(base + PAGE_SIZE);
  }

  lemma StepsFromZero(a: nat)
    requires Steps(0, a)
    ensures a == PAGE_SIZE * (a / PAGE_SIZE)
  {
  }

  // ---------------------------------------------------------------- kfree

  /** The payload address of a live block. */
  predicate LiveAt(s: System, address: nat) {
    address % PAGE_SIZE == 0 && address >= 2 * PAGE_SIZE && IsData(s, address / PAGE_SIZE - 1)
  }

  /** A block's pages lie apart from all other blocks and all tables. */
  lemma BlockAlone(s: System, reserved: set<nat>, b: nat)
    requires Pool(s, reserved) && b in s.blocks
    ensures var run := Pages(b, s.blocks[b].Length());
      && (forall a :: a in s.st.tables ==> a % PAGE_SIZE == 0 && run !! Extent(a))
      && (forall c :: c in s.blocks - {b} ==> run !! Pages(c, s.blocks[c].Length()))
    ensures s.blocks[b].Sized() && b > 0 && b + s.blocks[b].Length() <= LimitPages(s.st.limit)
  {
    hide Pages, LimitPages;
    forall c | c in s.blocks - {b}
      ensures Pages(b, s.blocks[b].Length()) !! Pages(c, s.blocks[c].Length())
    {
      assert b < c || c < b;
    }
    forall a, p | a in s.st.tables && p in Pages(b, s.blocks[b].Length())
      ensures p !in Extent(a)
    {
      PageInBlock(s.blocks, b, p);
    }
  }

  /** A smaller run keeps apart from what the larger one keeps apart from. */
  lemma SubRunApart(p: nat, n: nat, q: nat, k: nat, other: set<nat>)
    requires Pages(p, n) !! other && p <= q && q + k <= p + n
    ensures Pages(q, k) !! other
  {
  }

  /** Rewriting part of one block's own pages leaves the rest of memory as it stands for. */
  lemma OwnPagesRewritten(m: seq<Byte>, r: seq<Byte>, s: System, reserved: set<nat>, b: nat, q: nat, k: nat)
    requires Rep(m, s.st.tables, s.blocks) && Pool(s, reserved) && b in s.blocks
    requires b <= q && q + k <= b + s.blocks[b].Length() && AgreeOutside(m, r, q, k)
    ensures Rep(r, s.st.tables, s.blocks - {b})
  {
    hide Pages, TableRep, BlockRep, AgreeOutside, Pool;
    BlockAlone(s, reserved, b);
    forall a | a in s.st.tables
      ensures Pages(q, k) !! Extent(a)
    {
      SubRunApart(b, s.blocks[b].Length(), q, k, Extent(a));
    }
    forall c | c in s.blocks - {b}
      ensures Pages(q, k) !! Pages(c, s.blocks[c].Length())
    {
      SubRunApart(b, s.blocks[b].Length(), q, k, Pages(c, s.blocks[c].Length()));
    }
    RepElsewhere(m, r, q, k, s.st.tables, s.blocks - {b});
  }

  lemma HeaderAt(m: seq<Byte>, s: System, b: nat)
    requires Rep(m, s.st.tables, s.blocks) && IsData(s, b)
    ensures PAGE_SIZE * (b + 1) <= |m|
    ensures HeaderRep(m, PAGE_SIZE * b, s.blocks[b].size)
    ensures BlockRep(m, b, s.blocks[b])
  {
    hide TableRep;
    assert BlockRep(m, b, s.blocks[b]);
  }

  lemma HeaderWordWritten(m: seq<Byte>, b: nat, off: nat, w: Word)
    requires PAGE_SIZE * (b + 1) <= |m| && off + 8 <= PAGE_SIZE
    ensures AgreeOutside(m, PutWord(m, PAGE_SIZE * b + off, w), b, 1)
  {
    PutAgrees(m, PAGE_SIZE * b + off, ToBytes(w, 8), b, 1);
  }

  /** Releasing a block and clearing its magic number. */
  lemma ReleaseKeepsRep(m: seq<Byte>, s: System, reserved: set<nat>, b: nat)
    requires Rep(m, s.st.tables, s.blocks) && Pool(s, reserved) && IsData(s, b)
    ensures PAGE_SIZE * (b + 1) <= |m|
    ensures var r := PutWord(m, PAGE_SIZE * b, 0);
      Rep(r, s.st.tables, s.blocks - {b}) && Pool(DropBlock(s, b), reserved) && WordAt(r, PAGE_SIZE * b) == 0
    ensures b + s.blocks[b].Length() <= LimitPages(s.st.limit)
    ensures s.blocks[b].Length() == NumPages(s.blocks[b].size) + 1
  {
    hide Pool, Rep, AgreeOutside, PutWord, LimitPages, NumPages, WordAt, Pages;
    HeaderAt(m, s, b);
    BlockAlone(s, reserved, b);
    BlockLength(s.blocks[b].size, s.blocks[b].payload);
    HeaderWordWritten(m, b, 0, 0);
    OwnPagesRewritten(m, PutWord(m, PAGE_SIZE * b, 0), s, reserved, b, b, 1);
    DropBlockPool(s, reserved, b);
    WordAfterPut(m, PAGE_SIZE * b, 0, PAGE_SIZE * b);
  }

  /** kfree_impl. A live block is returned to the free pages and its magic number cleared, so
      freeing it again is detected; an address without the magic number changes nothing. The
      source cannot tell a live block from stale or forged metadata, hence the precondition. */
  method Kfree(k: KernelMemory, address: nat)
    requires k.Valid() && PAGE_SIZE <= address && address - PAGE_SIZE + 8 <= k.mem.Length
    requires LiveAt(k.Sys(), address) || WordAt(k.mem[..], address - PAGE_SIZE) != KMEM_MAGIC_NUMBER
    modifies k.mem, k`blocks, k.frames`freeSize, k.frames.bitmap
    ensures k.Valid()
    ensures old(LiveAt(k.Sys(), address)) ==>
      && k.Sys() == DropBlock(old(k.Sys()), address / PAGE_SIZE - 1)
      && WordAt(k.mem[..], address - PAGE_SIZE) == 0
    ensures old(!LiveAt(k.Sys(), address)) ==> k.Sys() == old(k.Sys()) && k.mem[..] == old(k.mem[..])
  {
    hide Pool, Rep, PutWord, LimitPages, NumPages, WordAt, Pages, HeaderRep, FrameAllocator.Free;
    var base := address - PAGE_SIZE;
    ghost var was, b := k.Sys(), address / PAGE_SIZE - 1;
    if LiveAt(was, address) {
      HeaderAt(k.mem[..], was, b);
      LiveBase(address);
      HeaderWords(k.mem[..], base, was.blocks[b].size);
    }
    var magic := LoadWord(k.mem, base);
    if magic == KMEM_MAGIC_NUMBER {
      ReleaseKeepsRep(k.mem[..], was, k.reserved, b);
      var n := LoadWord(k.mem, base + 16);
      var _ := k.frames.PmFree(base, n + 1);
      StoreWord(k.mem, base, 0);
      k.blocks := k.blocks - {b};
      FreeBelowLimit(k.Sys(), k.reserved);
    }
  }

  lemma LiveBase(address: nat)
    requires address % PAGE_SIZE == 0 && address >= 2 * PAGE_SIZE
    ensures address - PAGE_SIZE == PAGE_SIZE * (address / PAGE_SIZE - 1)
    ensures (address - PAGE_SIZE) / PAGE_SIZE == address / PAGE_SIZE - 1
  {
  }

  lemma HeaderWords(m: seq<Byte>, base: nat, size: Word)
    requires base + PAGE_SIZE <= |m| && HeaderRep(m, base, size)
    ensures WordAt(m, base) == KMEM_MAGIC_NUMBER && WordAt(m, base + 16) == NumPages(size)
    ensures WordAt(m, base + 24) == size
  {
  }

  lemma FreeBelowLimit(s: System, reserved: set<nat>)
    requires Pool(s, reserved)
    ensures forall p :: p in s.st.free ==> p < LimitPages(s.st.limit)
  {
    hide LimitPages;
  }

  // ---------------------------------------------------------------- writes to a payload

  /** Address of a block's payload. */
  function PayloadAt(b: nat): nat {
    PAGE_SIZE * (b + 1)
  }

  function WithPayload(s: System, b: nat, payload: seq<Byte>): System
    requires IsData(s, b)
  {
    s.(blocks := s.blocks[b := Data(s.blocks[b].size, payload)])
  }

  lemma PayloadRewritten(m: seq<Byte>, b: nat, blk: Block, off: nat, bytes: seq<Byte>)
    requires BlockRep(m, b, blk) && blk.Data? && off + |bytes| <= |blk.payload|
    ensures PayloadAt(b) + off + |bytes| <= |m|
    ensures var r := Put(m, PayloadAt(b) + off, bytes);
      && BlockRep(r, b, Data(blk.size, Put(blk.payload, off, bytes)))
      && AgreeOutside(m, r, b + 1, blk.Length() - 1)
  {
    BlockSpan(blk);
    var r := Put(m, PayloadAt(b) + off, bytes);
    var base := PAGE_SIZE * b;
    PutAgrees(m, PayloadAt(b) + off, bytes, b + 1, blk.Length() - 1);
    hide NumPages;
    SliceKept(m, r, b + 1, blk.Length() - 1, base, base + 8);
    SliceKept(m, r, b + 1, blk.Length() - 1, base + 16, base + 24);
    SliceKept(m, r, b + 1, blk.Length() - 1, base + 24, base + 32);
    hide AgreeOutside, WordAt;
    assert HeaderRep(r, base, blk.size) by { HeaderKept(m, r, base, blk.size); }
    var old', new' := blk.payload, Put(blk.payload, off, bytes);
    assert r[base + PAGE_SIZE..base + PAGE_SIZE + |old'|] == new';
  }

  lemma HeaderKept(m: seq<Byte>, r: seq<Byte>, base: nat, size: Word)
    requires base + PAGE_SIZE <= |m| == |r| && HeaderRep(m, base, size)
    requires m[base..base + 8] == r[base..base + 8]
    requires m[base + 16..base + 24] == r[base + 16..base + 24]
    requires m[base + 24..base + 32] == r[base + 24..base + 32]
    ensures HeaderRep(r, base, size)
  {
    hide NumPages;
  }

  /** Writing bytes inside a block's payload changes that payload and nothing else. */
  lemma PayloadWriteKeepsRep(m: seq<Byte>, s: System, reserved: set<nat>, b: nat, off: nat, bytes: seq<Byte>)
    requires Rep(m, s.st.tables, s.blocks) && Pool(s, reserved) && IsData(s, b)
    requires off + |bytes| <= |s.blocks[b].payload|
    ensures PayloadAt(b) + off + |bytes| <= |m|
    ensures var s' := WithPayload(s, b, Put(s.blocks[b].payload, off, bytes));
      Rep(Put(m, PayloadAt(b) + off, bytes), s'.st.tables, s'.blocks) && Pool(s', reserved)
  {
    hide Pool, Rep, BlockRep, AgreeOutside, Put, NumPages, PayloadAt;
    var blk := s.blocks[b];
    HeaderAt(m, s, b);
    PayloadRewritten(m, b, blk, off, bytes);
    var r := Put(m, PayloadAt(b) + off, bytes);
    var blk' := Data(blk.size, Put(blk.payload, off, bytes));
    OwnPagesRewritten(m, r, s, reserved, b, b + 1, blk.Length() - 1);
    SamePool(s, reserved, b, blk');
    JoinRep(r, s.st.tables, s.blocks, b, blk');
  }

  lemma JoinRep(m: seq<Byte>, tables: map<nat, Table>, blocks: map<nat, Block>, b: nat, blk: Block)
    requires Rep(m, tables, blocks - {b}) && BlockRep(m, b, blk)
    ensures Rep(m, tables, blocks[b := blk])
  {
    hide TableRep, BlockRep;
    var after := blocks[b := blk];
    forall c | c in after
      ensures BlockRep(m, c, after[c])
    {
      assert c == b || c in blocks - {b};
    }
  }

  lemma SamePool(s: System, reserved: set<nat>, b: nat, blk: Block)
    requires Pool(s, reserved) && b in s.blocks && blk.Length() == s.blocks[b].Length()
    requires s.blocks[b].Sized() ==> blk.Sized()
    ensures Pool(s.(blocks := s.blocks[b := blk]), reserved)
  {
    var s' := s.(blocks := s.blocks[b := blk]);
    hide Separated, Pages, LimitPages, NumPages;
    assert s'.blocks - {b} == s.blocks - {b};
    BlockPagesSplit(s.blocks, b);
    BlockPagesSplit(s'.blocks, b);
    hide BlockPages;
  }

  /** A store of bytes by the owner of a block. */
  method WritePayload(k: KernelMemory, b: nat, off: nat, bytes: seq<Byte>)
    requires k.Valid() && IsData(k.Sys(), b) && off + |bytes| <= |k.blocks[b].payload|
    modifies k.mem, k`blocks
    ensures k.Valid()
    ensures k.Sys() == WithPayload(old(k.Sys()), b, Put(old(k.blocks)[b].payload, off, bytes))
  {
    hide Pool, Rep, LimitPages, FrameAllocator.Valid, FrameAllocator.Free;
    ghost var m, was := k.mem[..], k.Sys();
    PayloadWriteKeepsRep(m, was, k.reserved, b, off, bytes);
    for i := 0 to |bytes|
      invariant k.Sys() == was
      invariant k.mem[..] == Put(m, PayloadAt(b) + off, bytes[..i])
    {
      k.mem[PayloadAt(b) + off + i] := bytes[i];
    }
    assert bytes[..|bytes|] == bytes;
    k.blocks := k.blocks[b := Data(k.blocks[b].size, Put(k.blocks[b].payload, off, bytes))];
  }

  // ---------------------------------------------------------------- krealloc

  /** s' is s after krealloc of block b to `size` bytes, with the payload now at `address`:
      an allowed abstract krealloc, in place exactly when the page count stays the same. */
  ghost predicate Reallocated(s: System, s': System, b: nat, size: Word, address: nat) {
    && address % PAGE_SIZE == 0 && address >= 2 * PAGE_SIZE
    && var c := address / PAGE_SIZE - 1;
       && IsData(s', c) && s'.blocks[c].size == size && (c == b || c !in s.blocks)
       && Allowed(s, Event.Krealloc(b, size, s'.blocks[c].payload))
       && Next(s, Event.Krealloc(b, size, s'.blocks[c].payload)) == Done(s')
       && IsData(s, b) && (c == b <==> NumPages(s.blocks[b].size) == NumPages(size))
  }

  /** The in-place branch rewrites the header only. */
  lemma ResizeKeepsRep(m: seq<Byte>, r: seq<Byte>, s: System, reserved: set<nat>, b: nat, size: Word)
    requires Rep(m, s.st.tables, s.blocks) && Pool(s, reserved) && IsData(s, b)
    requires NumPages(s.blocks[b].size) == NumPages(size)
    requires AgreeOutside(m, r, b, 1) && PAGE_SIZE * (b + 1) <= |r| && HeaderRep(r, PAGE_SIZE * b, size)
    ensures Rep(r, s.st.tables, s.blocks[b := Data(size, s.blocks[b].payload)])
    ensures Pool(s.(blocks := s.blocks[b := Data(size, s.blocks[b].payload)]), reserved)
  {
    hide Pool, Rep, BlockRep, AgreeOutside, HeaderRep, NumPages;
    var blk := s.blocks[b];
    var blk' := Data(size, blk.payload);
    HeaderAt(m, s, b);
    BlockAlone(s, reserved, b);
    OwnPagesRewritten(m, r, s, reserved, b, b, 1);
    SamePool(s, reserved, b, blk');
    ResizedBlock(m, r, b, blk, size);
    JoinRep(r, s.st.tables, s.blocks, b, blk');
  }

  lemma ResizedBlock(m: seq<Byte>, r: seq<Byte>, b: nat, blk: Block, size: Word)
    requires BlockRep(m, b, blk) && blk.Data? && NumPages(blk.size) == NumPages(size)
    requires AgreeOutside(m, r, b, 1) && PAGE_SIZE * (b + 1) <= |r| && HeaderRep(r, PAGE_SIZE * b, size)
    ensures BlockRep(r, b, Data(size, blk.payload))
  {
    SameSize(m, r, b, 1);
    hide AgreeOutside, HeaderRep, NumPages;
    SliceKept(m, r, b, 1, PAGE_SIZE * (b + 1), PAGE_SIZE * (b + 1) + |blk.payload|);
  }

  /** The four metadata stores of the in-place branch, in the order of the source. */
  method Resize(mem: array<Byte>, base: nat, size: Word, line: Word)
    requires base % PAGE_SIZE == 0 && base + PAGE_SIZE <= mem.Length
    modifies mem
    ensures AgreeOutside(old(mem[..]), mem[..], base / PAGE_SIZE, 1)
    ensures HeaderRep(mem[..], base, size)
  {
    hide PutWord, NumPages, WordAt, AgreeOutside;
    ghost var m := mem[..];
    StoreWord(mem, base + 24, size);
    StoreWord(mem, base + 16, NumPages(size));
    StoreWord(mem, base, KMEM_MAGIC_NUMBER);
    StoreWord(mem, base + 544, line);
    ResizedHeader(m, base, size, line);
  }

  lemma ResizedHeader(m: seq<Byte>, base: nat, size: Word, line: Word)
    requires base % PAGE_SIZE == 0 && base + PAGE_SIZE <= |m|
    ensures var r := PutWord(PutWord(PutWord(PutWord(m, base + 24, size), base + 16, NumPages(size)), base,
                                     KMEM_MAGIC_NUMBER), base + 544, line);
      AgreeOutside(m, r, base / PAGE_SIZE, 1) && HeaderRep(r, base, size)
  {
    var p := base / PAGE_SIZE;
    assert base == PAGE_SIZE * p;
    hide PutWord, NumPages, WordAt, AgreeOutside;
    var m1 := PutWord(m, base + 24, size);
    var m2 := PutWord(m1, base + 16, NumPages(size));
    var m3 := PutWord(m2, base, KMEM_MAGIC_NUMBER);
    var m4 := PutWord(m3, base + 544, line);
    HeaderWordWritten(m, p, 24, size);
    HeaderWordWritten(m1, p, 16, NumPages(size));
    HeaderWordWritten(m2, p, 0, KMEM_MAGIC_NUMBER);
    HeaderWordWritten(m3, p, 544, line);
    AgreeTrans(m, m1, m2, p, 1);
    AgreeTrans(m, m2, m3, p, 1);
    AgreeTrans(m, m3, m4, p, 1);
    WordAfterPut(m, base + 24, size, base + 24);
    WordAfterPut(m1, base + 16, NumPages(size), base + 16);
    WordAfterPut(m1, base + 16, NumPages(size), base + 24);
    WordAfterPut(m2, base, KMEM_MAGIC_NUMBER, base);
    WordAfterPut(m2, base, KMEM_MAGIC_NUMBER, base + 16);
    WordAfterPut(m2, base, KMEM_MAGIC_NUMBER, base + 24);
    WordAfterPut(m3, base + 544, line, base);
    WordAfterPut(m3, base + 544, line, base + 16);
    WordAfterPut(m3, base + 544, line, base + 24);
  }

  /** memset(payload, 0, n). */
  method ClearPayload(k: KernelMemory, b: nat, n: nat)
    requires k.Valid() && IsData(k.Sys(), b) && n <= |k.blocks[b].payload|
    modifies k.mem, k`blocks
    ensures k.Valid()
    ensures k.Sys() == WithPayload(old(k.Sys()), b, Put(old(k.blocks)[b].payload, 0, Fill(0, n)))
  {
    hide Pool, Rep, LimitPages, FrameAllocator.Valid, FrameAllocator.Free, Put, Fill;
    PayloadWriteKeepsRep(k.mem[..], k.Sys(), k.reserved, b, 0, Fill(0, n));
    MemSet(k.mem, PayloadAt(b), 0, n);
    k.blocks := k.blocks[b := Data(k.blocks[b].size, Put(k.blocks[b].payload, 0, Fill(0, n)))];
  }

  /** memcpy from the payload of block b to that of block c; the result is its byte count. */
  method CopyPayload(k: KernelMemory, c: nat, b: nat, n: nat) returns (ghost copied: nat)
    requires k.Valid() && IsData(k.Sys(), b) && IsData(k.Sys(), c) && b != c
    requires n <= |k.blocks[b].payload| && n <= |k.blocks[c].payload|
    modifies k.mem, k`blocks
    ensures k.Valid()
    ensures k.Sys() == WithPayload(old(k.Sys()), c, Put(old(k.blocks)[c].payload, 0, old(k.blocks)[b].payload[..n]))
    ensures copied == n
  {
    hide Pool, Rep, LimitPages, FrameAllocator.Valid, FrameAllocator.Free, Put, CopyForward;
    ghost var bytes := k.blocks[b].payload[..n];
    CopyIsPut(k.mem[..], k.Sys(), k.reserved, c, b, n);
    PayloadWriteKeepsRep(k.mem[..], k.Sys(), k.reserved, c, 0, bytes);
    copied := MemCpy(k.mem, PayloadAt(c), PayloadAt(b), n);
    k.blocks := k.blocks[c := Data(k.blocks[c].size, Put(k.blocks[c].payload, 0, bytes))];
  }

  /** memcpy within one block, to a lower address, where the source may reach behind the payload.
      If the destination does not, the payload changes as told and nothing else does; otherwise
      memory is as the copy leaves it. */
  method ShiftPayload(k: KernelMemory, b: nat, dst: nat, src: nat, n: nat)
    requires k.Valid() && IsData(k.Sys(), b) && dst <= src && PayloadAt(b) + src + n <= k.mem.Length
    modifies k.mem, k`blocks
    ensures k.mem[..] == CopyForward(old(k.mem[..]), PayloadAt(b) + dst, PayloadAt(b) + src, n)
    ensures dst + n <= |old(k.blocks)[b].payload| ==>
      && k.Valid()
      && k.Sys() == WithPayload(old(k.Sys()), b,
                                Put(old(k.blocks)[b].payload, dst,
                                    old(k.mem[..])[PayloadAt(b) + src..PayloadAt(b) + src + n]))
    ensures dst + n > |old(k.blocks)[b].payload| ==> k.blocks == old(k.blocks)
  {
    hide Pool, Rep, LimitPages, FrameAllocator.Valid, FrameAllocator.Free, Put, CopyForward;
    ghost var bytes := k.mem[..][PayloadAt(b) + src..PayloadAt(b) + src + n];
    CopyForwardMoves(k.mem[..], PayloadAt(b) + dst, PayloadAt(b) + src, n);
    if dst + n <= |k.blocks[b].payload| {
      PayloadWriteKeepsRep(k.mem[..], k.Sys(), k.reserved, b, dst, bytes);
    }
    ghost var _ := MemCpy(k.mem, PayloadAt(b) + dst, PayloadAt(b) + src, n);
    if dst + n <= |k.blocks[b].payload| {
      k.blocks := k.blocks[b := Data(k.blocks[b].size, Put(k.blocks[b].payload, dst, bytes))];
    }
  }

  /** The first n payload bytes of a live block, in memory. */
  lemma PayloadPrefix(m: seq<Byte>, s: System, b: nat, n: nat)
    requires Rep(m, s.st.tables, s.blocks) && IsData(s, b) && n <= |s.blocks[b].payload|
    ensures PayloadAt(b) + n <= |m| && m[PayloadAt(b)..PayloadAt(b) + n] == s.blocks[b].payload[..n]
  {
    HeaderAt(m, s, b);
    hide HeaderRep, NumPages, Rep;
    var payload := s.blocks[b].payload;
    SliceOfSlice(m, PayloadAt(b), |payload|, 0, n);
  }

  lemma CopyIsPut(m: seq<Byte>, s: System, reserved: set<nat>, c: nat, b: nat, n: nat)
    requires Rep(m, s.st.tables, s.blocks) && Pool(s, reserved) && IsData(s, b) && IsData(s, c) && b != c
    requires n <= |s.blocks[b].payload| && n <= |s.blocks[c].payload|
    ensures PayloadAt(b) + n <= |m| && PayloadAt(c) + n <= |m|
    ensures CopyForward(m, PayloadAt(c), PayloadAt(b), n) == Put(m, PayloadAt(c), s.blocks[b].payload[..n])
  {
    PayloadPrefix(m, s, b, n);
    PayloadPrefix(m, s, c, n);
    PayloadsApart(m, s, reserved, b, c);
    hide Rep, Pool, Put, CopyForward;
    CopyForwardMoves(m, PayloadAt(c), PayloadAt(b), n);
  }

  lemma PayloadsApart(m: seq<Byte>, s: System, reserved: set<nat>, b: nat, c: nat)
    requires Rep(m, s.st.tables, s.blocks) && Pool(s, reserved) && IsData(s, b) && IsData(s, c) && b != c
    ensures PayloadAt(b) + |s.blocks[b].payload| <= PayloadAt(c) || PayloadAt(c) + |s.blocks[c].payload| <= PayloadAt(b)
  {
    HeaderAt(m, s, b);
    HeaderAt(m, s, c);
    BlockSpan(s.blocks[b]);
    BlockSpan(s.blocks[c]);
    hide Rep, HeaderRep, NumPages, LimitPages, Separated, BlockPages;
    assert b < c || c < b;
  }

  /** krealloc_impl; None is the halt inside pm_get, and `copied` the number of bytes that memcpy
      moves. */
  method Krealloc(k: KernelMemory, address: Option<nat>, newSize: Word, line: Word)
      returns (r: Option<nat>, ghost copied: nat)
    requires k.Valid() && newSize <= TWO64 - PAGE_SIZE
    requires address.Some? ==>
      LiveAt(k.Sys(), address.value) &&
      k.blocks[address.value / PAGE_SIZE - 1].size <= |k.blocks[address.value / PAGE_SIZE - 1].payload|
    requires address.None? || NumPages(k.blocks[address.value / PAGE_SIZE - 1].size) != NumPages(newSize) ==>
      Unwrapped(NumPages(newSize) + 1, k.frames.limit)
    modifies k.mem, k`blocks, k.frames`freeSize, k.frames.bitmap
    ensures r.Some? ==> k.Valid()
    ensures r.Some? && address.None? ==> BlockAdded(old(k.Sys()), k.Sys(), newSize, r.value) && copied == 0
    ensures r.Some? && address.Some? ==>
      && Reallocated(old(k.Sys()), k.Sys(), address.value / PAGE_SIZE - 1, newSize, r.value)
      && copied == MovedBytes(old(k.blocks)[address.value / PAGE_SIZE - 1].size, newSize)
    ensures r.None? ==> FirstFit(old(k.frames.Free()), NumPages(newSize) + 1, 0, k.frames.limit).None?
    ensures r.None? && address.Some? ==>
      NumPages(old(k.blocks)[address.value / PAGE_SIZE - 1].size) != NumPages(newSize)
  {
    hide Pool, Rep, NumPages, HeaderRep, FrameAllocator.Valid, FrameAllocator.Free, BlockAdded, Reallocated, FirstFit,
      LimitPages, AgreeOutside, WordAt, Pages, FreshAt;
    copied := 0;
    if address.None? {
      r := Kmalloc(k, newSize, line);
      return;
    }
    var base := address.value - PAGE_SIZE;
    ghost var s := k.Sys();
    LimitIsSmall(k);
    var b := address.value / PAGE_SIZE - 1;
    LiveBase(address.value);
    HeaderAt(k.mem[..], s, b);
    HeaderWords(k.mem[..], base, s.blocks[b].size);
    var size := LoadWord(k.mem, base + 24);
    if NumPages(size) == NumPages(newSize) {
      ghost var m := k.mem[..];
      Resize(k.mem, base, newSize, line);
      ResizeKeepsRep(m, k.mem[..], s, k.reserved, b, newSize);
      k.blocks := k.blocks[b := Data(newSize, k.blocks[b].payload)];
      ResizedInPlace(s, b, newSize, address.value);
      r := address;
    } else {
      r, copied := Move(k, address.value, size, newSize, line);
    }
  }

  /** Bytes that krealloc copies. */
  function MovedBytes(size: Word, newSize: Word): nat {
    if NumPages(size) == NumPages(newSize) then 0 else if size > newSize then newSize else size
  }

  /** The second half of krealloc_impl, for another number of pages. */
  method Move(k: KernelMemory, address: nat, size: Word, newSize: Word, line: Word)
      returns (r: Option<nat>, ghost copied: nat)
    requires k.Valid() && newSize <= TWO64 - PAGE_SIZE && LiveAt(k.Sys(), address)
    requires var b := address / PAGE_SIZE - 1; k.blocks[b].size == size <= |k.blocks[b].payload|
    requires NumPages(size) != NumPages(newSize) && Unwrapped(NumPages(newSize) + 1, k.frames.limit)
    modifies k.mem, k`blocks, k.frames`freeSize, k.frames.bitmap
    ensures r.Some? ==> k.Valid() && copied == MovedBytes(size, newSize)
    ensures r.Some? ==> Reallocated(old(k.Sys()), k.Sys(), address / PAGE_SIZE - 1, newSize, r.value)
    ensures r.None? ==> FirstFit(old(k.frames.Free()), NumPages(newSize) + 1, 0, k.frames.limit).None?
  {
    hide Pool, Rep, NumPages, HeaderRep, FrameAllocator.Valid, FrameAllocator.Free, BlockAdded, Reallocated, FirstFit,
      LimitPages, AgreeOutside, WordAt, Pages, FreshAt;
    copied := 0;
    ghost var s := k.Sys();
    LimitIsSmall(k);
    var b := address / PAGE_SIZE - 1;
    LiveBase(address);
    HeaderAt(k.mem[..], s, b);
    r := Kmalloc(k, newSize, line);
    if r.None? {
      return;
    }
    ghost var s1 := k.Sys();
    var c := r.value / PAGE_SIZE - 1;
    var len := if size > newSize then newSize else size;
    MoveReady(s, s1, b, newSize, r.value);
    ClearPayload(k, c, newSize);
    copied := CopyPayload(k, c, b, len);
    WrittenTwice(s1, c, Put(s1.blocks[c].payload, 0, Fill(0, newSize)),
                 MovedPayload(s1.blocks[c].payload, s.blocks[b].payload[..len], newSize));
    StillLive(k.Sys(), address, b);
    Kfree(k, address);
    Moved(s, s1, b, newSize, r.value);
  }

  lemma LimitIsSmall(k: KernelMemory)
    requires k.Valid()
    ensures k.frames.limit <= MAX_LIMIT / 16
  {
    k.frames.LimitFits();
  }

  lemma WrittenTwice(s: System, c: nat, p: seq<Byte>, q: seq<Byte>)
    requires IsData(s, c)
    ensures WithPayload(WithPayload(s, c, p), c, q) == WithPayload(s, c, q)
  {
    assert s.blocks[c := Data(s.blocks[c].size, p)][c := Data(s.blocks[c].size, q)]
        == s.blocks[c := Data(s.blocks[c].size, q)];
  }

  lemma StillLive(s: System, address: nat, b: nat)
    requires address % PAGE_SIZE == 0 && address >= 2 * PAGE_SIZE && b == address / PAGE_SIZE - 1 && IsData(s, b)
    ensures LiveAt(s, address)
  {
  }

  lemma ResizedInPlace(s: System, b: nat, size: Word, address: nat)
    requires address % PAGE_SIZE == 0 && address >= 2 * PAGE_SIZE && b == address / PAGE_SIZE - 1
    requires Lent(s, b) && NumPages(s.blocks[b].size) == NumPages(size)
    requires s.blocks[b].size <= |s.blocks[b].payload| && s.st.limit <= MAX_LIMIT
    ensures Reallocated(s, s.(blocks := s.blocks[b := Data(size, s.blocks[b].payload)]), b, size, address)
  {
    hide NumPages;
  }

  lemma MoveReady(s: System, s1: System, b: nat, size: Word, address: nat)
    requires BlockAdded(s, s1, size, address) && IsData(s, b) && size <= TWO64 - PAGE_SIZE
    ensures var c := address / PAGE_SIZE - 1;
      IsData(s1, c) && IsData(s1, b) && b != c && size <= |s1.blocks[c].payload| && s1.blocks[b] == s.blocks[b]
  {
    NumPagesExact(size);
    hide NumPages, NewBlock;
  }

  /** The payload after clearing and copying. */
  function MovedPayload(p: seq<Byte>, kept: seq<Byte>, size: Word): seq<Byte>
    requires size <= |p| && |kept| <= |p|
  {
    Put(Put(p, 0, Fill(0, size)), 0, kept)
  }

  lemma Moved(s: System, s1: System, b: nat, size: Word, address: nat)
    requires BlockAdded(s, s1, size, address) && Lent(s, b) && size <= TWO64 - PAGE_SIZE
    requires NumPages(s.blocks[b].size) != NumPages(size) && s.blocks[b].size <= |s.blocks[b].payload|
    requires s.st.limit <= MAX_LIMIT && Unwrapped(NumPages(size) + 1, s.st.limit)
    ensures var c, was := address / PAGE_SIZE - 1, s.blocks[b];
      && IsData(s1, c) && size <= |s1.blocks[c].payload|
      && var kept := was.payload[..Min(size, was.size)];
         var s3 := WithPayload(s1, c, MovedPayload(s1.blocks[c].payload, kept, size));
         b in s3.blocks && Reallocated(s, DropBlock(s3, b), b, size, address)
  {
    MoveReady(s, s1, b, size, address);
    var c, was := address / PAGE_SIZE - 1, s.blocks[b];
    var p, kept := s1.blocks[c].payload, was.payload[..Min(size, was.size)];
    var p' := MovedPayload(p, kept, size);
    assert Fresh(size, p', kept);
    SameNewBlock(s, s1, size, address, p');
    hide NewBlock, NumPages, Fresh, MovedPayload;
  }

  /** The contents of a new block do not influence where it goes. */
  lemma SameNewBlock(s: System, s1: System, size: Word, address: nat, p: seq<Byte>)
    requires BlockAdded(s, s1, size, address) && |p| == PAGE_SIZE * NumPages(size)
    ensures var c := address / PAGE_SIZE - 1;
      IsData(s1, c) && NewBlock(s, size, p) == Done(WithPayload(s1, c, p))
  {
    hide NumPages, Pages, FirstFit;
    var c := address / PAGE_SIZE - 1;
    var a := FirstFit(s.st.free, NumPages(size) + 1, 0, s.st.limit).value;
    var q := s1.blocks[c].payload;
    BlockLength(size, q);
    BlockLength(size, p);
    assert s1 == AddBlock(s, a / PAGE_SIZE, Data(size, q));
    assert a / PAGE_SIZE == c by {
      assert c in s.blocks[a / PAGE_SIZE := Data(size, q)];
    }
    assert s.blocks[c := Data(size, p)] == s1.blocks[c := Data(size, p)];
  }

  // ---------------------------------------------------------------- a block becomes a root table

  const ROOT_BYTES: Word := 32768

  lemma RootBlock(payload: seq<Byte>)
    requires Fresh(ROOT_BYTES, payload, [])
    ensures |payload| == 32768 && forall j :: 0 <= j < 32768 ==> payload[j] == 0
  {
  }

  /** The system in which block b, whose payload is zero, has become a root table. */
  function Adopted(s: System, b: nat): System
    requires b in s.blocks
  {
    s.(st := s.st.(tables := s.st.tables[PAGE_SIZE * (b + 1) := ZEROS]), blocks := s.blocks[b := RootHeader])
  }

  lemma AdoptKeeps(m: seq<Byte>, s: System, reserved: set<nat>, b: nat)
    requires Rep(m, s.st.tables, s.blocks) && Pool(s, reserved) && IsData(s, b)
    requires s.blocks[b].size == ROOT_BYTES && Fresh(ROOT_BYTES, s.blocks[b].payload, [])
    ensures Rep(m, Adopted(s, b).st.tables, Adopted(s, b).blocks)
    ensures Pool(Adopted(s, b), reserved)
  {
    AdoptRep(m, s, b);
    AdoptPool(s, reserved, b);
  }

  lemma AdoptRep(m: seq<Byte>, s: System, b: nat)
    requires Rep(m, s.st.tables, s.blocks) && IsData(s, b)
    requires s.blocks[b].size == ROOT_BYTES && Fresh(ROOT_BYTES, s.blocks[b].payload, [])
    ensures Rep(m, Adopted(s, b).st.tables, Adopted(s, b).blocks)
  {
    RootBlock(s.blocks[b].payload);
    HeaderAt(m, s, b);
    hide HeaderRep;
    var a := PAGE_SIZE * (b + 1);
    assert m[a..a + 32768] == s.blocks[b].payload;
    forall x | a <= x < a + 32768
      ensures m[x] == 0
    {
      assert m[x] == m[a..a + 32768][x - a];
    }
    ZeroTable(m, a);
    hide TableRep;
    assert BlockRep(m, b, RootHeader);
    hide BlockRep;
  }

  lemma AdoptPool(s: System, reserved: set<nat>, b: nat)
    requires Pool(s, reserved) && IsData(s, b)
    requires s.blocks[b].size == ROOT_BYTES && Fresh(ROOT_BYTES, s.blocks[b].payload, [])
    ensures Pool(Adopted(s, b), reserved)
  {
    RootBlock(s.blocks[b].payload);
    var s' := Adopted(s, b);
    RootLength(s.blocks[b]);
    ExchangeOne(s.blocks, b, RootHeader);
    hide Fresh, Pages, LimitPages, Separated;
    RestApart(s, reserved, b);
    BlockAlone(s, reserved, b);
    AdoptedApart(s.blocks, s.st.limit, b);
    hide BlocksApart;
    BlockPagesSplit(s.blocks, b);
    BlockPagesSplit(s'.blocks, b);
    hide BlockPages;
    RunSplit(b);
    DivModUnique(PAGE_SIZE * (b + 1), PAGE_SIZE, b + 1, 0);
    AdoptSeparated(s.st, BlockPages(s.blocks - {b}) + reserved, b);
    assert BlockPages(s'.blocks) + reserved == BlockPages(s.blocks - {b}) + reserved + Pages(b, 1);
  }

  lemma ExchangeOne(blocks: map<nat, Block>, b: nat, blk: Block)
    ensures blocks[b := blk] - {b} == blocks - {b}
  {
  }

  lemma RootLength(blk: Block)
    requires blk.Data? && |blk.payload| == 32768
    ensures blk.Length() == 9
  {
  }

  lemma RunSplit(b: nat)
    ensures Pages(b, 9) == Pages(b, 1) + Pages(b + 1, 8) && Pages(b, 1) !! Pages(b + 1, 8)
  {
    assert forall p :: p in Pages(b, 9) <==> p in Pages(b, 1) || p in Pages(b + 1, 8);
  }

  lemma AdoptedApart(blocks: map<nat, Block>, limit: nat, b: nat)
    requires BlocksApart(blocks, limit) && b in blocks
    ensures BlocksApart(blocks[b := RootHeader], limit)
  {
    hide LimitPages, NumPages;
  }

  lemma AdoptSeparated(st: Store, rest: set<nat>, b: nat)
    requires Separated(st, rest + Pages(b, 9)) && rest !! Pages(b, 9)
    requires b > 0 && b + 9 <= LimitPages(st.limit) && Pages(b, 9) !! st.free
    requires forall a :: a in st.tables ==> Pages(b, 9) !! Extent(a)
    ensures Separated(st.(tables := st.tables[PAGE_SIZE * (b + 1) := ZEROS]), rest + Pages(b, 1))
  {
    RunSplit(b);
    var root := PAGE_SIZE * (b + 1);
    DivModUnique(root, PAGE_SIZE, b + 1, 0);
    hide Pages, LimitPages;
    forall a | a in st.tables
      ensures a / PAGE_SIZE + DEFAULT_PAGES <= b + 1 || b + 9 <= a / PAGE_SIZE
    {
      assert b + 1 in Pages(b, 9) && a / PAGE_SIZE in Extent(a);
      assert Pages(b, 9) !! Extent(a);
      assert a / PAGE_SIZE !in Pages(b, 9) && b + 1 !in Extent(a);
    }
  }

  /** kmalloc(PAGE_SIZE * DEFAULT_PAGES) for a root table: None is a halt. */
  method NewRoot(k: KernelMemory, line: Word) returns (r: Option<Word>)
    requires k.Valid()
    modifies k.mem, k`blocks, k`tables, k.frames`freeSize, k.frames.bitmap
    ensures r.Some? ==> k.Valid() && r.value in k.tables && k.tables[r.value] == ZEROS
    ensures r.Some? ==> RootAdded(old(k.Sys()), k.Sys(), r.value)
    ensures r.Some? ==>
      var c := r.value / PAGE_SIZE - 1; c >= 0 && c !in old(k.blocks) && k.blocks == old(k.blocks)[c := RootHeader]
    ensures r.None? ==> forall i :: AddRoot(old(k.Sys()), i).Halt?
  {
    hide Pool, Rep, LimitPages, FrameAllocator.Valid, FrameAllocator.Free, BlockAdded, RootAdded, FirstFit;
    ghost var s := k.Sys();
    assert NumPages(ROOT_BYTES) == 8;
    k.SmallRunsFit(9);
    var got := Kmalloc(k, ROOT_BYTES, line);
    if got.None? {
      return None;
    }
    ghost var s1, b := k.Sys(), got.value / PAGE_SIZE - 1;
    RootAdoptable(s, s1, k.reserved, got.value);
    AddedBlock(s, s1, ROOT_BYTES, got.value);
    AdoptKeeps(k.mem[..], s1, k.reserved, b);
    k.tables := k.tables[got.value := ZEROS];
    k.blocks := k.blocks[b := RootHeader];
    return Some(got.value);
  }

  lemma AddedBlock(s: System, s1: System, size: Word, address: nat)
    requires BlockAdded(s, s1, size, address)
    ensures var b := address / PAGE_SIZE - 1;
      b !in s.blocks && b in s1.blocks && s1.blocks == s.blocks[b := s1.blocks[b]]
  {
    hide NewBlock, Fresh;
  }

  /** s' is s with a new root table at `root`: what AddRoot does, apart from registering the space. */
  ghost predicate RootAdded(s: System, s': System, root: Word) {
    forall i :: AddRoot(s, i) == Done((WithSpace(s', i, s'.st, s'.logVec, Space(root, [], NO_VEC)), root))
  }

  lemma RootAdoptable(s: System, s1: System, reserved: set<nat>, address: nat)
    requires BlockAdded(s, s1, ROOT_BYTES, address)
    requires Pool(s1, reserved)
    ensures var b := address / PAGE_SIZE - 1;
      && address == PAGE_SIZE * (b + 1) && address < TWO64
      && IsData(s1, b) && s1.blocks[b].size == ROOT_BYTES && Fresh(ROOT_BYTES, s1.blocks[b].payload, [])
      && RootAdded(s, Adopted(s1, b), address)
  {
    var b := address / PAGE_SIZE - 1;
    RootBlock(s1.blocks[b].payload);
    RootLength(s1.blocks[b]);
    RootPlace(s, s1, address);
    RootInMemory(s1, reserved, b);
    hide Fresh, FirstFit, Pages, LimitPages, Pool, BlockAdded, RootAdded, NewBlock;
    AdoptionIsRoot(s, s1, b, address);
  }

  lemma AdoptionIsRoot(s: System, s1: System, b: nat, root: Word)
    requires b !in s.blocks && b in s1.blocks && s1.blocks[b].Length() == 9
    requires s1 == AddBlock(s, b, s1.blocks[b])
    requires root == PAGE_SIZE * (b + 1) && FirstFit(s.st.free, 9, 0, s.st.limit) == Some(PAGE_SIZE * b)
    ensures RootAdded(s, Adopted(s1, b), root)
  {
    hide FirstFit, Pages;
    DivModUnique(PAGE_SIZE * b, PAGE_SIZE, b, 0);
    DivModUnique(root, PAGE_SIZE, b + 1, 0);
    RunSplit(b);
    var s' := Adopted(s1, b);
    assert s.blocks[b := RootHeader] == s'.blocks;
    assert (s.st.free - Pages(b, 1)) - Pages(b + 1, 8) == s.st.free - Pages(b, 9);
  }

  lemma RootPlace(s: System, s1: System, address: nat)
    requires BlockAdded(s, s1, ROOT_BYTES, address)
    ensures var b := address / PAGE_SIZE - 1;
      && FirstFit(s.st.free, 9, 0, s.st.limit) == Some(PAGE_SIZE * b)
      && address == PAGE_SIZE * (b + 1)
      && s1 == AddBlock(s, b, s1.blocks[b]) && b !in s.blocks
  {
    hide Fresh, Pages, FirstFit;
    var b := address / PAGE_SIZE - 1;
    assert NumPages(ROOT_BYTES) == 8;
    var a := FirstFit(s.st.free, 9, 0, s.st.limit).value;
    FirstFitExact(s.st.free, 9, 0, s.st.limit);
    StepsFromZero(a);
    assert a / PAGE_SIZE == b by {
      assert b in s.blocks[a / PAGE_SIZE := s1.blocks[b]];
    }
  }

  lemma RootInMemory(s: System, reserved: set<nat>, b: nat)
    requires Pool(s, reserved) && b in s.blocks && s.blocks[b].Length() == 9
    ensures PAGE_SIZE * (b + 1) < TWO64
  {
    assert b + 9 <= LimitPages(s.st.limit);
  }
}
