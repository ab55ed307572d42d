/** The paging code of mmu.c on physical memory, with the memory lists and the log as vectors on
    the kernel heap, each operation tied to the abstract one. */
module Paging {
  import opened Words
  import opened Wrappers
  import opened Bytes
  import opened Frames
  import G = Growth
  import opened Boot
  import T = Tables
  import L = Lookup
  import R = Ranges
  import opened Replay
  import opened Init
  import opened Systems
  import opened Calls
  import opened Runs
  import opened Machine
  import opened Heap
  import opened Vectors

  // ---------------------------------------------------------------- elements of the two vectors

  /** A uint64_t element of a memory list. */
  function WordOf(e: seq<Byte>): Word {
    if |e| == 8 then WordAt(e, 0) else 0
  }

  lemma WordOfBytes(w: Word)
    ensures WordOf(ToBytes(w, 8)) == w
  {
    Pow256Eight();
    FromToBytes(w, 8);
    assert ToBytes(w, 8)[0..8] == ToBytes(w, 8);
  }

  function WordsOf(es: seq<seq<Byte>>): (ws: seq<nat>)
    ensures |ws| == |es| && forall i :: 0 <= i < |es| ==> ws[i] == WordOf(es[i])
  {
    seq(|es|, i requires 0 <= i < |es| => WordOf(es[i]))
  }

  /** A MEM_MAP element of the log. */
  function RecordOf(e: seq<Byte>): Record {
    if |e| == RECORD_SIZE then Record(WordAt(e, 0), WordAt(e, 8), WordAt(e, 16), WordAt(e, 24)) else Record(0, 0, 0, 0)
  }

  function RecordBytes(r: Record): (e: seq<Byte>)
    ensures |e| == RECORD_SIZE
  {
    ToBytes(r.virt, 8) + ToBytes(r.phys, 8) + ToBytes(r.flags, 8) + ToBytes(r.n, 8)
  }

  lemma RecordOfBytes(r: Record)
    requires r.n < TWO64
    ensures RecordOf(RecordBytes(r)) == r
  {
    Pow256Eight();
    FromToBytes(r.virt, 8);
    FromToBytes(r.phys, 8);
    FromToBytes(r.flags, 8);
    FromToBytes(r.n, 8);
    FourWords(ToBytes(r.virt, 8), ToBytes(r.phys, 8), ToBytes(r.flags, 8), ToBytes(r.n, 8));
    hide ToBytes, FromBytes;
  }

  lemma FourWords(a: seq<Byte>, b: seq<Byte>, c: seq<Byte>, d: seq<Byte>)
    requires |a| == |b| == |c| == |d| == 8
    ensures var e := a + b + c + d;
      e[0..8] == a && e[8..16] == b && e[16..24] == c && e[24..32] == d
  {
  }

  function RecordsOf(es: seq<seq<Byte>>): (rs: seq<Record>)
    ensures |rs| == |es| && forall i :: 0 <= i < |es| ==> rs[i] == RecordOf(es[i])
  {
    seq(|es|, i requires 0 <= i < |es| => RecordOf(es[i]))
  }

  /** One block moved or grew; another that was there is as it was. */
  lemma OtherBlockStays(was: map<nat, Block>, now: map<nat, Block>, b: nat, b': nat, c: nat)
    requires now - {b'} == was - {b} && c in was && c != b
    ensures c in now && now[c] == was[c] && c != b'
  {
    assert c in was - {b};
    assert c in now - {b'};
    assert (now - {b'})[c] == (was - {b})[c];
  }

  lemma WithoutBoth(was: map<nat, Block>, now: map<nat, Block>, b: nat, b': nat, c: nat)
    requires now - {b'} == was - {b}
    ensures now - {b'} - {c} == was - {b} - {c} && now - {c} - {b'} == was - {c} - {b}
  {
    assert now - {c} - {b'} == now - {b'} - {c};
    assert was - {c} - {b} == was - {b} - {c};
  }

  // ---------------------------------------------------------------- ADDR_SPACE

  class AddressSpace {
    var pml4: nat
    const memoryList: Vector

    constructor (memory: KernelMemory, pml4: nat)
      ensures this.pml4 == pml4 && fresh(memoryList)
      ensures memoryList.k == memory && memoryList.z == T.LIST_ENTRY
      ensures memoryList.data.None? && memoryList.length == memoryList.capacity == 0
    {
      this.pml4 := pml4;
      memoryList := new Vector(memory, T.LIST_ENTRY);
    }

    /** The memory list as addresses. */
    ghost function List(): seq<nat>
      requires memoryList.Backed()
      reads memoryList, memoryList.k`blocks
    {
      WordsOf(memoryList.Items())
    }

    ghost function Abs(): T.Space
      requires memoryList.Backed()
      reads this, memoryList, memoryList.k`blocks
    {
      T.Space(pml4, List(), memoryList.Block())
    }

    /** The loop that looks for x in the memory list and erases it. */
    method EraseFromList(x: nat)
      requires memoryList.Valid() && memoryList.z == T.LIST_ENTRY
      requires T.DropSafe(memoryList.k.frames.limit, memoryList.Block(), List(), x)
      modifies memoryList`length, memoryList.k.mem, memoryList.k`blocks
      ensures memoryList.Valid() && memoryList.Others() == old(memoryList.Others())
      ensures List() == T.EraseFirst(old(List()), x)
    {
      hide KernelMemory.Valid, Vector.Backed, Vector.Items, G.EraseSafe, FrameAllocator.Free;
      ghost var list := List();
      var i := 0;
      while i < memoryList.length
        invariant memoryList.Valid() && memoryList.length == old(memoryList.length)
        invariant memoryList.k.blocks == old(memoryList.k.blocks)
        invariant i <= memoryList.length && List() == list
        invariant x !in list[..i]
      {
        var e := memoryList.At(i);
        if WordOf(e) == x {
          FirstHere(list, x, i);
          EraseAt(list, i);
          EraseEntry(i);
          return;
        }
        i := i + 1;
      }
      EraseNowhere(list, x);
    }

    /** vector_erase of entry i of the memory list. */
    method EraseEntry(i: nat)
      requires memoryList.Valid() && memoryList.z == T.LIST_ENTRY && i < |List()|
      requires G.EraseSafe(memoryList.k.frames.limit, memoryList.Block(), T.LIST_ENTRY, |List()|, i)
      modifies memoryList`length, memoryList.k.mem, memoryList.k`blocks
      ensures memoryList.Valid() && memoryList.Others() == old(memoryList.Others())
      ensures List() == old(List())[..i] + old(List())[i + 1..]
    {
      hide KernelMemory.Valid, Vector.Backed, Vector.Items, G.EraseSafe, FrameAllocator.Free, WordOf;
      ghost var list := List();
      memoryList.EraseSafeHere(i);
      memoryList.Erase(i);
      assert List() == list[..i] + list[i + 1..];
    }
  }

  lemma FirstHere(list: seq<nat>, x: nat, i: nat)
    requires i < |list| && list[i] == x && x !in list[..i]
    ensures T.FirstIndex(list, x) == i
  {
    var j := T.FirstIndex(list, x);
    assert forall k :: 0 <= k < i ==> list[..i][k] == list[k];
    assert forall k :: 0 <= k < j ==> list[..j][k] == list[k];
  }

  lemma {:induction false} EraseAt(list: seq<nat>, i: nat)
    requires i < |list| && list[i] !in list[..i]
    ensures T.EraseFirst(list, list[i]) == list[..i] + list[i + 1..]
  {
    if i > 0 {
      assert list[..i][0] == list[0];
      assert list[1..][..i - 1] == list[..i][1..];
      EraseAt(list[1..], i - 1);
    }
  }

  lemma {:induction false} EraseNowhere(list: seq<nat>, x: nat)
    requires x !in list
    ensures T.EraseFirst(list, x) == list
  {
    if list != [] {
      EraseNowhere(list[1..], x);
    }
  }

  /** The words of physical page 0, as vm_get_phys_addr may read them. */
  ghost function LowWords(m: seq<Byte>): (low: L.LowPage)
    requires |m| >= PAGE_SIZE
    ensures forall i :: 0 <= i < 512 ==> low[i] == WordAt(m, 8 * i)
  {
    seq(512, i requires 0 <= i < 512 => WordAt(m, 8 * i))
  }

  class VirtualMemory {
    const memory: KernelMemory
    const kernelSpace: AddressSpace
    const globalMemMap: Vector

    constructor (memory: KernelMemory, kernelSpace: AddressSpace)
      ensures this.memory == memory && this.kernelSpace == kernelSpace
      ensures fresh(globalMemMap) && globalMemMap.k == memory && globalMemMap.z == RECORD_SIZE
      ensures globalMemMap.data.None? && globalMemMap.Backed()
    {
      this.memory, this.kernelSpace := memory, kernelSpace;
      globalMemMap := new Vector(memory, RECORD_SIZE);
    }

    /** CONVERT_ADDR_SPACE. */
    function Convert(target: AddressSpace?): AddressSpace {
      if target == null then kernelSpace else target
    }

    ghost function State(): T.Store
      reads memory, memory.frames, memory.frames.bitmap
    {
      memory.State()
    }

    /** Memory is in order, and so are the memory list of this space and the log, in blocks of
        their own. */
    ghost predicate Ready(space: AddressSpace)
      reads memory, memory.frames, memory.frames.bitmap, memory.mem, space.memoryList, globalMemMap
    {
      && memory.Valid() && space.memoryList.k == memory && globalMemMap.k == memory
      && ListReady(space) && LogReady() && Distinct(space)
    }

    ghost predicate ListReady(space: AddressSpace)
      reads space.memoryList, space.memoryList.k`blocks
    {
      space.memoryList.k == memory && space.memoryList.z == T.LIST_ENTRY && space.memoryList.Backed()
    }

    ghost predicate LogReady()
      reads globalMemMap, globalMemMap.k`blocks
    {
      globalMemMap.k == memory && globalMemMap.z == RECORD_SIZE && globalMemMap.Backed()
    }

    ghost predicate Distinct(space: AddressSpace)
      reads space.memoryList, globalMemMap
    {
      && space.memoryList != globalMemMap
      && (space.memoryList.data.Some? && globalMemMap.data.Some? ==> space.memoryList.Base() != globalMemMap.Base())
    }

    /** The log as records. */
    ghost function Log(): seq<Record>
      requires globalMemMap.Backed()
      reads globalMemMap, globalMemMap.k`blocks
    {
      RecordsOf(globalMemMap.Items())
    }

    /** All blocks but those of this space's list and of the log. */
    ghost function Rest(space: AddressSpace): map<nat, Block>
      reads memory`blocks, space.memoryList, globalMemMap
    {
      memory.blocks - {space.memoryList.Base()} - {globalMemMap.Base()}
    }

    /** The machine without address spaces; `space`, whose list is not among the blocks, is the one
        being worked on. */
    ghost function View(space: AddressSpace): System
      requires globalMemMap.Backed()
      reads memory, memory.frames, memory.frames.bitmap, space.memoryList, globalMemMap, globalMemMap.k`blocks
    {
      System(State(), Rest(space), map[], map[], Log(), globalMemMap.Block())
    }

    /** t[i] = w leaves lists and log alone. */
    method Store(space: AddressSpace, t: nat, i: nat, w: Word)
      requires Ready(space) && t in memory.tables && i < T.TABLE_WORDS
      modifies memory.mem, memory`tables
      ensures Ready(space) && Rest(space) == old(Rest(space)) && Log() == old(Log()) && space.Abs() == old(space.Abs())
      ensures State() == T.SetEntry(old(State()), t, i, w)
    {
      hide KernelMemory.Valid, FrameAllocator.Free, Vector.Backed, Vector.Items;
      memory.StoreEntry(t, i, w);
    }

    // -------------------------------------------------------------- map_page_entry

    /** vector_append to the memory list of a space. */
    method Remember(space: AddressSpace, a: Word) returns (ok: bool)
      requires Ready(space)
      modifies memory.mem, memory`blocks, memory.frames`freeSize, memory.frames.bitmap, space.memoryList
      ensures ok <==> G.Grow(old(State()).free, old(State()).limit, old(space.Abs()).vec, |old(space.Abs()).list| + 1,
                             T.LIST_ENTRY).Done?
      ensures ok ==> Ready(space) && Rest(space) == old(Rest(space)) && Log() == old(Log())
      ensures ok ==>
        var (free, vec) := G.Grow(old(State()).free, old(State()).limit, old(space.Abs()).vec,
                                  |old(space.Abs()).list| + 1, T.LIST_ENTRY).value;
        State() == old(State()).(free := free) && space.Abs() == T.Space(space.pml4, old(space.Abs()).list + [a], vec)
    {
      hide KernelMemory.Valid, FrameAllocator.Free, G.Grow, Vector.Items, Vector.Backed, Vector.Others, WordOf,
        Distinct;
      WordOfBytes(a);
      OtherVector(space);
      ok := space.memoryList.Append(ToBytes(a, 8));
      if ok {
        LogBeside(space);
      }
    }

    lemma OtherVector(space: AddressSpace)
      requires Distinct(space)
      ensures space.memoryList != globalMemMap
    {
    }

    /** The list may have changed or moved, but no other block did: the log is as it was. */
    twostate lemma LogBeside(space: AddressSpace)
      requires old(LogReady()) && old(Distinct(space)) && space.memoryList.k == memory
      requires globalMemMap.length == old(globalMemMap.length) && globalMemMap.capacity == old(globalMemMap.capacity)
      requires globalMemMap.data == old(globalMemMap.data)
      requires space.memoryList.Others() == old(space.memoryList.Others())
      ensures LogReady() && Distinct(space) && Log() == old(Log()) && Rest(space) == old(Rest(space))
    {
      hide Vector.Items;
      ghost var b, c := old(space.memoryList.Base()), globalMemMap.Base();
      WithoutBoth(old(memory.blocks), memory.blocks, b, space.memoryList.Base(), c);
      if globalMemMap.data.Some? {
        LogBase(space);
        OtherBlockStays(old(memory.blocks), memory.blocks, b, space.memoryList.Base(), c);
      }
      assert globalMemMap.Contents() == old(globalMemMap.Contents());
      SameItems();
    }

    twostate lemma LogBase(space: AddressSpace)
      requires old(LogReady()) && old(Distinct(space)) && old(globalMemMap.data.Some?)
      ensures old(globalMemMap.Base()) in old(memory.blocks) && old(globalMemMap.Base()) != old(space.memoryList.Base())
    {
    }

    /** And the other way round. */
    twostate lemma ListBeside(space: AddressSpace)
      requires old(ListReady(space)) && old(Distinct(space)) && globalMemMap.k == memory
      requires space.memoryList.length == old(space.memoryList.length)
      requires space.memoryList.capacity == old(space.memoryList.capacity)
      requires space.memoryList.data == old(space.memoryList.data) && space.pml4 == old(space.pml4)
      requires globalMemMap.Others() == old(globalMemMap.Others())
      ensures ListReady(space) && Distinct(space) && space.Abs() == old(space.Abs()) && Rest(space) == old(Rest(space))
    {
      hide Vector.Items;
      ghost var b, c := old(globalMemMap.Base()), space.memoryList.Base();
      WithoutBoth(old(memory.blocks), memory.blocks, b, globalMemMap.Base(), c);
      if space.memoryList.data.Some? {
        ListBase(space);
        OtherBlockStays(old(memory.blocks), memory.blocks, b, globalMemMap.Base(), c);
      }
      assert space.memoryList.Contents() == old(space.memoryList.Contents());
      SameList(space);
    }

    twostate lemma ListBase(space: AddressSpace)
      requires old(ListReady(space)) && old(Distinct(space)) && old(space.memoryList.data.Some?)
      ensures old(space.memoryList.Base()) in old(memory.blocks)
      ensures old(globalMemMap.Base()) != old(space.memoryList.Base())
    {
    }

    twostate lemma SameItems()
      requires old(globalMemMap.Backed()) && globalMemMap.Backed()
      requires globalMemMap.length == old(globalMemMap.length)
      requires globalMemMap.Contents() == old(globalMemMap.Contents())
      ensures Log() == old(Log())
    {
      hide RecordOf;
    }

    /** One level of map_page_entry; None is a halt. */
    method Ensure(space: AddressSpace, t: nat, i: nat) returns (r: Option<Word>)
      requires Ready(space) && t in memory.tables && i < 512
      modifies memory.mem, memory`tables, memory`blocks, memory.frames`freeSize, memory.frames.bitmap, space.memoryList
      ensures r.None? <==> T.Ensure(old(State()), old(space.Abs()), t, i).Halt?
      ensures r.Some? ==> Ready(space) && Rest(space) == old(Rest(space)) && Log() == old(Log())
      ensures r.Some? ==> T.Ensure(old(State()), old(space.Abs()), t, i) == Done((State(), space.Abs(), r.value))
    {
      hide KernelMemory.Valid, FrameAllocator.Free, MakeTableEntry, Present, FrameMask, T.AllocTable, G.Grow,
        Vector.Backed, Vector.Items;
      var e := memory.LoadEntry(t, i);
      if Present(e) {
        return Some(FrameMask(e));
      }
      ghost var st := State();
      var got := memory.AllocTable();
      if got.None? {
        return None;
      }
      TableStays(st, t);
      Store(space, t, i, MakeTableEntry(got.value, VM_USERMODE));
      G.GrowOrHalt(State().free, State().limit, space.Abs().vec, |space.Abs().list| + 1, T.LIST_ENTRY);
      var ok := Remember(space, got.value);
      if !ok {
        return None;
      }
      return Some(got.value);
    }

    /** map_page_entry; false is a halt. */
    method MapPageEntry(target: AddressSpace?, virtAddr: Word, physAddr: Word, flags: Word) returns (ok: bool)
      requires Ready(Convert(target))
      requires !T.MapEntry(State(), Convert(target).Abs(), virtAddr, physAddr, flags).Fault?
      modifies memory.mem, memory`tables, memory`blocks, memory.frames`freeSize, memory.frames.bitmap,
               Convert(target).memoryList
      ensures ok ==>
        Ready(Convert(target)) && Rest(Convert(target)) == old(Rest(Convert(target))) && Log() == old(Log())
      ensures ok ==>
        T.MapEntry(old(State()), old(Convert(target).Abs()), virtAddr, physAddr, flags)
          == Done((State(), Convert(target).Abs()))
      ensures !ok ==> T.MapEntry(old(State()), old(Convert(target).Abs()), virtAddr, physAddr, flags).Halt?
    {
      hide KernelMemory.Valid, FrameAllocator.Free, MakeTableEntry, FrameMask, Index, T.Ensure, T.SetEntry,
        Vector.Backed, Vector.Items;
      PathBoundsOf(virtAddr);
      var space := Convert(target);
      assert !T.Ensure(State(), space.Abs(), space.pml4, Index(virtAddr, 4)).Fault?;
      TableNotFault(State(), space.Abs(), space.pml4, Index(virtAddr, 4));
      var pdpt := Ensure(space, space.pml4, Index(virtAddr, 4));
      if pdpt.None? {
        return false;
      }
      TableNotFault(State(), space.Abs(), pdpt.value, Index(virtAddr, 3));
      var pd := Ensure(space, pdpt.value, Index(virtAddr, 3));
      if pd.None? {
        return false;
      }
      TableNotFault(State(), space.Abs(), pd.value, Index(virtAddr, 2));
      var pt := Ensure(space, pd.value, Index(virtAddr, 2));
      if pt.None? {
        return false;
      }
      Store(space, pt.value, Index(virtAddr, 1), MakeTableEntry(FrameMask(physAddr), flags));
      return true;
    }

    // -------------------------------------------------------------- unmap_page_entry

    /** The emptiness scan over PAGE_SIZE words of a buffer. */
    method TableEmpty(a: nat) returns (empty: bool)
      requires memory.Valid() && a in memory.tables
      ensures empty <==> T.AllZero(memory.tables[a])
    {
      var i := 0;
      while i < PAGE_SIZE
        invariant i <= PAGE_SIZE
        invariant forall j :: 0 <= j < i ==> memory.tables[a][j] == 0
      {
        var w := memory.LoadEntry(a, i);
        if w != 0 {
          return false;
        }
        i := i + 1;
      }
      return true;
    }

    /** The search in the memory list, with the log left alone. */
    method Forget(space: AddressSpace, a: nat)
      requires Ready(space) && T.DropSafe(State().limit, space.Abs().vec, space.Abs().list, a)
      modifies memory.mem, memory`blocks, space.memoryList`length
      ensures Ready(space) && Rest(space) == old(Rest(space)) && Log() == old(Log())
      ensures State() == old(State())
      ensures space.Abs() == old(space.Abs()).(list := T.EraseFirst(old(space.Abs()).list, a))
    {
      hide KernelMemory.Valid, FrameAllocator.Free, T.EraseFirst, T.DropSafe, Vector.Items, Vector.Backed,
        Vector.Others, Distinct;
      TwoArrays();
      OtherVector(space);
      space.EraseFromList(a);
      LogBeside(space);
    }

    lemma TwoArrays()
      requires memory.Valid()
      ensures memory.mem as object != memory.frames.bitmap as object
    {
    }

    /** Clear the parent's entry, free the table, erase it from the memory list. */
    method Unlink(space: AddressSpace, parent: nat, i: nat, child: nat)
      requires Ready(space) && child in memory.tables && i < 512
      requires T.Unlink(State(), space.Abs(), parent, i, child).Done?
      modifies memory.mem, memory`tables, memory`blocks, memory.frames`freeSize, memory.frames.bitmap,
               space.memoryList`length
      ensures Ready(space) && Rest(space) == old(Rest(space)) && Log() == old(Log())
      ensures T.Unlink(old(State()), old(space.Abs()), parent, i, child) == Done((State(), space.Abs()))
    {
      hide KernelMemory.Valid, FrameAllocator.Free, T.FreeTable, T.EraseFirst, T.DropSafe, Vector.Backed, Vector.Items;
      Store(space, parent, i, 0);
      var ok := memory.FreeTable(child);
      assert ok;
      FreedLimit(old(State()), parent, i, child);
      Forget(space, child);
    }

    /** unmap_page_entry. The failure branches of pm_free cannot be taken, so it never halts. */
    method UnmapPageEntry(target: AddressSpace?, virtAddr: Word)
      requires Ready(Convert(target))
      requires T.UnmapEntry(State(), Convert(target).Abs(), virtAddr).Done?
      modifies memory.mem, memory`tables, memory`blocks, memory.frames`freeSize, memory.frames.bitmap,
               Convert(target).memoryList`length
      ensures Ready(Convert(target)) && Rest(Convert(target)) == old(Rest(Convert(target))) && Log() == old(Log())
      ensures T.UnmapEntry(old(State()), old(Convert(target).Abs()), virtAddr) == Done((State(), Convert(target).Abs()))
    {
      hide KernelMemory.Valid, FrameAllocator.Free, Index, Present, ShortMask, T.UnmapPresent, Vector.Backed,
        Vector.Items;
      PathBoundsOf(virtAddr);
      var space := Convert(target);
      var e4 := memory.LoadEntry(space.pml4, Index(virtAddr, 4));
      if !Present(e4) {
        return;
      }
      var pdpt := ShortMask(e4);
      var e3 := memory.LoadEntry(pdpt, Index(virtAddr, 3));
      if !Present(e3) {
        return;
      }
      var pd := ShortMask(e3);
      var e2 := memory.LoadEntry(pd, Index(virtAddr, 2));
      if !Present(e2) {
        return;
      }
      var pt := ShortMask(e2);
      var e1 := memory.LoadEntry(pt, Index(virtAddr, 1));
      if !Present(e1) {
        return;
      }
      Store(space, pt, Index(virtAddr, 1), 0);
      UnmapPresent(space, virtAddr, pdpt, pd, pt);
    }

    method UnmapPresent(space: AddressSpace, virtAddr: Word, pdpt: nat, pd: nat, pt: nat)
      requires Ready(space) && pt in memory.tables
      requires T.UnmapPresent(State(), space.Abs(), virtAddr, pdpt, pd, pt).Done?
      modifies memory.mem, memory`tables, memory`blocks, memory.frames`freeSize, memory.frames.bitmap,
               space.memoryList`length
      ensures Ready(space) && Rest(space) == old(Rest(space)) && Log() == old(Log())
      ensures T.UnmapPresent(old(State()), old(space.Abs()), virtAddr, pdpt, pd, pt) == Done((State(), space.Abs()))
    {
      hide KernelMemory.Valid, FrameAllocator.Free, Index, T.Unlink, T.AllZero, Vector.Backed, Vector.Items;
      PathBoundsOf(virtAddr);
      UnlinkHasParent(State(), space.Abs(), pd, Index(virtAddr, 2), pt);
      Unlink(space, pd, Index(virtAddr, 2), pt);
      var empty := TableEmpty(pd);
      if !empty {
        return;
      }
      UnlinkHasParent(State(), space.Abs(), pdpt, Index(virtAddr, 3), pd);
      Unlink(space, pdpt, Index(virtAddr, 3), pd);
      empty := TableEmpty(pdpt);
      if !empty {
        return;
      }
      UnlinkHasParent(State(), space.Abs(), space.pml4, Index(virtAddr, 4), pdpt);
      Unlink(space, space.pml4, Index(virtAddr, 4), pdpt);
    }

    // -------------------------------------------------------------- vm_get_phys_addr

    /** vm_get_phys_addr, as written: the page directory is tested at the page-table index. */
    method VmGetPhysAddr(target: AddressSpace?, virtAddr: Word) returns (r: Word)
      requires Ready(Convert(target)) && memory.mem.Length >= PAGE_SIZE
      requires !L.GetPhysAddr(State(), Convert(target).Abs(), virtAddr, LowWords(memory.mem[..])).Fault?
      ensures L.GetPhysAddr(State(), Convert(target).Abs(), virtAddr, LowWords(memory.mem[..])) == Done(r)
    {
      hide KernelMemory.Valid, FrameAllocator.Free, Index, Present, ShortMask, FrameMask, LowWords, WordAt,
        Vector.Backed, Vector.Items;
      PathBoundsOf(virtAddr);
      var space := Convert(target);
      var e4 := memory.LoadEntry(space.pml4, Index(virtAddr, 4));
      if !Present(e4) {
        return 0;
      }
      var pdpt := ShortMask(e4);
      var e3 := memory.LoadEntry(pdpt, Index(virtAddr, 3));
      if !Present(e3) {
        return 0;
      }
      var pd := ShortMask(e3);
      var tested := memory.LoadEntry(pd, Index(virtAddr, 1));
      if !Present(tested) {
        return 0;
      }
      var e2 := memory.LoadEntry(pd, Index(virtAddr, 2));
      var pt := ShortMask(e2);
      var e1 := ReadTableOrLow(pt, Index(virtAddr, 1));
      if !Present(e1) {
        return 0;
      }
      return FrameMask(e1);
    }

    /** pt[i], where pt may be the null table. */
    method ReadTableOrLow(pt: nat, i: nat) returns (w: Word)
      requires memory.Valid() && memory.mem.Length >= PAGE_SIZE && i < 512
      requires pt in memory.tables || pt == 0
      ensures w == if pt in memory.tables then memory.tables[pt][i] else LowWords(memory.mem[..])[i]
    {
      if pt == 0 {
        NullIsNoTable();
        w := LoadWord(memory.mem, pt + 8 * i);
      } else {
        w := memory.LoadEntry(pt, i);
      }
    }

    lemma NullIsNoTable()
      requires memory.Valid()
      ensures 0 !in memory.tables
    {
    }

    // -------------------------------------------------------------- the log

    /** vector_append of a record to the log. */
    method LogRecord(space: AddressSpace, r: Record) returns (ok: bool)
      requires Ready(space) && r.n < TWO64
      modifies memory.mem, memory`blocks, memory.frames`freeSize, memory.frames.bitmap, globalMemMap
      ensures ok <==> LogAppend(old(State()), old(globalMemMap.Block()), |old(Log())|).Done?
      ensures ok ==> Ready(space) && Rest(space) == old(Rest(space)) && space.Abs() == old(space.Abs())
      ensures ok ==> Log() == old(Log()) + [r]
      ensures ok ==>
        LogAppend(old(State()), old(globalMemMap.Block()), |old(Log())|) == Done((State(), globalMemMap.Block()))
    {
      hide KernelMemory.Valid, FrameAllocator.Free, G.Grow, Vector.Items, Vector.Backed, Vector.Others, RecordOf,
        RecordBytes, Distinct;
      OtherVector(space);
      RecordOfBytes(r);
      G.GrowOrHalt(State().free, State().limit, globalMemMap.Block(), |Log()| + 1, RECORD_SIZE);
      ok := globalMemMap.Append(RecordBytes(r));
      if ok {
        ListBeside(space);
      }
    }

    twostate lemma SameList(space: AddressSpace)
      requires old(space.memoryList.Backed()) && space.memoryList.Backed()
      requires space.memoryList.length == old(space.memoryList.length)
      requires space.memoryList.Contents() == old(space.memoryList.Contents())
      ensures space.List() == old(space.List())
    {
      hide WordOf;
    }

    /** vector_erase of record i of the log. */
    method DropRecord(i: nat)
      requires memory.Valid() && LogReady() && i < |Log()|
      requires G.EraseSafe(memory.frames.limit, globalMemMap.Block(), RECORD_SIZE, |Log()|, i)
      modifies memory.mem, memory`blocks, globalMemMap`length
      ensures memory.Valid() && LogReady() && globalMemMap.Others() == old(globalMemMap.Others())
      ensures Log() == old(Log())[..i] + old(Log())[i + 1..]
    {
      hide KernelMemory.Valid, FrameAllocator.Free, Vector.Items, Vector.Backed, RecordOf, G.EraseSafe;
      ghost var log := Log();
      globalMemMap.EraseSafeHere(i);
      globalMemMap.Erase(i);
      assert Log() == log[..i] + log[i + 1..];
    }

    /** The same with the space left alone. */
    method EraseRecordAt(space: AddressSpace, i: nat)
      requires Ready(space) && i < |Log()| && G.EraseSafe(State().limit, globalMemMap.Block(), RECORD_SIZE, |Log()|, i)
      modifies memory.mem, memory`blocks, globalMemMap`length
      ensures Ready(space) && Rest(space) == old(Rest(space)) && space.Abs() == old(space.Abs())
      ensures State() == old(State())
      ensures Log() == old(Log())[..i] + old(Log())[i + 1..]
    {
      hide KernelMemory.Valid, FrameAllocator.Free, Vector.Items, Vector.Backed, Vector.Others, RecordOf, G.EraseSafe,
        Distinct;
      TwoArrays();
      OtherVector(space);
      DropRecord(i);
      ListBeside(space);
    }

    /** The loop of vm_unmap over the log. */
    method EraseFromLog(space: AddressSpace, virtAddr: Word)
      requires Ready(space) && LogDropSafe(State().limit, globalMemMap.Block(), Log(), virtAddr)
      modifies memory.mem, memory`blocks, globalMemMap`length
      ensures Ready(space) && Rest(space) == old(Rest(space)) && space.Abs() == old(space.Abs())
      ensures State() == old(State())
      ensures Log() == EraseRecord(old(Log()), virtAddr)
    {
      hide KernelMemory.Valid, FrameAllocator.Free, Vector.Items, Vector.Backed, RecordOf, G.EraseSafe, FindRecord;
      ghost var log := Log();
      var i := 0;
      while i < globalMemMap.length
        invariant Ready(space) && Rest(space) == old(Rest(space)) && space.Abs() == old(space.Abs())
        invariant State() == old(State())
        invariant i <= globalMemMap.length && Log() == log
        invariant forall j :: 0 <= j < i ==> log[j].virt != virtAddr
      {
        var e := globalMemMap.At(i);
        if RecordOf(e).virt == virtAddr {
          OnlyFirst(log, virtAddr, i);
          EraseRecordAt(space, i);
          return;
        }
        i := i + 1;
      }
      NoSuchRecord(log, virtAddr);
    }

    // -------------------------------------------------------------- vm_map and vm_unmap

    /** vm_map; false is a halt. Mappings of the kernel space are logged, which may move the log. */
    method VmMap(target: AddressSpace?, virtAddr: Word, physAddr: Word, numPages: nat, flags: Word) returns (ok: bool)
      requires Ready(Convert(target)) && numPages * PAGE_SIZE < TWO64
      requires !MapCall(State(), globalMemMap.Block(), |Log()|, Convert(target).Abs(),
                        Call(Record(virtAddr, physAddr, flags, numPages), target == null)).Fault?
      modifies memory.mem, memory`tables, memory`blocks, memory.frames`freeSize, memory.frames.bitmap,
               Convert(target).memoryList, if target == null then {globalMemMap} else {}
      ensures ok ==> Ready(Convert(target)) && Rest(Convert(target)) == old(Rest(Convert(target)))
      ensures ok ==>
        MapCall(old(State()), old(globalMemMap.Block()), |old(Log())|, old(Convert(target).Abs()),
                Call(Record(virtAddr, physAddr, flags, numPages), target == null))
          == Done((State(), globalMemMap.Block(), Convert(target).Abs()))
      ensures !ok ==>
        MapCall(old(State()), old(globalMemMap.Block()), |old(Log())|, old(Convert(target).Abs()),
                Call(Record(virtAddr, physAddr, flags, numPages), target == null)).Halt?
      ensures ok ==>
        Log() == if target == null then old(Log()) + [Record(virtAddr, physAddr, flags, numPages)] else old(Log())
    {
      hide KernelMemory.Valid, FrameAllocator.Free, T.MapEntry, R.VmMap, Vector.Backed, Vector.Items, LogAppend;
      if target == null {
        AppendsOrHalts(State(), globalMemMap.Block(), |Log()|);
        ok := LogRecord(Convert(target), Record(virtAddr, physAddr, flags, numPages));
        if !ok {
          return;
        }
      }
      ok := MapLoop(target, virtAddr, physAddr, numPages, flags);
    }

    /** The loop of vm_map, which vm_init also runs on its own. */
    method MapLoop(target: AddressSpace?, virtAddr: Word, physAddr: Word, numPages: nat, flags: Word) returns (ok: bool)
      requires Ready(Convert(target)) && numPages * PAGE_SIZE < TWO64
      requires !R.VmMap(State(), Convert(target).Abs(), virtAddr, physAddr, numPages, flags).Fault?
      modifies memory.mem, memory`tables, memory`blocks, memory.frames`freeSize, memory.frames.bitmap,
               Convert(target).memoryList
      ensures ok ==>
        Ready(Convert(target)) && Rest(Convert(target)) == old(Rest(Convert(target))) && Log() == old(Log())
      ensures ok ==>
        R.VmMap(old(State()), old(Convert(target).Abs()), virtAddr, physAddr, numPages, flags)
          == Done((State(), Convert(target).Abs()))
      ensures !ok ==> R.VmMap(old(State()), old(Convert(target).Abs()), virtAddr, physAddr, numPages, flags).Halt?
    {
      hide KernelMemory.Valid, FrameAllocator.Free, T.MapEntry, Vector.Backed, Vector.Items;
      ghost var st, sp := State(), Convert(target).Abs();
      var i := 0;
      ghost var k := 0;
      while i < numPages * PAGE_SIZE
        invariant k <= numPages && i == k * PAGE_SIZE
        invariant Ready(Convert(target)) && Rest(Convert(target)) == old(Rest(Convert(target))) && Log() == old(Log())
        invariant R.VmMap(st, sp, virtAddr, physAddr, k, flags) == Done((State(), Convert(target).Abs()))
        decreases numPages - k
      {
        MapPrefix(st, sp, virtAddr, physAddr, k + 1, numPages, flags);
        var mapped := MapPageEntry(target, Wrap(virtAddr + i), Wrap(physAddr + i), flags);
        if !mapped {
          return false;
        }
        i, k := i + PAGE_SIZE, k + 1;
      }
      return true;
    }

    /** vm_unmap. Unmapping a kernel address erases its first record. */
    method VmUnmap(target: AddressSpace?, virtAddr: Word, numPages: nat)
      requires Ready(Convert(target)) && numPages * PAGE_SIZE < TWO64
      requires UnmapCall(State(), globalMemMap.Block(), Log(), Convert(target).Abs(), virtAddr, numPages,
                         target == null).Done?
      modifies memory.mem, memory`tables, memory`blocks, memory.frames`freeSize, memory.frames.bitmap,
               Convert(target).memoryList`length, globalMemMap`length
      ensures Ready(Convert(target)) && Rest(Convert(target)) == old(Rest(Convert(target)))
      ensures UnmapCall(old(State()), old(globalMemMap.Block()), old(Log()), old(Convert(target).Abs()), virtAddr,
                        numPages, target == null)
           == Done((State(), Convert(target).Abs()))
      ensures globalMemMap.Block() == old(globalMemMap.Block())
      ensures Log() == if target == null then EraseRecord(old(Log()), virtAddr) else old(Log())
    {
      hide KernelMemory.Valid, FrameAllocator.Free, T.UnmapEntry, Vector.Backed, Vector.Items, EraseRecord, LogDropSafe;
      if target == null {
        EraseFromLog(Convert(target), virtAddr);
      }
      ghost var st, sp, log := State(), Convert(target).Abs(), Log();
      var i := 0;
      ghost var k := 0;
      while i < numPages * PAGE_SIZE
        invariant k <= numPages && i == k * PAGE_SIZE
        invariant Ready(Convert(target)) && Rest(Convert(target)) == old(Rest(Convert(target))) && Log() == log
        invariant R.VmUnmap(st, sp, virtAddr, k) == Done((State(), Convert(target).Abs()))
        decreases numPages - k
      {
        UnmapPrefix(st, sp, virtAddr, k + 1, numPages);
        UnmapPageEntry(target, Wrap(virtAddr + i));
        i, k := i + PAGE_SIZE, k + 1;
      }
    }

    // -------------------------------------------------------------- create_address_space

    /** The machine without address spaces and without the block of the log. */
    ghost function Kernel(): System
      requires globalMemMap.Backed()
      reads memory, memory.frames, memory.frames.bitmap, globalMemMap, globalMemMap.k`blocks
    {
      ViewOf(memory.Sys(), globalMemMap.Base(), Log(), globalMemMap.Block())
    }

    /** The log does not change while blocks are added beside it. */
    twostate lemma LogKept()
      requires old(LogReady())
      requires globalMemMap.length == old(globalMemMap.length) && globalMemMap.capacity == old(globalMemMap.capacity)
      requires globalMemMap.data == old(globalMemMap.data)
      requires forall c :: c in old(memory.blocks) ==> c in memory.blocks && memory.blocks[c] == old(memory.blocks)[c]
      ensures LogReady() && Log() == old(Log())
    {
      hide Vector.Items;
      assert globalMemMap.Contents() == old(globalMemMap.Contents());
      SameItems();
    }

    lemma ViewIs(space: AddressSpace)
      requires globalMemMap.Backed() && space.memoryList.data.None?
      requires memory.Valid()
      ensures View(space) == Kernel() && Rest(space) == Kernel().blocks
    {
      assert 0 !in memory.blocks;
      assert memory.blocks - {0} == memory.blocks;
    }

    /** The new root of create_address_space, and the loop over the log that fills it. */
    method RebuildSpace() returns (r: AddressSpace?)
      requires memory.Valid() && LogReady() && GoodLog(Log())
      modifies memory.mem, memory`tables, memory`blocks, memory.frames`freeSize, memory.frames.bitmap
      ensures r != null ==> fresh(r) && fresh(r.memoryList) && Ready(r) && Log() == old(Log())
      ensures r != null ==> forall i ::
        BuildSpace(old(Kernel()), i, CallsOf(old(Log()), false))
          == Done(WithSpace(View(r), i, State(), globalMemMap.Block(), r.Abs()))
      ensures r == null ==> forall i :: BuildSpace(old(Kernel()), i, CallsOf(old(Log()), false)).Halt?
    {
      hide KernelMemory.Valid, FrameAllocator.Free, RootAdded, GoodLog, AddRoot, Vector.Items, Vector.Backed, MapCall,
        MapCalls, CallsOf, BuildSpace, Logged;
      ghost var m, lb, log, lv := memory.Sys(), globalMemMap.Base(), Log(), globalMemMap.Block();
      ghost var s, calls := ViewOf(m, lb, log, lv), CallsOf(log, false);
      NotTheLog();
      var root := NewRoot(memory, 606);
      if root.None? {
        ViewRootHalts(m, lb, log, lv);
        EachHalts(s, calls);
        return null;
      }
      ghost var m1 := memory.Sys();
      ghost var s1 := ViewOf(m1, lb, log, lv);
      LogKept();
      NotTheLog();
      ViewRoot(m, m1, root.value, lb, log, lv);
      var space := new AddressSpace(memory, root.value);
      ReadyNow(space);
      ViewIs(space);
      QuietCallsAre(log);
      EmptyRootReady(root.value, calls);
      ghost var st, sp := State(), space.Abs();
      var ok := MapLog(space, st, lv, log, sp);
      if !ok {
        BuildHaltsLater(s, s1, root.value, calls);
        return null;
      }
      SpaceBuilt(s, s1, View(space), root.value, space.Abs(), calls);
      return space;
    }

    /** The loop over the log. */
    method MapLog(space: AddressSpace, ghost st: T.Store, ghost lv: G.Vec, ghost log: seq<Record>, ghost sp: T.Space)
        returns (ok: bool)
      requires Ready(space) && GoodLog(log) && !MapCalls(st, lv, |log|, sp, CallsOf(log, false)).Fault?
      requires st == State() && lv == globalMemMap.Block() && log == Log() && sp == space.Abs()
      modifies memory.mem, memory`tables, memory`blocks, memory.frames`freeSize, memory.frames.bitmap, space.memoryList
      ensures ok ==> Ready(space) && Rest(space) == old(Rest(space)) && Log() == log
      ensures ok ==> MapCalls(st, lv, |log|, sp, CallsOf(log, false)) == Done((State(), lv, space.Abs()))
      ensures !ok ==> MapCalls(st, lv, |log|, sp, CallsOf(log, false)).Halt?
    {
      hide KernelMemory.Valid, FrameAllocator.Free, GoodLog, Vector.Items, Vector.Backed, MapCall, MapCalls, CallsOf,
        RecordOf;
      CallsBegin(st, lv, |log|, sp, log);
      for i := 0 to globalMemMap.length
        invariant Ready(space) && Rest(space) == old(Rest(space)) && Log() == log
        invariant MapCalls(st, lv, |log|, sp, CallsOf(log[..i], false)) == Done((State(), lv, space.Abs()))
      {
        QuietNext(st, lv, |log|, sp, log, i);
        RecordFits(log, i);
        var e := globalMemMap.At(i);
        var record := RecordOf(e);
        ok := VmMap(space, record.virt, record.phys, record.n, record.flags);
        if !ok {
          return false;
        }
      }
      assert log[..|log|] == log;
      return true;
    }

    /** create_address_space; null stands for a halt inside the allocator, after which the
        source's own null returns cannot be reached. */
    method CreateAddressSpace() returns (r: AddressSpace?)
      requires memory.Valid() && LogReady() && GoodLog(Log())
      modifies memory.mem, memory`tables, memory`blocks, memory.frames`freeSize, memory.frames.bitmap
      ensures r != null ==> fresh(r) && fresh(r.memoryList) && Ready(r) && Log() == old(Log())
      ensures r != null ==> Created(old(Kernel()), View(r), r.Abs())
      ensures r == null ==> CreationHalts(old(Kernel()))
    {
      hide KernelMemory.Valid, FrameAllocator.Free, BlockAdded, Created, GoodLog, CreationHalts, Vector.Items,
        Vector.Backed, CallsOf, Fresh, BuildSpace, StructAdded;
      ghost var m, lb, log, lv := memory.Sys(), globalMemMap.Base(), Log(), globalMemMap.Block();
      ghost var s := ViewOf(m, lb, log, lv);
      NotTheLog();
      memory.SmallRunsFit(2);
      assert NumPages(ADDR_SPACE_SIZE) == 1;
      var block := Heap.Kmalloc(memory, ADDR_SPACE_SIZE, 597);
      if block.None? {
        NoRoomForStruct(s);
        return null;
      }
      ghost var m0 := memory.Sys();
      StructFits(m, m0, block.value);
      ClearPayload(memory, block.value / PAGE_SIZE - 1, ADDR_SPACE_SIZE);
      ghost var m1 := memory.Sys();
      StructIs(m, m0, m1, block.value);
      StructBlocks(m, m0, m1, block.value);
      LogKept();
      assert Kernel() == ViewOf(m1, lb, log, lv) && Log() == log;
      r := RebuildSpace();
      if r == null {
        SpaceHalts(s, m, m0, m1, block.value, lb, log, lv);
      } else {
        SpaceCreated(s, m, m0, m1, View(r), block.value, r.Abs(), lb, log, lv);
      }
    }

    lemma NotTheLog()
      requires memory.Valid() && LogReady()
      ensures BesideLog(memory.blocks, globalMemMap.Base())
    {
    }

    lemma ReadyNow(space: AddressSpace)
      requires memory.Valid() && LogReady() && space.memoryList != globalMemMap
      requires space.memoryList.k == memory && space.memoryList.z == T.LIST_ENTRY
      requires space.memoryList.data.None? && space.memoryList.length == space.memoryList.capacity == 0
      ensures Ready(space) && space.Abs() == T.Space(space.pml4, [], G.NO_VEC)
    {
      hide KernelMemory.Valid;
    }

    lemma EmptyList(space: AddressSpace)
      requires space.memoryList.Backed() && space.memoryList.data.None?
      ensures space.memoryList.length == space.memoryList.capacity == 0
    {
    }

    /** A fresh root can take any good calls without a fault. */
    lemma EmptyRootReady(root: Word, calls: seq<Call>)
      requires memory.Valid() && LogReady() && root in memory.tables && memory.tables[root] == T.ZEROS
      requires GoodLog(Records(calls))
      ensures !MapCalls(State(), globalMemMap.Block(), |Log()|, T.Space(root, [], G.NO_VEC), calls).Fault?
    {
      var lv, lb := globalMemMap.Block(), globalMemMap.Base();
      if globalMemMap.data.Some? {
        globalMemMap.Sizes();
      }
      var rest := BlockPages(memory.blocks - {lb}) + memory.reserved;
      var vecs := map[TheLog := lv, ListOf(0) := G.NO_VEC];
      assert Pool(memory.Sys(), memory.reserved);
      hide KernelMemory.Valid, Pool;
      LogHoused(memory.Sys(), memory.reserved, lb, lv);
      EmptySpaceGood(State(), root);
      hide *;
      ReadyToCall(State(), rest, vecs, lv, root);
      var _ := MapCallsCorrect(State(), rest, vecs, 0, lv, |Log()|, T.Space(root, [], G.NO_VEC), EmptyShape(root),
                               calls);
    }

    // -------------------------------------------------------------- vm_init

    /** The branches of that loop: where an entry is mapped, if it is. */
    static method VirtualBase(e: MemEntry, load: LoadAddress) returns (virt: Option<Word>)
      ensures EntryRecord(e, load)
           == match virt case None => None case Some(v) => Some(Record(v, e.base, VM_DEFAULT, NumPages(e.length)))
    {
      hide NumPages;
      if e.kind == KernelAndModules {
        return Some(Wrap(load.virtualBase + e.base - load.physicalBase));
      } else if e.kind == Framebuffer || e.kind == Usable || e.kind == AcpiReclaimable
             || e.kind == BootloaderReclaimable {
        return Some(PhysToVirt(e.base));
      }
      return None;
    }

    /** The loop of vm_init over the memory map entries; st, lv, len and sp are the store, the block
        and length of the log, and the kernel space before the first call. */
    method MapEntries(limit: Word, entries: seq<MemEntry>, load: LoadAddress,
                      ghost st: T.Store, ghost lv: G.Vec, ghost log0: seq<Record>, ghost sp: T.Space) returns (ok: bool)
      requires Ready(kernelSpace) && !MapCalls(st, lv, |log0|, sp, InitCalls(limit, entries, load)).Fault?
      requires MapCalls(st, lv, |log0|, sp, InitCalls(limit, [], load))
           == Done((State(), globalMemMap.Block(), kernelSpace.Abs()))
      requires Log() == log0 + Logged(InitCalls(limit, [], load))
      modifies memory.mem, memory`tables, memory`blocks, memory.frames`freeSize, memory.frames.bitmap,
               kernelSpace.memoryList, globalMemMap
      ensures ok ==> Ready(kernelSpace) && Rest(kernelSpace) == old(Rest(kernelSpace))
      ensures ok ==> Log() == log0 + Logged(InitCalls(limit, entries, load))
      ensures ok ==>
        MapCalls(st, lv, |log0|, sp, InitCalls(limit, entries, load))
          == Done((State(), globalMemMap.Block(), kernelSpace.Abs()))
      ensures !ok ==> MapCalls(st, lv, |log0|, sp, InitCalls(limit, entries, load)).Halt?
    {
      hide KernelMemory.Valid, FrameAllocator.Free, R.VmMap, EntryRecords, EntryRecord, NumPages, LowRecord,
        DirectAll, MapCalls, MapCall, GoodLog, Vector.Backed, Vector.Items, InitCalls, Logged;
      for i := 0 to |entries|
        invariant Ready(kernelSpace) && Rest(kernelSpace) == old(Rest(kernelSpace))
        invariant MapCalls(st, lv, |log0|, sp, InitCalls(limit, entries[..i], load))
               == Done((State(), globalMemMap.Block(), kernelSpace.Abs()))
        invariant Log() == log0 + Logged(InitCalls(limit, entries[..i], load))
      {
        var virt := VirtualBase(entries[i], load);
        ghost var back := InitCallsNext(limit, entries, load, i);
        if virt.Some? {
          ghost var r := Record(virt.value, entries[i].base, VM_DEFAULT, NumPages(entries[i].length));
          CallNext(st, lv, |log0|, sp, InitCalls(limit, entries[..i], load), Call(r, true), back);
          EntryFitsWord(entries[i], load);
          CallsSnoc(InitCalls(limit, entries[..i], load), Call(r, true));
          ok := VmMap(null, virt.value, entries[i].base, NumPages(entries[i].length), VM_DEFAULT);
          if !ok {
            return false;
          }
        }
      }
      assert entries[..|entries|] == entries;
      return true;
    }

    /** vm_init without its log output and the final load of CR3; false is a halt. */
    method VmInit(entries: seq<MemEntry>, load: LoadAddress) returns (ok: bool)
      requires Ready(kernelSpace) && kernelSpace.memoryList.data.None?
      modifies memory.mem, memory`tables, memory`blocks, memory.frames`freeSize, memory.frames.bitmap, kernelSpace,
               kernelSpace.memoryList, globalMemMap
      ensures ok ==> Ready(kernelSpace)
      ensures ok ==> Log() == old(Log()) + InitLog(memory.frames.limit, entries, load)
      ensures ok ==>
        BuildSpace(old(Kernel()), 0, InitCalls(memory.frames.limit, entries, load))
          == Done(WithSpace(View(kernelSpace), 0, State(), globalMemMap.Block(), kernelSpace.Abs()))
      ensures !ok ==> BuildSpace(old(Kernel()), 0, InitCalls(memory.frames.limit, entries, load)).Halt?
    {
      hide KernelMemory.Valid, FrameAllocator.Free, RootAdded, R.VmMap, GoodLog, EntryRecords, EntryRecord, NumPages,
        LowRecord, DirectAll, MapCalls, MapCall, BuildSpace, AddRoot, Vector.Items, InitCalls, Logged, Vector.Backed;
      ghost var m, lb, log, lv := memory.Sys(), globalMemMap.Base(), Log(), globalMemMap.Block();
      ghost var s := ViewOf(m, lb, log, lv);
      NotTheLog();
      EmptyList(kernelSpace);
      var limit := memory.frames.limit;
      ghost var calls := InitCalls(limit, entries, load);
      var root := NewRoot(memory, 504);   // zeroed, so the memset that follows it changes nothing
      if root.None? {
        ViewRootHalts(m, lb, log, lv);
        BuildHalts(s, calls, 0);
        return false;
      }
      ghost var m1 := memory.Sys();
      LogKept();
      kernelSpace.pml4 := root.value;
      ReadyNow(kernelSpace);
      ViewIs(kernelSpace);
      NotTheLog();
      ViewRoot(m, m1, root.value, lb, log, lv);
      InitRecordsGood(limit, entries, load);
      InitCallsAre(limit, entries, load);
      EmptyRootReady(root.value, calls);
      ghost var st, sp := State(), kernelSpace.Abs();
      ok := FirstMaps(limit, entries, load, st, lv, log, sp);
      if ok {
        ok := MapEntries(limit, entries, load, st, lv, log, sp);
      }
      if !ok {
        BuildHaltsLater(s, ViewOf(m1, lb, log, lv), root.value, calls);
        return false;
      }
      SpaceBuilt(s, ViewOf(m1, lb, log, lv), View(kernelSpace), root.value, kernelSpace.Abs(), calls);
      return true;
    }

    /** The low map and the whole direct map. */
    method FirstMaps(limit: Word, ghost entries: seq<MemEntry>, ghost load: LoadAddress,
                     ghost st: T.Store, ghost lv: G.Vec, ghost log0: seq<Record>, ghost sp: T.Space) returns (ok: bool)
      requires Ready(kernelSpace) && !MapCalls(st, lv, |log0|, sp, InitCalls(limit, entries, load)).Fault?
      requires st == State() && lv == globalMemMap.Block() && log0 == Log() && sp == kernelSpace.Abs()
      modifies memory.mem, memory`tables, memory`blocks, memory.frames`freeSize, memory.frames.bitmap,
               kernelSpace.memoryList, globalMemMap
      ensures ok ==> Ready(kernelSpace) && Rest(kernelSpace) == old(Rest(kernelSpace))
      ensures ok ==>
        MapCalls(st, lv, |log0|, sp, InitCalls(limit, [], load))
          == Done((State(), globalMemMap.Block(), kernelSpace.Abs()))
      ensures ok ==> Log() == log0 + Logged(InitCalls(limit, [], load))
      ensures !ok ==> MapCalls(st, lv, |log0|, sp, InitCalls(limit, entries, load)).Halt?
    {
      hide KernelMemory.Valid, FrameAllocator.Free, R.VmMap, NumPages, MapCalls, LowRecord, DirectAll,
        Vector.Backed, Vector.Items, InitCalls, Logged;
      var pages, most := NumPages(limit), 1024 * 512;
      var min := if pages < most then pages else most;
      ghost var low, direct := LowRecord(limit), DirectAll(limit);
      FirstRecords(limit);
      DirectFits(limit);
      FirstTwoCalls(low, direct);
      ghost var back := InitCallsStart(limit, entries, load);
      NoCallsYet(st, lv, |log0|, sp);
      CallNext(st, lv, |log0|, sp, [], Call(low, true), [Call(direct, false)] + back);
      assert [] + [Call(low, true)] == [Call(low, true)];
      ok := VmMap(null, MEM_VIRT_OFFSET, 0, min, VM_USERMODE);
      if !ok {
        return;
      }
      CallNext(st, lv, |log0|, sp, [Call(low, true)], Call(direct, false), back);
      assert [Call(low, true)] + [Call(direct, false)] == [Call(low, true), Call(direct, false)];
      OneLogged(low);
      ok := MapLoop(null, MEM_VIRT_OFFSET, 0, pages, VM_DEFAULT);
    }
  }

  // ---------------------------------------------------------------- the log's block set aside

  /** m without the block of the log, which is known by its content and its place. */
  ghost function ViewOf(m: System, lb: nat, log: seq<Record>, lv: G.Vec): System {
    System(m.st, m.blocks - {lb}, map[], map[], log, lv)
  }

  ghost predicate BesideLog(blocks: map<nat, Block>, lb: nat) {
    0 !in blocks && (lb == 0 || lb in blocks)
  }

  lemma ViewNewBlock(m: System, m': System, size: Word, p: seq<Byte>, lb: nat, log: seq<Record>, lv: G.Vec)
    requires NewBlock(m, size, p) == Done(m') && FirstFit(m.st.free, NumPages(size) + 1, 0, m.st.limit).Some?
    requires FirstFit(m.st.free, NumPages(size) + 1, 0, m.st.limit).value / PAGE_SIZE != lb
    ensures NewBlock(ViewOf(m, lb, log, lv), size, p) == Done(ViewOf(m', lb, log, lv))
  {
    hide NumPages, FirstFit, Pages;
    var c := FirstFit(m.st.free, NumPages(size) + 1, 0, m.st.limit).value / PAGE_SIZE;
    assert (m.blocks - {lb})[c := Data(size, p)] == m.blocks[c := Data(size, p)] - {lb};
  }

  lemma ViewRoot(m: System, m': System, root: Word, lb: nat, log: seq<Record>, lv: G.Vec)
    requires RootAdded(m, m', root) && BesideLog(m.blocks, lb)
    requires var c := root / PAGE_SIZE - 1;
      c >= 0 && c !in m.blocks && m'.blocks == m.blocks[c := RootHeader] && 0 !in m'.blocks
    ensures RootAdded(ViewOf(m, lb, log, lv), ViewOf(m', lb, log, lv), root)
  {
    hide FirstFit, Pages, T.Extent;
    var c := root / PAGE_SIZE - 1;
    assert AddRoot(m, 0) == Done((WithSpace(m', 0, m'.st, m'.logVec, T.Space(root, [], G.NO_VEC)), root));
    forall i
      ensures AddRoot(ViewOf(m, lb, log, lv), i)
           == Done((WithSpace(ViewOf(m', lb, log, lv), i, m'.st, lv, T.Space(root, [], G.NO_VEC)), root))
    {
      assert AddRoot(m, i) == Done((WithSpace(m', i, m'.st, m'.logVec, T.Space(root, [], G.NO_VEC)), root));
      assert (m.blocks - {lb})[c := RootHeader] == m.blocks[c := RootHeader] - {lb};
    }
  }

  lemma ViewRootHalts(m: System, lb: nat, log: seq<Record>, lv: G.Vec)
    requires forall i :: AddRoot(m, i).Halt?
    ensures forall i :: AddRoot(ViewOf(m, lb, log, lv), i).Halt?
  {
    hide FirstFit;
    assert AddRoot(m, 0).Halt?;
  }

  /** With the log's block apart from all others, a fresh root is ready for calls. */
  lemma LogHoused(m: System, reserved: set<nat>, lb: nat, lv: G.Vec)
    requires Pool(m, reserved)
    requires if lv.cap == 0 then lb !in m.blocks
             else lb in m.blocks && lv.base == lb && m.blocks[lb].Length() == G.BlockSize(lv.cap)
    ensures Housed(m.st, BlockPages(m.blocks - {lb}) + reserved, map[TheLog := lv, ListOf(0) := G.NO_VEC])
  {
    var rest := BlockPages(m.blocks - {lb}) + reserved;
    assert G.VecPages(G.NO_VEC) == {};
    if lv.cap == 0 {
      assert G.VecPages(lv) == {};
      assert m.blocks - {lb} == m.blocks;
      hide BlockPages, Pages, T.Separated, G.VecPages;
      TwoVecs(m.st, rest, lv);
    } else {
      assert G.VecPages(lv) == Pages(lb, m.blocks[lb].Length());
      RestApart(m, reserved, lb);
      hide BlockPages, Pages, T.Separated, G.VecPages, Pool;
      TwoVecs(m.st, rest, lv);
    }
  }

  lemma TwoVecs(st: T.Store, rest: set<nat>, lv: G.Vec)
    requires T.Separated(st, rest + G.VecPages(lv)) && G.VecPages(lv) !! rest && G.VecPages(G.NO_VEC) == {}
    requires forall p :: p in G.VecPages(lv) ==> 0 < p < LimitPages(st.limit)
    ensures Housed(st, rest, map[TheLog := lv, ListOf(0) := G.NO_VEC])
  {
    var vecs := map[TheLog := lv, ListOf(0) := G.NO_VEC];
    hide G.VecPages, LimitPages, T.Separated;
    TwoVecsPages(lv);
    hide VecsPages;
    assert forall h :: h in vecs <==> h == TheLog || h == ListOf(0);
  }

  lemma TwoVecsPages(lv: G.Vec)
    requires G.VecPages(G.NO_VEC) == {}
    ensures VecsPages(map[TheLog := lv, ListOf(0) := G.NO_VEC]) == G.VecPages(lv)
  {
    var vecs := map[TheLog := lv, ListOf(0) := G.NO_VEC];
    hide G.VecPages;
    VecsSplit(vecs, TheLog);
    VecsSplit(vecs - {TheLog}, ListOf(0));
    assert vecs - {TheLog} - {ListOf(0)} == map[];
    assert VecsPages(map[]) == {};
  }

  lemma ReadyToCall(st: T.Store, rest: set<nat>, vecs: map<Holder, G.Vec>, lv: G.Vec, root: Word)
    requires Housed(st, rest, vecs) && vecs == map[TheLog := lv, ListOf(0) := G.NO_VEC]
    requires T.SpaceInv(st, T.Space(root, [], G.NO_VEC), EmptyShape(root))
    ensures CallReady(st, rest, vecs, 0, lv, T.Space(root, [], G.NO_VEC), EmptyShape(root))
    ensures EmptyShape(root).pages == map[]
  {
    hide Housed, T.SpaceInv;
  }

  // ---------------------------------------------------------------- what creation comes to

  /** s' is s after create_address_space, for whatever number the new space is known by. */
  ghost predicate Created(s: System, s': System, sp: T.Space) {
    exists payload :: CreatedWith(s, s', sp, payload)
  }

  ghost predicate CreatedWith(s: System, s': System, sp: T.Space, payload: seq<Byte>) {
    && Fresh(ADDR_SPACE_SIZE, payload, [])
    && NewBlock(s, ADDR_SPACE_SIZE, payload).Done?
    && forall i :: BuildSpace(NewBlock(s, ADDR_SPACE_SIZE, payload).value, i, CallsOf(s.log, false))
                == Done(WithSpace(s', i, s'.st, s'.logVec, sp))
  }

  /** create_address_space in s stops the machine: no room for the structure, for the root, or
      for some table or the list. */
  ghost predicate CreationHalts(s: System) {
    exists payload :: HaltsWith(s, payload)
  }

  ghost predicate HaltsWith(s: System, payload: seq<Byte>) {
    && Fresh(ADDR_SPACE_SIZE, payload, [])
    && var created := NewBlock(s, ADDR_SPACE_SIZE, payload);
       created.Halt? || (created.Done? && forall i :: BuildSpace(created.value, i, CallsOf(s.log, false)).Halt?)
  }

  lemma NoRoomForStruct(s: System)
    requires FirstFit(s.st.free, NumPages(ADDR_SPACE_SIZE) + 1, 0, s.st.limit).None?
    ensures CreationHalts(s)
  {
    var payload := Fill(0, PAGE_SIZE * NumPages(ADDR_SPACE_SIZE));
    assert Fresh(ADDR_SPACE_SIZE, payload, []);
    hide Fresh, BuildSpace;
    assert HaltsWith(s, payload);
  }

  /** m1 is m with the cleared ADDR_SPACE structure. */
  ghost predicate StructAdded(m: System, m0: System, m1: System, address: nat) {
    && BlockAdded(m, m0, ADDR_SPACE_SIZE, address)
    && IsData(m0, address / PAGE_SIZE - 1) && ADDR_SPACE_SIZE <= |m0.blocks[address / PAGE_SIZE - 1].payload|
    && m1 == WithPayload(m0, address / PAGE_SIZE - 1,
                         Put(m0.blocks[address / PAGE_SIZE - 1].payload, 0, Fill(0, ADDR_SPACE_SIZE)))
  }

  lemma StructIs(m: System, m0: System, m1: System, address: nat)
    requires BlockAdded(m, m0, ADDR_SPACE_SIZE, address)
    requires IsData(m0, address / PAGE_SIZE - 1) && ADDR_SPACE_SIZE <= |m0.blocks[address / PAGE_SIZE - 1].payload|
    requires m1 == WithPayload(m0, address / PAGE_SIZE - 1,
                               Put(m0.blocks[address / PAGE_SIZE - 1].payload, 0, Fill(0, ADDR_SPACE_SIZE)))
    ensures StructAdded(m, m0, m1, address)
  {
  }

  lemma StructFits(m: System, m0: System, address: nat)
    requires BlockAdded(m, m0, ADDR_SPACE_SIZE, address)
    ensures IsData(m0, address / PAGE_SIZE - 1)
    ensures ADDR_SPACE_SIZE <= |m0.blocks[address / PAGE_SIZE - 1].payload|
  {
  }

  lemma StructBlocks(m: System, m0: System, m1: System, address: nat)
    requires StructAdded(m, m0, m1, address)
    ensures var c := address / PAGE_SIZE - 1;
      c > 0 && c !in m.blocks && c in m1.blocks && m1.blocks == m.blocks[c := m1.blocks[c]] && m1.st.limit == m.st.limit
  {
    hide NewBlock, Fresh;
    AddedBlock(m, m0, ADDR_SPACE_SIZE, address);
    SameLimit(m, m0, address);
  }

  lemma SameLimit(m: System, m0: System, address: nat)
    requires BlockAdded(m, m0, ADDR_SPACE_SIZE, address)
    ensures m0.st.limit == m.st.limit
  {
    hide Fresh, FirstFit;
  }

  /** The structure's block, as kmalloc and the clearing leave it, for the machine without the log. */
  lemma ViewStruct(m: System, m0: System, m1: System, address: nat, lb: nat, log: seq<Record>, lv: G.Vec)
      returns (payload: seq<Byte>)
    requires StructAdded(m, m0, m1, address) && BesideLog(m.blocks, lb)
    ensures Fresh(ADDR_SPACE_SIZE, payload, [])
    ensures NewBlock(ViewOf(m, lb, log, lv), ADDR_SPACE_SIZE, payload) == Done(ViewOf(m1, lb, log, lv))
  {
    payload := Put(m0.blocks[address / PAGE_SIZE - 1].payload, 0, Fill(0, ADDR_SPACE_SIZE));
    assert Fresh(ADDR_SPACE_SIZE, payload, []);
    StructBlocks(m, m0, m1, address);
    NewPlace(m, m0, ADDR_SPACE_SIZE, address);
    SameNewBlock(m, m0, ADDR_SPACE_SIZE, address, payload);
    hide NewBlock, BlockAdded, Fresh, FirstFit, ViewOf;
    ViewNewBlock(m, m1, ADDR_SPACE_SIZE, payload, lb, log, lv);
  }

  lemma SpaceHalts(s: System, m: System, m0: System, m1: System, address: nat, lb: nat, log: seq<Record>, lv: G.Vec)
    requires s == ViewOf(m, lb, log, lv) && StructAdded(m, m0, m1, address) && BesideLog(m.blocks, lb)
    requires forall i :: BuildSpace(ViewOf(m1, lb, log, lv), i, CallsOf(log, false)).Halt?
    ensures CreationHalts(s)
  {
    hide BuildSpace, StructAdded, NewBlock, Fresh, CallsOf, BesideLog;
    var payload := ViewStruct(m, m0, m1, address, lb, log, lv);
    assert HaltsWith(s, payload);
  }

  lemma EachHalts(s: System, calls: seq<Call>)
    requires forall i :: AddRoot(s, i).Halt?
    ensures forall i :: BuildSpace(s, i, calls).Halt?
  {
    hide AddRoot, BuildSpace;
    forall i
      ensures BuildSpace(s, i, calls).Halt?
    {
      BuildHalts(s, calls, i);
    }
  }

  lemma BuildHalts(s: System, calls: seq<Call>, i: nat)
    requires AddRoot(s, i).Halt?
    ensures BuildSpace(s, i, calls).Halt?
  {
    hide AddRoot, MapCalls;
  }

  lemma BuildHaltsLater(s: System, s1: System, root: Word, calls: seq<Call>)
    requires RootAdded(s, s1, root) && MapCalls(s1.st, s1.logVec, |s1.log|, T.Space(root, [], G.NO_VEC), calls).Halt?
    ensures forall i :: BuildSpace(s, i, calls).Halt?
  {
    hide AddRoot, MapCalls;
    forall i
      ensures BuildSpace(s, i, calls).Halt?
    {
      assert AddRoot(s, i) == Done((WithSpace(s1, i, s1.st, s1.logVec, T.Space(root, [], G.NO_VEC)), root));
    }
  }

  lemma SpaceBuilt(s: System, s1: System, s': System, root: Word, sp: T.Space, calls: seq<Call>)
    requires RootAdded(s, s1, root)
    requires MapCalls(s1.st, s1.logVec, |s1.log|, T.Space(root, [], G.NO_VEC), calls) == Done((s'.st, s'.logVec, sp))
    requires s'.blocks == s1.blocks && s'.log == s1.log + Logged(calls) && s'.spaces == s1.spaces
    requires s'.structs == s1.structs
    ensures forall i :: BuildSpace(s, i, calls) == Done(WithSpace(s', i, s'.st, s'.logVec, sp))
  {
    hide MapCalls, AddRoot, Logged;
    forall i
      ensures BuildSpace(s, i, calls) == Done(WithSpace(s', i, s'.st, s'.logVec, sp))
    {
      assert AddRoot(s, i) == Done((WithSpace(s1, i, s1.st, s1.logVec, T.Space(root, [], G.NO_VEC)), root));
      assert s1.spaces[i := T.Space(root, [], G.NO_VEC)][i := sp] == s'.spaces[i := sp];
    }
  }

  lemma SpaceCreated(s: System, m: System, m0: System, m1: System, s': System, address: nat, sp: T.Space,
                     lb: nat, log: seq<Record>, lv: G.Vec)
    requires s == ViewOf(m, lb, log, lv) && StructAdded(m, m0, m1, address) && BesideLog(m.blocks, lb)
    requires forall i ::
      BuildSpace(ViewOf(m1, lb, log, lv), i, CallsOf(log, false)) == Done(WithSpace(s', i, s'.st, s'.logVec, sp))
    ensures Created(s, s', sp)
  {
    hide NewBlock, BuildSpace, Fresh, StructAdded, CallsOf, BesideLog;
    var payload := ViewStruct(m, m0, m1, address, lb, log, lv);
    assert CreatedWith(s, s', sp, payload);
  }

  // ---------------------------------------------------------------- one call after the other

  lemma NoCallsYet(st: T.Store, lv: G.Vec, len: nat, sp: T.Space)
    ensures MapCalls(st, lv, len, sp, []) == Done((st, lv, sp)) && Logged([]) == []
  {
  }

  lemma OneLogged(r: Record)
    ensures Logged([Call(r, true)]) == [r]
  {
    assert [Call(r, true)][..0] == [];
    assert Logged([]) == [];
  }

  lemma CallsBegin(st: T.Store, lv: G.Vec, len: nat, sp: T.Space, log: seq<Record>)
    ensures MapCalls(st, lv, len, sp, CallsOf(log[..0], false)) == Done((st, lv, sp))
  {
    assert log[..0] == [];
    NoCallsYet(st, lv, len, sp);
  }

  lemma {:induction false} CallsPrefix(st: T.Store, lv: G.Vec, len: nat, sp: T.Space, front: seq<Call>, back: seq<Call>)
    requires !MapCalls(st, lv, len, sp, front + back).Fault?
    ensures !MapCalls(st, lv, len, sp, front).Fault?
    ensures MapCalls(st, lv, len, sp, front).Halt? ==> MapCalls(st, lv, len, sp, front + back).Halt?
    decreases |back|
  {
    hide MapCall, Logged;
    if back == [] {
      assert front + back == front;
    } else {
      var less := back[..|back| - 1];
      assert (front + back)[..|front + back| - 1] == front + less;
      CallsPrefix(st, lv, len, sp, front, less);
    }
  }

  /** The next call of a sequence that as a whole follows no bad address. */
  lemma CallNext(st: T.Store, lv: G.Vec, len: nat, sp: T.Space, front: seq<Call>, c: Call, back: seq<Call>)
    requires !MapCalls(st, lv, len, sp, front + [c] + back).Fault? && MapCalls(st, lv, len, sp, front).Done?
    ensures var (st1, lv1, sp1) := MapCalls(st, lv, len, sp, front).value;
      var r := MapCall(st1, lv1, len + |Logged(front)|, sp1, c);
      && MapCalls(st, lv, len, sp, front + [c]) == r && !r.Fault?
      && (r.Halt? ==> MapCalls(st, lv, len, sp, front + [c] + back).Halt?)
  {
    hide MapCall, MapCalls, Logged;
    CallsPrefix(st, lv, len, sp, front + [c], back);
    LastCall(st, lv, len, sp, front, c);
  }

  lemma LastCall(st: T.Store, lv: G.Vec, len: nat, sp: T.Space, front: seq<Call>, c: Call)
    requires MapCalls(st, lv, len, sp, front).Done?
    ensures var (st1, lv1, sp1) := MapCalls(st, lv, len, sp, front).value;
      MapCalls(st, lv, len, sp, front + [c]) == MapCall(st1, lv1, len + |Logged(front)|, sp1, c)
  {
    hide MapCall, Logged;
    assert (front + [c])[..|front|] == front;
  }

  /** The next record of the log mapped into a new space. */
  lemma QuietNext(st: T.Store, lv: G.Vec, len: nat, sp: T.Space, log: seq<Record>, i: nat)
    requires i < |log| && !MapCalls(st, lv, len, sp, CallsOf(log, false)).Fault?
    requires MapCalls(st, lv, len, sp, CallsOf(log[..i], false)).Done?
    ensures var (st1, lv1, sp1) := MapCalls(st, lv, len, sp, CallsOf(log[..i], false)).value;
      var r := MapCall(st1, lv1, len, sp1, Call(log[i], false));
      && MapCalls(st, lv, len, sp, CallsOf(log[..i + 1], false)) == r && !r.Fault?
      && (r.Halt? ==> MapCalls(st, lv, len, sp, CallsOf(log, false)).Halt?)
  {
    QuietCallsAre(log[..i]);
    CallsOfSplit(log, i, false);
    hide MapCalls, MapCall, CallsOf, Logged;
    CallNext(st, lv, len, sp, CallsOf(log[..i], false), Call(log[i], false), CallsOf(log[i + 1..], false));
  }

  lemma {:induction false} CallsOfAdd(a: seq<Record>, b: seq<Record>, logged: bool)
    ensures CallsOf(a + b, logged) == CallsOf(a, logged) + CallsOf(b, logged)
    decreases |b|
  {
    if b == [] {
      assert a + b == a;
    } else {
      assert (a + b)[..|a + b| - 1] == a + b[..|b| - 1];
      CallsOfAdd(a, b[..|b| - 1], logged);
    }
  }

  lemma CallsOfSplit(log: seq<Record>, i: nat, logged: bool)
    requires i < |log|
    ensures CallsOf(log[..i + 1], logged) == CallsOf(log[..i], logged) + [Call(log[i], logged)]
    ensures CallsOf(log, logged) == CallsOf(log[..i], logged) + [Call(log[i], logged)] + CallsOf(log[i + 1..], logged)
  {
    assert log[..i + 1][..i] == log[..i];
    assert log == log[..i + 1] + log[i + 1..];
    CallsOfAdd(log[..i + 1], log[i + 1..], logged);
  }

  lemma AppendsOrHalts(st: T.Store, lv: G.Vec, len: nat)
    ensures !LogAppend(st, lv, len).Fault?
  {
    G.GrowOrHalt(st.free, st.limit, lv, len + 1, RECORD_SIZE);
    hide G.Grow;
  }

  lemma NoSuchRecord(log: seq<Record>, v: Word)
    requires forall j :: 0 <= j < |log| ==> log[j].virt != v
    ensures EraseRecord(log, v) == log
  {
  }

  lemma RecordFits(rs: seq<Record>, i: nat)
    requires GoodLog(rs) && i < |rs|
    ensures rs[i].n * PAGE_SIZE < TWO64
  {
    assert GoodRecord(rs[i]);
  }

  // ---------------------------------------------------------------- the calls of vm_init

  lemma FirstRecords(limit: Word)
    ensures var pages, most := NumPages(limit), 1024 * 512;
      LowRecord(limit) == Record(MEM_VIRT_OFFSET, 0, VM_USERMODE, if pages < most then pages else most)
    ensures DirectAll(limit) == Record(MEM_VIRT_OFFSET, 0, VM_DEFAULT, NumPages(limit))
  {
    hide NumPages;
  }

  lemma DirectFits(limit: Word)
    ensures LowRecord(limit).n * PAGE_SIZE < TWO64 && DirectAll(limit).n * PAGE_SIZE < TWO64
  {
  }

  lemma EntryFitsWord(e: MemEntry, load: LoadAddress)
    ensures EntryRecord(e, load).Some? ==> EntryRecord(e, load).value.n * PAGE_SIZE < TWO64
  {
  }

  lemma InitCallsStart(limit: Word, entries: seq<MemEntry>, load: LoadAddress) returns (back: seq<Call>)
    ensures InitCalls(limit, [], load) == [Call(LowRecord(limit), true), Call(DirectAll(limit), false)]
    ensures InitCalls(limit, entries, load)
         == [] + [Call(LowRecord(limit), true)] + ([Call(DirectAll(limit), false)] + back)
    ensures InitCalls(limit, entries, load) == [Call(LowRecord(limit), true)] + [Call(DirectAll(limit), false)] + back
  {
    hide LowRecord, DirectAll;
    assert EntryRecords([], load) == [] && CallsOf([], true) == [];
    hide EntryRecords, CallsOf;
    back := CallsOf(EntryRecords(entries, load), true);
  }

  /** What the calls for the first i entries lack of those for all of them: the call for entry i,
      if there is one, and the rest. */
  lemma InitCallsNext(limit: Word, entries: seq<MemEntry>, load: LoadAddress, i: nat) returns (back: seq<Call>)
    requires i < |entries|
    ensures match EntryRecord(entries[i], load)
      case None => InitCalls(limit, entries[..i + 1], load) == InitCalls(limit, entries[..i], load)
      case Some(r) =>
        && InitCalls(limit, entries[..i + 1], load) == InitCalls(limit, entries[..i], load) + [Call(r, true)]
        && InitCalls(limit, entries, load) == InitCalls(limit, entries[..i], load) + [Call(r, true)] + back
  {
    hide LowRecord, DirectAll, EntryRecord, CallsOf;
    EntryRecordsSoFar(entries, load, i + 1);
    hide EntryRecords;
    var all, done := EntryRecords(entries, load), EntryRecords(entries[..i + 1], load);
    back := CallsOf(all[|done|..], true);
    assert all == done + all[|done|..];
    CallsOfAdd(done, all[|done|..], true);
    if EntryRecord(entries[i], load).Some? {
      var before, c := CallsOf(EntryRecords(entries[..i], load), true), Call(EntryRecord(entries[i], load).value, true);
      CallsOfAdd(EntryRecords(entries[..i], load), [c.r], true);
      OneCall(c.r);
      var two := [Call(LowRecord(limit), true), Call(DirectAll(limit), false)];
      assert two + (before + [c]) == two + before + [c];
      assert two + (before + [c] + back) == two + before + [c] + back;
    } else {
      assert EntryRecords(entries[..i], load) + [] == EntryRecords(entries[..i], load);
    }
  }

  lemma OneCall(r: Record)
    ensures CallsOf([r], true) == [Call(r, true)]
  {
    assert [r][..0] == [];
    assert CallsOf([], true) == [];
    assert [] + [Call(r, true)] == [Call(r, true)];
  }

  /** The records of the first i entries begin the records of all of them. */
  lemma {:induction false} EntryRecordsSoFar(entries: seq<MemEntry>, load: LoadAddress, i: nat)
    requires i <= |entries|
    ensures EntryRecords(entries[..i], load) <= EntryRecords(entries, load)
    ensures EntryRecords(entries[..0], load) == []
    ensures i > 0 ==>
      EntryRecords(entries[..i], load)
        == EntryRecords(entries[..i - 1], load)
           + (match EntryRecord(entries[i - 1], load) case None => [] case Some(r) => [r])
  {
    hide EntryRecord;
    if i > 0 {
      assert entries[..i][..i - 1] == entries[..i - 1];
    }
    if i < |entries| {
      assert entries[..|entries| - 1][..i] == entries[..i];
      EntryRecordsSoFar(entries[..|entries| - 1], load, i);
    } else {
      assert entries[..i] == entries;
    }
  }

  lemma {:induction false} MapPrefix(st: T.Store, sp: T.Space, v: Word, phys: Word, k: nat, n: nat, flags: Word)
    requires k <= n && !R.VmMap(st, sp, v, phys, n, flags).Fault?
    ensures !R.VmMap(st, sp, v, phys, k, flags).Fault?
    ensures R.VmMap(st, sp, v, phys, k, flags).Halt? ==> R.VmMap(st, sp, v, phys, n, flags).Halt?
  {
    hide T.MapEntry;
    if k < n {
      MapPrefix(st, sp, v, phys, k, n - 1, flags);
    }
  }

  lemma {:induction false} UnmapPrefix(st: T.Store, sp: T.Space, v: Word, k: nat, n: nat)
    requires k <= n && R.VmUnmap(st, sp, v, n).Done?
    ensures R.VmUnmap(st, sp, v, k).Done?
  {
    hide T.UnmapEntry;
    if k < n {
      UnmapPrefix(st, sp, v, k, n - 1);
    }
  }

  lemma FreedLimit(st: T.Store, parent: nat, i: nat, child: nat)
    requires parent in st.tables && i < 512
    ensures T.SetEntry(st, parent, i, 0).limit == st.limit
    ensures T.FreeTable(T.SetEntry(st, parent, i, 0), child).Done? ==>
      T.FreeTable(T.SetEntry(st, parent, i, 0), child).value.limit == st.limit
  {
  }

  lemma UnlinkHasParent(st: T.Store, sp: T.Space, parent: nat, i: nat, child: nat)
    requires i < 512 && T.Unlink(st, sp, parent, i, child).Done?
    ensures parent in st.tables
    ensures T.Unlink(st, sp, parent, i, child).value.0.tables.Keys == st.tables.Keys - {child}
  {
  }

  lemma PathBoundsOf(v: Word)
    ensures Index(v, 1) < 512 && Index(v, 2) < 512 && Index(v, 3) < 512 && Index(v, 4) < 512
  {
    IndexIsDigit(v, 1);
    IndexIsDigit(v, 2);
    IndexIsDigit(v, 3);
    IndexIsDigit(v, 4);
  }

  lemma TableStays(st: T.Store, t: nat)
    requires t in st.tables && T.AllocTable(st).Done?
    ensures t in T.AllocTable(st).value.0.tables
  {
  }

  lemma TableNotFault(st: T.Store, sp: T.Space, t: nat, i: nat)
    requires i < 512 && !T.Ensure(st, sp, t, i).Fault?
    ensures t in st.tables
  {
  }
}
