/** The memory manager as a whole: physical memory, the log and all address spaces, with every
    entry point of kmalloc.c and mmu.c a step of the state machine of Runs. */
module Manager {
  import opened Words
  import opened Wrappers
  import opened Bytes
  import opened Frames
  import G = Growth
  import opened Boot
  import T = Tables
  import opened Replay
  import opened Init
  import opened Systems
  import opened Calls
  import opened Runs
  import opened Machine
  import opened Heap
  import opened Vectors
  import opened Paging

  /** Two spaces with lists of their own. */
  ghost predicate Apart(a: AddressSpace, b: AddressSpace)
    reads a.memoryList, b.memoryList
  {
    && a != b && a.memoryList != b.memoryList
    && (a.memoryList.data.Some? && b.memoryList.data.Some? ==> a.memoryList.Base() != b.memoryList.Base())
  }

  class MemoryManager {
    const vm: VirtualMemory
    ghost var spaces: map<nat, AddressSpace>
    ghost var structs: map<nat, nat>
    ghost var shapes: Shapes

    /** The kernel's space, whether set up yet or not, and all others. */
    ghost function All(): map<nat, AddressSpace>
      reads `spaces
    {
      spaces[0 := vm.kernelSpace]
    }

    ghost function Lists(): set<Vector>
      reads `spaces
    {
      set i | i in All() :: All()[i].memoryList
    }

    ghost predicate Wired()
      reads `spaces, Lists(), vm.globalMemMap, vm.memory, vm.memory.frames, vm.memory.frames.bitmap, vm.memory.mem
    {
      && (0 in spaces ==> spaces[0] == vm.kernelSpace)
      && (0 !in spaces ==> All()[0].memoryList.data.None?)
      && (forall i :: i in All() ==> vm.Ready(All()[i]))
      && (forall i, j :: i in All() && j in All() && i != j ==> Apart(All()[i], All()[j]))
    }

    /** Header pages of the blocks of the memory lists, and 0 for those without. */
    ghost function ListBases(): set<nat>
      reads `spaces, Lists()
    {
      set i | i in All() :: All()[i].memoryList.Base()
    }

    /** The same with the log. */
    ghost function Bases(): set<nat>
      reads `spaces, Lists(), vm.globalMemMap
    {
      ListBases() + {vm.globalMemMap.Base()}
    }

    /** Those of all spaces but i. */
    ghost function OtherBases(i: nat): (others: set<nat>)
      requires i in All()
      reads `spaces, Lists()
      ensures ListBases() == others + {All()[i].memoryList.Base()}
    {
      set j | j in All() && j != i :: All()[j].memoryList.Base()
    }

    /** The spaces set up, as Runs sees them. */
    ghost function AbsSpaces(): map<nat, T.Space>
      requires Wired()
      reads `spaces, All().Values, Lists(), vm.globalMemMap, vm.memory, vm.memory.frames, vm.memory.frames.bitmap,
            vm.memory.mem
    {
      map i | i in spaces :: All()[i].Abs()
    }

    /** The state as Runs sees it. */
    ghost function Abs(): System
      requires Wired()
      reads `spaces, `structs, All().Values, Lists(), vm.globalMemMap, vm.memory, vm.memory.frames,
            vm.memory.frames.bitmap, vm.memory.mem
    {
      assert vm.Ready(All()[0]);
      System(vm.State(), vm.memory.blocks - Bases(), AbsSpaces(), structs, vm.Log(), vm.globalMemMap.Block())
    }

    ghost predicate Valid()
      reads this, All().Values, Lists(), vm.globalMemMap, vm.memory, vm.memory.frames, vm.memory.frames.bitmap,
            vm.memory.mem
    {
      Wired() && Inv(Abs(), shapes, vm.memory.reserved)
    }

    /** After pm_init and before vm_init. */
    constructor (memory: KernelMemory)
      requires memory.Valid() && memory.tables == map[] && memory.blocks == map[]
      ensures Valid() && fresh(vm) && vm.memory == memory
      ensures Abs() == Booted(memory.frames.limit, memory.frames.Free())
    {
      var kernelSpace := new AddressSpace(memory, 0);
      vm := new VirtualMemory(memory, kernelSpace);
      spaces, structs, shapes := map[], map[], map[];
      new;
      hide KernelMemory.Valid, FrameAllocator.Free, Inv, LimitPages;
      vm.ReadyNow(vm.kernelSpace);
      hide *;
      AllNew();
    }

    lemma AllNew()
      requires vm.memory.blocks == map[] && vm.memory.tables == map[] && spaces == map[] && structs == map[]
      requires shapes == map[]
      requires vm.Ready(vm.kernelSpace) && vm.kernelSpace.memoryList.data.None? && vm.globalMemMap.data.None?
      ensures Valid() && Abs() == Booted(vm.memory.frames.limit, vm.memory.frames.Free())
    {
      hide FrameAllocator.Free, Inv, LimitPages, KernelMemory.Valid, Wired;
      KernelOnly();
      NothingYet();
      FreshMachine(vm.memory);
      BootedGood(vm.memory.frames.limit, vm.memory.frames.Free(), vm.memory.reserved);
    }

    lemma KernelOnly()
      requires spaces == map[] && vm.Ready(vm.kernelSpace) && vm.kernelSpace.memoryList.data.None?
      ensures Wired()
    {
      hide VirtualMemory.Ready;
      assert All() == map[0 := vm.kernelSpace];
    }

    lemma NothingYet()
      requires vm.memory.blocks == map[] && vm.memory.tables == map[] && spaces == map[] && structs == map[]
      requires Wired() && vm.globalMemMap.data.None? && vm.globalMemMap.Backed()
      ensures Abs() == Booted(vm.memory.frames.limit, vm.memory.frames.Free())
    {
      hide KernelMemory.Valid, FrameAllocator.Free;
      assert vm.Log() == [];
      assert vm.memory.blocks - Bases() == map[];
    }

    // -------------------------------------------------------------- what stays

    /** Nothing of this space was assigned to. */
    twostate predicate Untouched(a: AddressSpace)
      reads a, a.memoryList
    {
      && a.pml4 == old(a.pml4) && a.memoryList.data == old(a.memoryList.data)
      && a.memoryList.length == old(a.memoryList.length) && a.memoryList.capacity == old(a.memoryList.capacity)
    }

    /** This space is in order and stands for the same. */
    twostate predicate Same(a: AddressSpace)
      reads a, a.memoryList, vm.globalMemMap, vm.memory, vm.memory.frames, vm.memory.frames.bitmap, vm.memory.mem
    {
      vm.Ready(a) && old(vm.Ready(a)) && a.Abs() == old(a.Abs())
    }

    /** The block of this space's list is there as before, and is not the log's. */
    twostate predicate BlockStays(a: AddressSpace)
      reads a.memoryList, vm.globalMemMap, vm.memory
    {
      var b := a.memoryList.Base();
      a.memoryList.data.Some? ==>
        && b in old(vm.memory.blocks) && b in vm.memory.blocks && vm.memory.blocks[b] == old(vm.memory.blocks)[b]
        && (vm.globalMemMap.data.Some? ==> vm.globalMemMap.Base() != b)
    }

    /** A space that was not worked on is as it was. */
    twostate lemma OtherStays(a: AddressSpace)
      requires old(vm.Ready(a)) && vm.memory.Valid() && vm.LogReady() && Untouched(a) && BlockStays(a)
      ensures Same(a)
    {
      hide KernelMemory.Valid, Vector.Items;
      assert a.memoryList.Contents() == old(a.memoryList.Contents());
      vm.SameList(a);
    }

    /** A block that is neither this space's nor the log's stays when these are worked on. */
    lemma InRest(was: map<nat, Block>, now: map<nat, Block>, b: nat, lb: nat, b': nat, lb': nat, c: nat)
      requires Within(was - {b} - {lb}, now - {b'} - {lb'}) && c in was && c != b && c != lb
      ensures c in now && now[c] == was[c] && c != b' && c != lb'
    {
      assert c in was - {b} - {lb};
      assert c in now - {b'} - {lb'} && (now - {b'} - {lb'})[c] == (was - {b} - {lb})[c];
    }

    lemma WithoutAll(was: map<nat, Block>, now: map<nat, Block>, b: nat, lb: nat, b': nat, lb': nat, others: set<nat>)
      requires now - {b'} - {lb'} == was - {b} - {lb}
      ensures now - (others + {b'} + {lb'}) == was - (others + {b} + {lb})
    {
      NestedWithout(was, b, lb, others);
      NestedWithout(now, b', lb', others);
    }

    lemma NestedWithout(blocks: map<nat, Block>, b: nat, lb: nat, others: set<nat>)
      ensures blocks - (others + {b} + {lb}) == blocks - {b} - {lb} - others
    {
    }

    /** Work was done on space i and the log only, and no other block went. */
    twostate predicate Worked(i: nat)
      reads `spaces, `structs, All().Values, Lists(), vm.globalMemMap, vm.memory, vm.memory.frames,
            vm.memory.frames.bitmap, vm.memory.mem
    {
      && i in All() && All() == old(All()) && vm.Ready(All()[i])
      && Within(old(vm.Rest(All()[i])), vm.Rest(All()[i]))
      && forall j :: j in All() && j != i ==> Untouched(All()[j])
    }

    /** Then all spaces are in order, and the others as they were. */
    twostate lemma Rewired(i: nat)
      requires old(Wired()) && Worked(i)
      requires 0 in spaces ==> spaces[0] == vm.kernelSpace
      requires 0 !in spaces ==> i != 0 && 0 !in old(spaces)
      ensures Wired()
      ensures forall j :: j in All() && j != i ==> Same(All()[j])
    {
      hide KernelMemory.Valid, Vector.Items, AddressSpace.Abs;
      var a := All()[i];
      forall j | j in All() && j != i
        ensures Same(All()[j]) && Apart(a, All()[j]) && Apart(All()[j], a)
      {
        var b := All()[j];
        assert old(vm.Ready(a)) && old(vm.Ready(b)) && old(Apart(a, b));
        if b.memoryList.data.Some? {
          InRest(old(vm.memory.blocks), vm.memory.blocks, old(a.memoryList.Base()), old(vm.globalMemMap.Base()),
                 a.memoryList.Base(), vm.globalMemMap.Base(), b.memoryList.Base());
        }
        OtherStays(b);
      }
    }

    /** Then the blocks of callers are the same. */
    twostate lemma SameBlocks(i: nat)
      requires i in All() && All() == old(All())
      requires vm.Rest(All()[i]) == old(vm.Rest(All()[i]))
      requires forall j :: j in All() && j != i ==> All()[j].memoryList.Base() == old(All()[j].memoryList.Base())
      ensures vm.memory.blocks - Bases() == old(vm.memory.blocks - Bases())
    {
      var a := All()[i];
      assert OtherBases(i) == old(OtherBases(i));
      WithoutAll(old(vm.memory.blocks), vm.memory.blocks, old(a.memoryList.Base()), old(vm.globalMemMap.Base()),
                 a.memoryList.Base(), vm.globalMemMap.Base(), OtherBases(i));
    }

    // -------------------------------------------------------------- vm_map and vm_unmap

    twostate lemma SpacesAfter(i: nat)
      requires old(Wired()) && Wired() && i in spaces && spaces.Keys == old(spaces).Keys + {i} && All() == old(All())
      requires forall j :: j in All() && j != i ==> Same(All()[j])
      ensures AbsSpaces() == old(AbsSpaces())[i := All()[i].Abs()]
    {
      hide KernelMemory.Valid, AddressSpace.Abs, VirtualMemory.Ready, Apart;
    }

    /** After work on space i, one of those set up, the state is the old one with this space, the
        store and the log exchanged. */
    twostate lemma SpaceWorked(i: nat)
      requires old(Wired()) && i in spaces && spaces == old(spaces) && structs == old(structs) && Worked(i)
      requires vm.Rest(All()[i]) == old(vm.Rest(All()[i]))
      ensures Wired()
      ensures Abs() == WithSpace(old(Abs()), i, vm.State(), vm.globalMemMap.Block(), All()[i].Abs()).(log := vm.Log())
    {
      Rewired(i);
      hide KernelMemory.Valid, AddressSpace.Abs, AbsSpaces, VirtualMemory.Ready, Apart, VirtualMemory.Log,
        VirtualMemory.Rest, Wired;
      SameBlocks(i);
      SpacesAfter(i);
    }

    lemma KernelIs(i: nat)
      requires Wired() && i in spaces
      ensures All()[i] == spaces[i] && AbsSpaces()[i] == spaces[i].Abs()
      ensures vm.Convert(if i == 0 then null else spaces[i]) == spaces[i]
    {
      hide KernelMemory.Valid, AddressSpace.Abs, VirtualMemory.Ready, Apart;
    }

    /** The vectors are different objects. */
    lemma ListsApart(i: nat)
      requires Wired() && i in All()
      ensures vm.Ready(All()[i]) && All()[i].memoryList.Backed() && All()[i].memoryList != vm.globalMemMap
      ensures forall j :: j in All() && j != i ==>
        All()[j] != All()[i] && All()[j].memoryList != All()[i].memoryList && All()[j].memoryList != vm.globalMemMap
    {
      hide KernelMemory.Valid, Vector.Backed;
    }

    /** vm_map as a call on space i. */
    method MapSpace(ghost i: nat, target: AddressSpace?, virtAddr: Word, physAddr: Word, numPages: nat, flags: Word)
        returns (ok: bool)
      requires Wired() && i in spaces && target == (if i == 0 then null else spaces[i]) && numPages * PAGE_SIZE < TWO64
      requires i in Abs().spaces && !MapOf(Abs(), i, Record(virtAddr, physAddr, flags, numPages)).Fault?
      modifies Lists(), vm.globalMemMap, vm.memory, vm.memory.mem, vm.memory.frames, vm.memory.frames.bitmap
      ensures ok ==>
        && Worked(i) && vm.Rest(All()[i]) == old(vm.Rest(All()[i]))
        && vm.Log() == (if i == 0 then old(vm.Log()) + [Record(virtAddr, physAddr, flags, numPages)] else old(vm.Log()))
        && MapOf(old(Abs()), i, Record(virtAddr, physAddr, flags, numPages))
             == Done((vm.State(), vm.globalMemMap.Block(), All()[i].Abs()))
      ensures !ok ==> MapOf(old(Abs()), i, Record(virtAddr, physAddr, flags, numPages)).Halt?
    {
      hide KernelMemory.Valid, FrameAllocator.Free, Vector.Items, AddressSpace.Abs, VirtualMemory.Log,
        VirtualMemory.Rest, Vector.Backed, Apart, MapCall, Wired, VirtualMemory.Ready, AbsSpaces;
      ListsApart(i);
      KernelIs(i);
      ok := vm.VmMap(target, virtAddr, physAddr, numPages, flags);
    }

    /** vm_map for any space; false is a halt. */
    method VmMap(ghost i: nat, target: AddressSpace?, virtAddr: Word, physAddr: Word, numPages: nat, flags: Word)
        returns (ok: bool)
      requires Valid() && i in spaces && target == if i == 0 then null else spaces[i]
      requires Allowed(Abs(), MapPages(i, Record(virtAddr, physAddr, flags, numPages)))
      modifies this`shapes, Lists(), vm.globalMemMap, vm.memory, vm.memory.mem, vm.memory.frames,
               vm.memory.frames.bitmap
      ensures spaces == old(spaces) && structs == old(structs)
      ensures ok ==> Valid() && Takes(old(Abs()), MapPages(i, Record(virtAddr, physAddr, flags, numPages)), Abs())
      ensures !ok ==> Stops(old(Abs()), MapPages(i, Record(virtAddr, physAddr, flags, numPages)))
    {
      hide KernelMemory.Valid, Inv, Wired, Worked, AbsSpaces, MapOf, AddressSpace.Abs, VirtualMemory.Log,
        VirtualMemory.Rest, Takes, Stops, WithSpace, Allowed, Bases;
      ghost var r, s := Record(virtAddr, physAddr, flags, numPages), Abs();
      MapSafe(s, shapes, vm.memory.reserved, i, r);
      ok := MapSpace(i, target, virtAddr, physAddr, numPages, flags);
      if ok {
        WorkedReady(i);
        ghost var t := WithSpace(s, i, vm.State(), vm.globalMemMap.Block(), All()[i].Abs()).(log := vm.Log());
        MapDone(s, i, r, vm.State(), vm.globalMemMap.Block(), All()[i].Abs());
        label Mapped:
        shapes := TakenKeepsInv(s, shapes, vm.memory.reserved, MapPages(i, r), t);
        assert All() == old@Mapped(All()) && Lists() == old@Mapped(Lists());
        NoPart();
        SpaceWorked(i);
      } else {
        MapHalts(s, i, r);
      }
    }

    twostate lemma WorkedReady(i: nat)
      requires Worked(i)
      ensures i in All() && All()[i].memoryList.Backed() && vm.LogReady()
    {
      hide Within, Untouched;
    }

    /** vm_unmap as a call on space i. */
    method UnmapSpace(ghost i: nat, target: AddressSpace?, virtAddr: Word, numPages: nat)
      requires Wired() && i in spaces && target == (if i == 0 then null else spaces[i]) && numPages * PAGE_SIZE < TWO64
      requires i in Abs().spaces && UnmapOf(Abs(), i, virtAddr, numPages).Done?
      modifies Lists(), vm.globalMemMap, vm.memory, vm.memory.mem, vm.memory.frames, vm.memory.frames.bitmap
      ensures Worked(i) && vm.Rest(All()[i]) == old(vm.Rest(All()[i]))
      ensures vm.globalMemMap.Block() == old(vm.globalMemMap.Block())
      ensures vm.Log() == if i == 0 then EraseRecord(old(vm.Log()), virtAddr) else old(vm.Log())
      ensures UnmapOf(old(Abs()), i, virtAddr, numPages) == Done((vm.State(), All()[i].Abs()))
    {
      hide KernelMemory.Valid, FrameAllocator.Free, Vector.Items, AddressSpace.Abs, VirtualMemory.Log,
        VirtualMemory.Rest, Vector.Backed, Apart, UnmapCall, Wired, VirtualMemory.Ready, AbsSpaces, EraseRecord;
      ListsApart(i);
      KernelIs(i);
      vm.VmUnmap(target, virtAddr, numPages);
    }

    /** vm_unmap for any space, if its erases stay inside their vectors' blocks. */
    method VmUnmap(ghost i: nat, target: AddressSpace?, virtAddr: Word, numPages: nat)
      requires Valid() && i in spaces && target == if i == 0 then null else spaces[i]
      requires Allowed(Abs(), UnmapPages(i, virtAddr, numPages))
      requires !EraseOverruns(Abs(), shapes, UnmapPages(i, virtAddr, numPages))
      modifies this`shapes, Lists(), vm.globalMemMap, vm.memory, vm.memory.mem, vm.memory.frames,
               vm.memory.frames.bitmap
      ensures spaces == old(spaces) && structs == old(structs)
      ensures Valid() && Takes(old(Abs()), UnmapPages(i, virtAddr, numPages), Abs())
    {
      hide KernelMemory.Valid, Inv, Wired, Worked, AbsSpaces, UnmapOf, AddressSpace.Abs, VirtualMemory.Log,
        VirtualMemory.Rest, EraseRecord, Takes, WithSpace, Allowed, EraseOverruns, Bases;
      ghost var s := Abs();
      UnmapSafely(s, shapes, vm.memory.reserved, i, virtAddr, numPages);
      UnmapSpace(i, target, virtAddr, numPages);
      WorkedReady(i);
      ghost var t := WithSpace(s, i, vm.State(), vm.globalMemMap.Block(), All()[i].Abs()).(log := vm.Log());
      UnmapDone(s, i, virtAddr, numPages, vm.State(), All()[i].Abs());
      label Unmapped:
      shapes := TakenKeepsInv(s, shapes, vm.memory.reserved, UnmapPages(i, virtAddr, numPages), t);
      assert All() == old@Unmapped(All()) && Lists() == old@Unmapped(Lists());
      NoPart();
      SpaceWorked(i);
    }

    // -------------------------------------------------------------- the heap

    /** The spaces there were are there still, untouched. */
    twostate predicate ListsKept()
      reads `spaces, All().Values, Lists()
    {
      forall j :: j in old(All()) ==> j in All() && All()[j] == old(All()[j]) && Untouched(All()[j])
    }

    /** And their lists are in the same blocks. */
    twostate predicate ListsStay()
      reads `spaces, All().Values, Lists(), vm.memory
    {
      && ListsKept()
      && forall j :: j in old(All()) ==> (All()[j].memoryList.data.Some? ==> Stays(All()[j].memoryList.Base()))
    }

    twostate predicate Stays(b: nat)
      reads vm.memory
    {
      b in old(vm.memory.blocks) ==> b in vm.memory.blocks && vm.memory.blocks[b] == old(vm.memory.blocks)[b]
    }

    twostate predicate LogStays()
      reads vm.globalMemMap, vm.memory
    {
      && vm.globalMemMap.data == old(vm.globalMemMap.data) && vm.globalMemMap.length == old(vm.globalMemMap.length)
      && vm.globalMemMap.capacity == old(vm.globalMemMap.capacity) && Stays(vm.globalMemMap.Base())
    }

    twostate lemma LogSame()
      requires old(vm.LogReady()) && LogStays()
      ensures vm.LogReady() && vm.Log() == old(vm.Log())
    {
      hide Vector.Items;
      assert vm.globalMemMap.Contents() == old(vm.globalMemMap.Contents());
      vm.SameItems();
    }

    twostate lemma SpaceSame(j: nat)
      requires old(Wired()) && ListsStay() && j in old(All()) && vm.memory.Valid() && vm.LogReady()
      requires vm.globalMemMap.data == old(vm.globalMemMap.data)
      ensures Same(All()[j])
    {
      hide KernelMemory.Valid, Vector.Items, AddressSpace.Abs;
      assert old(vm.Ready(All()[j]));
      hide Wired;
      OtherStays(All()[j]);
    }

    /** Every space is as it was. */
    twostate lemma HeapRewired()
      requires old(Wired()) && ListsStay() && spaces == old(spaces) && vm.memory.Valid() && vm.LogReady()
      requires vm.globalMemMap.data == old(vm.globalMemMap.data)
      ensures Wired()
      ensures forall j :: j in All() ==> Same(All()[j])
    {
      forall j | j in All()
        ensures Same(All()[j]) && vm.Ready(All()[j])
      {
        SpaceSame(j);
      }
      StillApart();
      NoneStarted();
      KernelStays();
      hide KernelMemory.Valid, AddressSpace.Abs, VirtualMemory.Ready, Apart, Same, Untouched, Stays;
    }

    twostate lemma BasesStay()
      requires ListsStay() && spaces == old(spaces) && vm.globalMemMap.data == old(vm.globalMemMap.data)
      ensures Bases() == old(Bases())
    {
      hide AddressSpace.Abs;
    }

    /** After a call of the heap that touched no block of a vector, the state is the old one with
        the store and the blocks exchanged. */
    twostate lemma HeapIs()
      requires old(Wired()) && ListsStay() && LogStays() && vm.memory.Valid() && spaces == old(spaces)
      requires structs == old(structs)
      ensures Wired() && Bases() == old(Bases())
      ensures Abs() == old(Abs()).(st := vm.State(), blocks := vm.memory.blocks - Bases())
    {
      hide KernelMemory.Valid, AddressSpace.Abs, Vector.Items, AbsSpaces;
      assert old(vm.Ready(All()[0]));
      LogSame();
      BasesStay();
      HeapRewired();
      hide VirtualMemory.Ready, Apart, VirtualMemory.Log, Wired;
      SpacesStay();
    }

    twostate lemma SpacesStay()
      requires old(Wired()) && Wired() && spaces == old(spaces)
      requires forall j :: j in All() ==> Same(All()[j])
      ensures AbsSpaces() == old(AbsSpaces())
    {
      hide KernelMemory.Valid, AddressSpace.Abs, VirtualMemory.Ready, Apart;
    }

    /** The same, for a call that left all blocks of vectors alone. */
    twostate lemma HeapDone()
      requires old(Wired()) && ListsKept() && vm.memory.Valid() && spaces == old(spaces) && structs == old(structs)
      requires vm.globalMemMap.data == old(vm.globalMemMap.data)
      requires vm.globalMemMap.length == old(vm.globalMemMap.length)
      requires vm.globalMemMap.capacity == old(vm.globalMemMap.capacity)
      requires forall b :: b in old(Bases()) ==> Stays(b)
      ensures Wired()
      ensures Abs() == old(Abs()).(st := vm.State(), blocks := vm.memory.blocks - old(Bases()))
    {
      hide KernelMemory.Valid, Wired, AddressSpace.Abs, VirtualMemory.Log, AbsSpaces, Stays;
      forall j | j in old(All())
        ensures Stays(All()[j].memoryList.Base())
      {
        assert All()[j].memoryList.Base() in old(Bases());
      }
      HeapIs();
    }

    /** kmalloc: None is a halt. */
    method Kmalloc(size: Word, line: Word) returns (r: Option<nat>)
      requires Valid() && Unwrapped(NumPages(size) + 1, vm.memory.frames.limit)
      modifies this`shapes, vm.memory, vm.memory.mem, vm.memory.frames, vm.memory.frames.bitmap
      ensures spaces == old(spaces) && structs == old(structs)
      ensures r.Some? ==>
        && Valid() && r.value == PAGE_SIZE * (NewBase(old(Abs()), size) + 1)
        && exists payload :: Takes(old(Abs()), Event.Kmalloc(size, payload), Abs())
      ensures r.None? ==> forall payload :: Next(old(Abs()), Event.Kmalloc(size, payload)).Halt?
    {
      hide KernelMemory.Valid, FrameAllocator.Free, AddressSpace.Abs, VirtualMemory.Log, Inv, Wired, AbsSpaces,
        NumPages, FirstFit, BlockAdded, Next, Takes, NewBase, Bases;
      ghost var s, m, bases := Abs(), vm.memory.Sys(), Bases();
      BasesInUse();
      r := Heap.Kmalloc(vm.memory, size, line);
      if r.Some? {
        KmallocBeside(m, vm.memory.Sys(), s, bases, size, r.value);
        ghost var e := Event.Kmalloc(size, vm.memory.blocks[r.value / PAGE_SIZE - 1].payload);
        shapes := TakenKeepsInv(s, shapes, vm.memory.reserved, e,
                                s.(st := vm.State(), blocks := vm.memory.blocks - bases));
        HeapDone();
      } else {
        KmallocHalts(s, size);
      }
    }

    /** kfree of a caller's block, or of a place inside one that does not look like a header. */
    method Kfree(address: nat)
      requires Valid() && address % PAGE_SIZE == 0 && address >= 2 * PAGE_SIZE
      requires Allowed(Abs(), Event.Kfree(address / PAGE_SIZE - 1))
      modifies this`shapes, vm.memory, vm.memory.mem, vm.memory.frames, vm.memory.frames.bitmap
      ensures spaces == old(spaces) && structs == old(structs)
      ensures Valid() && Takes(old(Abs()), Event.Kfree(address / PAGE_SIZE - 1), Abs())
    {
      hide KernelMemory.Valid, FrameAllocator.Free, AddressSpace.Abs, VirtualMemory.Log, Inv, Wired, AbsSpaces,
        Unmarked, DropBlock, Bases, WordAt, Allowed, Next, Takes;
      ghost var s, bases, b := Abs(), Bases(), address / PAGE_SIZE - 1;
      BasesInUse();
      FreeBeside(vm.memory, s, bases, b);
      Heap.Kfree(vm.memory, address);
      shapes := TakenKeepsInv(s, shapes, vm.memory.reserved, Event.Kfree(b),
                              s.(st := vm.State(), blocks := vm.memory.blocks - bases));
      HeapDone();
    }

    /** A store into a caller's block. */
    method Write(b: nat, off: nat, bytes: seq<Byte>)
      requires Valid() && Lent(Abs(), b) && off + |bytes| <= |Abs().blocks[b].payload|
      modifies this`shapes, vm.memory, vm.memory.mem
      ensures spaces == old(spaces) && structs == old(structs)
      ensures Valid() && Takes(old(Abs()), Event.Write(b, Put(old(Abs()).blocks[b].payload, off, bytes)), Abs())
    {
      hide KernelMemory.Valid, FrameAllocator.Free, AddressSpace.Abs, VirtualMemory.Log, Inv, Wired, AbsSpaces, Bases,
        Put, Next, Takes, Allowed;
      ghost var s, bases := Abs(), Bases();
      ghost var e := Event.Write(b, Put(s.blocks[b].payload, off, bytes));
      BasesInUse();
      LentBeside(vm.memory, s, bases, b);
      WriteBeside(vm.memory.Sys(), s, bases, b, Put(s.blocks[b].payload, off, bytes));
      WritePayload(vm.memory, b, off, bytes);
      shapes := TakenKeepsInv(s, shapes, vm.memory.reserved, e,
                              s.(st := vm.State(), blocks := vm.memory.blocks - bases));
      HeapDone();
    }

    /** krealloc of a caller's block: None is the halt inside pm_get. */
    method Krealloc(address: nat, newSize: Word, line: Word) returns (r: Option<nat>)
      requires Valid() && address % PAGE_SIZE == 0 && address >= 2 * PAGE_SIZE && newSize <= TWO64 - PAGE_SIZE
      requires Lent(Abs(), address / PAGE_SIZE - 1)
      requires Abs().blocks[address / PAGE_SIZE - 1].size <= |Abs().blocks[address / PAGE_SIZE - 1].payload|
      requires NumPages(Abs().blocks[address / PAGE_SIZE - 1].size) != NumPages(newSize) ==>
        Unwrapped(NumPages(newSize) + 1, vm.memory.frames.limit)
      modifies this`shapes, vm.memory, vm.memory.mem, vm.memory.frames, vm.memory.frames.bitmap
      ensures spaces == old(spaces) && structs == old(structs)
      ensures r.Some? ==>
        && Valid() && r.value >= PAGE_SIZE && r.value % PAGE_SIZE == 0 && IsData(Abs(), r.value / PAGE_SIZE - 1)
        && Takes(old(Abs()),
                 Event.Krealloc(address / PAGE_SIZE - 1, newSize, Abs().blocks[r.value / PAGE_SIZE - 1].payload), Abs())
      ensures r.None? ==> ReallocHalts(old(Abs()), address / PAGE_SIZE - 1, newSize)
    {
      hide KernelMemory.Valid, FrameAllocator.Free, AddressSpace.Abs, VirtualMemory.Log, Inv, Wired, AbsSpaces,
        Bases, Reallocated, NumPages, FirstFit, Next, Allowed, Takes, ReallocHalts;
      ghost var s, m, bases, b := Abs(), vm.memory.Sys(), Bases(), address / PAGE_SIZE - 1;
      BasesInUse();
      LentBeside(vm.memory, s, bases, b);
      ghost var copied;
      r, copied := Heap.Krealloc(vm.memory, Some(address), newSize, line);
      if r.Some? {
        ghost var c, m' := r.value / PAGE_SIZE - 1, vm.memory.Sys();
        KreallocBeside(m, m', s, bases, b, newSize, r.value);
        ghost var e := Event.Krealloc(b, newSize, m'.blocks[c].payload);
        shapes := TakenKeepsInv(s, shapes, vm.memory.reserved, e, s.(st := vm.State(), blocks := m'.blocks - bases));
        HeapDone();
      } else {
        KreallocHalts(s, b, newSize);
      }
    }

    /** The vectors' blocks are live, or 0 stands for none. */
    lemma BasesInUse()
      requires Wired()
      ensures Bases() <= vm.memory.blocks.Keys + {0}
      ensures vm.memory.Valid() && 0 !in vm.memory.blocks && vm.memory.frames.limit <= MAX_LIMIT
    {
      assert vm.Ready(All()[0]);
      LimitIsSmall(vm.memory);
      NoBlockZero(vm.memory);
      hide KernelMemory.Valid;
      forall i | i in All()
        ensures All()[i].memoryList.Base() in vm.memory.blocks.Keys + {0}
      {
        assert vm.Ready(All()[i]);
      }
    }

    // -------------------------------------------------------------- vm_init and create_address_space

    /** What the code works on when it makes a space is the state without the spaces there are, and
        with the blocks of their lists. */
    lemma KernelBeside()
      requires Wired()
      ensures vm.LogReady() && Abs().spaces.Keys == spaces.Keys && Beside(vm.Kernel(), Abs(), ListBases())
    {
      BasesInUse();
      BlocksNotFree(vm.memory);
      assert vm.Ready(All()[0]);
      hide KernelMemory.Valid, FrameAllocator.Free, VirtualMemory.Log, AddressSpace.Abs, Vector.Backed, Vector.Items;
      assert vm.LogReady();
      hide Wired, VirtualMemory.Ready, VirtualMemory.LogReady, ListBases, AbsSpaces, Beside;
      KeysOfSpaces();
      assert ListBases() <= Bases();
      PartsBeside(vm.Kernel(), Abs(), vm.memory.blocks, vm.globalMemMap.Base(), ListBases());
    }

    lemma KeysOfSpaces()
      requires Wired()
      ensures AbsSpaces().Keys == spaces.Keys
    {
      hide Wired, AddressSpace.Abs;
    }

    twostate lemma KernelBlocks()
      requires Worked(0) && old(All()[0].memoryList.Base()) == 0 && 0 !in vm.memory.blocks
      ensures vm.memory.blocks - Bases() == vm.Rest(All()[0]) - old(ListBases())
    {
      hide VirtualMemory.Ready, AddressSpace.Abs;
      assert OtherBases(0) == old(OtherBases(0));
      var b, lb, others := All()[0].memoryList.Base(), vm.globalMemMap.Base(), OtherBases(0);
      NestedWithout(vm.memory.blocks, b, lb, others);
      WithoutZero(vm.Rest(All()[0]), others);
      assert Bases() == others + {b} + {lb};
    }

    lemma WithoutZero(blocks: map<nat, Block>, others: set<nat>)
      requires 0 !in blocks
      ensures blocks - (others + {0}) == blocks - others
    {
    }

    /** After vm_init. */
    twostate lemma KernelStarted()
      requires old(Wired()) && Worked(0) && 0 !in old(spaces) && spaces == old(spaces)[0 := vm.kernelSpace]
      requires structs == old(structs)
      ensures Wired()
      ensures Abs() == System(vm.State(), vm.Rest(vm.kernelSpace) - old(ListBases()),
                              old(Abs()).spaces[0 := vm.kernelSpace.Abs()], structs, vm.Log(), vm.globalMemMap.Block())
    {
      Rewired(0);
      BasesInUse();
      assert old(All()[0].memoryList.data.None?) && All()[0] == vm.kernelSpace;
      hide KernelMemory.Valid, AddressSpace.Abs, AbsSpaces, VirtualMemory.Ready, Apart, VirtualMemory.Log, Wired,
        VirtualMemory.Rest, ListBases, Bases, Worked;
      KernelBlocks();
      KernelSpaces();
    }

    twostate lemma KernelSpaces()
      requires old(Wired()) && Wired() && Worked(0) && 0 !in old(spaces) && spaces == old(spaces)[0 := vm.kernelSpace]
      requires forall j :: j in All() && j != 0 ==> Same(All()[j])
      ensures AbsSpaces() == old(AbsSpaces())[0 := vm.kernelSpace.Abs()]
    {
      hide KernelMemory.Valid, AddressSpace.Abs, AbsSpaces, VirtualMemory.Ready, Apart, Wired;
      SpacesAfter(0);
    }

    /** vm_init in memory, with the kernel's space counted among those set up. */
    method StartKernel(ghost k: System, entries: seq<MemEntry>, load: LoadAddress) returns (ok: bool)
      requires Wired() && 0 !in Abs().spaces && k == vm.Kernel() && k.st.limit == vm.memory.frames.limit
      modifies this`spaces, vm.kernelSpace, Lists(), vm.globalMemMap, vm.memory, vm.memory.mem, vm.memory.frames,
               vm.memory.frames.bitmap
      ensures ok ==>
        && spaces == old(spaces)[0 := vm.kernelSpace] && vm.Ready(vm.kernelSpace) && All() == old(All())
        && (forall j :: j in All() && j != 0 ==> Untouched(All()[j]))
        && BuildSpace(k, 0, InitCalls(k.st.limit, entries, load))
             == Done(WithSpace(vm.View(vm.kernelSpace), 0, vm.State(), vm.globalMemMap.Block(), vm.kernelSpace.Abs()))
      ensures !ok ==> spaces == old(spaces) && BuildSpace(k, 0, InitCalls(k.st.limit, entries, load)).Halt?
    {
      hide KernelMemory.Valid, FrameAllocator.Free, Vector.Items, AddressSpace.Abs, VirtualMemory.Log,
        VirtualMemory.Rest, Vector.Backed, Apart, VirtualMemory.Ready, BuildSpace, InitCalls, InitLog, Wired,
        VirtualMemory.Kernel, VirtualMemory.View;
      ListsApart(0);
      NotStarted();
      ok := vm.VmInit(entries, load);
      if ok {
        spaces := spaces[0 := vm.kernelSpace];
      }
    }

    /** vm_init: false is a halt. */
    method VmInit(entries: seq<MemEntry>, load: LoadAddress) returns (ok: bool)
      requires Valid() && Allowed(Abs(), Event.VmInit(entries, load))
      modifies this`shapes, this`spaces, vm.kernelSpace, Lists(), vm.globalMemMap, vm.memory, vm.memory.mem,
               vm.memory.frames, vm.memory.frames.bitmap
      ensures structs == old(structs)
      ensures ok ==> Valid() && spaces == old(spaces)[0 := vm.kernelSpace]
      ensures ok ==> Takes(old(Abs()), Event.VmInit(entries, load), Abs())
      ensures !ok ==> Stops(old(Abs()), Event.VmInit(entries, load))
    {
      hide KernelMemory.Valid, AddressSpace.Abs, VirtualMemory.Log, VirtualMemory.Rest, Inv, VirtualMemory.Ready,
        AbsSpaces, BuildSpace, InitCalls, ListBases, Bases, Within, Wired, Takes, Stops, Beside, Untouched;
      NotStarted();
      KernelBeside();
      ghost var s, k, others := Abs(), vm.Kernel(), ListBases();
      ok := StartKernel(k, entries, load);
      if ok {
        ReadyHas(vm.kernelSpace);
        InitBeside(k, vm.View(vm.kernelSpace), vm.kernelSpace.Abs(), s, others, entries, load);
        ghost var t := System(vm.State(), vm.Rest(vm.kernelSpace) - others, s.spaces[0 := vm.kernelSpace.Abs()],
                              structs, vm.Log(), vm.globalMemMap.Block());
        assert Worked(0);
        label Started:
        shapes := TakenKeepsInv(s, shapes, vm.memory.reserved, Event.VmInit(entries, load), t);
        assert All() == old@Started(All()) && Lists() == old@Started(Lists());
        NoPart();
        KernelStarted();
      } else {
        InitHalts(k, s, others, entries, load);
      }
    }

    lemma ReadyHas(a: AddressSpace)
      requires vm.Ready(a)
      ensures a.memoryList.Backed() && vm.LogReady() && vm.memory.Valid()
    {
    }

    lemma NotStarted()
      requires Wired() && 0 !in Abs().spaces
      ensures 0 !in spaces && All()[0] == vm.kernelSpace && vm.kernelSpace.memoryList.data.None?
      ensures vm.Rest(vm.kernelSpace) == vm.Kernel().blocks
    {
      BasesInUse();
      hide KernelMemory.Valid;
      assert vm.Ready(All()[0]);
      assert vm.memory.blocks - {0} == vm.memory.blocks;
    }

    /** The spaces there were are still apart. */
    twostate lemma StillApart()
      requires old(Wired()) && ListsStay()
      ensures forall j, l :: j in old(All()) && l in old(All()) && j != l ==> Apart(All()[j], All()[l])
    {
      hide KernelMemory.Valid, VirtualMemory.Ready;
    }

    twostate lemma StillSame()
      requires old(Wired()) && ListsStay() && vm.memory.Valid() && vm.LogReady()
      requires vm.globalMemMap.data == old(vm.globalMemMap.data)
      ensures forall j :: j in old(All()) ==> j in All() && Same(All()[j]) && vm.Ready(All()[j])
    {
      forall j | j in old(All())
        ensures Same(All()[j]) && vm.Ready(All()[j])
      {
        SpaceSame(j);
      }
    }

    /** Space i was made, and is apart from the others. */
    twostate predicate Joins(i: nat)
      reads `spaces, All().Values, Lists(), vm.globalMemMap, vm.memory, vm.memory.frames, vm.memory.frames.bitmap,
            vm.memory.mem
    {
      && i != 0 && i !in old(spaces) && i in spaces && spaces == old(spaces)[i := spaces[i]] && All()[i] == spaces[i]
      && All() == old(All())[i := spaces[i]] && vm.Ready(spaces[i])
      && forall j :: j in old(All()) ==> Apart(All()[j], spaces[i]) && Apart(spaces[i], All()[j])
    }

    lemma WiredWith(i: nat, before: map<nat, AddressSpace>)
      requires i != 0 && i in spaces && i !in before && 0 in before && All() == before[i := spaces[i]]
      requires 0 in spaces ==> spaces[0] == vm.kernelSpace
      requires 0 !in spaces ==> before[0].memoryList.data.None?
      requires vm.Ready(spaces[i]) && forall j :: j in before ==> vm.Ready(before[j])
      requires forall j, l :: j in before && l in before && j != l ==> Apart(before[j], before[l])
      requires forall j :: j in before ==> Apart(before[j], spaces[i]) && Apart(spaces[i], before[j])
      ensures Wired()
    {
      hide VirtualMemory.Ready, Apart;
    }

    /** It joins them. */
    twostate lemma SpaceJoined(i: nat)
      requires old(Wired()) && ListsStay() && Joins(i) && vm.memory.Valid() && vm.LogReady()
      requires vm.globalMemMap.data == old(vm.globalMemMap.data)
      ensures Wired() && forall j :: j in old(All()) ==> j in All() && Same(All()[j])
    {
      StillSame();
      StillApart();
      NoneStarted();
      hide KernelMemory.Valid, AddressSpace.Abs, VirtualMemory.Ready, Apart, Same, Stays, Untouched,
        VirtualMemory.Rest, Wired;
      KernelStays();
      WiredWith(i, old(All()));
    }

    twostate lemma KernelStays()
      requires old(Wired())
      ensures 0 in old(spaces) ==> old(spaces)[0] == vm.kernelSpace
    {
      hide VirtualMemory.Ready, Apart;
    }

    twostate lemma JoinedBlocks(i: nat)
      requires ListsStay() && Joins(i)
      ensures vm.memory.blocks - Bases() == vm.Rest(All()[i]) - old(ListBases())
    {
      hide VirtualMemory.Ready, AddressSpace.Abs, Apart;
      var b, lb, others := All()[i].memoryList.Base(), vm.globalMemMap.Base(), OtherBases(i);
      assert others == old(ListBases());
      NestedWithout(vm.memory.blocks, b, lb, others);
      assert Bases() == others + {b} + {lb};
    }

    /** The state with the new space. */
    twostate lemma SpaceMade(i: nat)
      requires old(Wired()) && ListsStay() && Joins(i) && vm.memory.Valid() && vm.LogReady()
      requires vm.globalMemMap.data == old(vm.globalMemMap.data)
      ensures Wired()
      ensures Abs() == System(vm.State(), vm.Rest(All()[i]) - old(ListBases()), old(Abs()).spaces[i := All()[i].Abs()],
                              structs, vm.Log(), vm.globalMemMap.Block())
    {
      SpaceJoined(i);
      assert All()[i] == spaces[i] && vm.Ready(spaces[i]);
      hide KernelMemory.Valid, AddressSpace.Abs, AbsSpaces, VirtualMemory.Ready, Apart, VirtualMemory.Log, Wired,
        VirtualMemory.Rest, ListBases, Bases;
      JoinedBlocks(i);
      JoinedSpaces(i);
    }

    lemma InNew(was: map<nat, Block>, lb: nat, now: map<nat, Block>, b': nat, lb': nat, c: nat)
      requires Within(was - {lb}, now - {b'} - {lb'}) && c in was && c != lb
      ensures c in now - {b'} - {lb'} && c in now && now[c] == was[c]
    {
      assert c in was - {lb} && (was - {lb})[c] == was[c];
    }

    /** The blocks of the lists are beside that of the new space, where they were. */
    twostate lemma ListsBeside(i: nat)
      requires old(Wired()) && old(vm.LogReady()) && ListsKept() && i in spaces
      requires Within(old(vm.Kernel()).blocks, vm.Rest(spaces[i]))
      ensures ListsStay()
      ensures forall j :: j in old(All()) && All()[j].memoryList.data.Some? ==>
        All()[j].memoryList.Base() in vm.Rest(spaces[i])
    {
      hide KernelMemory.Valid, Vector.Items, AddressSpace.Abs, Apart, Within;
      forall j | j in old(All()) && All()[j].memoryList.data.Some?
        ensures Stays(All()[j].memoryList.Base()) && All()[j].memoryList.Base() in vm.Rest(spaces[i])
      {
        var a := All()[j];
        assert old(vm.Ready(a));
        InNew(old(vm.memory.blocks), old(vm.globalMemMap.Base()), vm.memory.blocks, spaces[i].memoryList.Base(),
              vm.globalMemMap.Base(), a.memoryList.Base());
      }
    }

    /** A list whose block is among those beside that of the new space is apart from it. */
    lemma NewIsApart(all: map<nat, AddressSpace>, r: AddressSpace)
      requires forall j :: j in all ==> Distinct(all[j], r)
      requires forall j :: j in all && all[j].memoryList.data.Some? ==> all[j].memoryList.Base() in vm.Rest(r)
      ensures forall j :: j in all ==> Apart(all[j], r) && Apart(r, all[j])
    {
    }

    ghost predicate Distinct(a: AddressSpace, b: AddressSpace) {
      a != b && a.memoryList != b.memoryList
    }

    /** Space i got its number, and all other spaces are as they were, in memory and as objects. */
    twostate predicate Numbered(i: nat)
      reads `spaces, All().Values, Lists(), vm.globalMemMap, vm.memory, vm.memory.frames, vm.memory.frames.bitmap,
            vm.memory.mem
    {
      && old(vm.LogReady()) && ListsKept() && i != 0 && i !in old(spaces) && i in spaces
      && spaces == old(spaces)[i := spaces[i]] && All()[i] == spaces[i] && vm.Ready(spaces[i])
      && Within(old(vm.Kernel()).blocks, vm.Rest(spaces[i])) && vm.globalMemMap.data == old(vm.globalMemMap.data)
      && forall j :: j in old(All()) ==> Distinct(All()[j], spaces[i])
    }

    twostate lemma NumberedJoins(i: nat)
      requires old(Wired()) && Numbered(i)
      ensures ListsStay() && Joins(i)
    {
      hide VirtualMemory.Ready, VirtualMemory.LogReady, VirtualMemory.Kernel, VirtualMemory.Rest, KernelMemory.Valid,
        Apart, Wired, Within, Untouched, ListsStay, ListsKept, Distinct;
      assert All() == old(All())[i := spaces[i]];
      ListsBeside(i);
      NewIsApart(old(All()), spaces[i]);
    }

    twostate lemma NumberedIs(i: nat)
      requires old(Wired()) && Numbered(i)
      ensures Wired()
      ensures Abs() == System(vm.State(), vm.Rest(spaces[i]) - old(ListBases()),
                              old(Abs()).spaces[i := spaces[i].Abs()], structs, vm.Log(), vm.globalMemMap.Block())
    {
      NumberedJoins(i);
      ReadyHas(spaces[i]);
      hide KernelMemory.Valid, AddressSpace.Abs, AbsSpaces, VirtualMemory.Ready, Apart, VirtualMemory.Log, Wired,
        VirtualMemory.Rest, ListBases, Bases, Within, Joins, ListsStay, ListsKept, Distinct;
      SpaceMade(i);
    }

    /** create_address_space in memory, and the number for the new space. */
    method NewSpace(ghost k: System, ghost i: nat) returns (r: AddressSpace?)
      requires Wired() && vm.memory.Valid() && vm.LogReady() && GoodLog(vm.Log()) && i != 0 && i !in spaces
      requires k == vm.Kernel() && k.blocks.Keys !! k.st.free && k.st.limit <= MAX_LIMIT
      modifies this`spaces, vm.memory, vm.memory.mem, vm.memory.frames, vm.memory.frames.bitmap
      ensures r != null ==>
        && vm.Ready(r) && spaces == old(spaces)[i := r] && Numbered(i)
        && vm.Log() == old(vm.Log()) && Created(k, vm.View(r), r.Abs())
      ensures r == null ==> spaces == old(spaces) && CreationHalts(k)
    {
      hide KernelMemory.Valid, FrameAllocator.Free, Vector.Items, AddressSpace.Abs, VirtualMemory.Log,
        VirtualMemory.Rest, Vector.Backed, VirtualMemory.Ready, VirtualMemory.Kernel, VirtualMemory.View, Created,
        CreationHalts, Wired, GoodLog, Within;
      r := vm.CreateAddressSpace();
      if r != null {
        ReadyHas(r);
        CreatedWithin(k, vm.View(r), r.Abs());
        ViewBlocks(r);
        spaces := spaces[i := r];
        NumberedNow(i);
      }
    }

    twostate lemma NumberedNow(i: nat)
      requires old(Wired()) && old(vm.LogReady()) && ListsKept() && i != 0 && i !in old(spaces) && i in spaces
      requires spaces == old(spaces)[i := spaces[i]] && fresh(spaces[i]) && fresh(spaces[i].memoryList)
      requires vm.Ready(spaces[i]) && Within(old(vm.Kernel()).blocks, vm.Rest(spaces[i]))
      requires vm.globalMemMap.data == old(vm.globalMemMap.data)
      ensures Numbered(i)
    {
      hide KernelMemory.Valid, VirtualMemory.Rest, VirtualMemory.Ready, VirtualMemory.Kernel, Within;
    }

    lemma ViewBlocks(r: AddressSpace)
      requires vm.globalMemMap.Backed()
      ensures vm.View(r).blocks == vm.Rest(r)
    {
    }

    /** The bookkeeping is apart from what it keeps book of. */
    lemma NoPart()
      ensures this !in (set o: object | o in Lists()) && this !in (set o: object | o in All().Values)
    {
    }

    /** create_address_space, which makes space i; null stands for a halt. */
    method CreateAddressSpace(ghost i: nat) returns (r: AddressSpace?)
      requires Valid() && i != 0 && i !in spaces
      modifies this`shapes, this`spaces, this`structs, vm.memory, vm.memory.mem, vm.memory.frames,
               vm.memory.frames.bitmap
      ensures r != null ==>
        && Valid() && spaces == old(spaces)[i := r]
        && exists payload :: Takes(old(Abs()), CreateSpace(i, payload), Abs())
      ensures r == null ==> exists payload :: Stops(old(Abs()), CreateSpace(i, payload))
    {
      hide KernelMemory.Valid, FrameAllocator.Free, AddressSpace.Abs, VirtualMemory.Log, VirtualMemory.Rest, Inv,
        VirtualMemory.Ready, AbsSpaces, ListBases, Within, Wired, GoodLog, Created, Stops, Takes,
        CreationHalts, Bases, Numbered, Vector.Items, Vector.Backed;
      BasesInUse();
      KernelBeside();
      ghost var s, k, others := Abs(), vm.Kernel(), ListBases();
      InvGoodLog(s, shapes, vm.memory.reserved);
      r := NewSpace(k, i);
      if r != null {
        ReadyHas(r);
        ghost var payload, t := CreatedTakes(k, vm.View(r), r.Abs(), s, others, i);
        label Made:
        shapes := TakenKeepsInv(s, shapes, vm.memory.reserved, CreateSpace(i, payload), t);
        structs := t.structs;
        assert All() == old@Made(All()) && Lists() == old@Made(Lists());
        NoPart();
        NumberedIs(i);
      } else {
        CreateHalts(k, s, others, i);
      }
    }

    twostate lemma JoinedSpaces(i: nat)
      requires old(Wired()) && ListsStay() && Wired() && Joins(i)
      requires forall j :: j in old(All()) ==> j in All() && Same(All()[j])
      ensures AbsSpaces() == old(AbsSpaces())[i := All()[i].Abs()]
    {
      hide KernelMemory.Valid, AddressSpace.Abs, VirtualMemory.Ready, Apart;
    }

    twostate lemma NoneStarted()
      requires old(Wired()) && ListsStay()
      ensures 0 !in old(spaces) ==> All()[0].memoryList.data.None?
    {
      hide KernelMemory.Valid, VirtualMemory.Ready, Apart;
    }
  }

  lemma NoBlockZero(memory: KernelMemory)
    requires memory.Valid()
    ensures 0 !in memory.blocks
  {
  }

  lemma BlocksNotFree(memory: KernelMemory)
    requires memory.Valid()
    ensures memory.blocks.Keys !! memory.frames.Free() && 0 !in memory.frames.Free()
  {
    hide FrameAllocator.Valid, FrameAllocator.Free, Rep;
    forall b | b in memory.blocks
      ensures b !in memory.frames.Free()
    {
      assert b in Pages(b, memory.blocks[b].Length());
      PageInBlock(memory.blocks, b, b);
    }
  }

  lemma FreshMachine(memory: KernelMemory)
    requires memory.Valid()
    ensures forall p :: p in memory.frames.Free() ==> 0 < p < LimitPages(memory.frames.limit)
    ensures memory.frames.Free() !! memory.reserved
  {
  }

  // ---------------------------------------------------------------- what the calls come to

  /** The call that vm_map makes of space i. */
  function MapOf(s: System, i: nat, r: Record): Outcome<(T.Store, G.Vec, T.Space)>
    requires i in s.spaces
  {
    MapCall(s.st, s.logVec, |s.log|, s.spaces[i], Call(r, i == 0))
  }

  lemma MapSafe(s: System, shapes: Shapes, reserved: set<nat>, i: nat, r: Record)
    requires Inv(s, shapes, reserved) && Allowed(s, MapPages(i, r))
    ensures i in s.spaces && !MapOf(s, i, r).Fault? && r.n * PAGE_SIZE < TWO64
  {
    hide Inv, MapCall;
    var _ := MapStepGood(s, shapes, reserved, i, r);
  }

  lemma MapDone(s: System, i: nat, r: Record, st': T.Store, lv': G.Vec, sp': T.Space)
    requires Allowed(s, MapPages(i, r)) && i in s.spaces && MapOf(s, i, r) == Done((st', lv', sp'))
    ensures Takes(s, MapPages(i, r), WithSpace(s, i, st', lv', sp').(log := if i == 0 then s.log + [r] else s.log))
  {
    hide MapCall, Allowed;
  }

  lemma MapHalts(s: System, i: nat, r: Record)
    requires Allowed(s, MapPages(i, r)) && i in s.spaces && MapOf(s, i, r).Halt?
    ensures Stops(s, MapPages(i, r))
  {
    hide MapCall, Allowed;
  }

  /** The call that vm_unmap makes of space i. */
  function UnmapOf(s: System, i: nat, v: Word, n: nat): Outcome<(T.Store, T.Space)>
    requires i in s.spaces
  {
    UnmapCall(s.st, s.logVec, s.log, s.spaces[i], v, n, i == 0)
  }

  lemma UnmapSafely(s: System, shapes: Shapes, reserved: set<nat>, i: nat, v: Word, n: nat)
    requires Inv(s, shapes, reserved) && Allowed(s, UnmapPages(i, v, n))
    requires !EraseOverruns(s, shapes, UnmapPages(i, v, n))
    ensures i in s.spaces && UnmapOf(s, i, v, n).Done? && n * PAGE_SIZE < TWO64
  {
    hide Inv, UnmapCall, EraseOverruns;
    var _ := UnmapStepGood(s, shapes, reserved, i, v, n);
  }

  lemma UnmapDone(s: System, i: nat, v: Word, n: nat, st': T.Store, sp': T.Space)
    requires Allowed(s, UnmapPages(i, v, n)) && i in s.spaces && UnmapOf(s, i, v, n) == Done((st', sp'))
    ensures Takes(s, UnmapPages(i, v, n),
                  WithSpace(s, i, st', s.logVec, sp').(log := if i == 0 then EraseRecord(s.log, v) else s.log))
  {
    hide UnmapCall, EraseRecord, Allowed;
  }

  /** The allowed event e takes s to t. */
  ghost predicate Takes(s: System, e: Event, t: System) {
    Allowed(s, e) && Next(s, e) == Done(t)
  }

  lemma TakenKeepsInv(s: System, shapes: Shapes, reserved: set<nat>, e: Event, t: System) returns (shapes': Shapes)
    requires Inv(s, shapes, reserved) && Takes(s, e, t)
    ensures Inv(t, shapes', reserved)
  {
    hide Inv, Next, Allowed;
    shapes' := StepKeepsInv(s, shapes, reserved, e);
  }

  // ---------------------------------------------------------------- heap calls beside vector blocks

  lemma KmallocBeside(m: System, m': System, s: System, bases: set<nat>, size: Word, address: nat)
    requires BlockAdded(m, m', size, address) && Unwrapped(NumPages(size) + 1, s.st.limit) && s.st.limit <= MAX_LIMIT
    requires s.st == m.st && s.blocks == m.blocks - bases && bases <= m.blocks.Keys + {0}
    ensures var c := address / PAGE_SIZE - 1;
      && c > 0 && c !in m.blocks && m'.blocks == m.blocks[c := m'.blocks[c]] && m'.blocks[c].Data?
      && address == PAGE_SIZE * (NewBase(s, size) + 1)
      && Takes(s, Event.Kmalloc(size, m'.blocks[c].payload), s.(st := m'.st, blocks := m'.blocks - bases))
  {
    NewPlace(m, m', size, address);
    hide NumPages, FirstFit, Pages, Fresh;
    var c := address / PAGE_SIZE - 1;
    assert (m.blocks - bases)[c := m'.blocks[c]] == m.blocks[c := m'.blocks[c]] - bases;
  }

  lemma KmallocHalts(s: System, size: Word)
    requires FirstFit(s.st.free, NumPages(size) + 1, 0, s.st.limit).None?
    ensures forall payload :: Next(s, Event.Kmalloc(size, payload)).Halt?
  {
    hide NumPages, FirstFit;
  }

  /** A caller's block is a live block of memory and none of the vectors'. */
  lemma LentBeside(memory: KernelMemory, s: System, bases: set<nat>, b: nat)
    requires memory.Valid() && s.st == memory.State() && s.blocks == memory.blocks - bases && Lent(s, b)
    ensures b !in bases && IsData(memory.Sys(), b) && memory.blocks[b] == s.blocks[b] && b > 0
    ensures PAGE_SIZE * (b + 1) <= memory.mem.Length && DropBlock(memory.Sys(), b).blocks == memory.blocks - {b}
    ensures DropBlock(s, b)
         == s.(st := DropBlock(memory.Sys(), b).st, blocks := DropBlock(memory.Sys(), b).blocks - bases)
  {
    hide Rep, T.Separated, BlockPages, FrameAllocator.Valid, FrameAllocator.Free;
    assert s.blocks - {b} == (memory.blocks - {b}) - bases;
  }

  lemma WriteBeside(m: System, s: System, bases: set<nat>, b: nat, payload: seq<Byte>)
    requires s.blocks == m.blocks - bases && b !in bases && Lent(s, b) && |payload| == |s.blocks[b].payload|
    requires s.st.limit <= MAX_LIMIT && IsData(m, b) && m.blocks[b] == s.blocks[b]
    ensures Takes(s, Event.Write(b, payload), s.(blocks := WithPayload(m, b, payload).blocks - bases))
  {
    var blk := Data(s.blocks[b].size, payload);
    assert (m.blocks - bases)[b := blk] == m.blocks[b := blk] - bases;
  }

  /** What kfree does to the machine is what it does to the state beside the vectors' blocks. */
  lemma FreeBeside(memory: KernelMemory, s: System, bases: set<nat>, b: nat)
    requires memory.Valid() && s.st == memory.State() && s.blocks == memory.blocks - bases && Allowed(s, Event.Kfree(b))
    ensures PAGE_SIZE * (b + 1) <= memory.mem.Length
    ensures if IsData(memory.Sys(), b) then
              && b !in bases && DropBlock(memory.Sys(), b).blocks == memory.blocks - {b}
              && Takes(s, Event.Kfree(b),
                       s.(st := DropBlock(memory.Sys(), b).st, blocks := DropBlock(memory.Sys(), b).blocks - bases))
            else
              WordAt(memory.mem[..], PAGE_SIZE * b) != KMEM_MAGIC_NUMBER && Takes(s, Event.Kfree(b), s)
  {
    hide KernelMemory.Valid, FrameAllocator.Free, Unmarked, WordAt, DropBlock;
    if Lent(s, b) {
      LentBeside(memory, s, bases, b);
    } else {
      UnmarkedBeside(memory, s, bases, b);
    }
  }

  /** Neither is a place inside one, and it does not look like a header in memory either. */
  lemma UnmarkedBeside(memory: KernelMemory, s: System, bases: set<nat>, p: nat)
    requires memory.Valid() && s.st == memory.State() && s.blocks == memory.blocks - bases && Unmarked(s, p)
    ensures p !in memory.blocks && PAGE_SIZE * (p + 1) <= memory.mem.Length
    ensures WordAt(memory.mem[..], PAGE_SIZE * p) != KMEM_MAGIC_NUMBER
  {
    hide WordAt, KernelMemory.Valid;
    var c :| c in s.blocks && Lent(s, c) && c < p < c + s.blocks[c].Length()
             && WordAt(s.blocks[c].payload, PAGE_SIZE * (p - c - 1)) != KMEM_MAGIC_NUMBER;
    InsideBlock(memory, c, p);
  }

  lemma InsideBlock(memory: KernelMemory, c: nat, p: nat)
    requires memory.Valid() && c in memory.blocks && memory.blocks[c].Data? && c < p < c + memory.blocks[c].Length()
    ensures p !in memory.blocks && PAGE_SIZE * (p + 1) <= memory.mem.Length
    ensures PAGE_SIZE * (p - c - 1) + 8 <= |memory.blocks[c].payload|
    ensures WordAt(memory.mem[..], PAGE_SIZE * p) == WordAt(memory.blocks[c].payload, PAGE_SIZE * (p - c - 1))
  {
    NoBlockInside(memory.blocks, memory.frames.limit, c, p);
    assert BlockRep(memory.mem[..], c, memory.blocks[c]);
    hide *;
    WordInside(memory.mem[..], c, memory.blocks[c], p);
  }

  lemma WordInside(m: seq<Byte>, c: nat, blk: Block, p: nat)
    requires BlockRep(m, c, blk) && blk.Data? && c < p < c + blk.Length()
    ensures PAGE_SIZE * (p + 1) <= |m| && PAGE_SIZE * (p - c - 1) + 8 <= |blk.payload|
    ensures WordAt(m, PAGE_SIZE * p) == WordAt(blk.payload, PAGE_SIZE * (p - c - 1))
  {
    hide HeaderRep, NumPages, FromBytes;
    var off, start := PAGE_SIZE * (p - c - 1), PAGE_SIZE * (c + 1);
    SliceOfSlice(m, start, |blk.payload|, off, 8);
    assert start + off == PAGE_SIZE * p;
  }

  lemma NoBlockInside(blocks: map<nat, Block>, limit: nat, c: nat, p: nat)
    requires BlocksApart(blocks, limit) && c in blocks && c < p < c + blocks[c].Length()
    ensures p !in blocks
  {
  }

  ghost predicate ReallocHalts(s: System, b: nat, size: Word) {
    forall payload :: Next(s, Event.Krealloc(b, size, payload)).Halt?
  }

  lemma KreallocBeside(m: System, m': System, s: System, bases: set<nat>, b: nat, size: Word, address: nat)
    requires Reallocated(m, m', b, size, address) && s.st.limit <= MAX_LIMIT
    requires s.st == m.st && s.blocks == m.blocks - bases && bases <= m.blocks.Keys + {0} && Lent(s, b)
    ensures var c := address / PAGE_SIZE - 1;
      && address >= PAGE_SIZE && address % PAGE_SIZE == 0 && c > 0 && c !in bases && IsData(m', c)
      && (forall x :: x in bases && x in m.blocks ==> x in m'.blocks && m'.blocks[x] == m.blocks[x])
      && Takes(s, Event.Krealloc(b, size, m'.blocks[c].payload), s.(st := m'.st, blocks := m'.blocks - bases))
  {
    hide NumPages, FirstFit, Pages, Fresh;
    var c, payload := address / PAGE_SIZE - 1, m'.blocks[address / PAGE_SIZE - 1].payload;
    if NumPages(m.blocks[b].size) == NumPages(size) {
      assert (m.blocks - bases)[b := m'.blocks[b]] == m.blocks[b := m'.blocks[b]] - bases;
    } else {
      MovedBeside(m, s, bases, b, c, size, payload);
    }
  }

  lemma MovedBeside(m: System, s: System, bases: set<nat>, b: nat, c: nat, size: Word, payload: seq<Byte>)
    requires s.st == m.st && s.blocks == m.blocks - bases && b in s.blocks && c !in m.blocks && c !in bases
    requires NewBlock(m, size, payload).Done? && b in NewBlock(m, size, payload).value.blocks
    requires c in DropBlock(NewBlock(m, size, payload).value, b).blocks
    ensures NewBlock(s, size, payload).Done? && b in NewBlock(s, size, payload).value.blocks
    ensures var m' := DropBlock(NewBlock(m, size, payload).value, b);
      && DropBlock(NewBlock(s, size, payload).value, b) == s.(st := m'.st, blocks := m'.blocks - bases)
      && forall x :: x in bases && x in m.blocks ==> x in m'.blocks && m'.blocks[x] == m.blocks[x]
  {
    hide NumPages, FirstFit, Pages;
    var blk := Data(size, payload);
    assert c == NewBase(m, size);
    assert (m.blocks - bases)[c := blk] - {b} == m.blocks[c := blk] - {b} - bases;
  }

  lemma KreallocHalts(s: System, b: nat, size: Word)
    requires IsData(s, b) && NumPages(s.blocks[b].size) != NumPages(size)
    requires FirstFit(s.st.free, NumPages(size) + 1, 0, s.st.limit).None?
    ensures ReallocHalts(s, b, size)
  {
    hide NumPages, FirstFit;
  }

  // ---------------------------------------------------------------- spaces made beside the blocks of others' lists

  /** All blocks of the first are in the second. */
  ghost predicate Within(was: map<nat, Block>, now: map<nat, Block>) {
    forall c :: c in was ==> c in now && now[c] == was[c]
  }

  /** s is k without some blocks, of which none is free, but with all the spaces. */
  ghost predicate Beside(k: System, s: System, others: set<nat>) {
    && s.st == k.st && s.log == k.log && s.logVec == k.logVec && s.blocks == k.blocks - others
    && others !! k.st.free && k.blocks.Keys !! k.st.free
  }

  lemma PartsBeside(k: System, s: System, blocks: map<nat, Block>, lb: nat, others: set<nat>)
    requires s.st == k.st && s.log == k.log && s.logVec == k.logVec
    requires k.blocks == blocks - {lb} && s.blocks == blocks - (others + {lb})
    requires blocks.Keys !! k.st.free && 0 !in k.st.free && others <= blocks.Keys + {0}
    ensures Beside(k, s, others)
  {
  }

  lemma RootBeside(k: System, s: System, others: set<nat>, i: nat)
    requires Beside(k, s, others)
    ensures AddRoot(k, i).Halt? ==> AddRoot(s, i).Halt?
    ensures AddRoot(k, i).Fault? <==> AddRoot(s, i).Fault?
    ensures AddRoot(k, i).Done? ==>
      var (k1, root) := AddRoot(k, i).value;
      && Within(k.blocks, k1.blocks) && k1.log == k.log && k1.logVec == k.logVec
      && AddRoot(s, i) == Done((System(k1.st, k1.blocks - others, s.spaces[i := T.Space(root, [], G.NO_VEC)],
                                       s.structs, s.log, s.logVec), root))
  {
    hide FirstFit, Pages, T.Extent;
    var r := FirstFit(k.st.free, 1 + T.DEFAULT_PAGES, 0, k.st.limit);
    if r.Some? {
      var c := r.value / PAGE_SIZE;
      FirstIsFree(k.st.free, 1 + T.DEFAULT_PAGES, k.st.limit);
      assert (k.blocks - others)[c := RootHeader] == k.blocks[c := RootHeader] - others;
    }
  }

  lemma BuildBeside(k: System, s: System, others: set<nat>, i: nat, calls: seq<Call>)
    requires Beside(k, s, others)
    ensures BuildSpace(k, i, calls).Halt? ==> BuildSpace(s, i, calls).Halt?
    ensures BuildSpace(k, i, calls).Done? ==>
      var u := BuildSpace(k, i, calls).value;
      && Within(k.blocks, u.blocks) && i in u.spaces
      && BuildSpace(s, i, calls)
           == Done(System(u.st, u.blocks - others, s.spaces[i := u.spaces[i]], s.structs, u.log, u.logVec))
  {
    RootBeside(k, s, others, i);
    hide MapCalls, Logged, AddRoot, Within;
    if BuildSpace(k, i, calls).Done? {
      var (s1, root) := AddRoot(s, i).value;
      var (_, _, sp) := MapCalls(s1.st, s1.logVec, |s1.log|, T.Space(root, [], G.NO_VEC), calls).value;
      assert s.spaces[i := T.Space(root, [], G.NO_VEC)][i := sp] == s.spaces[i := sp];
    }
  }

  lemma FirstIsFree(free: set<nat>, n: nat, limit: nat)
    requires n > 0 && FirstFit(free, n, 0, limit).Some?
    ensures FirstFit(free, n, 0, limit).value / PAGE_SIZE in free
  {
    FirstFitExact(free, n, 0, limit);
    hide FirstFit;
    var c := FirstFit(free, n, 0, limit).value / PAGE_SIZE;
    assert c in Pages(c, n);
  }

  lemma InitBeside(k: System, v: System, sp: T.Space, s: System, others: set<nat>, entries: seq<MemEntry>,
                   load: LoadAddress)
    requires Beside(k, s, others) && Allowed(s, Event.VmInit(entries, load))
    requires BuildSpace(k, 0, InitCalls(s.st.limit, entries, load)) == Done(WithSpace(v, 0, v.st, v.logVec, sp))
    ensures Within(k.blocks, v.blocks)
    ensures Takes(s, Event.VmInit(entries, load),
                  System(v.st, v.blocks - others, s.spaces[0 := sp], s.structs, v.log, v.logVec))
  {
    hide BuildSpace, InitCalls, Beside, Within;
    BuildBeside(k, s, others, 0, InitCalls(s.st.limit, entries, load));
  }

  lemma InitHalts(k: System, s: System, others: set<nat>, entries: seq<MemEntry>, load: LoadAddress)
    requires Beside(k, s, others) && BuildSpace(k, 0, InitCalls(s.st.limit, entries, load)).Halt?
    requires Allowed(s, Event.VmInit(entries, load))
    ensures Stops(s, Event.VmInit(entries, load))
  {
    hide BuildSpace, InitCalls, Beside;
    BuildBeside(k, s, others, 0, InitCalls(s.st.limit, entries, load));
  }

  lemma InvGoodLog(s: System, shapes: Shapes, reserved: set<nat>)
    requires Inv(s, shapes, reserved)
    ensures GoodLog(s.log)
  {
  }

  /** The allowed event e halts the machine. */
  ghost predicate Stops(s: System, e: Event) {
    Allowed(s, e) && Next(s, e).Halt?
  }

  lemma BlockBeside(k: System, s: System, others: set<nat>, size: Word, payload: seq<Byte>)
    requires Beside(k, s, others) && |payload| == PAGE_SIZE * NumPages(size)
    ensures NewBlock(k, size, payload).Halt? ==> NewBlock(s, size, payload).Halt?
    ensures NewBlock(k, size, payload).Done? ==>
      var u := NewBlock(k, size, payload).value;
      && NewBlock(s, size, payload) == Done(s.(st := u.st, blocks := u.blocks - others))
      && Within(k.blocks, u.blocks) && Beside(u, NewBlock(s, size, payload).value, others)
  {
    var n, r := NumPages(size) + 1, FirstFit(k.st.free, NumPages(size) + 1, 0, k.st.limit);
    BlockLength(size, payload);
    if r.Some? {
      var c := r.value / PAGE_SIZE;
      FirstIsFree(k.st.free, n, k.st.limit);
      assert c in Pages(c, n);
      hide NumPages, FirstFit, Pages;
      assert (k.blocks - others)[c := Data(size, payload)] == k.blocks[c := Data(size, payload)] - others;
    }
  }

  lemma StructBeside(k: System, s: System, others: set<nat>, i: nat, b: nat)
    requires Beside(k, s, others)
    ensures Beside(k, WithStruct(s, i, b), others)
  {
  }

  lemma WithinTrans(a: map<nat, Block>, b: map<nat, Block>, c: map<nat, Block>)
    requires Within(a, b) && Within(b, c)
    ensures Within(a, c)
  {
  }

  lemma CreatedBeside(k: System, v: System, sp: T.Space, payload: seq<Byte>, s: System, others: set<nat>, i: nat)
    requires Beside(k, s, others) && CreatedWith(k, v, sp, payload) && i != 0 && i !in s.spaces
    requires s.st.limit <= MAX_LIMIT
    ensures Within(k.blocks, v.blocks)
    ensures Takes(s, CreateSpace(i, payload),
                  System(v.st, v.blocks - others, s.spaces[i := sp], s.structs[i := NewBase(s, ADDR_SPACE_SIZE)],
                         v.log, v.logVec))
  {
    hide NumPages, NewBlock, BuildSpace, CallsOf, NewBase, Within, Takes;
    FreshSize(ADDR_SPACE_SIZE, payload);
    assert s.log == k.log;
    hide Fresh, Beside;
    BlockBeside(k, s, others, ADDR_SPACE_SIZE, payload);
    var k1, s1 := NewBlock(k, ADDR_SPACE_SIZE, payload).value, NewBlock(s, ADDR_SPACE_SIZE, payload).value;
    var s2 := WithStruct(s1, i, NewBase(s, ADDR_SPACE_SIZE));
    StructBeside(k1, s1, others, i, NewBase(s, ADDR_SPACE_SIZE));
    BuildBeside(k1, s2, others, i, CallsOf(k.log, false));
    assert BuildSpace(k1, i, CallsOf(k.log, false)) == Done(WithSpace(v, i, v.st, v.logVec, sp));
    WithinTrans(k.blocks, k1.blocks, v.blocks);
    CreateTakes(s, i, payload, BuildSpace(s2, i, CallsOf(s.log, false)).value);
  }

  lemma CreateTakes(s: System, i: nat, payload: seq<Byte>, t: System)
    requires Fresh(ADDR_SPACE_SIZE, payload, []) && i != 0 && i !in s.spaces && s.st.limit <= MAX_LIMIT
    requires NewBlock(s, ADDR_SPACE_SIZE, payload).Done?
    requires var s1 := NewBlock(s, ADDR_SPACE_SIZE, payload).value;
      BuildSpace(WithStruct(s1, i, NewBase(s, ADDR_SPACE_SIZE)), i, CallsOf(s.log, false)) == Done(t)
    ensures Takes(s, CreateSpace(i, payload), t)
  {
    hide NumPages, NewBlock, BuildSpace, CallsOf, NewBase, Fresh;
  }

  lemma CreatedWithin(k: System, v: System, sp: T.Space)
    requires Created(k, v, sp) && k.blocks.Keys !! k.st.free && k.st.limit <= MAX_LIMIT
    ensures Within(k.blocks, v.blocks)
  {
    var payload :| CreatedWith(k, v, sp, payload);
    hide CreatedWith, Within, Takes;
    assert k.blocks - {} == k.blocks;
    CreatedBeside(k, v, sp, payload, k.(spaces := map[], structs := map[]), {}, 1);
  }

  lemma CreatedTakes(k: System, v: System, sp: T.Space, s: System, others: set<nat>, i: nat)
      returns (payload: seq<Byte>, t: System)
    requires Beside(k, s, others) && Created(k, v, sp) && i != 0 && i !in s.spaces && s.st.limit <= MAX_LIMIT
    ensures Within(k.blocks, v.blocks) && Takes(s, CreateSpace(i, payload), t)
    ensures t == System(v.st, v.blocks - others, s.spaces[i := sp], s.structs[i := NewBase(s, ADDR_SPACE_SIZE)],
                        v.log, v.logVec)
  {
    hide CreatedWith, Takes, Within, Beside, NewBase;
    payload :| CreatedWith(k, v, sp, payload);
    CreatedBeside(k, v, sp, payload, s, others, i);
    t := System(v.st, v.blocks - others, s.spaces[i := sp], s.structs[i := NewBase(s, ADDR_SPACE_SIZE)], v.log,
                v.logVec);
  }

  lemma CreateHalts(k: System, s: System, others: set<nat>, i: nat)
    requires Beside(k, s, others) && CreationHalts(k) && i != 0 && i !in s.spaces && s.st.limit <= MAX_LIMIT
    ensures exists payload :: Stops(s, CreateSpace(i, payload))
  {
    var payload :| HaltsWith(k, payload);
    assert |payload| == PAGE_SIZE * NumPages(ADDR_SPACE_SIZE);
    BlockBeside(k, s, others, ADDR_SPACE_SIZE, payload);
    hide NumPages, NewBlock, BuildSpace, Fresh, CallsOf, NewBase;
    if NewBlock(k, ADDR_SPACE_SIZE, payload).Done? {
      var k1, s1 := NewBlock(k, ADDR_SPACE_SIZE, payload).value, NewBlock(s, ADDR_SPACE_SIZE, payload).value;
      BuildBeside(k1, WithStruct(s1, i, NewBase(s, ADDR_SPACE_SIZE)), others, i, CallsOf(k.log, false));
      assert BuildSpace(k1, i, CallsOf(k.log, false)).Halt?;
    }
    assert Stops(s, CreateSpace(i, payload));
  }
}
