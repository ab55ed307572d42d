# A model of the kernel's memory manager and spinlock

The project models the memory manager of a small x86-64 kernel as one layered, stateful system, and
its spinlock as a protocol of interleaved instructions, and proves what they promise.

| files | what they hold |
|---|---|
| `Words`, `Division`, `Wrappers` | 64-bit words, masks, table entries, page numbers; results of operations |
| `Frames`, `Boot` | the physical frame allocator over its bitmap, and `pm_init` |
| `Growth` | the pages behind a vector: the block it grows to, and the room its erase needs |
| `Tables`, `TableSteps` | page tables as data: the operations of `mmu.c` as functions over a store of 8-page buffers, the partial map they stand for, and the tree invariant |
| `Mapping`, `Unmapping`, `Lookup`, `Ranges` | what the mapping, unmapping and lookup operations do to that map |
| `Replay`, `Init` | the log of kernel mappings, spaces rebuilt from it, and `vm_init` |
| `Systems`, `Calls`, `Runs` | the whole memory manager as a state machine, and the theorems about all its runs |
| `Layout` | what `vm_init` leaves at each virtual address, from the memory map alone, and what a created space has there |
| `Kernel` | the kernel's own space from `vm_init` on against its log, against the spaces made from it, and as the direct map |
| `Room`, `Progress` | how many free pages in a row are enough for each operation to complete, and a run of a small machine from its memory map |
| `Shortfalls` | calls from an empty space in which the code falls short of what it is meant to do |
| `Bytes`, `Machine`, `Heap`, `Paging`, `Vectors` | the same operations as methods that change one byte array of physical memory and the bitmap in place, each proved against the functions above |
| `Manager` | that memory with its log and all its address spaces as one object, whose every call is one step of the state machine |
| `Spinlock` | `lock.c`, instruction by instruction, for any number of CPUs |
| `Digits` | the number printers of `kprint.c` |

Memory is reached through the direct map, so a physical address is an index into the byte array. An
operation that would follow an address which is no live table, write behind the block of a vector, or
copy from beyond the end of physical memory, is a `Fault` in the functions; the C code would go on
without noticing. `Runs.FaultsInAnyRun` says that the first never happens, and that the other two
happen exactly in an unmap whose erase from `memory_list` or from the log has not the room for the
bytes it copies. A `halt()` is the outcome `Halt`, or a
`None`, `false` or `null` result of a method; nothing runs after it, so nothing is claimed of the
state then, only of when it happens. Other spaces, other tables and other blocks are part of every
statement: `Mapping.Kept`, `Calls.KeptAll`, `Paging.VirtualMemory.Rest` and `Vectors.Vector.Others`
are the frame conditions.

The search of `pm_get` only bounds where a run starts. The invariant of the allocator therefore asks
that no bit at or above the physical limit is set and that one such bit lies inside the bitmap; every
operation keeps this. `Boot.GuardFits` is the condition on the limit under which the pages that
`pm_init` takes for the bitmap hold all those bits.

`memory_list` and `global_mem_map` are vectors whose blocks come from `krealloc`, in the middle of a
descent or before a mapping. Those blocks are part of the state (`Tables.Space.vec`,
`Systems.System.logVec`), their pages have an owner like all others, and the page counts and halting
conditions include them. The structure of a space made by `create_address_space` is a `kmalloc` block
too, recorded in `Systems.System.structs`: callers may read it, but not free it, resize it or write
it. `Runs.Allowed` says what else callers owe; `Runs.RunKeepsInv` says that no call touches a
structure either.

The methods of `Paging` work on one space and ask that their abstract operation does not fault.
`Manager.MemoryManager` holds all spaces; its invariant `Valid` is the invariant of the runs, and the
steps of its methods are the steps of the runs. There the only condition left is that of an unmap
without an overrunning erase.

## Where the code does less than it seems to promise

Each of these is modelled as the code has it, with the exact condition under which it does what it
should.

- `vm_get_phys_addr` tests `pd[pte]` where `pd[pde]` is evidently meant (`mmu.c:420`):
  `Lookup.WrittenLookupExact`, with a failing input in `Shortfalls.WrittenLookupMisses`.
- `unmap_page_entry` unlinks the whole page table after clearing one entry (`mmu.c:341`), so unmapping
  a page unmaps its 2 MiB region: `Unmapping.UnmapEntryCorrect`. The log of mappings knows nothing of
  that: `Replay.UnmapReplayExact`, with a failing input in `Replay.SharedRegionDiverges`.
- The second loop of `vm_init` is not logged (`mmu.c:516`), so later spaces inherit only part of the
  direct map, and that part with other flags: `Layout.CreatedLayout` right after `vm_init`,
  `Kernel.CreatedAgainstKernel` at every later point.
- `pm_init` clears `limit / 32768` bytes, rounded down; bits left set behind them are taken for free
  pages that nobody counted: `Boot.CountedIffNoStaleBits`. The pages it takes for the bitmap follow
  from the rounded size, and for some limits the last bits in use lie behind them:
  `Boot.BitmapProtected` and `Boot.GuardFails`, with a failing memory map in `Boot.BitmapOverlapped`.
- `pm_get` may return a run that ends above the limit: `Frames.RunsStayBelowLimit`. Its inner loops
  compute their bound in 64 bits, and a request whose end wraps is granted untested:
  `Frames.SearchExact`.
- `NUM_PAGES` wraps to 0 for the last 4095 values: `Words.NumPagesExact`.
- `vector_erase` copies `sizeof * length - index - 1` bytes (`vector.h:77`): `Vectors.EraseReadsInside`
  and `Vectors.EraseConfined` give the room this needs. `Ranges.VmUnmapCorrect` and
  `Runs.StepKeepsInv` say exactly when an unmap has it; `Shortfalls.LongListOverruns` is a call
  that has not.
- `kprint_hex` with a width above 16 would write no digit: `Digits.HexExact`. No caller gets there:
  it is static, and `kprintf` passes it one decimal digit (`kprint.c:121-128`).
- `memcpy` to a higher overlapping address repeats bytes: `Bytes.CopyForwardRepeats`.
- The lock header declares `unlock_lock_implementation`, `lock.c:52` defines the name without its
  second `e`; the model takes them for the same function.

## Model

| member | source | states |
|---|---|---|
| Words.DirectMapRoundTrip | kernel/include/sys/mmu.h:112-113 | the two direct-map macros undo each other on every 64-bit value, in both orders |
| Words.NumPagesExact | kernel/include/sys/mmu.h:114-115 | NUM_PAGES covers its argument if and only if the addition does not wrap, is then the least such count, and is 0 otherwise |
| Words.EntryIsSum | kernel/include/sys/mmu.h:116 | masking and or-ing an address and flags below 4096 adds them |
| Words.EntryParts | kernel/include/sys/mmu.h:116-119 | an entry splits back into frame and presence; the 0x1FF mask of the lookups agrees with the 0xFFF mask of the mapping when flags stay below 0x200 |
| Words.IndexIsDigit | kernel/src/sys/mmu.c:242-245 | the four shifted and masked indices are the base-512 digits of the 36-bit page number |
| Frames.FirstFitExact | kernel/src/sys/mmu.c:211-217 | the search returns the lowest page-stepped address whose whole run is free, and fails only if no such run starts below the limit |
| Frames.SearchIsFirstFit | kernel/src/sys/mmu.c:147-156 | for requests that cannot wrap, pm_get's search is first fit |
| Frames.SearchExact | kernel/src/sys/mmu.c:192-217 | it is first fit for every bitmap and start if and only if a run from the last page below the limit ends below 2^64 |
| Frames.RunsStayBelowLimit | kernel/src/sys/mmu.c:213-216 | every run it can return ends below the limit if and only if not both the last page and the one after it are free |
| Frames.PageFreeIsBit | kernel/src/sys/mmu.c:131-156 | page p is free exactly if bit p mod 8 of byte p / 8, counted from the lowest, is set |
| Frames.FreeSetAfterSet | kernel/src/sys/mmu.c:177-178 | setting one bit of one byte adds one page to the set the bitmap stands for and no other |
| Frames.FreeSetAfterClear | kernel/src/sys/mmu.c:135-136 | clearing one bit removes one page and no other |
| Frames.FrameAllocator.BitmapSet | kernel/src/sys/mmu.c:131-138 | removes exactly the visited pages from the free set |
| Frames.FrameAllocator.BitmapFree | kernel/src/sys/mmu.c:147-156 | answers whether all visited pages are free, never reading past the bitmap when the run must meet a used page |
| Frames.FrameAllocator.PmFree | kernel/src/sys/mmu.c:166-182 | adds the run to the free set, counts only the pages that were not free, reports any double free, keeps count and bitmap in step |
| Frames.FrameAllocator.PmAllocate | kernel/src/sys/mmu.c:192-200 | succeeds exactly when the visited pages are free, then takes them; otherwise nothing changes |
| Frames.FrameAllocator.PmGet | kernel/src/sys/mmu.c:211-228 | returns the first fit, takes exactly that run, keeps the allocator's invariant; on failure nothing changes |
| Boot.ScanEntries | kernel/src/sys/mmu.c:49-68 | the physical limit and the wrapped total size of the entries |
| Boot.LimitIsLeast | kernel/src/sys/mmu.c:55-67 | the limit is the least bound on the ends of all usable, bootloader-reclaimable, kernel and ACPI-reclaimable entries, and of no others |
| Boot.TotalIsSum | kernel/src/sys/mmu.c:55-59 | the total is the sum of the lengths of these four kinds |
| Boot.FindHome | kernel/src/sys/mmu.c:72-85 | returns the base of the first usable entry that ends above 0x100000 and is at least as long as the bitmap, and none exactly if there is no such entry |
| Boot.HomeIsFirst | kernel/src/sys/mmu.c:72-85 | the function that the other theorems use for it is exactly this choice |
| Boot.ClearBitmap | kernel/src/sys/mmu.c:88 | only bits behind the cleared bytes stay set |
| Boot.FreeEntries | kernel/src/sys/mmu.c:92-103 | frees the union of the usable entries above 1 MiB and counts each page once |
| Boot.PmInit | kernel/src/sys/mmu.c:34-110 | final limit, total size, place of the bitmap, free set and count for every memory map; the last pm_allocate succeeds; with no stale bit and the bit of the limit inside the bitmap, the allocator's invariant |
| Boot.UsableIsUnion | kernel/src/sys/mmu.c:92-103 | a page is freed exactly when some entry of kind usable with base + length above 0x100000 holds it, whatever the order and overlap |
| Boot.BitmapIsUsable | kernel/src/sys/mmu.c:105-106 | the bitmap's own pages are among those freed, so its pm_allocate cannot fail |
| Boot.CountedIffNoStaleBits | kernel/src/sys/mmu.c:71-106 | after pm_init the byte count matches the free set if and only if no bit was left set behind the cleared bytes |
| Boot.UsedNeverNegative | kernel/src/sys/mmu.c:115-123 | for page-sized entries whose lengths sum to less than 2^64, free size and bitmap pages together never exceed the total size, so pm_used does not underflow |
| Boot.BootIsValid | kernel/src/sys/mmu.c:34-110 | with no stale bit the count matches the free set, which lies below the limit |
| Boot.BitmapProtected | kernel/src/sys/mmu.c:71-106 | the pages taken for the bitmap hold the bits of all pages up to and including the limit if and only if the limit leaves room for them |
| Boot.GuardFails | kernel/src/sys/mmu.c:71-106 | for an aligned bitmap that fails exactly if limit / 32768 is a multiple of 4096, or one below it with more than 28672 bytes left over |
| Boot.BitmapOverlapped | kernel/src/sys/mmu.c:71-106 | a memory map for which the first page handed out holds the bit of a managed page |
| Growth.AppendsAdd | kernel/include/common/vector.h:60-67 | appending j and then k elements asks for the same capacity and the same pages as appending j + k |
| Growth.RoomyIsSafe | kernel/include/common/vector.h:75-79 | a block with (2z - 1) * n bytes has room for every erase from n elements of z bytes |
| Growth.ShortListsRoomy | kernel/include/common/vector.h:75-79 | whatever block they are in, a memory list of up to 273 tables and a log of up to 65 records have room for every erase |
| Growth.LongListUnsafe | kernel/include/common/vector.h:75-79 | a memory list of 274 to 340 tables, grown from empty, has no room to erase its last element |
| TableSteps.AllocHaltsOnlyWhenFull | kernel/src/sys/mmu.c:255-259 | a table allocation halts exactly when no eight free pages follow each other, never for lack of a non-null address |
| TableSteps.GrowKeeps | kernel/include/common/vector.h:60-67 | growing a vector takes a free run and gives the old block back, keeps both apart from everything else, and loses no page |
| TableSteps.LinkStored | kernel/src/sys/mmu.c:260-263 | writing the entry of a zeroed buffer into its parent links one more table and leaves the tree coherent |
| TableSteps.LeafStored | kernel/src/sys/mmu.c:292 | writing a leaf entry maps one page and leaves the tree coherent |
| TableSteps.UnlinkStored | kernel/src/sys/mmu.c:341-342 | clearing the parent's entry and freeing the buffer removes that table and the pages below it only |
| Mapping.EntryFollows | kernel/src/sys/mmu.c:253-254 | in a coherent tree an entry is present exactly when the table below is linked, and both masks recover its address |
| Mapping.EnsureCorrect | kernel/src/sys/mmu.c:253-264 | one level of the descent halts exactly when a table is missing and either it or the larger block of the memory list finds no run; it follows no bad address and links at most the one table asked for |
| Mapping.DescendCorrect | kernel/src/sys/mmu.c:253-290 | the descent ends at the page table of the address with its path linked and nothing unmapped, the list's capacity what its appends call for |
| Mapping.MapEntryCorrect | kernel/src/sys/mmu.c:238-298 | map_page_entry is the update of one page of the partial map, keeps tree, memory list and its block, tightness and separation, and touches no other space |
| Unmapping.ScanExact | kernel/src/sys/mmu.c:355-359 | scanning all 4096 words of a buffer finds the same as scanning its 512 entries, and says whether any table is linked below |
| Unmapping.EraseFirstExact | kernel/src/sys/mmu.c:347-353 | erasing the first occurrence in a duplicate-free list removes that value and no other |
| Unmapping.UnlinkCorrect | kernel/src/sys/mmu.c:361-372 | unlinking an empty table never meets a double free, stays inside the memory list's block if and only if the erase has the room, and then keeps the invariant of the rest |
| Unmapping.UnmapEntryCorrect | kernel/src/sys/mmu.c:306-392 | unmap_page_entry never halts or follows a bad address; on an unmapped page it changes nothing; on a mapped one it removes exactly the pages of its 2 MiB region and the tables left empty, and touches nothing else, if and only if each erase from the memory list has the room |
| Unmapping.RoomyUnmaps | kernel/src/sys/mmu.c:306-392 | which a block with spare room for any erase always has |
| Unmapping.LongListFaults | kernel/src/sys/mmu.c:347-353 | and a list of 274 to 340 tables has not, when the page's table is its last |
| Lookup.WalkIsMap | kernel/src/sys/mmu.c:247-292 | the four-level walk of a coherent tree yields the partial map at every address |
| Lookup.LinkedAreOnPaths | kernel/src/sys/mmu.c:306-392 | with no empty table, the linked tables are exactly those on the path of some mapped page |
| Lookup.UpperEntries | kernel/src/sys/mmu.c:262-288 | an entry of a linked table of level 2 to 4 is 0, or the page-aligned address of the table below plus 7: present, writable, open to user mode, and no other bit |
| Lookup.AccessIsFlags | kernel/src/sys/mmu.c:252-292 | so what the processor permits at a mapped page, the conjunction over all four entries, is bit 1 and bit 2 of the page's own flags |
| Lookup.MeantLookupIsMap | kernel/src/sys/mmu.c:401-430 | with the directory tested at its own index, the lookup returns the mapped frame, or 0 for every unmapped page |
| Lookup.WrittenLookupExact | kernel/src/sys/mmu.c:419-429 | the lookup as written always completes, and is right if and only if the region it tests instead is in the right state, for mapped and unmapped pages alike |
| Shortfalls.WrittenLookupMisses | kernel/src/sys/mmu.c:420-422 | mapping address 0x1000 in an empty space with 26 free pages in a row makes a page that it misses |
| Shortfalls.LongListOverruns | kernel/src/sys/mmu.c:347-353 | in an empty space with 8(m + 3) + 2 free pages in a row, mapping 512m + 1 pages from address 0 completes for every m from 271 to 337, and unmapping the last of them writes behind the memory list's block |
| Ranges.RangePageIs | kernel/src/sys/mmu.c:477-479 | page k of a range is page number v / 4096 + k modulo 2^36, for all addresses including those that wrap |
| Ranges.MapRangeExact | kernel/src/sys/mmu.c:465-480 | vm_map installs v + 4096k -> p + 4096k for every k below n, up to the 2^36 pages there are |
| Ranges.MapRangeKeys | kernel/src/sys/mmu.c:477-479 | and maps no page outside the range |
| Ranges.UnmapRangeExact | kernel/src/sys/mmu.c:451-453 | vm_unmap removes exactly the 2 MiB regions in which some page of the range was mapped |
| Ranges.VmMapCorrect | kernel/src/sys/mmu.c:477-479 | the loop of vm_map keeps every invariant, adds exactly the tables on the paths of its range, and touches no other space |
| Ranges.VmUnmapCorrect | kernel/src/sys/mmu.c:451-453 | the loop of vm_unmap never halts; it completes if and only if all its erases from the memory list have the room, and then keeps every invariant and touches no other space |
| Ranges.RoomyUnmapsRange | kernel/src/sys/mmu.c:451-453 | which they have in a block with spare room for any erase |
| Ranges.MapUnmapRestores | kernel/src/sys/mmu.c:439-480 | mapping and then unmapping a range that shares no 2 MiB region with an earlier page restores table contents and linked tables exactly, and free pages too if and only if the list did not have to move to a larger block |
| Ranges.PagesConserved | kernel/src/sys/mmu.c:252-290 | free pages plus eight per live table never change in number |
| Ranges.VmMapCost | kernel/src/sys/mmu.c:465-480 | vm_map takes exactly eight pages per table on the paths of its range that was not linked before, and exchanges the list's block for the one that as many appends call for |
| Ranges.VmMapCostBound | kernel/src/sys/mmu.c:465-480 | those tables are at most (n/512 + 2) + (n/512^2 + 2) + (n/512^3 + 2) |
| Room.GrowLeavesRoom | kernel/include/common/vector.h:60-67 | a growth step completes whenever its new block fits in a free run, and leaves the rest of that run |
| Room.MapEntryCompletes | kernel/src/sys/mmu.c:252-298 | map_page_entry completes whenever the tables missing on its path and the blocks their listing asks for fit in one free run, and leaves the rest of that run |
| Room.VmMapCompletes | kernel/src/sys/mmu.c:477-479 | the loop of vm_map completes whenever the pages for its missing tables and for the blocks their listing asks for are free in one run |
| Room.FirstPageNeeds | kernel/src/sys/mmu.c:252-298 | the first page of an empty space halts the machine with fewer than 26 free pages, however they lie, and goes through with 26 in a row |
| Replay.ReplayWithout | kernel/src/sys/mmu.c:614-617 | dropping a record that does not cover a page does not change what the log says about it |
| Replay.UnmapReplayExact | kernel/src/sys/mmu.c:440-453 | after unmapping a whole recorded range the log reproduces the kernel's pages if and only if no other live record shares a 2 MiB region with it |
| Replay.LogReproduces | kernel/src/sys/mmu.c:439-480 | for every history of vm_map and faithful vm_unmap calls from an empty space, replaying the log gives the kernel's pages |
| Replay.SharedRegionDiverges | kernel/src/sys/mmu.c:341-345 | two records in one region: unmapping the first leaves the log with a page the kernel has lost |
| Init.DirectAllMaps | kernel/src/sys/mmu.c:514-518 | the unlogged loop maps every physical page below the limit at its direct-map address, whatever was mapped before |
| Init.DirectMapAfterInit | kernel/src/sys/mmu.c:504-587 | after vm_init every such page is translated to itself, for every memory map that keeps kernel and modules off the window, in any order and overlap |
| Init.PutsIs | kernel/src/sys/mmu.c:527-576 | the calls that vm_init makes for an entry map exactly page k of it, for 4096k below its length, at virtual base + base + 4096k - physical base for kernel and modules, at 0xFFFF800000000000 + base + 4096k for the four kinds of the direct map, and nothing for any other kind |
| Init.InheritedDirectMap | kernel/src/sys/mmu.c:507-518 | a space rebuilt from the log has physical page q in its direct map if and only if 4096q is below 0x80000000 or a page of an entry covers its place |
| Init.UnmapActualExact | kernel/src/sys/mmu.c:439-518 | after unmapping a whole record other than the first, the log with the unlogged direct map in its place still tells the kernel's pages if and only if no other record and no direct-map page touches its 2 MiB regions |
| Init.UnmapWithoutExact | kernel/src/sys/mmu.c:439-454 | unmapping any range and dropping any record of any log agree if and only if, page by page, what goes is covered by no other record and where it stays the record does not show |
| Init.UnmapNothingExact | kernel/src/sys/mmu.c:439-454 | unmapping a range changes nothing of what a log says if and only if no record covers a page of it |
| Init.ActualDiffers | kernel/src/sys/mmu.c:507-518 | at every page, the log alone tells the kernel's frame if and only if it is not an uncovered direct-map page above 2 GiB, and frame and flags if and only if it is not an uncovered direct-map page at all |
| Layout.InitLayout | kernel/src/sys/mmu.c:489-591 | for every memory map, order and overlap and every address after vm_init: the last page that an entry puts there decides, and its entry is frame + 3; else the direct map of addresses below the limit has 4096q + 3; else nothing is mapped. Stores are permitted, user mode is not |
| Layout.EntrySeen | kernel/src/sys/mmu.c:527-576 | each byte a of a page-aligned entry is seen at (virtual base + a - physical base) mod 2^64, or at 0xFFFF800000000000 + a, unless a later entry puts a page there |
| Layout.CreatedLayout | kernel/src/sys/mmu.c:596-619 | a space created right after it: the same, but the direct map ends at min(limit, 0x80000000), and its entries are 4096q + 7, open to user mode |
| Layout.LogLayout | kernel/src/sys/mmu.c:507-576 | the log left by vm_init: Record(0xFFFF800000000000, 0, 7, min(pages, 0x80000)), then one record per entry of the five mapped kinds, in order, with its address, base, flags 3 and page count |
| Calls.MapCallCorrect | kernel/src/sys/mmu.c:465-480 | one vm_map, logged or not, keeps space, log and everything beside them in place, adds its range to the space, and grows the log's block by exactly its record |
| Calls.MapCallsCorrect | kernel/src/sys/mmu.c:614-617 | a sequence of vm_map calls on an empty space yields exactly the pages its records stand for |
| Calls.UnmapCallCorrect | kernel/src/sys/mmu.c:439-454 | vm_unmap never halts, and stays inside the pages it owns if and only if its erases from log and memory list have the room |
| Systems.OneOwner | kernel/src/sys/mmu.c:252-290 | in every good state each managed page is free, or in one kmalloc block, or in one table of one space, or in the block of one memory list or of the log, never in two, and never reserved |
| Runs.StepKeepsInv | kernel/src/sys/mmu.c:238-619 | one allowed call of any kind leaves the memory it owns exactly if it is an unmap with an overrunning erase; otherwise, unless the machine halts, it keeps the whole invariant and the set of managed pages, does to its space what it should, and leaves all other spaces and the structures of all spaces alone |
| Runs.RunKeepsInv | kernel/src/common/kmalloc.c:28-112 | the same over every interleaving of kmalloc, kfree, krealloc, block writes, vm_init, vm_map, vm_unmap and create_address_space: at its end the invariant holds, the managed pages are those of its start, and every structure is in the block it was in, unchanged |
| Runs.FaultsInAnyRun | kernel/src/sys/mmu.c:306-392 | in every reachable state an allowed call goes wrong exactly if it is an unmap with an overrunning erase; an unmap on vectors with spare room, or on up to 273 tables and 65 records, completes, and so do kfree and block writes |
| Runs.PartitionInEveryRun | kernel/src/sys/mmu.c:131-228 | at every reachable state the invariant holds for some shapes, and for these every page is owned exactly if it was free after boot, by one owner |
| Runs.PartitionFromBoot | kernel/src/sys/mmu.c:34-110 | the same from the memory map, for limits that leave the bitmap room: exactly the usable pages outside the bitmap are ever owned, and never a page with a bitmap byte in use |
| Runs.ReallocExact | kernel/src/common/kmalloc.c:80-112 | krealloc, in place exactly when the page count stays, keeps the first min(old, new) bytes, zeroes the bytes up to the new size when it moves, keeps every other block, and changes the number of free pages by exactly the difference in page counts |
| Runs.OthersTranslateAsBefore | kernel/src/sys/mmu.c:238-480 | whatever call happens elsewhere, every address of another space is translated as before |
| Runs.SpaceAccess | kernel/src/sys/mmu.c:252-292 | in every good state, at every address of every space, the processor permits what the flags of the page say |
| Kernel.InitInStep | kernel/src/sys/mmu.c:489-591 | vm_init leaves a kernel space whose pages are those of its log with the unlogged direct map after the first record |
| Kernel.NextLog | kernel/src/sys/mmu.c:440-475 | a kernel vm_map appends its record to the log, a kernel vm_unmap removes the first record at its address, and no other call changes the log |
| Kernel.StepInStep | kernel/src/sys/mmu.c:439-480 | every call but a kernel unmap keeps that; a kernel unmap of any range does if and only if, with no record at its address, nothing of the range is mapped, or else the first such record goes along with the range page by page; for a whole record this is that no other record and no direct-map page touches its regions |
| Kernel.InStepAfterInit | kernel/src/sys/mmu.c:439-619 | so it holds in every state reached by vm_init and then calls of which each kernel unmap meets that condition |
| Kernel.CreatedAgainstKernel | kernel/src/sys/mmu.c:596-619 | in those states the walk of a created space arrives at the kernel's frame except exactly at the uncovered direct-map addresses of physical addresses from 0x80000000 up, and at the kernel's entry, flags included, except exactly at all uncovered ones |
| Kernel.DirectMapStays | kernel/src/sys/mmu.c:504-587 | in every state in step whose later records map no window address to another frame, the hardware walk of the kernel's space translates MEM_VIRT_OFFSET + p to p for every p in a page below the limit |
| Kernel.DirectMapWalk | kernel/src/sys/mmu.c:504-587 | after vm_init the hardware walk translates MEM_VIRT_OFFSET + p to p for every physical address below the limit |
| Progress.NewBlockLeavesRoom | kernel/src/common/kmalloc.c:28-48 | first fit serves a kmalloc at or before any run that fits, and leaves the rest of that run |
| Progress.MapCallsComplete | kernel/src/sys/mmu.c:614-617 | a sequence of vm_map calls completes with room for its tables, for listing them, and for its records in the log |
| Progress.BuildSpaceCompletes | kernel/src/sys/mmu.c:596-619 | a new space completes with room for its root and for the calls that map it |
| Progress.RoomSuffices | kernel/src/sys/mmu.c:211-228 | in every good state every allowed call that does not overrun a vector completes when enough pages are free in a row, vectors included: lack of memory is the only reason to halt |
| Progress.SmallMachineRuns | kernel/src/sys/mmu.c:489-619 | on a memory map of one usable entry from 1 MiB to 4 MiB pm_init leaves a state to which the run theorems apply, and from it vm_init on that map and then create_address_space complete |
| Bytes.MemCpy | kernel/src/common/memory.c:21-28 | leaves what the forward byte loop leaves, overlap or not, after as many stores as it was asked for |
| Bytes.CopyForwardMoves | kernel/src/common/memory.c:24-26 | which is the old source unless the destination starts inside it |
| Bytes.CopyForwardRepeats | kernel/src/common/memory.c:24-26 | and otherwise the first dst - src source bytes over and over |
| Bytes.MemSet | kernel/src/common/memory.c:38-44 | fills with the value modulo 256 and nothing else |
| Bytes.MemMove | kernel/src/common/memory.c:74-87 | leaves the old source bytes at the destination for every overlap |
| Bytes.WordAfterPut | kernel/src/sys/mmu.c:262 | a stored 64-bit word is read back, and words beside it are unchanged |
| Machine.KernelMemory.StoreEntry | kernel/src/sys/mmu.c:292 | a word store in physical memory is the abstract entry update, and nothing else live changes |
| Machine.KernelMemory.AllocTable | kernel/src/sys/mmu.c:255-261 | allocating and clearing a buffer in memory is the abstract allocation, and halts exactly when that does |
| Machine.KernelMemory.FreeTable | kernel/src/sys/mmu.c:342-345 | freeing a live buffer is the abstract release and is never reported as a double free |
| Heap.Kmalloc | kernel/src/common/kmalloc.c:28-48 | takes one first-fit run for header and payload; in memory the page before the payload has 0xBEEFBEEF, check number, page count, size and line at offsets 0, 8, 16, 24 and 544, and the bytes asked for are zero; changes no other block or table; halts exactly when no run fits |
| Heap.Kfree | kernel/src/common/kmalloc.c:57-69 | returns a live block's pages and clears its magic, so a second kfree does nothing; without the magic nothing changes |
| Heap.Krealloc | kernel/src/common/kmalloc.c:80-112 | in memory, the abstract krealloc, in place exactly when the page count stays; for a null address a fresh block; memcpy moves min(old, new) bytes exactly if the page count changes; halts only when it must move and no run fits |
| Paging.AddressSpace.EraseFromList | kernel/src/sys/mmu.c:347-353 | where the erase has the room, the search loop over the vector in memory erases the first occurrence and changes no other block |
| Paging.VirtualMemory.Remember | kernel/src/sys/mmu.c:263 | the append to the memory list takes and gives back exactly the pages the abstract growth does, halts exactly when that halts, and leaves the log and all other blocks alone |
| Paging.VirtualMemory.Ensure | kernel/src/sys/mmu.c:253-264 | one level in memory, the append to the list included, is one level of the abstract descent, halting exactly when that halts |
| Paging.VirtualMemory.MapPageEntry | kernel/src/sys/mmu.c:238-298 | in memory, the abstract map_page_entry, halt included |
| Paging.VirtualMemory.TableEmpty | kernel/src/sys/mmu.c:355-359 | the scan stays inside the buffer and reports whether all 4096 words are zero |
| Paging.VirtualMemory.UnmapPageEntry | kernel/src/sys/mmu.c:306-392 | in memory, the abstract unmap_page_entry, none of whose halts can be reached |
| Paging.VirtualMemory.VmGetPhysAddr | kernel/src/sys/mmu.c:401-430 | in memory, the lookup as written |
| Paging.VirtualMemory.EraseFromLog | kernel/src/sys/mmu.c:442-448 | where the erase has the room, the search loop over the log in memory erases the first record at the address and leaves the space alone |
| Paging.VirtualMemory.VmMap | kernel/src/sys/mmu.c:465-480 | in memory, the abstract call: appends the record of a kernel mapping, with the growth of the log, and maps the range, halt included |
| Paging.VirtualMemory.VmUnmap | kernel/src/sys/mmu.c:439-454 | in memory, the abstract call: erases the first record at the address for the kernel space and unmaps the range |
| Paging.VirtualMemory.CreateAddressSpace | kernel/src/sys/mmu.c:596-619 | in memory, a new block, root and replay of the log with the new list's growth, the log unchanged; null exactly stands for one of these running out of pages |
| Paging.VirtualMemory.VmInit | kernel/src/sys/mmu.c:489-591 | in memory, the root and all mappings of the plan in order, with the log of the logged ones, halt included |
| Manager.MemoryManager.constructor | kernel/src/sys/mmu.c:34-110 | the memory that pm_init leaves, with no space, block or log yet, is a valid manager |
| Manager.MemoryManager.Kmalloc | kernel/src/common/kmalloc.c:28-48 | with all spaces around, one kmalloc step of the runs at the first fitting place, halting exactly when that halts |
| Manager.MemoryManager.Kfree | kernel/src/common/kmalloc.c:57-69 | one kfree step, of a lent block or of a place that is no header |
| Manager.MemoryManager.Krealloc | kernel/src/common/kmalloc.c:80-112 | one krealloc step on a lent block, halting exactly when that halts |
| Manager.MemoryManager.VmMap | kernel/src/sys/mmu.c:465-480 | for any space and any allowed record, one vm_map step, halting exactly when that halts; no absence of faults is asked for |
| Manager.MemoryManager.VmUnmap | kernel/src/sys/mmu.c:439-454 | for any space, one vm_unmap step, asked for nothing but erases that do not overrun |
| Manager.MemoryManager.VmInit | kernel/src/sys/mmu.c:489-591 | one vm_init step, for every memory map, halting exactly when that halts |
| Manager.MemoryManager.CreateAddressSpace | kernel/src/sys/mmu.c:596-619 | one create_address_space step in any valid state, the new space apart from all others; halts exactly when that halts |
| Vectors.AppendIsAppend | kernel/include/common/vector.h:60-67 | bytes behind the last element are one more element |
| Vectors.EraseIsErase | kernel/include/common/vector.h:75-79 | closing the gap of element e removes element e |
| Vectors.EraseReadsInside | kernel/include/common/vector.h:76-77 | the copy as written covers the tail, and reads inside a buffer if and only if the buffer holds z * len + (z - 1) * (i + 1) bytes |
| Vectors.EraseConfined | kernel/include/common/vector.h:76-77 | it leaves the bytes behind the buffer alone, for every content, if and only if the buffer holds z * len + (z - 1) * i - 1 bytes |
| Vectors.AppendsAreCheap | kernel/include/common/vector.h:60-67 | n appends make k calls of krealloc with (4^k - 1) / 3 <= n, which copy at most (4 * (4^k - 1) - 12k) / 9 elements, and none where the new block has as many pages as the old |
| Vectors.Vector.Append | kernel/include/common/vector.h:60-67 | appends the element, takes and gives back exactly the pages of the abstract growth, touches no other block; from empty, its capacity, its calls of krealloc and the bytes these copied are those that AppendsAreCheap bounds; halts exactly when growing halts |
| Vectors.Vector.Erase | kernel/include/common/vector.h:75-79 | leaves memory as the copy with the byte count as written does; with the room that count asks for, removes element index and touches no other block |
| Vectors.Vector.EraseValue | kernel/include/common/vector.h:101-108 | finds the first equal element and erases it, or changes nothing when there is none |
| Vectors.Vector.At | kernel/include/common/vector.h:52 | the bytes at the computed place are the element |
| Spinlock.StepKeepsInv | kernel/src/common/lock.c:27-42 | every instruction of every CPU keeps: the bit is set exactly if one CPU holds the lock, and the holder's saved flags are in rflags |
| Spinlock.MutualExclusion | kernel/src/common/lock.c:27-42 | in every schedule of any number of CPUs at most one is in the critical section |
| Spinlock.UnlockRestoresFlags | kernel/src/common/lock.c:56-62 | after unlock a CPU has the flags and the stack of its own lock call, whatever others stored in rflags or it did inside |
| Spinlock.InterruptsStayOff | kernel/src/common/lock.c:28-29 | from cli to popfq no CPU is interruptible, provided critical sections leave interrupts off |
| Spinlock.EntersAlone | kernel/src/common/lock.c:32-39 | with no other holder, a CPU anywhere in lock enters within seven of its own instructions |
| Spinlock.WaitsReading | kernel/src/common/lock.c:32-36 | while the lock is held, a CPU that failed to get it goes round pause, bit test and jump, without a locked instruction |
| Spinlock.NoDeadlock | kernel/src/common/lock.c:27-62 | from every state of every schedule any waiting CPU can still get in |
| Digits.Kprint | kernel/src/common/kprint.c:44-48 | emits the characters up to the first NUL and stays inside the buffer |
| Digits.NumeralReadsBack | kernel/src/common/kprint.c:100-103 | the digits of a number, read back in the same base, give the number |
| Digits.NumeralDigits | kernel/src/common/kprint.c:76-77 | the character k places from the end is "0123456789ABCDEF"[n / b^k mod b] |
| Digits.NumeralLength | kernel/src/common/kprint.c:91-93 | a number has at most k digits if and only if it is below b^k |
| Digits.LastDigits | kernel/src/common/kprint.c:74-78 | its last w digits have the value n mod b^w |
| Digits.KprintDec | kernel/src/common/kprint.c:91-106 | the loop stays inside 21 bytes; the output has at least one digit and no leading zero, is "0" for 0, consists of the decimal digits, and reads back as the number |
| Digits.WidthWraps | kernel/src/common/kprint.c:75 | the unsigned comparison is the intended one exactly for widths up to 16 |
| Digits.HexExact | kernel/src/common/kprint.c:65-89 | with width w the digits are min(w, digits) many and read back as n mod 16^w if and only if w is at most 16 or n is 0 |
| Digits.KprintHex | kernel/src/common/kprint.c:65-89 | the loops stay inside 17 bytes; the output is "0x0" for 0 and otherwise, up to width 16, "0x" and min(width, digits) hexadecimal digits, all of them for width 0, without leading zeros unless the width cuts; it reads back as num mod 16^width, num for width 0, if and only if the width is at most 16 or num is 0 |

## Left out

- Boot.PmInit: asks that entries lie in the 52-bit physical address space and that the memory behind the bitmap reaches the bit of the limit itself; with no home for the bitmap (where the source clears memory at address 0) it claims nothing.
- Heap.Kmalloc: asks that header and payload, added to the physical limit, do not exceed 2^64 bytes; beyond that pm_get grants a run it never tested (Frames.SearchExact), and the model says nothing of the memory it then clears.
- Heap.Krealloc: asks the same when it must move, that the new size is at most 2^64 - 4096, and that the block is a live one; the file name in the header is not stored.
- Heap.Kfree: covers live data blocks and addresses without the magic number; freeing the block of a root table, which carries the magic too, or a forged header is outside the model.
- Layout.EntrySeen: for page-aligned entries of at most 2^48 bytes, kernel and modules linked at a page-aligned distance, which is what the boot protocol provides; Layout.InitLayout, which goes by pages, asks for none of this. Both, and Layout.CreatedLayout, are for memory of at most 2^48 bytes.
- Vectors.Vector.Append: elements are at most a page long.
- Vectors.Vector.Erase: asks that the copy reads inside physical memory; of a copy that leaves the buffer it says what memory is, and nothing of the blocks that memory stood for.
- Vectors.Vector.EraseValue: asks and says the same, at the place of the value.
- Paging.AddressSpace.EraseFromList: asks that the erase has its room, as do UnmapPageEntry, EraseFromLog and VmUnmap; Manager.MemoryManager.VmUnmap discharges it from the invariant and the one condition of Runs.FaultsInAnyRun.
- Paging.VirtualMemory.MapPageEntry: asks that the abstract operation does not fault, as do UnmapPageEntry, VmMap, VmUnmap and VmGetPhysAddr; the invariant gives this to the methods of Manager, and Lookup.WrittenLookupExact to the last.
- Paging.VirtualMemory.VmMap: asks that the byte count of the range does not wrap, as does VmUnmap.
- Paging.VirtualMemory.CreateAddressSpace: the fields of the structure are fields of an object, and the bytes of its block stay zero; that no call frees, moves or writes the block is Runs.RunKeepsInv.
- Paging.VirtualMemory.VmInit: the memset after the root's kmalloc is not repeated, since the block is already zero; the log output and the load of CR3 have no counterpart.
- Manager.MemoryManager.Krealloc: the null address, which is a kmalloc, is in Heap.Krealloc only.
- Kernel.CreatedAgainstKernel, Kernel.DirectMapStays and Kernel.DirectMapWalk: for memory of at most 2^48 bytes, which is what page numbers tell apart; the window in the higher half holds 2^47, and beyond that PHYS_TO_VIRT arrives in the lower half.
- Runs.Allowed: callers free, resize and write data blocks they hold, not those of vectors and roots nor the structures of live spaces, and a kfree of any other place meets no word that looks like the magic number; physical memory has at most 2^60 bytes, so that no request for a vector wraps.
- Memory is reached through the direct map of the kernel: unmapping or remapping a window page in the current space does not make later accesses fail in the model. Kernel.DirectMapStays says under which condition the map stays whole.
- Ranges.MapUnmapRestores: memory_list is restored as a set; its order is not.
- What memory holds after an erase has left its vector's block: the run ends there; Vectors.Vector.Erase says what the copy writes.
- The bitmap as part of physical memory: it is an array of its own, whose every byte Machine.KernelMemory.Valid places in reserved pages; where Boot.GuardFits fails there is no such array, and nothing is claimed.
- Page sizes and addresses that wrap in pm_free: its callers stay inside the bitmap, which the contract asks for.
- Flags outside the first nine bits or without the present bit: no caller passes them, and the map theorems ask for this.
- TLB invalidation, CR3 reads and writes, log output, and the body of halt: no effect on the modelled state.
- vm_init and pm_init with a missing bootloader response beyond the empty memory map: an immediate halt.
- memcmp, strncpy, and the format parser of kprintf: single simple loops.
- vector_free: it names a field the structure does not have, and nothing uses it.
- Lock words other than bit 0, nested locks, interrupt handlers, and unlock calls from outside a critical section: not part of the lock model; code inside a critical section may change its flags at will.
- Drivers, terminal, descriptor tables, ACPI and CPU setup: device and firmware code outside the memory manager.
