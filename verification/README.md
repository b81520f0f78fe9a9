# BlitzOS kernel: a verified model

Dafny models of the memory managers, the scheduler with its interrupt entry, and the
console drivers of BlitzOS, a small x86-64 kernel, with proofs of what they promise.
`dafny verify dfyconfig.toml` checks everything.

Each component comes in two layers. A *specification* gives its state as a value and its
operations as functions; lemmas prove what they mean and what every run keeps. A *class*
with the kernel's own fields -- bitmap bytes, table words, the words of block headers, linked
control blocks, registers, buffer cells -- updates them in place as the C or assembly code does,
and each method's postcondition ties the new state to the specification. Upper layers
use the contracts of lower ones: page tables and heap draw frames from the bitmap
allocator, processes draw control blocks and stacks from the heap, the interrupt model
runs on those stacks.

| part | specification and laws | code |
|---|---|---|
| physical frames | `Frames` | `Pmm` |
| boot information | `MultibootLaws` | `Multiboot` |
| page tables | `PageTables`, `PagingLaws`, `PagingRuns` | `Paging` |
| kernel heap | `HeapSpec`, `HeapLaws`, `HeapPlace`, `HeapExact`, `HeapTheorems`, `HeapOverlap` | `Links`, `HeaderWords`, `HeapChain`, `KHeap` |
| all memory | `MemoryRuns` | |
| scheduler | `SchedSpec`, `SchedLaws`, `KernelLaws`, `SchedRuns`, `RoundRobin`, `Pids` | `Process` |
| context switching | `Interrupts`, `Multiplex`, `FirstRun` | `Interrupts`, `Process` |
| keyboard | `KeyRing` | `Keyboard` |
| screen | `Vga` | `Vga` |

`Words` holds the arithmetic of `|` and `& ~0xFFF` on 64-bit words, and memory made of words.

## Main results

- **Context multiplexing.** One processor, interrupted and switched by the timer, refines
  one virtual processor per process (`Multiplex.StepRefines`). Over any run a preempted
  process resumes with exactly the context it was interrupted with
  (`Multiplex.ResumesExactly`), a new one starts at its entry point on its own stack
  (`Multiplex.StartsFresh`, `FirstRun.FirstRunFresh`), and stacks in use are not touched (`Multiplex.StepKeepsStack`).
  That stacks are disjoint is not assumed: it follows from the heap (`KernelLaws.StacksApart`).
- **Address spaces.** One heap of tables serves many roots. A map or unmap changes one
  page in the spaces sharing its slot and nothing else, also when it fails halfway
  (`PagingLaws.MapPageMeaning`); over any run each page holds what the last edit of that
  page left (`PagingRuns.LastEditDecides`, `PagingRuns.LastMapReads` in numbers), upper halves stay shared, lower halves private,
  and no frame is lost (`PagingRuns`). Runs may start on the boot code's tables
  (`PagingLaws.BootInOrder`).
- **Heap.** While expansions lie at or behind the heap's end, blocks never overlap, no two
  neighbours are free, an allocation is undone by its free, freeing everything collapses
  the heap to one block, and the statistics counter drifts by exactly the summed slack
  (`HeapTheorems`); what each call makes of the list is given byte for byte (`HeapExact`).
  The words of headers in memory follow the list of blocks as long as the
  32 bytes of each header written meet no other header (`KHeap.KHeap.AllocateBlock`), which is
  exactly when memory can hold the list (`HeapChain.CutNeedsRoom`).
- **Memory as a whole.** Page tables, the heap with its processes, and other users of the frame
  allocator never meet in a frame while the heap grows in place (`MemoryRuns.NoFrameTwice`), so
  no kernel stack ever lies in a page table (`MemoryRuns.StacksNoTables`).
- **Scheduler.** The queue invariant and the ownership of memory hold over every run, whatever
  others do with heap and frames in between (`SchedRuns.RunKeeps`), and nothing leaks
  (`SchedRuns.NoLeak`); waiting is bounded by the rank (`SchedRuns.BoundedWaiting`); 20 N
  ticks are a full revolution (`RoundRobin.RoundRobinExact`); identifiers differ
  (`Pids.PidsDiffer`).
- **Boot, keyboard, screen.** From encoded boot information to the free frames
  (`MultibootLaws.BootFrames`), a FIFO under arbitrary interleaving
  (`KeyRing.DeliveredInOrder`), and the last 25 lines of an unbounded text
  (`Vga.Screen.Putchar`).

## What the code does not promise

Properties one might expect that fail, each with the exact condition or a concrete input:

- `pmm_init` visits frames from `total_pages` on, and so may leave the bitmap, when the pages of
  an available entry reach beyond every end address it computes; these wrap at 2^64, the page
  counts do not (`Pmm.InBoundsExactly`, `Pmm.WrappingEntryLeavesBounds`).
- A frame freed by `pmm_init` need not lie inside an available region unless the region's
  base is page aligned (`Pmm.FreedFramesInsideEntry`).
- Frame 0 is handed out as the null address, so callers lose it (`Frames.RunConserves`).
- `paging_get_physical` does not return the mapped frame when the flags have bits above
  the low twelve, no-execute in particular (`PagingLaws.MapThenTranslate`,
  `PagingLaws.NoExecuteLeaks`).
- Heap growth keeps blocks apart and in address order exactly if the new memory starts at or
  behind the heap's end (`HeapLaws.OrderedOnlyBehind`); the code does not check. After a frame
  before the heap was freed, a split can write its new header over that of a live block
  (`HeapOverlap.OverlapReached`), replacing it (`HeapOverlap.HeaderOverwritten`) or changing its
  size and losing another block (`HeapOverlap.LiveBlockSpoiled`).
- An expansion takes the frames it draws for one stretch. The block covers frames drawn for
  somebody else unless the draw is contiguous (`HeapPlace.CoversDrawnOnly`), and a merge
  across a gap claims the gap (`HeapTheorems.MergeTrustsOrder`).
- A `kmalloc` or a map that fails is not without effect: an expansion that fails halfway never
  gives back the frames it has drawn (`kernel/mm/kheap.c:44-50`). Failure leaves the frame
  allocator as it was exactly if no frame was free; otherwise it costs frame 0, if that was
  free, or else every free frame of the machine (`HeapLaws.KmallocFails`,
  `Frames.FailureCosts`). When they fail can be told beforehand (`HeapLaws.KmallocSucceeds`,
  `PagingLaws.MapPageSucceeds`); with frame 0 free `kheap_init` always does
  (`KHeap.KHeap.Init`).
- Pages behind a large page, such as the first 2 MB at boot, must not be mapped, unmapped or
  translated: the code takes the large page for a table. There a map does nothing
  (`PagingLaws.BootMapRefused`), but an unmap stores 0 at physical address 8 * Index(v, 1), and
  `paging_get_physical` reads there, since neither checks for null (`kernel/mm/paging.c:124-128`,
  `PagingLaws.BootUnmapStrays`). `PageTables.Clear` is exactly the condition under which
  the code's walk is the right one (`PagingLaws.CodeWalkExactly`), over every run from the boot
  code's tables (`PagingRuns.RunWalksExactly`), and it lasts (`PagingRuns.RunKeeps`).
- Process identifiers are handed out modulo 2^32, with no look at who is alive: two processes have
  the same one exactly if a multiple of 2^32 was handed out between their creations
  (`Pids.SamePidExactly`).
- `process_kill` of the current process leaves a dangling current process
  (`KernelLaws.KillExactly`).
- `used_heap_size` is not the number of bytes in use: `kmalloc` adds the request, `kfree`
  subtracts the block (`HeapTheorems.AccountingLaw`).
- Releasing one shift key while the other is held reads as released. The flag is right exactly
  unless the last shift event is such a release (`Keyboard.ShiftToldExactly`;
  `Keyboard.ReleasedWhileHeld` is an input).
- In `process_create` the comments name the two dummy words of the first frame in the
  opposite order to the one the stub pushes them in (`kernel/proc/process.c:191-193`,
  `kernel/arch/x86_64/isr.asm:34-35`); both are zero, so nothing depends on it.

## Model

| member | source | states |
|---|---|---|
| `Frames.LowestFree` | kernel/mm/pmm.c:146-152 | the frame found is the first free one; everything before it is in use |
| `Frames.AllocMeaning` | kernel/mm/pmm.c:144-156 | a non-null page is the lowest free frame and was held by nobody; null means no frame is free, or that frame 0 has just been spent |
| `Frames.RunConserves` | kernel/mm/pmm.c:144-172 | over every run of a client that frees only what it holds, the used frames are the disjoint union of the initially used ones, the held ones and possibly frame 0: nothing is handed out twice |
| `Frames.DrawMeaning` | kernel/mm/kheap.c:41-57 | pages drawn with no free in between are lowest first and strictly ascending, and nothing else but frame 0 becomes used |
| `Frames.AscendingContiguous` | kernel/mm/kheap.c:41-57 | such pages form one physical run if and only if last - first is n - 1 pages |
| `Frames.DrawSucceeds` | kernel/mm/kheap.c:41-57 | all n pages are drawn if and only if n is 0, or frame 0 is in use and there are n free frames |
| `Frames.DrawFails` | kernel/mm/kheap.c:41-57 | a draw that stops short leaves either just frame 0 spent, if that was free, or no frame free at all |
| `Frames.FailureCosts` | kernel/mm/kheap.c:44-50 | it leaves the allocator as it was if and only if no frame was free before |
| `Pmm.OneBit` | kernel/mm/pmm.c:17-27 | forcing one mask bit of one byte changes exactly one abstract bit |
| `Pmm.Pmm.BitmapSet` | kernel/mm/pmm.c:17-19 | the bit is set, all others are unchanged |
| `Pmm.Pmm.BitmapClear` | kernel/mm/pmm.c:21-23 | the bit is clear, all others are unchanged |
| `Pmm.Pmm.BitmapTest` | kernel/mm/pmm.c:25-27 | answers whether the bit is set |
| `Pmm.Pmm.LargestEnd` | kernel/mm/pmm.c:62-76 | the largest end address among the available entries, in 64-bit arithmetic |
| `Pmm.Pmm.MarkAllUsed` | kernel/mm/pmm.c:78-91 | every frame below the total starts as used and the counter agrees |
| `Pmm.Pmm.FreeEntry` | kernel/mm/pmm.c:98-109 | exactly the frames the entry covers become free; frames that were free already are not counted twice |
| `Pmm.Pmm.FreeAvailable` | kernel/mm/pmm.c:93-110 | used are exactly the frames no available entry covers, however the entries overlap |
| `Pmm.Pmm.ReserveKernel` | kernel/mm/pmm.c:112-122 | exactly the frames of kernel image and bitmap are taken back; `Pmm.FreeExactly` gives them in bytes |
| `Pmm.Pmm.Init` | kernel/mm/pmm.c:52-122 | the bitmap becomes that of `InitialUsed`, which `Pmm.FreeExactly` gives in bytes, and the count agrees; without a map nothing changes |
| `Pmm.NoWrapInBounds` | kernel/mm/pmm.c:94-107 | every frame the clearing loop visits is below total_pages as long as no available entry reaches 2^64 |
| `Pmm.InBoundsExactly` | kernel/mm/pmm.c:70-107 | for all 64-bit entries: every frame the clearing loop visits is below total_pages if and only if each available entry of a page or more either ends below 2^64 or has its pages below the (wrapped) end of some available entry |
| `Pmm.WrappingEntryInBounds` | kernel/mm/pmm.c:70-107 | a concrete entry that reaches 2^64 and stays below total_pages thanks to another one |
| `Pmm.WrappingEntryLeavesBounds` | kernel/mm/pmm.c:70-107 | a concrete entry that does reach it, and makes the loop visit a frame beyond the last bit of the bitmap |
| `Pmm.KernelAndBitmapReserved` | kernel/mm/pmm.c:112-122 | no byte of the kernel image or of the bitmap lies in a free frame |
| `Pmm.FreeExactly` | kernel/mm/pmm.c:62-122 | a frame below the largest end address is free if and only if the pages of an available entry reach it, and it ends at or below 1 MB or starts at or behind 1 MB plus the kernel and the bitmap, each rounded up to whole pages |
| `Pmm.FrameInRegion` | kernel/mm/pmm.c:93-121 | so a frame that lies in an available, page-aligned region is used exactly if it shares a byte with the pages of kernel and bitmap |
| `Pmm.MaxAttained` | kernel/mm/pmm.c:70-76 | some available entry ends, in 64-bit arithmetic, at the largest end address |
| `Pmm.FreedFramesInsideEntry` | kernel/mm/pmm.c:99-107 | all bytes of all freed frames belong to the entry if and only if its base is page aligned or it has less than a page |
| `Pmm.Pmm.AllocPage` | kernel/mm/pmm.c:144-156 | the bitmap search refines the abstract allocation of the lowest free frame |
| `Pmm.Pmm.FreePage` | kernel/mm/pmm.c:159-172 | refines the abstract free; a page out of range or already free changes nothing |
| `PagingLaws.IndicesArePage` | kernel/mm/paging.c:10-13 | two addresses agree in all four indices if and only if they agree in bits 12 to 47 |
| `PagingLaws.PageFromIndices` | kernel/mm/paging.c:10-13 | the indices are the digits to base 512 of bits 12 to 47, level 4 the highest and level 1 the lowest |
| `PagingLaws.LinkEntryFacts` | kernel/mm/paging.c:36-54 | a link entry is the table's address with the three low bits set: present, no large page, and giving back the table |
| `PageTables.LeafEntry` | kernel/mm/paging.c:105 | its low twelve bits are those of the flags, the others those of frame number and flags or-ed; for flags below 4096 it is frame address plus flags |
| `Words.OrBits` | kernel/mm/paging.c:105 | a bit of the result is set if and only if it is set in either operand |
| `PageTables.Translate` | kernel/mm/paging.c:135-153 | the page's entry with its low twelve bits replaced by those of the address if bit 0 is set, else 0 |
| `PagingLaws.WalkUnique` | kernel/mm/paging.c:36-57 | two walks that meet in a table took the same indices, from the same table or from two roots sharing the slot |
| `PagingLaws.EntryAfterLink` | kernel/mm/paging.c:48-56 | linking in a cleared table changes no translation of any address space |
| `PagingLaws.GetOrCreateGrows` | kernel/mm/paging.c:36-57 | get-or-create keeps the invariant, every link, every translation and the sharing, and any frame it took is a table in place -- also on failure |
| `PagingLaws.GetLeafDraws` | kernel/mm/paging.c:92-102 | the frames taken on the way down are exactly a draw of the missing tables, one after the other |
| `PagingLaws.WriteLeafEntry` | kernel/mm/paging.c:104-105 | writing one leaf word changes that page in every space that reaches the word, and no other page anywhere |
| `PagingLaws.MapPageMeaning` | kernel/mm/paging.c:85-106 | success changes exactly that page in the current space and in the spaces sharing its slot; running out of memory at any level changes no translation at all |
| `PagingLaws.MapEnters` | kernel/mm/paging.c:85-106 | after a successful map the page's entry has the low twelve bits of the flags and above them, bit by bit, those of frame or flags: frame address plus flags if the flags are below 4096 |
| `PagingLaws.MapPageSucceeds` | kernel/mm/paging.c:85-106 | it succeeds if and only if no table is missing, or frame 0 is in use and there are free frames for all that are missing; it takes just those, and a failure leaves frame 0 spent or no frame free |
| `PagingLaws.MapThenTranslate` | kernel/mm/paging.c:85-153 | after a successful map the page translates to the or-ed page parts times 4096 plus the offset, hence to frame plus offset if and only if the flags add no address bits (always for flags below 4096), and to 0 if they lack PRESENT |
| `PagingLaws.NoExecuteLeaks` | kernel/mm/paging.c:85-153 | after mapping with any present flags that have bit 63, the page never translates to frame plus offset |
| `PagingLaws.UnmapPageMeaning` | kernel/mm/paging.c:109-132 | unmapping clears exactly that page in the spaces sharing its slot and takes no frame |
| `PagingLaws.SameSlotSameEntry` | kernel/mm/paging.c:135-153 | address spaces sharing a slot agree on every page behind it |
| `PagingLaws.CreateSpaceMeaning` | kernel/mm/paging.c:167-182 | a new space is empty in the lower half, shares exactly the linked upper-half slots of the current one, and changes no other space |
| `PagingLaws.NewRootEntries` | kernel/mm/paging.c:171-179 | its entries are 0 below 256 and those of the current root from there on, large pages included |
| `PagingLaws.TableUnderRoot` | kernel/mm/paging.c:36-57 | every table in memory is reachable from some root: no table frame is lost |
| `PagingLaws.LoneRoot` | kernel/mm/paging.c:167-174 | a cleared root alone is a space in order and translates nothing |
| `PagingLaws.BootInOrder` | kernel/arch/x86_64/boot/boot.asm:58-78 | the three tables the boot code leaves, its 2 MB page included, are in order |
| `PagingLaws.BootClears` | kernel/arch/x86_64/boot/boot.asm:58-78 | every page but those of the first 2 MB is clear of that large page |
| `PagingLaws.BootMapRefused` | kernel/mm/paging.c:85-106 | mapping a page of the first 2 MB does nothing: the large page is read as a link to a table at address 0, hence as failure |
| `PagingLaws.BootUnmapStrays` | kernel/mm/paging.c:109-128 | unmapping such a page is not refused: the walk ends at the word at physical address 8 * Index(v, 1), which is cleared; a translation reads there |
| `PagingLaws.CodeWalkClear` | kernel/mm/paging.c:109-153 | with no large page in the way, the walk of an unmap or a translation, which looks at the present bits only, ends at the word of the leaf table that covers the page, or early if there is none |
| `PagingLaws.CodeWalkExactly` | kernel/mm/paging.c:109-153 | where no table lies at the start of a large page, that walk is right if and only if there is no large page in the way |
| `PagingLaws.BootReserved` | kernel/arch/x86_64/boot/boot.asm:58-78 | the large page of the boot code starts at 0, where no table lies |
| `PagingRuns.RunKeeps` | kernel/mm/paging.c:85-182 | over every run, with other clients of the frame allocator in between, each table keeps a used frame of its own and its level, links and large pages never change, and no page comes to lie behind a large page |
| `PagingRuns.RunAccounts` | kernel/mm/paging.c:36-182 | as long as nobody else takes frames, every frame that became used, frame 0 aside, is a table |
| `PagingRuns.NoFrameLost` | kernel/mm/paging.c:36-182 | and that table hangs below some root |
| `PagingRuns.RunReserves` | kernel/mm/paging.c:36-182 | over every run in which nobody frees the frame a large page starts with, no table comes to lie at the start of a large page |
| `PagingRuns.RunWalksExactly` | kernel/mm/paging.c:109-153 | so over every run from tables such as those of the boot code, the walk of an unmap or a translation is right for just the pages with no large page in the way |
| `PagingRuns.SharedForever` | kernel/mm/paging.c:167-182 | a slot shared once stays shared, and both spaces agree behind it forever |
| `PagingRuns.SlotsSameOrDisjoint` | kernel/mm/paging.c:171-179 | slots of two roots lead to the same subtree or to subtrees without a common table |
| `PagingRuns.LastEditDecides` | kernel/mm/paging.c:85-182 | an address space is a map from pages to entries: over every run each page holds what the last edit of that very page left there, where a map counts if it had frames enough for its tables |
| `PagingRuns.Isolation` | kernel/mm/paging.c:85-132 | over any stretch of a run, a page that no map or unmap hits -- that very page, in its own space or in one sharing its slot -- holds at the end what it held at the start |
| `PagingRuns.LastMapReads` | kernel/mm/paging.c:85-153 | over every run, a page last mapped with flags below 4096 and frames enough for its tables holds frame address plus flags, and translates to that frame, until it is mapped or unmapped again; after an unmap it holds and translates to 0 |
| `PagingRuns.LowerHalfPrivate` | kernel/mm/paging.c:176-179 | an edit below bit 47 in one space hits no page of another |
| `Paging.Paging.constructor` | kernel/mm/paging.c:60-66 | starts on given tables that are in order, as those of `PagingLaws.BootInOrder` are |
| `Paging.Paging.StepDown` | kernel/mm/paging.c:92-102 | one level of the walk: the table found or made is one level further down, with nothing else to do on the way |
| `Paging.Paging.GetOrCreateTable` | kernel/mm/paging.c:36-57 | word-by-word update refines get-or-create |
| `Paging.Paging.LeafTable` | kernel/mm/paging.c:92-102 | the three levels refine the recursive walk that creates what is missing |
| `Paging.Paging.MapPage` | kernel/mm/paging.c:85-106 | refines the map operation |
| `Paging.Paging.UnmapPage` | kernel/mm/paging.c:109-132 | refines the unmap operation, with its three early exits |
| `Paging.Paging.GetPhysical` | kernel/mm/paging.c:135-153 | the answer is the abstract translation in the current root |
| `Paging.Paging.SwitchDirectory` | kernel/mm/paging.c:156-159 | only the current root changes |
| `Paging.Paging.CreateAddressSpace` | kernel/mm/paging.c:167-182 | refines the creation of a root |
| `HeapLaws.AlignUpMeaning` | kernel/mm/kheap.c:28-30 | rounding reaches the request if and only if the 64-bit sum does not wrap |
| `HeapLaws.ExpandSizeMeaning` | kernel/mm/kheap.c:33-41 | an expansion is exactly 16384 bytes, or, if the need is greater, the need rounded up to whole pages, by less than one page |
| `HeapLaws.CoalesceKeepsCanonical` | kernel/mm/kheap.c:106-124 | freeing a block in a list without free neighbours and merging once on each side leaves no free neighbours |
| `HeapLaws.KfreeKeepsList` | kernel/mm/kheap.c:202-221 | so does kfree, also on a block that is free already |
| `HeapLaws.OrderedOnlyBehind` | kernel/mm/kheap.c:59-79 | an expansion keeps the blocks apart and in order if and only if its memory starts at or behind the heap end |
| `HeapLaws.MergeKeepsOrder` | kernel/mm/kheap.c:106-124 | a merge may claim a gap, but no byte of another block |
| `HeapPlace.TiledOnlyInPlace` | kernel/mm/kheap.c:59-79 | an expansion keeps the blocks tiling without gaps if and only if its memory starts at the heap end |
| `HeapPlace.CoversDrawnOnly` | kernel/mm/kheap.c:40-64 | the new block covers only frames drawn for it if and only if the draw is contiguous |
| `HeapPlace.KmallocInPlace` | kernel/mm/kheap.c:142-178 | a kmalloc whose expansion continues the heap keeps the blocks tiling used frames of the heap's own |
| `HeapLaws.GrowsBehindExactly` | kernel/mm/kheap.c:33-64 | the condition of the following laws, in terms known beforehand: if there are frames enough for the expansion, the lowest free one lies at or behind the heap end |
| `HeapLaws.KmallocSucceeds` | kernel/mm/kheap.c:142-178 | a request is served if and only if it is not 0 and a block fits, or frame 0 is in use and there are free frames for an expansion; a request of 0 changes nothing |
| `HeapLaws.KmallocFails` | kernel/mm/kheap.c:44-50 | a request that fails leaves the blocks alone; it leaves the frames alone if and only if none was free, and else costs frame 0 or every free frame of the machine |
| `HeapLaws.KmallocMeaning` | kernel/mm/kheap.c:142-178 | if an expansion, when needed, lies behind the heap, contiguous or not: a served request returns an 8-aligned block that was not live, is big enough by a slack of 0 to 40 bytes and is the only change to the live blocks; a failed one leaves the heap as it was; blocks stay apart, no two neighbours free, sizes adding up |
| `HeapLaws.KfreeMeaning` | kernel/mm/kheap.c:202-221 | exactly the block freed leaves the live ones; blocks stay apart, no two neighbours free; null, and a double free of a block still in the list, change nothing (for one merged away since see KHeap.KHeap.Kfree) |
| `HeapExact.KmallocFits` | kernel/mm/kheap.c:147-160 | the whole new heap: with s the request rounded up to a multiple of 8, the first free block of at least s bytes is handed out, at exactly s bytes if it has s + 48 or more, the rest less 32 becoming a free block behind it, and whole otherwise; no frame is taken |
| `HeapExact.KmallocExpands` | kernel/mm/kheap.c:165-178 | if no block fits, s + 32 bytes rounded up to pages, or 16384 if that is more, are drawn; they become a block at the list's end that is cut in the same way, or, if they cannot all be drawn, the heap stays as it was |
| `HeapExact.KfreeExactly` | kernel/mm/kheap.c:202-221 | the whole new heap: the block freed and the free ones next to it become one, the 32 bytes between them included; the counter falls by block and header, modulo 2^64 |
| `HeapTheorems.BlocksApart` | kernel/mm/kheap.c:85-103 | no byte belongs to two blocks, headers included |
| `HeapTheorems.BytesInUsedFrames` | kernel/mm/kheap.c:33-82 | a heap whose expansions continued it lies in used frames only |
| `HeapPlace.Determined` | kernel/mm/kheap.c:106-124 | without gaps, the block list is determined by the heap's extent and the used blocks |
| `HeapTheorems.KfreeUndoesKmalloc` | kernel/mm/kheap.c:142-221 | freeing an allocation served without expansion restores exactly the previous list of blocks |
| `HeapTheorems.SlackMeaning` | kernel/mm/kheap.c:85-103 | the slack of an allocation is what the block behind the returned address has over the request |
| `HeapTheorems.SlackBound` | kernel/mm/kheap.c:87-93 | a slack is a multiple of 8 in 0 .. 40 |
| `HeapTheorems.RunKeeps` | kernel/mm/kheap.c:142-221 | over every run whose expansions lie at or behind the heap end, contiguous or not, and in which others change the set of used frames but write to none the heap covers: blocks in order and apart, no two neighbours free, sizes adding up to the heap size |
| `HeapTheorems.RunKeepsPlace` | kernel/mm/kheap.c:142-221 | if they directly continue the heap and nobody frees its frames, the blocks also tile used frames of the heap's own |
| `HeapTheorems.AccountingLaw` | kernel/mm/kheap.c:157-217 | at every point of every such run, bytes of used blocks minus used_heap_size equals, modulo 2^64, the summed slack of all allocations ever made |
| `HeapTheorems.FreeAllCollapses` | kernel/mm/kheap.c:202-221 | freeing all live blocks in any order leaves one free block of the heap size less 32 |
| `HeapTheorems.MergeTrustsOrder` | kernel/mm/kheap.c:106-124 | a merge with new memory covers what was appended if and only if that memory starts at the heap end |
| `HeapOverlap.OverlapReached` | kernel/mm/kheap.c:85-178 | on any machine with frames 0 to 5 in use, the heap in 2 to 5, and 6 to 8 free, and for every last request of 4072 to 4120 bytes that is a multiple of 8: four allocations, with frame 1 released between the second and the third, lead to a list with two headers that meet, which memory cannot hold |
| `HeapOverlap.HeaderOverwritten` | kernel/mm/kheap.c:92-101 | with 4096 bytes, word by word: the split overwrites the header of a live block, and the walk from the heap start ends there |
| `HeapOverlap.LiveBlockSpoiled` | kernel/mm/kheap.c:85-103 | with 4088 bytes, word by word: no two headers at one address, yet the size of a live block changes from 16184 to 16129, and the walk from the heap start misses another live block |
| `Links.JoinedDistinct` | kernel/mm/kheap.c:11-17 | headers that point at their neighbours are all at different addresses |
| `Links.InsertChain` | kernel/mm/kheap.c:91-101 | relinking three nodes inserts one into a doubly linked list |
| `Links.AppendChain` | kernel/proc/process.c:78-95 | relinking the tail appends one |
| `Links.RemoveChain` | kernel/proc/process.c:243-246 | relinking the neighbours removes one |
| `HeaderWords.CutNodes` | kernel/mm/kheap.c:85-103 | the seven writes of a split, in their order: what they make of the header cut, the new one, the next one and any other, as long as these share no byte |
| `HeaderWords.AbsorbNodes` | kernel/mm/kheap.c:108-123 | the same for the writes of a merge |
| `HeapChain.CutChain` | kernel/mm/kheap.c:87-102 | the word writes of a split turn memory that holds the list into memory that holds the split list, as long as the 32 bytes of the new header meet no other header |
| `HeapChain.CutNeedsRoom` | kernel/mm/kheap.c:87-102 | the condition is exact: headers are apart in the split list, and memory can hold it, if and only if the 32 bytes of the new header meet no other header |
| `HeapChain.CutSpoils` | kernel/mm/kheap.c:92-101 | a new header 8 bytes before another one, or 8 bytes into it, destroys that one for certain: its flag makes the other's size or next pointer odd |
| `HeapChain.BehindWritesApart` | kernel/mm/kheap.c:142-178 | while expansions lie behind the heap, no header an allocation writes meets another one |
| `HeapChain.AbsorbChain` | kernel/mm/kheap.c:108-123 | the word writes of a merge turn memory that holds the list into memory that holds the merged list |
| `HeapChain.AbsorbKeepsFlag` | kernel/mm/kheap.c:108-123 | a merge writes nothing to the header that leaves the list: it still says that its block is free |
| `KHeap.KHeap.DrawPages` | kernel/mm/kheap.c:41-57 | the page loop refines the draw and returns the first page, or null if it stopped short |
| `KHeap.KHeap.ExpandHeap` | kernel/mm/kheap.c:33-82 | appends the new memory as a free block, wherever it lies as long as its header meets no other, or changes only the frame allocator |
| `KHeap.KHeap.FindLast` | kernel/mm/kheap.c:73-76 | the walk ends at the last block |
| `KHeap.KHeap.AppendBlock` | kernel/mm/kheap.c:59-79 | links the new block behind the last one |
| `KHeap.KHeap.SplitBlock` | kernel/mm/kheap.c:85-103 | the word writes refine the split of the block list whenever the 32 bytes of the new header meet no other header |
| `KHeap.KHeap.CoalesceBlocks` | kernel/mm/kheap.c:106-124 | refines the merge with both neighbours |
| `KHeap.KHeap.Absorb` | kernel/mm/kheap.c:108-114 | one merge, word by word and on the list |
| `KHeap.KHeap.Init` | kernel/mm/kheap.c:126-140 | the heap has one block on four frames from the lowest free one on, if frame 0 is in use and four are free; else it stays empty, and frame 0 is spent or no frame is free |
| `KHeap.KHeap.FindFit` | kernel/mm/kheap.c:150-163 | the walk finds the first free block that fits |
| `KHeap.KHeap.AllocateBlock` | kernel/mm/kheap.c:150-177 | search and expansion refine the block list whenever no header written shares a byte with another |
| `KHeap.KHeap.Kmalloc` | kernel/mm/kheap.c:142-178 | the words of headers in memory refine kmalloc on the block list and stay in order: new list, counters, frames and returned address |
| `KHeap.KHeap.Kfree` | kernel/mm/kheap.c:202-221 | refines kfree; a pointer whose header already says free, also one merged away since, changes nothing |
| `SchedLaws.PreemptSwitches` | kernel/proc/process.c:377-397 | at the end of the quantum the queue rotates, the head runs with a full quantum and its saved stack pointer is returned |
| `SchedLaws.PreemptExactly` | kernel/proc/process.c:316-403 | the whole new scheduler: without a running process only the count of ticks; else that process counts, too, and its quantum falls by 1; at 0 it is queued last, ready, with its stack pointer saved, and the head of the queue runs on from its own with 20 ticks, or the same one if nobody waits |
| `SchedLaws.PreemptKeepsInv` | kernel/proc/process.c:320-407 | a tick keeps: queue without duplicates, of ready processes, without the running one; count right and at most 256; quantum in 1 .. 20 |
| `SchedLaws.DoScheduleMeaning` | kernel/proc/process.c:441-462 | a cooperative schedule never switches away from a running process; with none the head of the queue leaves it and runs, with nothing else changed |
| `SchedLaws.TickRank` | kernel/proc/process.c:372-397 | a tick lowers the rank of every waiting process by exactly one, and at rank 1 it runs |
| `KernelLaws.ThreePerProcess` | kernel/proc/process.c:125-254 | three live allocations belong to each process counted |
| `KernelLaws.LiveCount` | kernel/proc/process.c:125-254 | the live allocations are those three for each process and those nobody's process owns |
| `KernelLaws.StacksApart` | kernel/proc/process.c:159-177 | kernel stacks of different processes share no byte |
| `KernelLaws.CreateMemoryMeaning` | kernel/proc/process.c:133-174 | either all three allocations are new, or the live allocations are as before, however far creation got |
| `KernelLaws.CreateKeepsInv` | kernel/proc/process.c:125-231 | creating a process, successfully or not, keeps scheduler, heap and ownership consistent |
| `KernelLaws.CreateMeaning` | kernel/proc/process.c:125-231 | on success the control block says: next identifier, state READY, 20 ticks, rip = entry, rbp = stack + 8192, rsp = stack + 8016, rflags 0x202; the process is queued last and holds three allocations nobody held; on failure at most an identifier is used up |
| `KernelLaws.CreateSucceeds` | kernel/proc/process.c:125-177 | it succeeds if and only if there are fewer than 256 processes and requests of 256, 8192 and 8192 bytes are served one after the other; the process has just these three; a failure uses up an identifier if and only if the first was served, and with 256 processes changes nothing |
| `KernelLaws.KillMeaning` | kernel/proc/process.c:236-254 | killing another process gives back exactly its three allocations and keeps everything consistent |
| `KernelLaws.KillUnlists` | kernel/proc/process.c:236-254 | the scheduler loses that process and counts one less; the others keep their place and everything else |
| `KernelLaws.KillExactly` | kernel/proc/process.c:236-254 | killing a process leaves a consistent kernel if and only if it is not the current one |
| `KernelLaws.OtherMalloc` | kernel/mm/kheap.c:142-178 | an allocation by others returns a pointer that was not live and that no process notices |
| `KernelLaws.OtherFree` | kernel/mm/kheap.c:202-221 | so does a free by others of a block no process owns: it takes out that pointer and no other |
| `SchedRuns.RunKeeps` | kernel/proc/process.c:78-462 | the whole invariant over every run of ticks, creations, kills and cooperative schedules, with anybody's kmalloc, kfree and use of frames in between |
| `SchedRuns.NoLeak` | kernel/proc/process.c:125-254 | no leak: over every such run, failed creations included, the live allocations are those of the processes and, disjoint from them, what others held at the start plus what they allocated minus what they freed |
| `SchedRuns.LiveCountFollows` | kernel/proc/process.c:125-254 | the number of live allocations is three for each process counted and what others hold |
| `SchedRuns.StepRank` | kernel/proc/process.c:125-254 | a tick lowers the rank of a waiting process by 1, killing one ahead by 20; creations, kills behind it and calls of others leave it, and the running process, alone |
| `SchedRuns.WaitingRank` | kernel/proc/process.c:372-397 | while a process waits, its rank has fallen by exactly one per tick and 20 per process killed ahead of it |
| `SchedRuns.WaitingRankExact` | kernel/proc/process.c:372-397 | by just one per tick if nobody was killed |
| `SchedRuns.BoundedWaiting` | kernel/proc/process.c:372-403 | a waiting process that is not killed runs within as many ticks as are left of the quantum plus 20 for each process ahead of it |
| `Pids.StepPids` | kernel/proc/process.c:142 | an operation hands out at most the next identifier, modulo 2^32; only a new process gets it, the others keep theirs |
| `Pids.SamePidExactly` | kernel/proc/process.c:142 | over every run, two processes alive have the same identifier if and only if a multiple of 2^32 was handed out from the creation of the one up to that of the other |
| `Pids.PidsDiffer` | kernel/proc/process.c:67-142 | over every run that starts without processes and hands out fewer than 2^32 identifiers, no two processes have the same |
| `PagingRuns.StepFresh` | kernel/mm/paging.c:36-182 | the tables one call of the paging code makes lie in frames that were free |
| `MemoryRuns.KernelFresh` | kernel/proc/process.c:125-254 | the frames by which a kernel step -- kmalloc, kfree, creation, removal -- extends a heap that grows in place were free |
| `MemoryRuns.RunKeeps` | kernel/mm/pmm.c:144-172 | over every run of paging calls, ticks, creations, removals, heap calls that grow in place, and page allocations and frees of others: each client stays in order, and all their frames are in use |
| `MemoryRuns.NoFrameTwice` | kernel/mm/pmm.c:144-172 | in every such run no frame is at once page table, heap memory or somebody else's |
| `MemoryRuns.StacksNoTables` | kernel/proc/process.c:158-177 | no byte of a process's kernel stack ever lies in a page table or in somebody else's frame |
| `RoundRobin.PreemptTurns` | kernel/proc/process.c:372-403 | a tick turns the wheel formed by the running process, the queue and the quantum |
| `RoundRobin.PreemptCounts` | kernel/proc/process.c:373-374 | the tick is counted for the running process only |
| `RoundRobin.Revolution` | kernel/proc/process.c:377-397 | 20 N turns bring the wheel back to where it was and give each process 20 of them |
| `RoundRobin.RoundRobinExact` | kernel/proc/process.c:372-403 | any 20 N ticks with N processes restore current process, queue and quantum and add exactly 20 to each 32-bit tick counter |
| `Interrupts.LoadStored` | kernel/arch/x86_64/isr.asm:138-196 | pop order matches push order: the frame stored is the program loaded |
| `Interrupts.LoadStoredReturn` | kernel/arch/x86_64/isr.asm:30-36 | behind the fifteen registers a frame holds, from its byte 120 on, vector, error code, RIP, CS, RFLAGS, RSP and SS |
| `Interrupts.StoreFrameFrame` | kernel/arch/x86_64/isr.asm:138-154 | saving writes the 176 bytes of the frame and nothing else |
| `Interrupts.Cpu.SaveRegisters` | kernel/arch/x86_64/isr.asm:30-154 | error code, vector and fifteen pushes form the frame below what the processor pushed |
| `Interrupts.Cpu.RestoreAndReturn` | kernel/arch/x86_64/isr.asm:174-196 | fifteen pops, the two words dropped and iretq load exactly the program the frame describes |
| `Interrupts.Cpu.TimerEntry` | kernel/arch/x86_64/isr.asm:30-166 | from the interrupted instruction to the handler call: memory holds the frame of the interrupted program, with vector 32, and rdi points to it |
| `Interrupts.Cpu.BuildInitialFrame` | kernel/proc/process.c:182-208 | the words written for a new process are the frame of a program at its entry point, with zero registers and its stack pointer at the stack top |
| `Multiplex.AllSaved` | kernel/arch/x86_64/isr.asm:138-167 | while the handler runs, memory holds the frame of every process on its own stack, the interrupted one's included |
| `Multiplex.TickInvisible` | kernel/arch/x86_64/isr.asm:138-196 | a timer interrupt, with or without a switch, changes no process's registers, RIP, CS, RFLAGS, RSP or SS |
| `Multiplex.ExecuteOwn` | kernel/proc/process.c:372-403 | a program that leaves other stacks alone changes its own virtual processor only |
| `Multiplex.SpawnEffect` | kernel/proc/process.c:125-231 | a successful creation adds one virtual processor in its initial state, a failed one none |
| `Multiplex.RemoveOne` | kernel/proc/process.c:236-254 | a removal removes one virtual processor |
| `Multiplex.BootFirst` | kernel/arch/x86_64/context_switch.asm:69-95 | the first dispatch loads rip, rsp and rbp of the head of the queue, sets bit 9 of the flags, and touches no other process |
| `Multiplex.OnlyInterruptFlag` | kernel/arch/x86_64/context_switch.asm:91 | enabling interrupts sets bit 9 of the flags and leaves the others |
| `FirstRun.FirstRunFresh` | kernel/proc/process.c:125-231 | over every run of the machine: a process added by a creation and picked by the first dispatch, not removed in between, starts at the entry point of that creation, with rsp = stack + 8016, rbp = stack + 8192 and interrupts on, where stack is its kernel stack of 8192 bytes |
| `Multiplex.ServeUnnoticed` | kernel/mm/kheap.c:142-221 | a kmalloc, a kfree or a use of frames by anybody is a step of no virtual processor |
| `Multiplex.StepRefines` | kernel/arch/x86_64/isr.asm:138-196 | every step of the machine, calls of the memory managers included, is a step of at most one of N independent virtual processors, and keeps the machine in order |
| `Multiplex.StartInOrder` | kernel/proc/process.c:62-69 | the initial scheduler on any heap in order starts a run |
| `Multiplex.RunKeepsMachine` | kernel/proc/process.c:125-436 | over every run each waiting process's frame lies aligned on its own stack, and the running one has room for an interrupt |
| `Multiplex.StepOfKernel` | kernel/proc/process.c:125-462 | every step of the machine is a step of the kernel's runs, or does not touch the kernel: what those runs keep, machine runs keep |
| `Multiplex.ContextKept` | kernel/arch/x86_64/isr.asm:138-196 | over any stretch of a run in which a process neither runs, is removed nor first dispatched, its virtual processor is unchanged |
| `Multiplex.ResumesExactly` | kernel/arch/x86_64/isr.asm:138-196 | a preempted process resumes with exactly the context it was interrupted with |
| `Multiplex.StartsFresh` | kernel/proc/process.c:182-214 | a process first run by the timer starts at its entry point with zero registers, CS 0x08, RFLAGS 0x202, SS 0x10 and its stack pointer at the top of its 8192 bytes of stack |
| `Multiplex.StepKeepsStack` | kernel/arch/x86_64/isr.asm:138-196 | no step of another processor touches the part of a process's stack that is in use |
| `Multiplex.ResumesWithStack` | kernel/arch/x86_64/isr.asm:138-196 | over any stretch in which a process neither runs, is removed nor first dispatched, its context, its stack's place and everything at and above its stack pointer stay as it left them |
| `Process.Scheduler.constructor` | kernel/proc/process.c:62-69 | no processes, next identifier 1 |
| `Process.Scheduler.QueueEnqueue` | kernel/proc/process.c:78-95 | the linked queue grows by the process at its end; null changes nothing |
| `Process.Scheduler.QueueDequeue` | kernel/proc/process.c:100-119 | the head is taken off, or null if the queue is empty |
| `Process.Scheduler.Unlink` | kernel/proc/process.c:242-246 | the process is taken out wherever it stands; head and tail follow |
| `Process.Scheduler.PreemptHandler` | kernel/proc/process.c:320-407 | linked control blocks refine one timer tick: new scheduler state and stack pointer returned |
| `Process.Scheduler.PickNext` | kernel/proc/process.c:267-296 | refines the cooperative choice, null included |
| `Process.Scheduler.ContextSwitch` | kernel/arch/x86_64/context_switch.asm:69-95 | the register loads, the pushed return address and ret leave the processor in the dispatched process |
| `Process.Scheduler.SchedulerStart` | kernel/proc/process.c:412-436 | is the first dispatch of the machine, or nothing without processes |
| `Process.Scheduler.DoSchedule` | kernel/proc/process.c:441-462 | leaves a running process and its processor exactly as they are; without one it is a first dispatch |
| `Process.Scheduler.TimerStub` | kernel/arch/x86_64/isr.asm:138-196 | stub and handler together are the timer step of the machine |
| `Process.Scheduler.TimerInterrupt` | kernel/arch/x86_64/isr.asm:138-196 | the timer step keeps the machine's invariant and all virtual processors |
| `Process.Scheduler.AllocateStacks` | kernel/proc/process.c:158-174 | both stacks, or everything obtained given back |
| `Process.Scheduler.PrepareStack` | kernel/proc/process.c:176-214 | the control block gets the stacks, rip = entry, rsp = stack + 8016, rbp = stack + 8192, rflags 0x202; the frame at rsp loads as zero registers, entry, CS 0x08, RFLAGS 0x202, RSP = stack + 8192, SS 0x10 |
| `Process.Scheduler.ProcessCreate` | kernel/proc/process.c:125-231 | is the creation of the machine on heap, scheduler and memory together; a new control block starts out as `KernelLaws.Initial` says, and the invariant is kept |
| `Process.Scheduler.ProcessKill` | kernel/proc/process.c:236-254 | refines removal on scheduler and heap together, and keeps the invariant |
| `KeyRing.AddMeaning` | drivers/keyboard.c:67-73 | a character is dropped if and only if 255 are waiting, and is queued last otherwise |
| `KeyRing.AdvanceMeaning` | drivers/keyboard.c:147-149 | reading removes the oldest character and no other |
| `KeyRing.ConsumeKeeps` | drivers/keyboard.c:136-151 | each single access of the consumer keeps accepted = delivered + waiting |
| `KeyRing.ProduceKeeps` | drivers/keyboard.c:67-73 | so does an interrupt between any two of them, and input once there stays |
| `KeyRing.DeliveredInOrder` | drivers/keyboard.c:67-151 | in every interleaving the delivered characters are a prefix of the accepted ones and at most 255 wait |
| `KeyRing.OnlyFullDrops` | drivers/keyboard.c:67-73 | accepted is exactly what was typed while fewer than 255 characters were waiting |
| `KeyRing.KeptInOrder` | drivers/keyboard.c:67-73 | that is a subsequence of what was typed: nothing is reordered or repeated |
| `KeyRing.SeenStays` | drivers/keyboard.c:136-151 | from the test to the read, whatever is typed, the oldest character stays the same |
| `KeyRing.ConsumerProgress` | drivers/keyboard.c:141-151 | six accesses deliver the oldest character, with any interrupts between them |
| `Keyboard.Keyboard.BufferAdd` | drivers/keyboard.c:67-73 | the array refines the ring |
| `Keyboard.Keyboard.Handler` | drivers/keyboard.c:89-133 | modifier keys update their flags; other presses add their character if they have one |
| `Keyboard.Keyboard.HasInput` | drivers/keyboard.c:136-138 | answers whether characters wait |
| `Keyboard.Keyboard.TakeChar` | drivers/keyboard.c:146-150 | returns the oldest character and leaves the rest |
| `Keyboard.LastShiftDecides` | drivers/keyboard.c:92-111 | the last event of either shift key decides the flag |
| `Keyboard.ShiftSelects` | drivers/keyboard.c:89-132 | after any scancodes with an event of a shift key (0x2A, 0x36, with 0x80 on release), a press types the character of the shifted map if the last such event was a press, else that of the plain map; releases and the four modifier keys type nothing |
| `Keyboard.LastOfKeyDecides` | drivers/keyboard.c:92-111 | the last events of 0x1D and 0x38 decide the other two flags |
| `Keyboard.ShiftToldExactly` | drivers/keyboard.c:92-111 | the flag says whether a shift key is held, if and only if the last shift event is a press or the other shift key is not held |
| `Keyboard.NoShiftEvent` | drivers/keyboard.c:92-111 | without a shift event none is held, and the flag is as it was |
| `Keyboard.ReleasedWhileHeld` | drivers/keyboard.c:92-111 | left down, right down, right up: the flag is off, the left key held |
| `Multiboot.Parser.Parse` | kernel/boot/multiboot2.c:32-128 | visits exactly the tags of the walk, shows exactly the entries of every memory map among them, and keeps the last tag of each kind; a wrong magic number changes nothing |
| `Multiboot.Padded` | kernel/boot/multiboot2.c:47 | for sizes up to 2^32 - 8 the next multiple of 8, less than 8 above; for greater ones 0 |
| `Multiboot.LittleEndian` | kernel/boot/multiboot2.c:77-106 | the numbers read are the bytes weighted 1, 256, 65536, ... |
| `Multiboot.WalkEntries` | kernel/boot/multiboot2.c:82-84 | the entry loop yields the entries of the tag, in order |
| `Multiboot.Parser.MemoryMap` | kernel/mm/pmm.c:55-74 | the entries of the tag found, or none without a tag |
| `MultibootLaws.TagsStand` | kernel/boot/multiboot2.c:45-47 | every tag of a list encoded with any filler up to multiples of 8 is read back at the place it was put |
| `MultibootLaws.WalkRoundTrip` | kernel/boot/multiboot2.c:44-47 | over the encoding of any well-formed tag list, each tag filled up to the next multiple of 8 with any bytes, the walk ends and visits exactly its tags, in order |
| `MultibootLaws.LastOfKindIsLast` | kernel/boot/multiboot2.c:77-78 | the tag kept is the last of its kind |
| `MultibootLaws.MapRoundTrip` | kernel/boot/multiboot2.c:82-84 | the entry walk over an encoded map yields exactly its entries, for any entry size of at least 24 |
| `MultibootLaws.ParseTags` | kernel/boot/multiboot2.c:32-128 | with magic number 0x36d76289, parsing an encoded information keeps the addresses of the last tags of kinds 6, 4 and 2, or 0 for a kind that is not there |
| `MultibootLaws.ParseAndRead` | kernel/boot/multiboot2.c:32-128 | parsing and reading give back the entries of the last encoded tag of kind 6, or none |
| `MultibootLaws.BootFrames` | kernel/mm/pmm.c:52-122 | from the boot loader's bytes to the allocator: free are exactly the frames that the pages of an entry of kind 1 reach, and that end at or below 1 MB or start at or behind kernel and bitmap in whole pages |
| `Vga.LastLines` | drivers/vga.c:51-84 | the screen starts 24 lines above the cursor's line, or at the first line while the text is shorter; the cursor is where the text ends |
| `Vga.ShowsStretch` | drivers/vga.c:34-58 | cell i of the 2000, row after row, is that of the text 80 top + i on, or a white blank behind its end |
| `Vga.ScrolledShows` | drivers/vga.c:34-48 | moving rows up and blanking the last shows the text one line further down |
| `Vga.PlainText` | drivers/vga.c:73-83 | characters other than 9 and 10 fill consecutive cells, wrapping; a cell is the character plus 256 times the colour modulo 16, or 0xFF00 plus the character from 128 on |
| `Vga.PrintAppends` | drivers/vga.c:87-91 | printing only appends to the text |
| `Vga.TabStops` | drivers/vga.c:61-63 | tab stops of the line are tab stops of the text, and the next one is at most the line's end |
| `Vga.Screen.Clear` | drivers/vga.c:22-31 | all cells blank, cursor at the origin, text empty |
| `Vga.Screen.Scroll` | drivers/vga.c:34-48 | the in-place copy shows the same text from the next line on |
| `Vga.Screen.Putchar` | drivers/vga.c:51-84 | the screen keeps showing the last 25 lines of the text, extended by the character's cell, by blanks to the next multiple of 80 for a newline, or of 4 for a tabulator; all writes are in bounds |
| `Vga.Screen.Print` | drivers/vga.c:87-91 | the same for a string up to its terminating zero |

## Left out

Hardware and output:

- Port input and output, interrupt acknowledgement, `hlt`, gate and timer setup, CR3 and TLB effects: a directory switch is a change of the current root.
- Console messages inside the memory managers and the scheduler, the statistics prints (with `memory_size`) and the per-200-tick summary of `preempt_handler`: output only.
- Boot assembly, scancode tables (a parameter of `Keyboard`), colours, process names, `vga_print_hex`, `vga_print_int`.
- `vga_set_cursor`: after it the screen is no longer the end of a text.

Scope of the claims:

- Paging.Paging.MapPage: requires, as Paging.Paging.UnmapPage and Paging.Paging.GetPhysical do, that no large page lies on the way to the address; `PagingLaws.BootMapRefused` and `PagingLaws.BootUnmapStrays` show the boot code's own large page; what memory that is no table holds is not modelled.
- Contents of page frames other than tables are not modelled. The `level` of a table is bookkeeping of the model; the code has only the words.
- Page-table entries and virtual addresses are unbounded naturals; or-ing and masking them never carries, so their width does not show.
- Interrupts.Cpu.Push: stack memory is a map of aligned 8-byte words, and stack pointers are naturals that do not wrap below 0.
- Multiplex.ExecuteOwn: a running program may change any memory except other processes' kernel stacks, and is assumed to keep its stack pointer on its own kernel stack with 192 bytes to spare (`Multiplex.RoomFor`); the kernel's own data is a separate component of the machine, so a program that overwrites heap headers or control blocks is not modelled.
- Multiplex.SpawnEffect: creation, removal and the first dispatch are single steps; a timer interrupt in the middle of one, which the code does not prevent, is not modelled.
- A timer interrupt before the first dispatch, which returns to the interrupted kernel code, appears in `SchedSpec.Preempt` but is no event of `Multiplex`.
- In `SchedRuns` and `Multiplex` others free no block a process owns, and their calls, too, are single steps.
- Multiplex.BootFirst: registers the first process's control block never sets are arbitrary, as in the code.
- Cooperative switching through `context_switch_asm` once a process runs: it resumes with a stack pointer 8 too low, and by `SchedLaws.DoScheduleMeaning` it does not happen in runs ticked by `preempt_handler`.
- `scheduler_tick`, sleeping and waiting states: they have no callers in the runs considered; `scheduler_tick` could take the quantum below 0.
- Process.Scheduler.ProcessKill: requires that the process is not the current one, which is exactly when the kernel stays consistent (`KernelLaws.KillExactly`); freeing addresses that are no blocks is excluded by precondition.
- KHeap.KHeap.Kmalloc: requires that an expansion, if the request needs one, finds its first frame at or behind the heap's end; `KHeap.KHeap.AllocateBlock` does with less, and `HeapOverlap` shows what happens otherwise. KernelLaws.CreateMeaning and Process.Scheduler.ProcessCreate require the same of their three allocations.
- HeapTheorems.RunKeeps: that the owner of a frame which the heap covers without having drawn it does not write to it, nor the paging code clear it, is assumed there and in `SchedRuns`; while expansions continue the heap there are no such frames (`MemoryRuns.NoFrameTwice`).
- What other clients keep in frames that a non-contiguous expansion, or a merge across a gap, covers: that blocks do not touch it is claimed only while expansions continue the heap (`HeapTheorems.BytesInUsedFrames`, `MemoryRuns.NoFrameTwice`).
- Requests within two pages of 2^64, where the size computation wraps (`HeapLaws.AlignUpMeaning` gives the exact bound).
- `kmalloc_aligned`: returns the address of a plain `kmalloc`, so it promises no more alignment than that.
- Control blocks are records by address rather than bytes, and heap memory, stacks and page tables are separate components of the model: that blocks, and with them control blocks and stacks, share no byte with each other or with a header is `HeapTheorems.BlocksApart`, that they share no frame with page tables is `MemoryRuns.NoFrameTwice`.
- HeaderWords.CutWords: a header is four 8-byte words, the flag the lowest byte of the second; what becomes of headers that overlap at a distance that is no multiple of 8 is not modelled.
- Multiboot.Parser.Parse: requires, after the right magic number, that the tag walk, and the entry walk of each memory map, ends inside the information; a tag or entry size of 0 makes the code loop forever.
- The bitmap is its own array; that it does not overlap the boot information while that is read is assumed.
- Keyboard.Keyboard.TakeChar: the wait loop of `keyboard_getchar` is modelled as consumer steps in `KeyRing`; the method is the read after it.
