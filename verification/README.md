# RaeenOS cores, modelled and proved in Dafny

This project models the parts of RaeenOS whose correctness rests on state that
several functions share: the red-black tree, the buddy page allocator, the
four-level page tables, the block buffer cache, the fork/exit/wait protocol, the
FAT link cache, the thread scheduler, DNS names and answers, the run-length page
encoder and the text editor's load and save.

`dafny verify dfyconfig.toml` checks everything.

## How the files fit together

| files | component |
|---|---|
| `RbShape`, `RbSteps`, `RbTree` | `rbtree.c` on mutable nodes. A ghost tree says what the nodes spell out; a pair (context, subtree) says where in it a loop stands |
| `VmaLookup` | the tree search for a memory area, the list scan, and why they agree |
| `Dyadic`, `BuddySpec`, `Pmm` | dyadic blocks and the XOR buddy; what split and merge do to the free lists; the allocator that does it in place |
| `PageTable` | page tables as physical memory holds them, the walk, mapping, translation and shared address spaces |
| `BufferCache` | one set of buffer heads threaded at once through hash chains, an LRU list and a dirty list |
| `ForkWait` | the process table as a transition system, and the system calls that step it |
| `FatCache` | the cluster-link cache above several FAT copies |
| `Scheduler` | FIFO run queues by class and the dispatch from them |
| `DnsName`, `DnsMessage` | name encoding and decoding; responses and the address cache |
| `PageCompress`, `PageRestore` | run-length encoding of a page; exactly which pages a decoder restores |
| `TextFile` | lines of a text file |
| `Wrappers` | the option type |

Wherever the C code rewrites fields, buffers or list pointers in place the model
does so too: a class with those fields, and methods proved against functions of
the old state. The lemmas then say what those functions are for. Locks, interrupt
masking, statistics output and TLB flushes have no counterpart; clocks, allocation
outcomes and device errors are parameters.

The central invariants:

- `RbTree.Root.Shows` with `RbShape.Valid`: parent links, colours and black
  heights; the fix-up loops run on a tree that breaks the rule at one named place.
- `BuddySpec.Inv`: free blocks are aligned, inside the zone, pairwise disjoint,
  and no two buddies below the top order are both free. `Pmm.Pages.Valid` adds
  flags, counters and the blocks handed out.
- `PageTable.Shaped`: every table below the second level has one parent entry;
  second-level tables may be shared, but only at the same slot.
- `BufferCache.Cache.Valid`: the three lists, the flags, the stamps of the last
  get and the counters.
- `ForkWait.Inv`: pids, parents, and nobody waiting over a zombie child or
  without a live one.
- `FatCache.Inv`: equal FAT copies and a cache that agrees with the first.

## Where the code falls short of its purpose

- `pmm_expand` starts from a null page (`pmm_production.c:421`); the model starts
  from the block taken off its list at line 394. The seeding loop frees pages
  through a function that returns at once until `initialized` is set (lines 103,
  244, 447); the model frees each page through the inner function. The start page
  matters exactly when the block found is larger than asked for:
  `BuddySpec.ExpandMatters`.
- `pmm_free_pages` takes back whatever it is given (`pmm_production.c:446-472`).
  The lists stay sound if and only if the block is aligned, inside its zone and
  shares no page with a free block: `BuddySpec.FreeSound`, and on the allocator
  `Pmm.Pages.ReleasePages`. A block given back twice spoils them
  (`BuddySpec.DoubleFree`, `BuddySpec.DoubleFreeOnce`); half of a block that is out
  does not (`BuddySpec.HalfGivenBack`).
- The DMA32 zone is never given list heads (lines 171-201), so a search that
  reaches it reads null pointers. `Pmm.Pages.AllocPages` says when that happens,
  by its result `strayed`: exactly when a request that does not ask for DMA memory
  finds no run in zone Normal. `Pmm.FirstStray` is such a call, and on a machine of
  at most 16 MB every such request is (`Pmm.Pages.NothingNormal`). What the
  contract says of a call that strayed holds of lists set up empty.
- The kernel process is its own parent (pid 0, parent 0). When it waits with no
  other child it waits for itself for ever: `ForkWait.KernelWaitsForItself`. That
  is the only wait deadlock: `ForkWait.WaitsForSomebody`.
- The scheduler behind `sys_exit` and `sys_wait`
  (`build_exclude/process/process.c:203-246`) makes the outgoing process ready
  whatever it was, so a process that exits runs again and its parent waits on:
  `ForkWait.ExitUndone`. It is the intended switch exactly when the outgoing
  process is running or ready (`ForkWait.RawSwitchAgrees`); the invariant survives
  it all the same (`ForkWait.RawSwitchInv`).
- The same file marks free slots TERMINATED with parent pid 0 (lines 29-32) and
  takes only such slots for a new process (lines 53-54), while `process_cleanup`
  marks a reaped slot UNUSED. As written free slots count as children of pid 0 and
  a reaped slot is never used again; in the model every free slot is unused, is
  nobody's child and can be taken.
- `sys_exit` gives the children of the exiting process no other parent. A zombie is
  reaped in no run if and only if no live process has its parent pid:
  `ForkWait.NeverReaped`. `ForkWait.OrphanLost` is a run from boot that leaves one.
- `buffer_cache_invalidate_device` drops a referenced buffer from the lists but
  not from `cached_buffers` (`build_exclude/buffer_cache.c:573-579`), so that
  counter equals the list length exactly when no such buffer was ever dropped. Its
  holder may still mark it dirty, and then a buffer outside the cache is on the
  dirty list: `BufferCache.Cache.MarkDirty` says exactly when. Reading, writing,
  marking, putting and syncing are stated from there on as well; the full invariant
  is back exactly when only cached buffers are dirty, as after writing that one.
- `fat32_set_next_cluster` caches the link unmasked and stores it masked. A write
  that fails after the first copy leaves the copies different and the cache old.
  `FatCache.SetKeeps` says exactly when each half of the invariant survives, and
  `FatCache.SetFails` gives an input for each failure.
- It overwrites the four reserved bits on disk
  (`build_exclude/fat32_production.c:562`), where section "FAT Data Structure" of
  the FAT32 File System Specification 1.03 asks to keep them:
  `FatCache.ReservedBits` says exactly when they survive, `FatCache.ReservedBitLost`
  is an entry that loses one.
- A mapping of more than 2^36 pages wraps around the 48-bit space and overwrites
  its own start: `PageTable.FirstFrameKept`.
- A running idle thread is put back on its queue like any other, so it does not
  give way to every thread that is ready, but exactly when one of its level or a
  higher one is: `Scheduler.IdleGivesWay`. `Scheduler.BatchStarves` is a view in
  which a batch thread never runs.
- A hostname with an empty label does not survive encoding: `DnsName.NameRoundTrip`
  is an equivalence.
- A full DNS cache in which nothing has expired still grows:
  `DnsMessage.SizeKept` is an equivalence.
- A page with an isolated byte 0xFF can be kept although it cannot be restored:
  `PageRestore.LoneMarkerLost`. `PageRestore.KeptPageRestores` is the exact
  condition.
- A text whose last line is empty loses that line between save and load:
  `TextFile.LoadOfSave` is an equivalence.

## Model

| member | source | states |
|---|---|---|
| RbSteps.Rotated | rbtree.c:55-96 | rotating either way keeps the in-order sequence, the set of nodes and their distinctness |
| RbTree.Root.RotateLeft | rbtree.c:55-73 | on the nodes: every link and parent pointer ends up spelling the rotated tree, whatever surrounds it |
| RbTree.Root.RotateRight | rbtree.c:78-96 | the mirrored rotation, likewise |
| RbTree.Root.LinkNode | rbtree.c:42-50 | the new node is a red leaf at an empty place of the in-order sequence and nothing else moves |
| RbTree.Root.InsertColor | rbtree.c:101-157 | from a tree with at most one red-red edge, at the new leaf, the loop ends in a valid red-black tree with the same in-order sequence |
| RbTree.Root.Insert | rbtree.c:42-157 | linking beside a parent and repairing keeps validity and puts the node exactly before or after that parent |
| RbSteps.InsertRecolor | rbtree.c:107-116 | under a red uncle recolouring moves the violation two levels up and repairs all below |
| RbSteps.EraseStart | rbtree.c:166-176 | where one side is a black short the sibling exists, and a red sibling has two black children |
| RbSteps.EraseClimb | rbtree.c:175-179 | a black sibling with black children turned red moves the shortage one level up |
| RbSteps.EraseOuter | rbtree.c:187-192 | a red far nephew ends the shortage everywhere |
| RbTree.Root.EraseColor | rbtree.c:162-225 | from a tree one black short at a single place, the loop terminates in a valid red-black tree with the same in-order sequence |
| RbTree.Root.Erase | rbtree.c:230-292 | erasing any node of any valid tree gives a valid tree whose in-order sequence is the old one without exactly that node |
| RbTree.Root.ReplaceNode | rbtree.c:297-317 | the new node stands where the victim stood; the rest of the tree is the same tree |
| RbTree.Root.First | rbtree.c:322-331 | the first node in order, or null exactly for the empty tree |
| RbTree.Root.Last | rbtree.c:336-345 | the last node in order |
| RbTree.Root.Next | rbtree.c:350-375 | the in-order successor, null at the end, with or without a right subtree |
| RbTree.Root.Prev | rbtree.c:380-401 | the in-order predecessor, null at the start |
| VmaLookup.BlackHeightBounds | rbtree.c:101-292 | black height h takes at least 2^h - 1 nodes and bounds the height by 2h, or 2h + 1 under a red root |
| VmaLookup.HeightBound | rbtree.c:101-292 | every valid tree of n nodes has height at most 2 log2(n + 1) |
| VmaLookup.FindVma | vmm_production.c:323-345 | over disjoint areas in order the descent finds an area holding the address, or none does, within the height of the tree |
| VmaLookup.ScanVma | vmm_production_impl.c:314-328 | the list scan returns the first area holding the address |
| VmaLookup.FindAgrees | vmm_production.c:323-345 | tree search and list scan return the same area for every address, the search within 2 log2(n + 1) steps |
| VmaLookup.OnlyOne | vmm_production.c:323-345 | disjointness leaves at most one area per address |
| Dyadic.XorFlips | pmm_production.c:487 | xor with 2^order is the other half of the enclosing block |
| Dyadic.AndLowers | pmm_production.c:507 | and of the two buddies is the lower one |
| Dyadic.BlockIsInterval | pmm_production.c:477-521 | two pages agree above bit o exactly when they lie in the same aligned block of 2^o pages |
| BuddySpec.FreeKeeps | pmm_production.c:477-521 | merging keeps free blocks aligned, disjoint, in the zone and without buddy pairs, and frees exactly the pages of the block |
| BuddySpec.FreeSound | pmm_production.c:477-521 | giving back any page at any order keeps the lists sound if and only if the block is aligned, in the zone and shares no page with a free block |
| BuddySpec.DoubleFree | pmm_production.c:477-521 | on any sound lists, what was allocated and given back spoils them when given back again |
| BuddySpec.DoubleFreeOnce | pmm_production.c:477-521 | so on a zone of two pages |
| BuddySpec.HalfGivenBack | pmm_production.c:477-521 | half of a block that is out may be given back by itself; exactly its pages become free |
| BuddySpec.ExpandMatters | pmm_production.c:404-441 | the lists after an allocation depend on the page the split starts from if and only if the block found is larger than asked for |
| BuddySpec.AllocKeeps | pmm_production.c:378-441 | splitting keeps the same, and takes out exactly the aligned block it returns |
| BuddySpec.FullIsOneBlock | pmm_production.c:477-521 | an aligned run of free pages lies inside a single free block |
| BuddySpec.AllocComplete | pmm_production.c:378-413 | allocation fails for an order if and only if no aligned run of that many pages is free |
| BuddySpec.Canonical | pmm_production.c:477-521 | the set of free pages determines every free list up to order |
| BuddySpec.FreeUndoesAlloc | pmm_production.c:378-521 | giving back what was just allocated restores every list as a sequence |
| BuddySpec.FreeConserves | pmm_production.c:477-521 | freeing an order adds exactly its pages to the count over all lists |
| BuddySpec.AllocConserves | pmm_production.c:378-413 | allocating takes exactly that many away |
| BuddySpec.RunSafe | pmm_production.c:378-521 | over any run of allocations and frees live and free blocks stay disjoint, their pages add up to the same total and no page is lost or invented |
| BuddySpec.RunRestores | pmm_production.c:477-521 | when a run has given everything back the free blocks are those of the start, in whatever order it happened |
| Pmm.SameZone | pmm_production.c:175-191 | below order 12 a buddy never lies across the 16 MB border |
| Pmm.Pages.Unlink | pmm_production.c:500-504 | taking a block off a list keeps flags, orders and counters in step with the lists |
| Pmm.Pages.Expand | pmm_production.c:418-441 | the split loop pushes the upper half at every order down to the requested one |
| Pmm.Pages.AllocFrom | pmm_production.c:378-413 | one zone: the block, the lists and the failure are those of the specification |
| Pmm.Pages.FreeInto | pmm_production.c:477-521 | the merge loop on flags and arrays computes the specified lists for any page and order, and the allocator stays sound if and only if the zone may take the block back |
| Pmm.Pages.BuddyFlagged | pmm_production.c:489-498 | PG_buddy and the order field say exactly whether the buddy is on the list of this order |
| Pmm.Pages.NoRun | pmm_production.c:385-413 | a zone refuses exactly when it holds no aligned run of free pages of this order |
| Pmm.Pages.AllocPages | pmm_production.c:315-373 | the search reads the lists of zone DMA32, which nothing sets up, if and only if DMA is not asked for and zone Normal holds no run; with those lists empty it returns null if and only if not initialised, order too large or no zone holds a run, and otherwise the page lies below 16 MB exactly when DMA was asked for and that zone has a run, or was not and zone Normal has none; it carries its order, the block was free and is not any more, and all else is unchanged |
| Pmm.Pages.NothingNormal | pmm_production.c:187-201 | with at most 16 MB of memory zone Normal never holds a run |
| Pmm.FirstStray | pmm_production.c:333-345 | a machine on which the first request for a page reads the lists of zone DMA32 |
| Pmm.Pages.ReleasePages | pmm_production.c:446-472 | bad addresses and orders change nothing; any other call merges the block into its zone, which keeps the allocator sound if and only if it is aligned, in the zone and shares no free page; for a live block it does, exactly its pages become free and exactly that block stops being live |
| Pmm.Pages.AllocThenRelease | pmm_production.c:315-521 | allocating succeeds exactly when a zone holds a run, and freeing at once leaves every list of every zone as it was |
| Pmm.Pages.Init | pmm_production.c:203-247 | after seeding the free pages are exactly those offered, past the first megabyte, inside memory and outside the page array |
| PageTable.PageIsIndices | vmm_production_impl.c:240-309 | the four indices are the digits of the page number |
| PageTable.NoAlias | vmm_production_impl.c:240-309 | two walks that reach the same last table agree in every upper index and share the second-level table |
| PageTable.GraftKeeps | vmm_production_impl.c:255-305 | hanging a cleared table under an empty entry changes no translation of any root |
| PageTable.SetEntry | vmm_production_impl.c:222 | writing one entry changes exactly the addresses of its page, under exactly the roots that share the slot |
| PageTable.Vmm.Walk | vmm_production_impl.c:240-309 | a walk that may not create changes nothing; one that may adds only fresh cleared tables; null only when a level is missing and, where it may create, memory is out |
| PageTable.Vmm.MapPage | vmm_production_impl.c:197-235 | every entry under every root is the old one or, in the mapped part of the range, the new one; success covers the size rounded up to whole pages, or nothing when that wraps at 2^64; a failure leaves a mapped prefix and no memory; statistics count the pages |
| PageTable.EntryMeans | vmm_production_impl.c:240-309 | the entry of an address level by level, in numbers: nine address bits select each entry, bit 0 says whether it is there, its upper bits are the next table |
| PageTable.TranslateMeans | vmm_production_impl.c:333-340 | an absent entry translates to 0, any other to its frame and the offset in the page |
| PageTable.AlignUp | vmm_production_impl.c:206 | the least multiple of 4096 that is not below the size, or 0 when that is 2^64 |
| PageTable.RangePlain | vmm_production_impl.c:197-235 | in page numbers: below 2^48 page x + d of the range has frame y + d with these flags and translates there, and every other address as before |
| PageTable.RangeTranslates | vmm_production_impl.c:197-235 | after mapping aligned frames with PRESENT, addresses in the range translate to frame plus offset and every other address as before |
| PageTable.FirstFrameKept | vmm_production_impl.c:210-223 | each page keeps the frame first written for it if and only if the range is at most 2^36 pages |
| PageTable.Vmm.VirtToPhys | vmm_production_impl.c:333-340 | translation as the hardware would do it: frame and offset, or 0 when bit 0 of the entry is clear, changing nothing |
| PageTable.Vmm.CreatePageTables | vmm_production_impl.c:101-114 | a fresh cleared top table, or no change when memory is out |
| PageTable.CopyRoot | vmm_production_impl.c:156-158 | a copied top table translates everything like the original and shares exactly its non-empty slots |
| PageTable.Vmm.CreateAddressSpace | vmm_production_impl.c:141-192 | a new space translates every address as the kernel does then, and no other space notices |
| PageTable.SharersAgree | vmm_production_impl.c:156-158 | two spaces that share a slot translate its addresses alike |
| PageTable.OthersKeep | vmm_production_impl.c:197-309 | a mapping leaves every address of a slot that is not shared unchanged in every other space |
| PageTable.Vmm.Run | vmm_production_impl.c:141-309 | over any mixed run of mappings in kernel and child the slots shared at creation stay the shared ones and stay in agreement, and every entry on either side is what its own calls, or all calls in a shared slot, laid there last; each call mapped all of its range unless memory ran out |
| PageTable.PrivateRun | vmm_production_impl.c:141-309 | in a slot that is not shared the outcome of a mixed run on one side is that of its own calls alone |
| PageTable.Untouched | vmm_production_impl.c:141-309 | a side that maps nothing keeps every entry of its own slots through any run of the other |
| BufferCache.PushLinked | build_exclude/buffer_cache.c:206-221 | pushing a head in front keeps a doubly linked list of exactly the old heads behind it |
| BufferCache.Cache.LruAdd | build_exclude/buffer_cache.c:206-221 | the head is first on the LRU list; the other two lists and all data are untouched |
| BufferCache.Cache.LruRemove | build_exclude/buffer_cache.c:226-244 | exactly this head leaves the LRU list, from any position |
| BufferCache.Cache.DirtyAdd | build_exclude/buffer_cache.c:259-284 | the head is dirty and first on the dirty list unless it was dirty already; the counter follows |
| BufferCache.Cache.DirtyRemove | build_exclude/buffer_cache.c:289-317 | the head is clean and off the dirty list; the counter follows |
| BufferCache.Cache.HashRemove | build_exclude/buffer_cache.c:650-659 | exactly this head leaves its chain, from any position |
| BufferCache.UnhookWhole | build_exclude/buffer_cache.c:638-677 | taking a head off chain and LRU list keeps bucket placement, unique keys, flags and recency order |
| BufferCache.InsertWhole | build_exclude/buffer_cache.c:365-384 | so does adding a new head with a new key in front of both |
| BufferCache.TouchWhole | build_exclude/buffer_cache.c:249-254 | so does moving a head to the front, which makes it the latest |
| BufferCache.Cache.Find | build_exclude/buffer_cache.c:327-341 | the chain search finds the head of the key, and misses only when no cached head has it |
| BufferCache.Cache.Get | build_exclude/buffer_cache.c:322-387 | a cached block comes back first in the LRU order with one more reference; an uncached one gets a fresh head there, after evicting when memory is short; null exactly when memory stays short; the invariant holds throughout |
| BufferCache.Cache.Put | build_exclude/buffer_cache.c:392-403 | one reference less and nothing else, invariant kept, also for a buffer dropped from the cache and while such a buffer is dirty |
| BufferCache.Cache.Read | build_exclude/buffer_cache.c:408-451 | a locked stale buffer is refused; otherwise the buffer is up to date and marked clean, on whatever list it was; the device is read exactly when it was not both already |
| BufferCache.Cache.Write | build_exclude/buffer_cache.c:456-496 | a locked buffer is refused; otherwise it is clean and exactly it has left the dirty list; the full invariant holds afterwards if and only if only cached buffers are dirty |
| BufferCache.Cache.MarkDirty | build_exclude/buffer_cache.c:501-510 | a clean buffer becomes dirty and first on the dirty list, a dirty one is untouched; the invariant is kept if and only if the buffer was dirty already or is still cached, and holds again if and only if only cached buffers are dirty |
| BufferCache.Cache.SyncDevice | build_exclude/buffer_cache.c:515-533 | exactly the unlocked dirty buffers of the device leave the dirty list, in the order of the rest, and their number is returned, also while a dropped buffer is dirty; those are clean afterwards and the fields of every other buffer are as they were |
| BufferCache.SyncAllEmpties | build_exclude/buffer_cache.c:538-540 | with nothing locked, syncing all devices leaves no dirty buffer |
| BufferCache.Cache.EvictLru | build_exclude/buffer_cache.c:638-677 | what is left on the LRU list is what removing unreferenced clean buffers from the tail leaves; the count is exact |
| BufferCache.SurvivorsMean | build_exclude/buffer_cache.c:638-677 | that many go or every evictable one does; from some position on nothing evictable is left and before it nothing went |
| BufferCache.Cache.InvalidateDevice | build_exclude/buffer_cache.c:545-589 | exactly the buffers of the device leave all three lists, the rest keeps its order, and the referenced ones among them are those still counted; each of these is invalid, stale, clean and unlocked, and the fields of all other buffers are as they were |
| BufferCache.Cache.ReadDropped | build_exclude/buffer_cache.c:408-589 | who reads a buffer after its device was invalidated gets it from the device, whatever it held |
| ForkWait.StepInv | build_exclude/syscall_impl.c:68-167 | every exit, wait, fork and switch keeps pids unique, children younger than parents, records true, and nobody waiting over a zombie child or without a live one |
| ForkWait.DescendantRuns | build_exclude/syscall_impl.c:94-124 | from a waiting process a line of live children leads to one that can run, except from the kernel alone |
| ForkWait.WaitsForSomebody | build_exclude/syscall_impl.c:94-124 | in every reachable state a waiting process has such a line if and only if it is not the kernel waiting alone |
| ForkWait.AloneForever | build_exclude/syscall_impl.c:94-124 | the kernel waiting alone is never woken, whatever the others do |
| ForkWait.KernelWaitsForItself | build_exclude/syscall_impl.c:94-124 | that state is reached from boot by one wait |
| ForkWait.ReapedOnce | build_exclude/syscall_impl.c:68-124 | over any run from boot every exit is returned at most once, with the code given to exit, and only to the process that forked it |
| ForkWait.BereftForever | build_exclude/syscall_impl.c:68-124 | a zombie without a live parent keeps its slot and its code in every run |
| ForkWait.Reapable | build_exclude/syscall_impl.c:94-124 | while a zombie has a live parent some run reaps it |
| ForkWait.NeverReaped | build_exclude/syscall_impl.c:68-124 | no run reaps a zombie if and only if no live process has its parent pid |
| ForkWait.OrphanLost | build_exclude/syscall_impl.c:68-124 | a run from boot after which an exit code is handed to nobody, ever |
| ForkWait.RawSwitchAgrees | build_exclude/process/process.c:229-233 | the switch as written is the intended one if and only if the outgoing process is running or ready |
| ForkWait.RawSwitchInv | build_exclude/process/process.c:229-233 | even so it keeps pids unique, records true and nobody waiting over a zombie child |
| ForkWait.ExitUndone | build_exclude/process/process.c:229-233 | a run in which an exited process is made ready again, its parent's wait blocks and it runs on, where the intended switch hands its code over |
| ForkWait.ProcessTable.SysExit | build_exclude/syscall_impl.c:68-92 | the method on the table takes the exit step and keeps the invariant |
| ForkWait.ExitMeans | build_exclude/syscall_impl.c:68-92 | for every slot: the kernel's exit changes nothing; otherwise the caller's becomes a zombie with the code, a waiting parent becomes ready and no other slot changes |
| ForkWait.ProcessTable.SysWait | build_exclude/syscall_impl.c:94-124 | one pass over the table: returns pid and code of the first zombie child, refuses without children, otherwise blocks |
| ForkWait.WaitMeans | build_exclude/syscall_impl.c:94-124 | if a zombie child exists exactly one such slot is freed and its true exit code recorded as returned; else if a live child exists the caller waits; else nothing changes |
| ForkWait.ProcessTable.SysFork | build_exclude/syscall_impl.c:126-167 | succeeds exactly when slot and allocations are there; the pid returned is that of the child in the one slot filled, above every other |
| ForkWait.ProcessTable.ForkExitWait | build_exclude/syscall_impl.c:68-167 | what fork returned is what wait returns when that child exits, with its code |
| ForkWait.ForkMeans | build_exclude/syscall_impl.c:126-167 | success fills one unused slot with a ready child of the caller with its open files; failure, also after the slot was taken, leaves every process as it was |
| FatCache.WriteEntry | build_exclude/fat32_production.c:555-572 | writing the edited sector to the first n copies, whatever they held, gives them the new entry and around it in the sector what copy 0 had, and changes nothing else |
| FatCache.WriteHeals | build_exclude/fat32_production.c:564-573 | copies of any content are equal after n > 0 writes if and only if they agreed outside the sector and the copies not reached hold it already |
| FatCache.WriteCopies | build_exclude/fat32_production.c:555-572 | equal copies are equal afterwards if and only if none or all were written or the entry was that already |
| FatCache.SetLookup | build_exclude/fat32_production.c:584-629 | caching a link changes the lookup of its cluster only and keeps chains and LRU list in step |
| FatCache.GetReads | build_exclude/fat32_production.c:485-534 | a get returns the 28-bit entry of the disk, hit or miss, and end of chain only for a bad cluster or a failed read |
| FatCache.GetMeans | build_exclude/fat32_production.c:485-534 | in numbers: a cluster from 2 to two past the count reads the low 28 bits of its entry, any other end of chain with nothing changed |
| FatCache.SetMeans | build_exclude/fat32_production.c:539-579 | in numbers: when a set is refused and with which code, and that success stores the link in every copy |
| FatCache.RawBytes | build_exclude/fat32_production.c:553-562 | which sector and which four bytes, least first, hold the entry of a cluster in each copy |
| FatCache.TouchedFront | build_exclude/fat32_production.c:477-480 | a touched cluster is first on the LRU list and the rest keeps its order |
| FatCache.SetWrites | build_exclude/fat32_production.c:539-579 | what every copy says about every cluster after a set, for every outcome |
| FatCache.SetKeeps | build_exclude/fat32_production.c:539-579 | equal copies, and agreement of cache and disk, survive a set if and only if a condition on its arguments and the device holds |
| FatCache.SetFails | build_exclude/fat32_production.c:562-576 | an input for each failure: a link cached wrong, copies left apart by a failed write, and an old link left in the cache by one |
| FatCache.ReservedBits | build_exclude/fat32_production.c:562 | the reserved bits of an entry survive in a copy if and only if that copy is not written or they were zero |
| FatCache.ReservedBitLost | build_exclude/fat32_production.c:562 | an entry that loses its reserved bit |
| FatCache.RunReadsLast | build_exclude/fat32_production.c:485-629 | after any run of gets and sets a get returns what was last set, or the original link |
| FatCache.Mount.GetNext | build_exclude/fat32_production.c:485-534 | the method on table, LRU list and disk computes the specified state and link: 28 bits of the entry for the clusters there are, end of chain for any other; hits and misses are counted |
| FatCache.Mount.SetNext | build_exclude/fat32_production.c:539-579 | likewise, with the loop over the copies and its early exit; refusals change nothing and success reaches every copy |
| FatCache.Mount.SetCluster | build_exclude/fat32_production.c:584-629 | likewise for the cache alone |
| Scheduler.ReschedPlaces | build_exclude/process_advanced.c:527-571 | scheduling keeps every runnable thread in exactly one place and adds the idle thread only when nothing was runnable |
| Scheduler.LevelOrder | build_exclude/process_advanced.c:573-598 | realtime goes before every priority, a larger number before a smaller, batch last |
| Scheduler.ReschedHighest | build_exclude/process_advanced.c:573-598 | nothing runnable is of a higher class than the thread dispatched |
| Scheduler.RunsInTurn | build_exclude/process_advanced.c:518-571 | a thread at position k of the top level runs at the call k + 1 of schedule, whatever becomes ready or blocks at its level or below in between |
| Scheduler.IdleGivesWay | build_exclude/process_advanced.c:527-571 | a running idle thread is dispatched again if and only if every queued thread is of a lower class |
| Scheduler.IdleStarves | build_exclude/process_advanced.c:527-571 | and then again at every later call, with all queues as they were |
| Scheduler.BatchStarves | build_exclude/process_advanced.c:527-571 | a view in which an idle thread of priority 0 keeps a batch thread waiting for ever |
| Scheduler.CpuScheduler.SelectNext | build_exclude/process_advanced.c:573-598 | takes the head off the realtime queue, else off the priority queue of the largest number that has one, else off the batch queue, else falls back to the idle thread |
| Scheduler.CpuScheduler.ScheduleNext | build_exclude/process_advanced.c:527-571 | the new current thread runs with a full slice, the preempted one is ready, every other is untouched |
| Scheduler.CpuScheduler.SchedulerTick | build_exclude/process_advanced.c:467-516 | reschedules exactly when the slice is used up or something higher is ready; a ready realtime thread is then the one that runs; otherwise the slice shrinks and stays positive |
| DnsName.WireExists | build_exclude/dns_resolver.c:276-310 | encoding succeeds if and only if every label has at most 63 bytes (labels under 256) |
| DnsName.WireReads | build_exclude/dns_resolver.c:312-349 | encoded labels are read back as they are, and reading stops short at the first empty one |
| DnsName.NameRoundTrip | build_exclude/dns_resolver.c:276-349 | decoding an encodable hostname of up to 255 bytes after encoding gives it back, ending just past the encoding, if and only if it is empty or has no empty label |
| DnsName.EncodeName | build_exclude/dns_resolver.c:276-310 | the moving pointers write the wire form of the labels, or 0 when there is none |
| DnsName.DecodeName | build_exclude/dns_resolver.c:312-349 | a plain name or a pointer to one is written out with its terminator and the offset just past it in the packet is returned |
| DnsName.PointerReads | build_exclude/dns_resolver.c:319-326 | the two bytes of a pointer lead to the name at its 14-bit offset and end the name |
| DnsName.WireExample | build_exclude/dns_resolver.c:276-310 | one hostname, byte by byte |
| DnsMessage.BuiltResponse | build_exclude/dns_resolver.c:456-510 | a response put together from its header fields, a question and answers is read as just that; RCODE is the low four bits of the flags |
| DnsMessage.NetworkOrder | build_exclude/dns_resolver.c:491-493 | numbers in a packet have the high byte first |
| DnsMessage.SectionReads | build_exclude/dns_resolver.c:456-510 | records built byte by byte behind plain or compressed names are parsed back as they were |
| DnsMessage.FirstIsFirst | build_exclude/dns_resolver.c:482-507 | the answer used is the first address record with four bytes of data |
| DnsMessage.Resolver.ParseResponse | build_exclude/dns_resolver.c:456-510 | returns and caches that address; a short packet, an error code or no such record returns nothing and changes nothing |
| DnsMessage.AddLookup | build_exclude/dns_resolver.c:365-394 | after adding, the host looks up to its new address exactly when its name fits an entry, and another keeps its entry unless the cache was full and it had expired |
| DnsMessage.ExpiredIs | build_exclude/dns_resolver.c:404 | an entry is over once its time and ttl are, in 32 bits |
| DnsMessage.SizeKept | build_exclude/dns_resolver.c:377-393 | adding a new host to a cache within its limit stays within it if and only if there was room or something had expired |
| DnsMessage.AliveItems | build_exclude/dns_resolver.c:396-413 | cleaning up removes exactly the expired entries |
| DnsMessage.Resolver.CacheLookup | build_exclude/dns_resolver.c:351-363 | the first entry on the list with this name |
| DnsMessage.Resolver.CacheAdd | build_exclude/dns_resolver.c:365-394 | the linked list changes as specified, in place for a known host |
| DnsMessage.Resolver.CacheCleanup | build_exclude/dns_resolver.c:396-413 | the removal through the previous link leaves exactly the live entries, linked in order |
| PageCompress.PackedFits | build_exclude/memory_advanced.c:676-709 | the output never overtakes the input, and input is left over only when nothing was saved on what was read |
| PageRestore.NeverCatchesUp | build_exclude/memory_advanced.c:676-709 | a decoder whose output lags behind the run it reads ends with something else than the input |
| PageRestore.UnpackRestores | build_exclude/memory_advanced.c:676-709 | for every input, decoding gives back exactly what was read if and only if every byte 0xFF of it sits in a packed run or is one of the last two |
| PageRestore.ShorterRestores | build_exclude/memory_advanced.c:676-709 | for an output at least two bytes shorter that is the whole input |
| PageRestore.KeptPageRestores | build_exclude/memory_advanced.c:790-796 | a page kept by the caller is restored in full if and only if that condition holds, as it does without 0xFF |
| PageRestore.LoneMarkerLost | build_exclude/memory_advanced.c:676-709 | a page of 4096 bytes with one isolated 0xFF that the caller keeps and that is not restored |
| PageCompress.CompressPage | build_exclude/memory_advanced.c:676-709 | the loops write the specified bytes, never past the input size, and leave the rest of the output alone |
| TextFile.NormalMeans | apps/text_editor.c:458-519 | character by character what counts as a line break and what ends the text |
| TextFile.LinesMeans | apps/text_editor.c:458-519 | no line holds a line break or a NUL |
| TextFile.SaveOfLoad | apps/text_editor.c:458-562 | saving what was loaded gives the text with every line break an LF and one final break dropped |
| TextFile.LoadOfSave | apps/text_editor.c:458-562 | loading what was saved gives the same lines if and only if the last is not empty; otherwise that line alone is lost |
| TextFile.JoinSize | apps/text_editor.c:552-562 | the saved length is the sum of the lengths plus n - 1 |
| TextFile.Editor.Load | apps/text_editor.c:458-519 | the scan builds a doubly linked list of exactly the lines of the text |
| TextFile.Editor.Save | apps/text_editor.c:541-562 | the copy with its running offset stays inside the buffer measured before and is the joined text |

## Left out

- RbTree.Root.Erase: the case of a successor further down (`rbtree.c:245-270`) is done as taking the successor out and then putting it in place of the erased node; the same pointers get the same values, in another order of independent writes.
- RbTree.Root.RotateLeft: the colour bit packed into the parent word (`rbtree.c:31-37`) is a field of its own; helper methods share the code that the source repeats for each mirrored case.
- VmaLookup.FindVma: the tree of areas is taken as given; `vmm_insert_vma` and the mapping code of `vmm_production.c` are not modelled, nor is the one-entry lookup cache beside them.
- Pmm.Pages.AllocPages: zone and NUMA preferences beyond DMA or not, reference counts and poisoning are left out; `PMM_MAX_ORDER` is a parameter of at most 13, which covers the value 11 in `kernel/pmm_production.h`.
- Pmm.Pages.Init: the memory map comes in page numbers, its available entries do not overlap (a page seeded twice is the case of `BuddySpec.FreeSound` that fails), and the zone of a page is computed from its number instead of stored.
- PageTable.Vmm.Walk: frames come from a given supply of distinct, aligned, non-zero addresses; a mapped frame that is itself a page table is not followed, and addresses are not checked to be canonical, as in the source.
- PageTable.Vmm.CreateAddressSpace: the allocation of the descriptor itself is assumed to succeed.
- PageTable.RangeTranslates: stated for frames on page borders, flags in the low 12 bits and ranges of at most 2^36 pages; `PageTable.Vmm.MapPage` with `PageTable.Mapped` gives every entry without these.
- BufferCache.Cache.Get: block contents, checksums, block sizes and timing statistics are left out; a fresh head has all links clear, and whether memory is there is a parameter.
- BufferCache.Cache.Read: no claim that contents match the device, since a dirty buffer is read over (`build_exclude/buffer_cache.c:417`, 434); device errors are left out.
- BufferCache.Cache.Write: only successful device writes are modelled.
- BufferCache.Cache.InvalidateDevice: a dropped referenced buffer stays in memory and counted; the model keeps the number of such buffers in a ghost field.
- ForkWait.ProcessTable.SysWait: one pass of the loop; the call of `schedule` in between is an event of its own that picks any ready process. The event keeps a waiting or dead process as it is, unlike the code; see above.
- ForkWait.ProcessTable.SysExit: the resources of a process other than its descriptor table are left out; children of the exiting process keep their parent pid, as in the source.
- ForkWait.ProcessTable.SysFork: the new slot is an unused one with a fresh larger pid; copying memory and registers is a parameter that says whether it worked.
- FatCache.Mount.SetCluster: hash chains and LRU list are sequences here, since the pointer routines are those of the buffer cache; update in place of shared pointers is therefore not captured for this cache.
- FatCache.WriteEntry: the volume has at most four copies, sectors of a multiple of four bytes and room for every cluster; a failed write leaves its sector as it was.
- FatCache.RunReadsLast: runs without a link above 28 bits and without a write that fails between two copies, the cases in which `FatCache.SetKeeps` loses the invariant.
- Scheduler.CpuScheduler.Enqueue: `enqueue_thread` has no definition in the repository; the model appends to the queue of the thread's class.
- Scheduler.CpuScheduler.SchedulerTick: whether a higher thread is ready is a parameter; the context switch, statistics and signals are left out.
- DnsName.DecodeName: names that mix labels with a trailing pointer, pointer cycles and names running out of the packet are not modelled.
- DnsName.EncodeName: the buffer is taken to hold two bytes more than the hostname.
- DnsMessage.Resolver.ParseResponse: only well-formed one-question responses; sending, retrying and the check of the query id are left out.
- DnsMessage.Resolver.CacheLookup: returns expired entries too, as in the source, which checks the age in `dns_resolve`.
- PageRestore.UnpackRestores: the source has no decoder; the reference reads a marker, a count and a byte, and takes a marker with less behind it as it is.
- TextFile.Editor.Load: allocations succeed, the text has at most 65535 bytes, and opening, reading and writing the file are outside.
- Slab and heap allocators, dirent cache, file operations of FAT32, the rest of `build_exclude/memory_advanced.c`, `build_exclude/filesystem_advanced.c`, DHCP, IPC, signals, drivers, interrupts, TLB and all user interface code are not modelled; `build_exclude/rbtree.c` and `build_exclude/pmm_production.c` repeat the modelled files.
- Ring buffers, number printers and statistics getters would only add easy members.
