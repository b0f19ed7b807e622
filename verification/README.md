# Nyaux kernel: verified model

This project models the parts of the Nyaux x86-64 kernel in which a clever concrete structure has to agree
with a simple abstract one, and proves that it does. `dafny verify dfyconfig.toml` checks everything.

**Memory** (`Bits`, `Pmm`, `Paging`, `Slab`, `Vmm`, `Clients`). Physical memory is an array of pages of 512 words;
the direct map is a constant offset. On it live, as in the kernel, an intrusive free list of frames, slab
caches whose header is found by masking an object's address, the first-fit list of regions, and four-level
page tables walked with shifts and masks. The abstract view is a flat map from pages to entries, the access rights
that the four entries on the way to a page leave, and a partition of all managed frames by owner that every run of allocations and releases keeps. `Clients` puts it
together: over every run of `kmalloc`, `kfree`, frame requests and stores by clients, memory as the machine
reaches it through the direct map and the page tables behaves like a set of separate arrays, at least as
large as asked for, and the kernel halts only when it must. That needs a direct map that covers the usable
memory, which `vmm_init` does not always make; when it does is stated exactly, and what happens otherwise.

**Terminal** (`Screen`, `Framebuffer`, `Parser`, `Terminal`, `Utf8`, `Sequences`, `Editing`, `Colours`, `Controls`,
`Commands`, `Escapes`). The framebuffer backend
is a write-back cache: a committed grid, a queue of pending cells and a map into the queue. Its
specification is a plain two-dimensional array of cells (`Screen`). `Parser` gives the byte parser as a
function of state and byte; the class `Terminal` is the driver itself, method by method. The main results
are that splitting output over different writes does not matter, that UTF-8 is decoded exactly, that a flush
paints what is shown, and what every control byte, escape sequence and control sequence does to cells, cursor,
colours and modes, from the bytes that make it up on: `Controls`, `Commands` and `Escapes` say it without any of the
functions the driver is specified by.

**printf** (`Format`, `Printf`, `PrintfLaws`, `Messages`). The format-specification parser, digit generation, padding and
bounded output, in the configuration of kernel/src/main.c:17-22, held to ISO C11 section 7.21.6.1, for one conversion
and for formats of any number of them.

**Files** (`Tmpfs`, `Vfs`, `Tar`, `Descriptors`, `Ramdisk`). Directory lists, in-place path tokenising, the
ustar import and file descriptors. The file system refines a map from paths to contents, importing an
archive undoes writing it, and a symbolic link leads where its target leads.

**Scheduling** (`Sched`). The round-robin switcher over a linked queue, and what a thread finds when it runs
again, over any run.

## How to read it

Where the source changes state step by step, a class or method does the same steps, and its contract ties
the new state to a specification function; lemmas then say what that function means. Ghost results of
specification functions that only restate code are not listed below; the lemmas about them are.

Findings where the code differs from what one would expect are stated with their exact condition:

- `get_phys_from_entry` says it keeps bits 12-51, but its mask stops at bit 50 (`Paging.EntryRoundTrip`).
- `next_pow2` has no shift by 32: beyond 2^32 it is right exactly for numbers without 32 zero bits in a row
  below the top one (`Slab.NextPow2`). `kmalloc` asks it for less than 1024 only.
- `vmm_init` counts at most 4 GiB of each entry of the memory map, no holes, and 4 GiB more, and gives the region
  of the direct map that length. It covers the usable frames if and only if usable memory ends no higher
  (`Vmm.CoversUsable`). Otherwise the first region `kmalloc` makes is laid over the direct map, in every boot:
  its base is the direct-map address of the frame where the counting ended (`Clients.BootAndAllocate`), and
  such a region and a frame in use share their words (`Clients.OverlaidShares`). A machine with memory up to
  3 GiB and 16 GiB from 4 GiB on is one (`Clients.DirectMapTooShort`).
- `CSI 0 J`, `CSI 1 J`, `CSI 0 K` and `CSI X` do not reach all their cells, or blank others, when the cursor is
  waiting to wrap, when the scroll region ends above the last row, when a count goes past the right edge, or
  when the screen has more rows than columns: the row clamp of kernel/src/flanterm/backends/fb.c:799-801
  compares with the number of columns (`Sequences.EraseBelow` and its neighbours, `Sequences.EraseCharsMisses`).
  A full row of letters and `ESC [ K` from power-up is enough (`Editing.EraseLineFails`).
- `CSI P` with a count past the right edge blanks cells left of the cursor, and beyond 2^31 cells of other rows
  (`Sequences.DeleteCharsMisses`); `CSI 0 @` blanks the rest of the row (`Sequences.InsertCharsAt`).
- `CSI M` scrolls the whole region and not the lines from the cursor on (`Editing.DeleteLinesMisses`); `CSI L`
  below the region blanks the cursor row (`Editing.InsertLinesMisses`).
- Switching bold, or bright background, under reverse video with the default colour takes the default of the
  other side, and stays wrong until that colour is set again (`Colours.AttributesShown`); an extended colour
  under reverse video goes to the other side (`Colours.ExtendedReversed`).
- A `0` flag with a negative `*` width pads with zeros on the right, a `0` flag with a negative `*` precision
  pads with blanks, and `.-n` counts as a precision: otherwise every numeric conversion is the standard's
  (`PrintfLaws.MeetsStandardUnless`). A precision puts zeros in front of `%c` and `%%` (`Messages.CharacterField`).
- A read at an offset that is negative as a 64-bit number copies what lies in front of the file
  (`Tmpfs.ReadsTheFile`, `Descriptors.Process.ReadInFront`), and seeking from the end takes the file size as an
  `int` (`Descriptors.SeeksFromEnd`). The count a read returns is right exactly below 2^31 bytes
  (`Descriptors.CountIsRight`), and a file that ends with the address space reads as empty
  (`Tmpfs.ReadsTheFile`).
- Path lookup drops what a path has behind a symbolic link (`Vfs.RestIgnored`) and does not return from a link to
  itself (`Vfs.EndlessHappens`); exactly when it does not is `Vfs.ChaseIsExact`. Creating behind a link or a file gives the new
  vnode whatever name the buffer held (`Vfs.CreatesBehind`).
- The user half of a new PML4 is not cleared (`Paging.NewPml4`).
- `map` gives the flags of a mapping to the tables it makes and to none that exist, so a page has the rights asked for
  if and only if the tables on its way have them already (`Paging.MapRights`); later mappings below the same slot of
  the PML4 never get more than the first one had (`Paging.FirstFlagsStay`).
- `CSI B`, `CSI e` and `CSI E` from the row just below the scroll region lead back into it, and `CSI 0 d` and `CSI 0 G` to
  the last row and column (`Commands.MoveSequence`).
- `ESC c` keeps the current colours, so it is a restart of the screen only if they are the default ones
  (`Escapes.ResetRestarts`). A UTF-8 character inside an open escape sequence is printed (`Escapes.CharacterBytes`).
- Closing descriptors 0 and 1 together takes them out of circulation (`Descriptors.StandardReused`).
- The switcher decides by the context loaded last whether to save the base registers: a thread finds its own
  again exactly if it was in user mode at its preemption and at its dispatch before, or is alone and was in
  kernel mode at its preemption (`Sched.BasesReturn`, `Sched.StaleBase`, `Sched.OthersBase`).

Assumptions that the source makes of its surroundings are preconditions: memory maps without overlapping
entries or frame 0, regions of at most 2^31 bytes (the page loops count in `int`), flags that contain the
present bit (every caller passes it), screens below 2^31 rows and columns, file data inside the address
space, a kernel image above the direct map, and region deallocation only of inner regions. Functions that
halt the machine return `false` instead. Calls of the terminal's client callback are absent because the kernel never sets it.

## Model

| member | source | states |
|---|---|---|
| `Pmm.UsableFramesDistinct` | kernel/src/pmm.c:20-43 | every usable frame of a memory map whose entries do not overlap is listed exactly once, and none is frame 0 |
| `Pmm.Allocator.constructor` | kernel/src/pmm.c:16-61 | boot threads all usable frames, in map order, into one acyclic list that starts at `head` |
| `Pmm.Allocator.LinkEntries` | kernel/src/pmm.c:20-61 | the outer loop: after each map entry the list holds exactly the frames of the entries seen |
| `Pmm.Allocator.LinkEntry` | kernel/src/pmm.c:32-42 | the inner loop: the frames of one entry join the list in address order |
| `Pmm.Allocator.AllocFrame` | kernel/src/pmm.c:78-97 | takes the first free frame and only it; fails exactly on an empty list |
| `Pmm.Allocator.FreeFrame` | kernel/src/pmm.c:98-103 | pushes the frame in front and changes one word of memory |
| `Paging.WalkIndices` | kernel/src/vmm.c:82-85 | the shifts and 9-bit masks of the walk are the four base-512 digits of the page number (Intel SDM volume 3A section 4.5) |
| `Paging.IndicesDeterminePage` | kernel/src/vmm.c:82-85 | two pages with the same four indices are the same page |
| `Paging.GetNextTable` | kernel/src/vmm.c:62-78 | follows a present entry; otherwise hangs a zeroed frame from the free list into the slot with the access rights of the mapping, and no translation changes; no entry with a table below it changes |
| `Paging.AddTableKeepsLeaf` | kernel/src/vmm.c:62-73 | hanging an empty table changes no leaf entry of any address space |
| `Paging.ReachInjective` | kernel/src/vmm.c:82-95 | no two walks share a table unless they took the same slots from the same root or through the shared kernel half |
| `Paging.LeafSlotInjective` | kernel/src/vmm.c:82-95 | distinct pages of a root, and user pages of distinct roots, have distinct leaf slots |
| `Paging.LeafStore` | kernel/src/vmm.c:92-95 | a store to the leaf slot of one page changes the flat map at that page only |
| `Paging.WalkDown` | kernel/src/vmm.c:87-90 | three steps down reach the level-1 table of the page, or memory runs out with every mapping unchanged |
| `Paging.Map` | kernel/src/vmm.c:80-96 | the flat map of pages changes at exactly the mapped page, and every table made on the way has the access rights of the mapping; out of frames the map does not change |
| `Paging.GetNextTableUnmap` | kernel/src/vmm.c:98-116 | follows a present entry and gives NULL otherwise |
| `Paging.FindLeafTable` | kernel/src/vmm.c:125-136 | finds the level-1 table of a page exactly when every table on the way is present |
| `Paging.VirtToPhys` | kernel/src/vmm.c:117-147 | returns what the flat map says of the page |
| `Paging.Unmap` | kernel/src/vmm.c:148-180 | removes exactly that page from the flat map and returns its old entry; no table changes its rights |
| `Paging.EntryRoundTrip` | kernel/src/vmm.c:58-61 | the address read back out of an entry is the one put in if and only if it is page-aligned and below 2^51 |
| `Paging.EntryLosesBit51` | kernel/src/vmm.c:58-61 | a frame at 2^51 comes back as 0 |
| `Paging.MapTranslates` | kernel/src/vmm.c:80-147 | after a map the page translates to the frame (same exact condition) and no other page of any address space translates differently, shared kernel pages apart |
| `Paging.UserMapIsPrivate` | kernel/src/vmm.c:409-425 | mapping in the user half of one address space leaves every other one unchanged |
| `Paging.UnmapUndoesMap` | kernel/src/vmm.c:80-180 | map then unmap returns every page to its entry, and the unmapped entry is the one that was mapped |
| `Paging.MapRights` | kernel/src/vmm.c:62-96 | the access rights of a mapped page, the AND of writable, user and executable over its four entries (Intel SDM volume 3A section 4.6), are those of the flags if and only if every table present on the way allows them, so always below an absent entry of the PML4; they never exceed them |
| `Paging.OthersKeepRights` | kernel/src/vmm.c:62-96 | no other page of any root gains or loses a right, shared kernel pages apart |
| `Paging.UnmapRights` | kernel/src/vmm.c:148-180 | an unmapped page has none |
| `Paging.FirstFlagsStay` | kernel/src/vmm.c:62-78 | a second mapping below the same entry of the PML4 has its rights only if the first mapping there had them |
| `Paging.NewPml4` | kernel/src/vmm.c:409-413 | a new root shares the kernel half and keeps in its user half what its frame held; if that has no present entry, the user half is empty; no other address space changes |
| `Slab.MaskFindsHeader` | kernel/src/pmm.c:213 | masking the low 12 bits of an object address gives the header of its own slab |
| `Slab.ObjectsInside` | kernel/src/pmm.c:142-151 | every object lies in its page past the header |
| `Slab.ObjectsOrdered` | kernel/src/pmm.c:146-151 | object addresses grow by the object size |
| `Slab.LiveObjectsDisjoint` | kernel/src/pmm.c:176-205 | live objects lie inside their page past the header and are pairwise disjoint |
| `Slab.ObjectsConserved` | kernel/src/pmm.c:107-205 | live and free objects of a slab add up to (4096 - 24) / size |
| `Bits.SmearedFull` | kernel/src/pmm.c:154-164 | smearing with shifts up to 16 fills a number up to its length exactly if it has no 32 zero bits in a row below the top one |
| `Slab.NextPow2` | kernel/src/pmm.c:154-164 | the least power of two that is not smaller, if and only if there is no such gap and it is below 2^64; always up to 2^32; 0 wraps to 0 |
| `Slab.NextPow2Fails` | kernel/src/pmm.c:154-164 | 2^32 + 1 is rounded wrongly |
| `Slab.ClassFits` | kernel/src/pmm.c:165-175 | the first cache that is big enough fits the request and, past the smallest, is less than twice as big |
| `Slab.Heap.constructor` | kernel/src/pmm.c:293-302 | eight caches with one empty slab each, on eight distinct frames of the free list |
| `Slab.Heap.InitCache` | kernel/src/pmm.c:107-133 | one cache: a zeroed frame with a header and all objects chained |
| `Slab.Heap.MakeSlab` | kernel/src/pmm.c:135-153 | a fresh slab has every object of the page on its free list once, in order |
| `Slab.Heap.FindSlab` | kernel/src/pmm.c:178-196 | finds the first slab with a free object, or stops at the last slab of a full cache |
| `Slab.Heap.Pop` | kernel/src/pmm.c:184-186 | takes the first free object of a slab, leaving every live object as it is |
| `Slab.Heap.Grow` | kernel/src/pmm.c:199-204 | hangs a new slab behind the last one and takes its first object |
| `Slab.Heap.SlabAlloc` | kernel/src/pmm.c:176-205 | returns an object nobody holds, keeps the contents of all live objects, and makes a slab only if all of the cache are full |
| `Slab.Heap.FindCache` | kernel/src/pmm.c:215-221 | finds the cache with the object size of the header |
| `Slab.Heap.OnChain` | kernel/src/pmm.c:231-245 | the slab of a live object is always on its cache's list, so the relinking at the end never runs |
| `Slab.Heap.Free` | kernel/src/pmm.c:206-247 | gives exactly that object back, writes to nothing else that is live, ignores NULL |
| `Slab.Heap.BigEnough` | kernel/src/pmm.c:165-175 | the lowest cache whose objects are big enough |
| `Slab.Heap.SmallAlloc` | kernel/src/pmm.c:264-277 | an unused object at least as large as requested, from the smallest class that fits |
| `Vmm.Kernel.constructor` | kernel/src/vmm.c:426-431 | boot leaves the managed frames partitioned between free list, slabs and the empty kernel root |
| `Vmm.Kernel.SetupRegions` | kernel/src/vmm.c:383-405 | the first region list, for a direct map of any size: direct map, then kernel image; their nodes are the only objects made; it halts only without a free frame |
| `Vmm.CountDirectMap` | kernel/src/vmm.c:458-528 | the loops over the memory map count at most 4 GiB of each known entry, and 4 GiB more |
| `Vmm.AlignUpIs` | kernel/src/vmm.c:53-56 | rounding up gives the least multiple of the page size that is not smaller |
| `Vmm.Kernel.InitRegions` | kernel/src/vmm.c:442-532 | the first region gets exactly that length |
| `Vmm.CoversUsable` | kernel/src/vmm.c:442-532 | it covers every usable frame if and only if usable memory ends no higher than what has been counted |
| `Vmm.NotOverlaid` | kernel/src/vmm.c:281-330 | where the first region covers the managed frames, no other region is laid over one |
| `Vmm.LayoutOrdered` | kernel/src/vmm.c:283-320 | regions further down the list lie at higher addresses and do not overlap |
| `Vmm.Kernel.FindGap` | kernel/src/vmm.c:283-320 | finds the lowest gap that fits, and none exactly if no gap fits |
| `Vmm.GapIsFree` | kernel/src/vmm.c:294-300 | no page of the chosen gap belongs to another region |
| `Vmm.Kernel.NewNode` | kernel/src/vmm.c:296-298 | the region node is a fresh slab object no other region uses, nothing clients hold changes, and it halts only without a free frame |
| `Vmm.Kernel.LinkNode` | kernel/src/vmm.c:299-300 | inserting the node between its neighbours keeps the list sorted and disjoint |
| `Vmm.Kernel.BackPage` | kernel/src/vmm.c:305-308 | one more page backed by a fresh zeroed frame; all others, slabs and frames held directly unchanged; halts only without a free frame |
| `Vmm.Kernel.BackPages` | kernel/src/vmm.c:302-309 | the loop maps exactly the pages of the region, each to a frame of its own that was free, and touches no slab or frame held directly |
| `Vmm.KernelRights` | kernel/src/vmm.c:302-309 | the pages of kernel regions are mapped writable and executable, for the kernel alone |
| `Vmm.Kernel.RegionAlloc` | kernel/src/vmm.c:281-330 | first fit with a guard page: the new region is at the end of its predecessor, its pages and no others become mapped to zeroed frames; nothing clients hold changes; it is laid over no managed frame's direct-map address if the first region covers them; it halts only if no gap fits, with nothing changed, or no frame is free |
| `Vmm.MoreBackedKept` | kernel/src/vmm.c:302-309 | mapping fresh pages leaves objects, other regions' pages and frames held directly as they are |
| `Vmm.LessBackedKept` | kernel/src/vmm.c:344-349 | so does unmapping pages |
| `Vmm.Kernel.FindRegion` | kernel/src/vmm.c:334-358 | finds the region with that base, and none exactly if there is none |
| `Vmm.Kernel.UnlinkNode` | kernel/src/vmm.c:340-343 | removing an inner node keeps the list |
| `Vmm.Kernel.ReleasePage` | kernel/src/vmm.c:347-348 | unmaps one page and returns its frame to the free list |
| `Vmm.Kernel.ReleasePages` | kernel/src/vmm.c:344-349 | every frame behind the region goes back once, the pages translate to nothing |
| `Vmm.Kernel.RegionDealloc` | kernel/src/vmm.c:331-367 | removes exactly that region, unmaps its pages, frees its frames and its node; nothing else clients hold changes; an unknown base changes nothing |
| `Vmm.Kernel.KMalloc` | kernel/src/pmm.c:262-282 | small sizes get an unused object that is big enough, others a zeroed region of their own; nothing other clients hold changes; it halts only without a free frame or without a gap that fits |
| `Vmm.Kernel.KFree` | kernel/src/pmm.c:248-261 | gives back that object, or that region with its node, its pages and the frames behind them; contents and places of everything else clients hold stay |
| `Vmm.Kernel.TakeFrame` | kernel/src/pmm.c:78-97 | a frame handed out directly has exactly one owner, and nothing clients hold changes |
| `Vmm.Kernel.GiveFrame` | kernel/src/pmm.c:98-103 | and goes back to the free list, changing nothing others hold |
| `Vmm.Kernel.ClientStore` | kernel/src/vmm.c:302-309 | a store by a client into its own memory keeps every structure of the kernel |
| `Clients.ItemFits` | kernel/src/pmm.c:262-282 | what `kmalloc` hands out is at least as large as asked for |
| `Clients.PlaceIsHome` | kernel/src/vmm.c:117-147 | the machine finds word w at the item's address plus 8w where it belongs: in the object, in the frame behind that page of the region, in the frame itself |
| `Clients.PlacesApart` | kernel/src/pmm.c:107-282 | so words of different items, objects, regions or frames alike, and different words of one item, reached at their addresses, never share a place in memory |
| `Clients.ItemsDisjoint` | kernel/src/pmm.c:248-282 | so the items clients hold at any time are pairwise disjoint in memory |
| `Clients.AddressesDisjoint` | kernel/src/vmm.c:281-330 | and so are their addresses, those of frames included |
| `Clients.ContentsKept` | kernel/src/pmm.c:248-282 | what others do leaves an item where it is, with its contents |
| `Clients.StoreItem` | kernel/src/pmm.c:262-282 | a store into one item changes that word of it and no word of any other item |
| `Clients.FreshZero` | kernel/src/vmm.c:302-309 | a new region reads as zeros |
| `Clients.RunMalloc` | kernel/src/pmm.c:262-282 | one more item, the others as they were; halts only without a free frame or a gap |
| `Clients.RunRelease` | kernel/src/pmm.c:248-261 | one item less, the others as they were |
| `Clients.RunTake` | kernel/src/pmm.c:78-97 | the same for a whole frame |
| `Clients.RunStore` | kernel/src/vmm.c:117-147 | a store goes to the word meant, through the direct map or the page tables |
| `Clients.Run` | kernel/src/pmm.c:248-282 | on a kernel whose direct map covers the managed frames, over every run up to the first halt: that is kept, each managed frame has exactly one owner, all items are their clients', disjoint and large enough, and contain exactly what separate arrays would; the halt has one of its two reasons |
| `Clients.NothingHeldNothingLost` | kernel/src/pmm.c:248-282 | what nobody holds is free: with everything given back no frame is held and the only live objects are the nodes of the two fixed regions |
| `Clients.Boot` | kernel/src/vmm.c:442-532 | boot manages exactly the usable frames, leaves nothing held, and its direct map covers them if and only if usable memory ends no higher than what has been counted |
| `Clients.BootAndRun` | kernel/src/vmm.c:442-532 | all of it from boot on under that condition |
| `Clients.BootAndAllocate` | kernel/src/vmm.c:442-532 | every boot, without it: the first region starts at the direct-map address of the frame where the counting ended, which is a frame of memory if and only if memory goes on there, and hides exactly the managed frames in its range |
| `Clients.OverlaidShares` | kernel/src/vmm.c:80-96 | a frame in use and a region share words if and only if the region is laid over the frame's direct-map address |
| `Clients.DirectMapTooShort` | kernel/src/vmm.c:442-532 | a machine that boots where the counting ends at a usable frame: memory up to 3 GiB and 16 GiB from 4 GiB on |
| `Screen.PutCell` | kernel/src/flanterm/backends/fb.c:521-543 | a written cell shows and no other cell changes; off-screen positions are ignored |
| `Screen.ScrollRows` | kernel/src/flanterm/backends/fb.c:573-596 | rows of the scroll region move up by one, its last row is blanked, rows outside the margins stay |
| `Screen.RevScrollRows` | kernel/src/flanterm/backends/fb.c:545-571 | rows of the scroll region move down by one, its first row is blanked, rows outside stay |
| `Framebuffer.RoomForOne` | kernel/src/flanterm/backends/fb.c:527-541 | by pigeonhole the queue never outgrows its rows * cols items |
| `Framebuffer.PushExisting` | kernel/src/flanterm/backends/fb.c:536-542 | overwriting a pending cell keeps queue and map inverse to each other |
| `Framebuffer.PushNew` | kernel/src/flanterm/backends/fb.c:528-541 | a new pending cell keeps queue and map inverse to each other |
| `Framebuffer.Backend.constructor` | kernel/src/flanterm/backends/fb.c:1072-1134 | power-up: a blank committed grid, an empty queue, everything painted |
| `Framebuffer.Backend.Push` | kernel/src/flanterm/backends/fb.c:521-543 | writing through the cache is writing to the plain screen, even when the committed cell makes it a no-op |
| `Framebuffer.Backend.CellAt` | kernel/src/flanterm/backends/fb.c:580-590 | the cell shown is the pending one if there is one |
| `Framebuffer.Backend.Scroll` | kernel/src/flanterm/backends/fb.c:573-596 | scrolling in place through the cache is scrolling the plain screen |
| `Framebuffer.Backend.RowsUp` | kernel/src/flanterm/backends/fb.c:577-590 | the loop shifts the region up, reading cells before they are overwritten |
| `Framebuffer.Backend.RevScroll` | kernel/src/flanterm/backends/fb.c:545-571 | reverse scrolling through the cache is reverse scrolling the plain screen, also with the top margin below the region |
| `Framebuffer.Backend.RowsDown` | kernel/src/flanterm/backends/fb.c:549-563 | the downward loop ends, also when its unsigned counter wraps |
| `Framebuffer.Backend.BlankRow` | kernel/src/flanterm/backends/fb.c:591-595 | blanks one row |
| `Framebuffer.Backend.Clear` | kernel/src/flanterm/backends/fb.c:598-613 | every cell becomes blank, the cursor moves only if asked |
| `Framebuffer.Backend.SetCursorPos` | kernel/src/flanterm/backends/fb.c:615-634 | both coordinates are clamped, negative 32-bit values to 0 |
| `Framebuffer.Backend.GetCursorPos` | kernel/src/flanterm/backends/fb.c:636-641 | the reported position is on the screen |
| `Framebuffer.Backend.MoveCharacter` | kernel/src/flanterm/backends/fb.c:643-662 | copies the cell shown at one place to another |
| `Framebuffer.Backend.WrapLine` | kernel/src/flanterm/backends/fb.c:792-801 | the pending wrap, with the clamp of the row against the number of columns |
| `Framebuffer.Backend.RawPutchar` | kernel/src/flanterm/backends/fb.c:789-809 | wraps if pending, writes at the cursor, steps right |
| `Framebuffer.Backend.DrawCursor` | kernel/src/flanterm/backends/fb.c:724-748 | paints the cursor cell with its colours swapped and commits it |
| `Framebuffer.Backend.CommitItem` | kernel/src/flanterm/backends/fb.c:758-772 | commits and paints one queue item unless it has been committed |
| `Framebuffer.Backend.RepairOldCursor` | kernel/src/flanterm/backends/fb.c:774-781 | the cell under the last flushed cursor is repainted when the cursor left it |
| `Framebuffer.Backend.Flush` | kernel/src/flanterm/backends/fb.c:750-787 | the screen is unchanged, the grid equals it, map and queue are empty, and every cell is painted as shown except the enabled cursor cell, which has its colours swapped |
| `Framebuffer.PaintedCell` | kernel/src/flanterm/backends/fb.c:724-787 | after a flush each character cell is painted as shown, the one at the cursor with its colours exchanged while the cursor is enabled |
| `Framebuffer.Backend.SwapPalette` | kernel/src/flanterm/backends/fb.c:433-438 | exchanges the two current colours |
| `Framebuffer.Backend.SaveState` | kernel/src/flanterm/backends/fb.c:417-423 | stores colours and cursor |
| `Framebuffer.Backend.RestoreState` | kernel/src/flanterm/backends/fb.c:425-431 | brings them back |
| `Parser.AlwaysSane` | kernel/src/flanterm/flanterm.c:1199-1346 | after every byte string: at most 16 parameters, a pending digit has room, sequences only inside an escape and of one kind, scroll region non-empty and on the screen, scrolling on, palette indices 0..7 or unset |
| `Parser.FeedConcat` | kernel/src/flanterm/flanterm.c:105-108 | feeding a string in two pieces is feeding it at once |
| `Terminal.Terminal.constructor` | kernel/src/flanterm/flanterm.c:71-101 | power-up state of parser and screen |
| `Terminal.Terminal.EraseScreenAt` | kernel/src/flanterm/flanterm.c:654-688 | CSI J |
| `Terminal.Terminal.EraseAbove` | kernel/src/flanterm/flanterm.c:666-682 | the two nested loops of CSI 1 J write as many blanks as there are cells up to the cursor and then put it back |
| `Terminal.Terminal.EraseLineAt` | kernel/src/flanterm/flanterm.c:721-743 | CSI K |
| `Terminal.Terminal.InsertCharsAt` | kernel/src/flanterm/flanterm.c:689-699 | CSI @, column by column from the right |
| `Terminal.Terminal.DeleteCharsAt` | kernel/src/flanterm/flanterm.c:700-703 | CSI P, falling through to CSI X |
| `Terminal.Terminal.EraseCharsAt` | kernel/src/flanterm/flanterm.c:705-711 | CSI X, clamped to the number of columns |
| `Terminal.Terminal.InsertLinesAt` | kernel/src/flanterm/flanterm.c:625-634 | CSI L moves the top margin for the reverse scrolls and puts it back |
| `Terminal.Terminal.MakeRoom` | kernel/src/flanterm/flanterm.c:1321-1328 | insert mode shifts the rest of the row right by one |
| `Terminal.Terminal.MoveUp` | kernel/src/flanterm/flanterm.c:539-554 | CSI A and F: not above the top margin from inside or below the region |
| `Terminal.Terminal.MoveDown` | kernel/src/flanterm/flanterm.c:558-574 | CSI B, e and E: not below the region from inside or above it |
| `Terminal.Terminal.MoveAcross` | kernel/src/flanterm/flanterm.c:575-585 | CSI C, a and D stop at the edges |
| `Terminal.Terminal.MoveAbsolute` | kernel/src/flanterm/flanterm.c:591-617 | CSI d, G and H: one-based positions, 32-bit decrement, clamped |
| `Terminal.Terminal.SgrMode` | kernel/src/flanterm/flanterm.c:124-209 | bold, reverse video and default colours: attributes and both colours after the value |
| `Terminal.Terminal.SgrColour` | kernel/src/flanterm/flanterm.c:211-271 | palette colours, exchanged under reverse video |
| `Terminal.Terminal.SetIndexed` | kernel/src/flanterm/flanterm.c:356-374 | 256 colours: palette, bright palette or table; larger numbers do nothing |
| `Terminal.Terminal.SgrStep` | kernel/src/flanterm/flanterm.c:121-379 | one round of the loop consumes as many values as the colour form has and never reads past the count |
| `Terminal.Terminal.SetGraphics` | kernel/src/flanterm/flanterm.c:115-382 | the whole of CSI m; without values it resets |
| `Terminal.Terminal.Margins` | kernel/src/flanterm/flanterm.c:744-766 | CSI r: the region asked for, or the whole screen if that is unusable |
| `Terminal.Terminal.Pad` | kernel/src/flanterm/flanterm.c:513-523 | parameters not given take the default of the final byte |
| `Terminal.Terminal.PrivateSequence` | kernel/src/flanterm/flanterm.c:384-416 | DEC private modes: only cursor visibility has an effect |
| `Terminal.Terminal.Perform` | kernel/src/flanterm/flanterm.c:535-774 | a complete control sequence does to fields and screen what its command says |
| `Terminal.Terminal.FinishSequence` | kernel/src/flanterm/flanterm.c:513-781 | scrolling is off while the command runs and restored after it, the sequence is closed |
| `Terminal.Terminal.ReadDigit` | kernel/src/flanterm/flanterm.c:489-497 | a digit extends the current parameter modulo 2^32; parameters past the sixteenth are ignored |
| `Terminal.Terminal.ParseControl` | kernel/src/flanterm/flanterm.c:477-781 | one byte inside a control sequence |
| `Terminal.Terminal.ParseOsc` | kernel/src/flanterm/flanterm.c:454-475 | operating-system commands end at BEL or ESC backslash |
| `Terminal.Terminal.Store` | kernel/src/flanterm/flanterm.c:794-803 | ESC 7 saves attributes, character set, colours and cursor |
| `Terminal.Terminal.Recall` | kernel/src/flanterm/flanterm.c:783-792 | ESC 8 brings back what ESC 7 saved |
| `Terminal.Terminal.Reinit` | kernel/src/flanterm/flanterm.c:839-842 | ESC c returns every field to its power-up value, saved state apart, and clears the screen |
| `Terminal.Terminal.FeedLine` | kernel/src/flanterm/flanterm.c:1289-1298 | line feed scrolls at the last row of the region, else steps down |
| `Terminal.Terminal.FeedBack` | kernel/src/flanterm/flanterm.c:859-867 | reverse line feed scrolls back at the top margin, else steps up |
| `Terminal.Terminal.ParseEscape` | kernel/src/flanterm/flanterm.c:805-880 | one byte after ESC |
| `Terminal.Terminal.Bisearch` | kernel/src/flanterm/flanterm.c:928-945 | binary search in an ascending table of disjoint intervals finds a code point if and only if some interval contains it |
| `Terminal.Terminal.CodePointWidth` | kernel/src/flanterm/flanterm.c:947-1028 | character width 0, 1 or 2 |
| `Terminal.Terminal.PrintCodePoint` | kernel/src/flanterm/flanterm.c:1223-1235 | a glyph, or a replacement of the same width |
| `Terminal.Terminal.ContinueCodePoint` | kernel/src/flanterm/flanterm.c:1211-1237 | a continuation byte adds six bits, the last one prints |
| `Terminal.Terminal.DesignateCharset` | kernel/src/flanterm/flanterm.c:1259-1269 | ESC ( and ESC ) select the character sets |
| `Terminal.Terminal.ShowByte` | kernel/src/flanterm/flanterm.c:1321-1345 | a printable byte in the current character set |
| `Terminal.Terminal.MoveByte` | kernel/src/flanterm/flanterm.c:1282-1304 | tab, backspace and carriage return |
| `Terminal.Terminal.AbortSequences` | kernel/src/flanterm/flanterm.c:1200-1209 | CAN, SUB and a discarded byte end every sequence; the DEC private flag survives |
| `Terminal.Terminal.Putchar` | kernel/src/flanterm/flanterm.c:1199-1346 | one byte of output |
| `Terminal.Terminal.Write` | kernel/src/flanterm/flanterm.c:105-113 | all the bytes in order, then a flush that leaves the painted screen equal to the logical one |
| `Terminal.Terminal.WriteAll` | kernel/src/flanterm/flanterm.c:105-113 | any number of writes is one write of all the bytes |
| `Terminal.PaintedAgree` | kernel/src/flanterm/backends/fb.c:750-787 | what is painted after a flush is determined by the logical screen |
| `Terminal.SplitDoesNotMatter` | kernel/src/flanterm/flanterm.c:105-113 | two terminals given the same bytes in different writes end with the same parser state, screen, cursor, grid and painted screen |
| `Utf8.Decodes` | kernel/src/flanterm/flanterm.c:1211-1252 | every non-ASCII scalar value encoded as RFC 3629 section 3 says is reconstructed, printed once, and the decoder is ready again, in every parser state between characters |
| `Utf8.DecodesAll` | kernel/src/flanterm/flanterm.c:1211-1252 | a whole text of them prints each in turn and changes nothing else about the parser |
| `Utf8.ReadNext` | kernel/src/flanterm/flanterm.c:1217-1221 | one continuation byte joins its six bits to the bits before it |
| `Utf8.Resynchronises` | kernel/src/flanterm/flanterm.c:1211-1215 | a byte that is not a continuation is handled as if it came first |
| `Utf8.TruncatedIsDropped` | kernel/src/flanterm/flanterm.c:1211-1252 | after a truncated encoding the next character is decoded intact and only it is printed |
| `Sequences.PutRun` | kernel/src/flanterm/flanterm.c:657-662 | a run of blanks continues over row ends as long as the rows are in the region and their numbers below the number of columns |
| `Sequences.EraseBelow` | kernel/src/flanterm/flanterm.c:656-665 | CSI 0 J blanks exactly the cells from the cursor to the end of the screen and leaves the cursor, provided the cursor is on a cell and it is on the last row, or the region ends there and rows <= cols |
| `Sequences.EraseBelowMisses` | kernel/src/flanterm/flanterm.c:656-665 | otherwise some cell it should blank keeps its content |
| `Sequences.EraseAbove` | kernel/src/flanterm/flanterm.c:666-682 | CSI 1 J blanks exactly the cells up to the cursor if its row is above the end of the region and its number below the number of columns |
| `Sequences.EraseAboveMisses` | kernel/src/flanterm/flanterm.c:666-682 | otherwise the cell under the cursor keeps its content |
| `Sequences.EraseLineEnd` | kernel/src/flanterm/flanterm.c:723-728 | CSI 0 K blanks exactly the rest of the row if the cursor is on a cell, or the screen is one column wide and the wrap stays on row 0 |
| `Sequences.EraseLineMisses` | kernel/src/flanterm/flanterm.c:723-728 | otherwise the cell under the cursor keeps its content |
| `Sequences.EraseLineStart` | kernel/src/flanterm/flanterm.c:729-741 | CSI 1 K blanks the row before the cursor but not under it, CSI 2 K the whole row |
| `Sequences.EraseCharsExactly` | kernel/src/flanterm/flanterm.c:705-711 | CSI X blanks as many cells of the row as asked and nothing else, leaving the cursor, if the count fits in the row, the cursor is in column 0 or no wrap can follow; for every count, cursor and margins |
| `Sequences.EraseCharsMisses` | kernel/src/flanterm/flanterm.c:705-711 | otherwise it blanks a cell outside, or one it should blank keeps its content |
| `Sequences.InsertCharsAt` | kernel/src/flanterm/flanterm.c:689-699 | cell by cell: blanks at the cursor, the rest of the row moved right, nothing else changed; an explicit 0 blanks the rest of the row |
| `Sequences.DeleteCharsAt` | kernel/src/flanterm/flanterm.c:700-711 | cell by cell for every 32-bit count: the end of the row, the whole row, or from the last column on over a wrap is blanked; up to the number of columns the rest moves left |
| `Sequences.DeleteCharsExactly` | kernel/src/flanterm/flanterm.c:700-711 | CSI P keeps the cells left of the cursor and the other rows, moves the rest of the row left and blanks its end, if the count fits or the whole row goes (exact condition on column, row, count and margins) |
| `Sequences.DeleteCharsMisses` | kernel/src/flanterm/flanterm.c:700-711 | otherwise it blanks a cell outside, or one it should blank keeps its content |
| `Sequences.MovesStayInRegion` | kernel/src/flanterm/flanterm.c:539-574 | vertical movement that starts in the scroll region stays in it and goes as far as it can |
| `Sequences.MarginsAccepted` | kernel/src/flanterm/flanterm.c:744-766 | CSI r accepts exactly the regions of at least two rows that fit |
| `Editing.DeleteLinesAt` | kernel/src/flanterm/flanterm.c:618-624 | CSI M cell by cell: the whole scroll region moves up |
| `Editing.DeleteLinesExactly` | kernel/src/flanterm/flanterm.c:618-624 | it deletes the lines at the cursor if the cursor is on the first row of the region |
| `Editing.DeleteLinesMisses` | kernel/src/flanterm/flanterm.c:618-624 | otherwise it also takes away the first row of the region, which shows on a screen with a mark there |
| `Editing.InsertLinesAt` | kernel/src/flanterm/flanterm.c:625-634 | CSI L cell by cell |
| `Editing.InsertLinesExactly` | kernel/src/flanterm/flanterm.c:625-634 | inside the region it inserts blank lines at the cursor and moves the rest of the region down |
| `Editing.InsertLinesMisses` | kernel/src/flanterm/flanterm.c:625-634 | outside it blanks the cursor row |
| `Editing.EditBytes` | kernel/src/flanterm/flanterm.c:477-781 | the bytes ESC [ digits c run exactly the editing command c with that number, or with its default |
| `Editing.DecimalRead` | kernel/src/flanterm/flanterm.c:489-497 | every 32-bit number can be written that way |
| `Editing.DeleteBytes` | kernel/src/flanterm/flanterm.c:700-711 | ESC [ n P deletes n characters cell by cell under the exact condition |
| `Editing.LettersPrinted` | kernel/src/flanterm/flanterm.c:1260-1346 | printing as many letters as there are columns leaves the cursor waiting to wrap |
| `Editing.EraseLineFails` | kernel/src/flanterm/flanterm.c:723-728 | from power-up, a full row of letters and ESC [ K: the cell under the cursor keeps its letter |
| `Controls.LineFeedByte` | kernel/src/flanterm/flanterm.c:1289-1298 | bytes 10 to 12: on the last row of the scroll region every row of it moves up by one and the last is blank, else all cells stay and the cursor is one row lower, clamped; it ends in the first column, or in the same one if line feeds do not return |
| `Controls.IndexBytes` | kernel/src/flanterm/flanterm.c:843-858 | ESC D and ESC E: the same, in the same and in the first column |
| `Controls.ReverseIndexBytes` | kernel/src/flanterm/flanterm.c:859-867 | ESC M: on the first row of the region every row moves down by one and the first is blank, else the cursor goes one row up, always in the first column |
| `Controls.MoveBytes` | kernel/src/flanterm/flanterm.c:1282-1304 | backspace, tab and carriage return: the column they lead to; nothing else changes |
| `Controls.IgnoredBytes` | kernel/src/flanterm/flanterm.c:1275-1310 | NUL, BEL and DEL change nothing |
| `Controls.ShownByte` | kernel/src/flanterm/flanterm.c:1330-1345 | a character goes to the cell of the cursor in the current colours and character set; no other cell changes; the cursor is one column on |
| `Controls.WrappedByte` | kernel/src/flanterm/backends/fb.c:789-809 | with a wrap pending it goes to the first column of the next row, after the region has moved up if that is below its last row |
| `Controls.InsertedByte` | kernel/src/flanterm/flanterm.c:1321-1328 | in insert mode the rest of the row moves right by one first |
| `Controls.ParamsRead` | kernel/src/flanterm/flanterm.c:489-511 | the parameters of a control sequence, up to sixteen, are the decimal numbers between the semicolons, an empty one 0 |
| `Controls.CsiRuns` | kernel/src/flanterm/flanterm.c:477-781 | a whole control sequence, byte by byte: the command of its final byte with those parameters, the missing ones at the default of that byte, scrolling off; then the parser is outside it |
| `Commands.MoveSequence` | kernel/src/flanterm/flanterm.c:535-620 | all fourteen cursor movements from their bytes: the column and row they lead to, with the rules at the edges of screen and scroll region; nothing else changes |
| `Commands.EditSequence` | kernel/src/flanterm/flanterm.c:621-743 | CSI J, K, X, @, P, L and M from their bytes: every cell and the cursor afterwards, under the exact conditions above for the cells |
| `Commands.MarginsSequence` | kernel/src/flanterm/flanterm.c:744-766 | CSI r: the scroll region from what is given, or the whole screen; the cursor goes home, cells stay |
| `Commands.SaveSequence` | kernel/src/flanterm/flanterm.c:715-720 | CSI s notes the reported position, which is where CSI u goes |
| `Commands.ModeSequence` | kernel/src/flanterm/flanterm.c:428-452 | CSI 4 h and CSI 4 l switch insert mode, other numbers nothing |
| `Commands.IdleSequence` | kernel/src/flanterm/flanterm.c:535-774 | every other final byte changes nothing |
| `Commands.PrivateSequence` | kernel/src/flanterm/flanterm.c:384-416 | CSI ? 25 h and CSI ? 25 l show and hide the cursor; other private sequences change nothing |
| `Commands.StyleSequence` | kernel/src/flanterm/flanterm.c:115-382 | CSI m from its bytes: attributes and colours after the numbers given, one after the other; cells and cursor stay |
| `Commands.ColourSequence` | kernel/src/flanterm/flanterm.c:211-271 | 30 to 37, 40 to 47, 90 to 97 and 100 to 107: the last digit is the entry of the palette, which of the two colours it sets, and when it is bright |
| `Commands.AttributeSequence` | kernel/src/flanterm/flanterm.c:124-209 | reset, bold, bright background, reverse and the default colours: attributes and colours afterwards |
| `Commands.IndexedSequence` | kernel/src/flanterm/flanterm.c:356-374 | 38;5;n and 48;5;n: palette, bright palette or table colour, nothing from 256 on |
| `Commands.DirectSequence` | kernel/src/flanterm/flanterm.c:334-355 | 38;2;r;g;b and 48;2;r;g;b: the packed colour of the three bytes |
| `Escapes.StoreReturns` | kernel/src/flanterm/flanterm.c:783-803 | whatever is written between ESC 7 and ESC 8 without an ESC: cursor, colours, attributes and character set are back, the cells are those written |
| `Escapes.ResetBytes` | kernel/src/flanterm/flanterm.c:839-842 | ESC c: every cell blank, cursor home and shown, the whole screen in the scroll region, all modes as at power-up; colours and what is saved stay |
| `Escapes.ResetRestarts` | kernel/src/flanterm/flanterm.c:839-842 | so the screen is that of a restart if and only if the default colours are the current ones |
| `Escapes.ShiftBytes` | kernel/src/flanterm/flanterm.c:1311-1318 | SO and SI choose the second and the first character set |
| `Escapes.CharsetBytes` | kernel/src/flanterm/flanterm.c:1259-1269 | `ESC (` and `ESC )` with B or 0 make the first or second of them plain or line drawing; other bytes leave it |
| `Escapes.OtherEscape` | kernel/src/flanterm/flanterm.c:821-879 | any other byte after ESC changes nothing |
| `Escapes.OscSequence` | kernel/src/flanterm/flanterm.c:454-475 | an operating-system command in ASCII changes nothing, up to its BEL or ESC backslash |
| `Escapes.DiscardBytes` | kernel/src/flanterm/flanterm.c:477-483 | `ESC [ [` throws one more byte away, whatever it is |
| `Escapes.AbortBytes` | kernel/src/flanterm/flanterm.c:1200-1209 | CAN and SUB end every sequence in any state; only a pending `?` stays |
| `Escapes.CharacterBytes` | kernel/src/flanterm/flanterm.c:1217-1236 | a UTF-8 character from U+0080 on that fits in the row: its glyph, the replacement, the replacement and a blank for a wide one, or nothing for a combining one; in whatever sequence is open |
| `Escapes.WideIs` | kernel/src/flanterm/flanterm.c:1005-1028 | the wide code points are those of twelve intervals |
| `Colours.SgrIsAfter` | kernel/src/flanterm/flanterm.c:115-383 | a CSI m carries out its values one after the other, extended colours as one command each |
| `Colours.ReverseIsExchange` | kernel/src/flanterm/flanterm.c:115-383 | any CSI m: reverse video is a clean exchange of the two colours the commands stand for, unless one has slipped and not been set again since |
| `Colours.ReverseIsExchangeExactly` | kernel/src/flanterm/flanterm.c:115-383 | without extended colours under reverse video, if and only if |
| `Colours.AttributesShown` | kernel/src/flanterm/flanterm.c:115-383 | a CSI m of basic values leads from colours that are those of the attributes to colours that are those of the new attributes if and only if, since the last reset, the last value to set either colour did not switch its brightness under reverse video with the default colour |
| `Colours.StepShows` | kernel/src/flanterm/flanterm.c:136-209 | one value goes wrong exactly when it switches bold or bright background under reverse video with the default colour |
| `Colours.ExtendedReversed` | kernel/src/flanterm/flanterm.c:330-379 | an extended colour under reverse video comes out right only if text and background both have it already |
| `Colours.BoldReversed` | kernel/src/flanterm/flanterm.c:139-157 | for example CSI 7;1 m on a fresh terminal |
| `Colours.ResetShows` | kernel/src/flanterm/flanterm.c:115-135 | a reset makes the colours right from any state |
| `Format.ParseFlags` | kernel/src/lib/nanoprintf.h:304-316 | the flag loop |
| `Format.ParseAmounts` | kernel/src/lib/nanoprintf.h:318-352 | width and precision, with the `.-` form |
| `Format.ParseModifier` | kernel/src/lib/nanoprintf.h:354-382 | length modifiers |
| `Format.ParseFormatSpec` | kernel/src/lib/nanoprintf.h:293-471 | the parser computes the specification and its length, 0 for none |
| `Format.ParsedExcludes` | kernel/src/lib/nanoprintf.h:304-414 | every parsed specification: left-justified is never zero-padded, nor are strings and numbers with a precision |
| `Format.ReadDigits` | kernel/src/lib/nanoprintf.h:325-328 | reading a printed decimal gives the number back |
| `Format.RoundTrip` | kernel/src/lib/nanoprintf.h:293-471 | parsing the canonical text of a specification, whatever follows it, returns that specification and consumes exactly the text |
| `Printf.DigitsFit` | kernel/src/lib/nanoprintf.h:722 | no 64-bit number has more than 22 digits, so the 32-byte buffer is large enough |
| `Printf.ItoaRev` | kernel/src/lib/nanoprintf.h:473-478 | the digits of the absolute value, least significant first, with truncating division of negative numbers |
| `Printf.UtoaRev` | kernel/src/lib/nanoprintf.h:480-489 | the digits in base 8, 10 or 16 |
| `Printf.ConvertSigned` | kernel/src/lib/nanoprintf.h:762-791 | sign and digits of a signed argument |
| `Printf.ConvertUnsigned` | kernel/src/lib/nanoprintf.h:796-849 | prefix and digits of an unsigned argument, with the octal zero |
| `Printf.ConvertArg` | kernel/src/lib/nanoprintf.h:740-857 | at most 23 characters of the 32-byte buffer are used |
| `Printf.MeasureText` | kernel/src/lib/nanoprintf.h:751-756 | a string is used up to its terminator and its precision |
| `Printf.PutFront` | kernel/src/lib/nanoprintf.h:953-966 | sign, prefix and padding in front of the field |
| `Printf.PutField` | kernel/src/lib/nanoprintf.h:906-1008 | the padding counters emit the whole field |
| `Printf.PutSpec` | kernel/src/lib/nanoprintf.h:703-720 | the field of the conversion is put out and the arguments are the ones behind those it takes, star arguments before the argument itself |
| `Printf.Vpprintf` | kernel/src/lib/nanoprintf.h:690-1012 | emits the text of the format and returns its length |
| `Printf.Sink.Store` | kernel/src/lib/nanoprintf.h:663-666 | the buffer holds as much of the text as fits |
| `Printf.Sink.Put` | kernel/src/lib/nanoprintf.h:676-680 | every character is counted, stored or not |
| `Printf.Vsnprintf` | kernel/src/lib/nanoprintf.h:1034-1053 | the buffer gets the first min(length, size - 1) characters and a terminator, nothing behind it changes, and the full length is returned |
| `PrintfLaws.DigitsAre` | kernel/src/lib/nanoprintf.h:480-489 | the reversed buffer read backwards is positional notation |
| `PrintfLaws.DigitsDenote` | kernel/src/lib/nanoprintf.h:480-489 | the digits denote the number, and start with 0 only for 0 |
| `PrintfLaws.LeadingZeros` | kernel/src/lib/nanoprintf.h:978 | padding zeros do not change the number |
| `PrintfLaws.SignedDigits` | kernel/src/lib/nanoprintf.h:762-791 | precision and digits of signed conversions are those of ISO C11 section 7.21.6.1 |
| `PrintfLaws.UnsignedDigits` | kernel/src/lib/nanoprintf.h:796-849 | and of unsigned ones, including the octal zero |
| `PrintfLaws.LayoutIs` | kernel/src/lib/nanoprintf.h:906-1008 | padding and precision zeros of every numeric field, left-justified ones with a `0` flag included |
| `PrintfLaws.MeetsStandard` | kernel/src/lib/nanoprintf.h:739-1008 | for %d %i %u %o %x %X with literal or absent width and precision the field is the one the standard describes |
| `PrintfLaws.FieldDenotes` | kernel/src/lib/nanoprintf.h:739-1008 | it has length max(width, content), and strips to digits that denote exactly the argument, empty only for 0 with precision 0 |
| `PrintfLaws.ParsedPlainly` | kernel/src/lib/nanoprintf.h:293-471 | every parsed numeric conversion without `*` and `.-` is such a field |
| `PrintfLaws.WrittenIsRead` | kernel/src/lib/nanoprintf.h:293-471 | every parsed numeric conversion is what was written, without its `0` flag if a precision is given |
| `PrintfLaws.MeetsStandardUnless` | kernel/src/lib/nanoprintf.h:690-1012 | for every numeric conversion the parser returns, `*` amounts included, and all arguments: the field is the one the standard describes if and only if none of three cases applies, each stated on flags, amounts and lengths |
| `PrintfLaws.PlainConversions` | kernel/src/lib/nanoprintf.h:690-1012 | without `*` and `.-` none of them applies |
| `PrintfLaws.OneConversion` | kernel/src/lib/nanoprintf.h:690-1012 | a format of one numeric conversion prints what the standard says, with the same exact condition |
| `PrintfLaws.ZerosOnTheRightHappen` | kernel/src/lib/nanoprintf.h:705-712 | `%0*d` of -5 and 42 prints 42000 |
| `PrintfLaws.ZerosForgottenHappen` | kernel/src/lib/nanoprintf.h:408-412 | `%05.*d` of -1 and 42 prints three blanks and 42 |
| `PrintfLaws.MinusCountsHappens` | kernel/src/lib/nanoprintf.h:341-349 | `%.-3d` of 42 prints 042 |
| `Messages.FlagsRead` | kernel/src/lib/nanoprintf.h:296-316 | the flags read are those written, in any order and number: a minus overrides a zero, a plus a blank, and the characters read are all the flag characters there |
| `Messages.FieldTakes` | kernel/src/lib/nanoprintf.h:705-903 | a conversion takes one argument for each `*` and one more unless it is a percent sign, and leaves the others |
| `Messages.ArgumentIs` | kernel/src/lib/nanoprintf.h:762-812 | the number printed is the argument behind the `*` ones, reduced to the size of the length modifier: same residue, in the range of the type |
| `Messages.AmountsAre` | kernel/src/lib/nanoprintf.h:705-719 | a `*` amount is the absolute value of its argument, left-justified if that is negative; a negative precision is as if absent |
| `Messages.SignificantIs` | kernel/src/lib/nanoprintf.h:762-849 | the digits denote the number in the base of the conversion and the case of its letter, are at least as many as the precision and have no zeros in front but for it or the octal one |
| `Messages.CharacterField` | kernel/src/lib/nanoprintf.h:741-749 | `%c` and `%%`: the low byte of the argument, or a percent sign, behind the zeros that a precision asks for, padded with blanks |
| `Messages.TextField` | kernel/src/lib/nanoprintf.h:751-760 | `%s`: the string up to its terminator and its precision, padded with blanks |
| `Messages.PointerField` | kernel/src/lib/nanoprintf.h:851-855 | `%p`: 0x, the zeros that a precision asks for and the hexadecimal digits |
| `Messages.ManyConversions` | kernel/src/lib/nanoprintf.h:690-1012 | for a format of any number of conversions and text between them: the text, with each numeric conversion replaced by the field of the standard for its own arguments, if each meets the condition above |
| `Messages.PlainFormats` | kernel/src/lib/nanoprintf.h:690-1012 | without `*` and `.-` always: the n-th conversion is replaced by the field of the standard for the n-th argument |
| `Messages.ComposedReads` | kernel/src/lib/nanoprintf.h:690-702 | every text composed of words and canonical specifications is such a format |
| `Messages.PercentCopied` | kernel/src/lib/nanoprintf.h:698-701 | a percent sign that begins no conversion is copied |
| `Messages.IntegerConversions` | kernel/src/lib/nanoprintf.h:403-404 | `%i` is `%d` |
| `Tmpfs.AddedRefines` | kernel/src/fs/tmpfs.c:39-97 | making a vnode at a fresh name adds one path to the map of paths and changes no other |
| `Tmpfs.StoredRefines` | kernel/src/fs/tmpfs.c:122-141 | writing a file changes the content of its path only |
| `Tmpfs.OverwrittenAt` | kernel/src/fs/tmpfs.c:122-141 | the bytes written are there, every other old byte is kept, a gap in a new file is zero |
| `Tmpfs.ReadBack` | kernel/src/fs/tmpfs.c:98-148 | reading where was written returns what was written |
| `Tmpfs.ReadsConcatenate` | kernel/src/fs/tmpfs.c:105-119 | consecutive reads of any sizes together are one read |
| `Tmpfs.ReadAtIs` | kernel/src/fs/tmpfs.c:105-119 | a read returns the bytes of the file from the offset on, as many as asked for or as there are |
| `Tmpfs.FileSystem.Lookup` | kernel/src/fs/tmpfs.c:7-38 | finds the first entry of that name; only directories have entries |
| `Tmpfs.FileSystem.Make` | kernel/src/fs/tmpfs.c:39-97 | prepends the new vnode to a directory, fails on anything else |
| `Tmpfs.ReadsTheFile` | kernel/src/fs/tmpfs.c:102-120 | the pointer arithmetic reads the bytes of the file at the offset if and only if the pointers do not wrap where it matters, the one to the end of the file included |
| `Tmpfs.ReadsInFront` | kernel/src/fs/tmpfs.c:102-120 | an offset that is negative on 64 bits reads what lies in front of the file |
| `Tmpfs.FileSystem.Read` | kernel/src/fs/tmpfs.c:102-120 | the bytes between the source's two pointers, which are those of the file exactly under that condition; an empty file cannot be read |
| `Tmpfs.FileSystem.Write` | kernel/src/fs/tmpfs.c:122-141 | overwrites with growth |
| `Vfs.Tokenise` | kernel/src/fs/vfs.c:31-51 | the path with every slash replaced by a terminator |
| `Vfs.ScanLast` | kernel/src/fs/vfs.c:63-72 | behind the last component the verdict is whatever lies behind the buffer |
| `Vfs.FirstPass` | kernel/src/fs/vfs.c:27-118 | resolves a path component by component, up to a symbolic link |
| `Vfs.PathLookup` | kernel/src/fs/vfs.c:27-118 | and goes on with the text of the link from its directory, for a chain of links to its end |
| `Vfs.NeverEnds` | kernel/src/fs/vfs.c:88-93 | a chain of links that has not ended after as many hops as there can be different links never ends |
| `Vfs.ChaseIsExact` | kernel/src/fs/vfs.c:88-93 | what is found is where any number of hops that is enough leads; nothing is found exactly if every hop leads to another link |
| `Vfs.LinkMeansTarget` | kernel/src/fs/vfs.c:88-93 | a path to a link leads where the text of the link leads from the directory of the link |
| `Vfs.RestIgnored` | kernel/src/fs/vfs.c:88-93 | so does a path, relative or absolute, that goes on behind the link, whatever follows |
| `Vfs.EndlessHappens` | kernel/src/fs/vfs.c:88-93 | a link to itself is followed for ever |
| `Vfs.ResolvesParent` | kernel/src/fs/vfs.c:52-78 | for a fresh name the parent and the name come out right whatever the verdict on a trailing slash is |
| `Vfs.ResolvesPath` | kernel/src/fs/vfs.c:52-117 | a path through directories resolves to the vnode it names, to the target of a link, or to nothing if the last name is missing; what follows a file or a link is not looked at |
| `Vfs.LookupWalks` | kernel/src/fs/vfs.c:27-119 | from every current directory: a path without a leading slash leads where its names lead from there, one with leading slashes where they lead from the root, links followed |
| `Vfs.LookupSlashes` | kernel/src/fs/vfs.c:35-51 | slashes alone are the root, the empty path the current directory |
| `Vfs.AbsoluteTarget` | kernel/src/fs/vfs.c:88-93 | a link whose text is an absolute path leads where that path leads from the root, wherever the link is |
| `Vfs.CreatesThere` | kernel/src/fs/vfs.c:121-147 | creation puts the name into the directory the path leads to, from the current directory or the root |
| `Vfs.CreatesBehind` | kernel/src/fs/vfs.c:121-147 | creation behind a file or a link makes a vnode where the link leads, if that is a directory, under whatever name the buffer held |
| `Vfs.Create` | kernel/src/fs/vfs.c:120-157 | makes a vnode in the parent, if that is a directory; behind a symbolic link the parent is where the link leads and the name is whatever the buffer held |
| `Tar.GetSize` | kernel/src/fs/tar.c:10-22 | eleven octal digits on 32 bits |
| `Tar.OctalRead` | kernel/src/fs/tar.c:10-22 | the eleven octal digits of a number below 2^32 are read back as that number |
| `Tar.ImportHeader` | kernel/src/fs/tar.c:44-78 | one header: the member made and filled, the offset of the next header |
| `Tar.Populate` | kernel/src/fs/tar.c:23-81 | the loop over the archive ends |
| `Tar.CreatesFresh` | kernel/src/fs/vfs.c:121-147 | a well-formed member is created in its parent under its name |
| `Tar.ImportsOne` | kernel/src/fs/tar.c:44-78 | one well-formed header adds its path with its kind and bytes and changes no other |
| `Tar.ImportsZeros` | kernel/src/fs/tar.c:42-79 | blocks of zeros change nothing |
| `Tar.ImportUndoesWrite` | kernel/src/fs/tar.c:23-81 | importing a ustar archive (pax, IEEE Std 1003.1) yields exactly its paths, each with its kind and bytes |
| `Tar.TreeHas` | kernel/src/fs/tar.c:42-79 | every member keeps its content to the end |
| `Tar.LookupFinds` | kernel/src/fs/vfs.c:27-119 | looking up a member's path, from the root or absolute from any directory, finds a vnode with its kind and bytes; a link leads where its target leads from its directory |
| `Tar.AbsoluteLinkFinds` | kernel/src/fs/vfs.c:88-93 | a member that is a link to the absolute path of another member leads to that one, from every directory |
| `Descriptors.StandardReused` | kernel/src/fs/vfs.c:158-176 | descriptors 0 and 1 are handed out exactly when just one of them is free |
| `Descriptors.Process.AllocateFd` | kernel/src/fs/vfs.c:158-176 | the lowest free descriptor, after reserving 0 and 1 if both are free; none exactly if all are taken |
| `Descriptors.Process.DeallocateFd` | kernel/src/fs/vfs.c:177-185 | frees a descriptor that is taken |
| `Descriptors.Process.OpenAt` | kernel/src/syscall/syscall.c:106-139 | an unused descriptor at offset 0 on the vnode found, links followed; no other descriptor changes; fails exactly on an unknown path or without a free descriptor, and hangs exactly on a chain of links that never ends |
| `Descriptors.Process.Read` | kernel/src/syscall/syscall.c:140-186 | for all 64-bit byte counts and offsets: what the file system copies, the count cast to `int`, -1 taken for an error, and the offset moved by it; the bytes are the file's exactly if the pointers stay in it; no other descriptor changes |
| `Descriptors.CountIsRight` | kernel/src/syscall/syscall.c:165-174 | the count returned is the number of bytes copied exactly below 2^31 |
| `Descriptors.AnswerFits` | kernel/src/syscall/syscall.c:140-186 | a read whose pointers and count do not wrap returns the bytes of the file there, from any offset |
| `Descriptors.PiecesOfFile` | kernel/src/syscall/syscall.c:140-186 | any sequence of such reads, from any offset, returns consecutive pieces that together are the file from there on, with the right counts |
| `Descriptors.Process.ReadInFront` | kernel/src/syscall/syscall.c:140-212 | seeking to -1 and reading gets the byte in front of the file |
| `Descriptors.SeeksFromEnd` | kernel/src/syscall/syscall.c:234-242 | seeking from the end lands there if and only if the file is shorter than 2^31 bytes |
| `Descriptors.SeeksFromEndFails` | kernel/src/syscall/syscall.c:234-242 | the end of a file of 2^31 bytes is taken to be at -2^31 |
| `Descriptors.Process.Seek` | kernel/src/syscall/syscall.c:198-256 | the new offset from start, current offset or the size cast to `int`, on 64 bits |
| `Descriptors.Process.Close` | kernel/src/syscall/syscall.c:187-197 | the descriptor is free and empty |
| `Descriptors.Process.ReadMany` | kernel/src/syscall/syscall.c:140-186 | any sequence of reads answers one after the other, each at the offset the last one left; no other descriptor moves |
| `Ramdisk.ReadMember` | kernel/src/syscall/syscall.c:106-186 | importing an archive, opening a member by a relative or an absolute path and reading it in any pieces returns its bytes with the right counts |
| `Sched.Scheduler.AddFirst` | kernel/src/sched/sched.c:247-251 | a new thread goes in front of the queue |
| `Sched.Scheduler.SaveCurrent` | kernel/src/sched/sched.c:32-46 | frame and FPU image are saved, base registers if the context last loaded was in user mode; no other thread changes |
| `Sched.Scheduler.LoadCurrent` | kernel/src/sched/sched.c:72-78 | frame, FPU image and page tables of the thread, base registers if its context is in user mode |
| `Sched.Scheduler.Advance` | kernel/src/sched/sched.c:47-65 | the next thread of the linked queue, or the first |
| `Sched.Scheduler.SwitchTask` | kernel/src/sched/sched.c:27-99 | a timer tick |
| `Sched.Turns` | kernel/src/sched/sched.c:27-99 | once dispatching has started tick k runs thread (k - 1) mod n |
| `Sched.FirstDispatch` | kernel/src/sched/sched.c:27-99 | the first time a thread runs it finds the frame, FPU image and page tables it was made with, and its own base registers if its context is in user mode, else those of the thread before |
| `Sched.NothingToRun` | kernel/src/sched/sched.c:80-97 | without threads a tick changes nothing |
| `Sched.Window` | kernel/src/sched/sched.c:27-99 | every window of n ticks dispatches each thread exactly once |
| `Sched.Redispatch` | kernel/src/sched/sched.c:27-99 | what is loaded at a redispatch is what was saved at the last preemption |
| `Sched.Restores` | kernel/src/sched/sched.c:27-99 | over every run a redispatched thread has the frame, FPU image and page tables of its last preemption, and its base registers if it was in user mode then and when dispatched before |
| `Sched.Bases` | kernel/src/sched/sched.c:35-77 | where the base registers come from otherwise |
| `Sched.BasesReturn` | kernel/src/sched/sched.c:35-77 | over every run, a thread finds its base registers again whatever it put there if and only if it was in user mode at its preemption and at its dispatch before, or is alone and was preempted in kernel mode |
| `Sched.OthersBase` | kernel/src/sched/sched.c:35-77 | a run in which a thread preempted in kernel mode finds the base register of the other thread |
| `Sched.StaleBase` | kernel/src/sched/sched.c:35-77 | a run in which a user thread does not get its base register back |

## Left out

- Vmm.Kernel.SetupRegions: the source never writes the last node's `next` and relies on the memory being zero; the model stores it.
- Vmm.Kernel.LinkNode: the order of the two stores, which nothing can observe, is not modelled.
- Vfs.Create: where a chain of links never ends the source does not return; the model creates nothing there and goes on, also in an import.
- Vfs.PathLookup: the source calls itself for links without bound; the model stops with a result of its own after more hops than a chain that ends can have. A link without a terminator, which nothing makes, ends with its data.
- Tar.ImportHeader: bytes read behind the end of a malformed archive count as zero.
- Tmpfs.FileSystem.Write: vnodes are indices of a sequence and never freed; the bytes of a gap in a grown file are a parameter.
- Descriptors.Process.OpenAt: without a free descriptor the source goes on with a number it never set; the model reports it and stops.
- Format.ParseFormatSpec: literal widths and precisions are unbounded; in C they overflow an `int` past 2^31.
- Printf.Vpprintf: reading past the arguments, or one of another type, is undefined in C and gives 0 or an empty string here.
- Printf.PutSpec: a `*` width of -2^31, whose negation overflows in C, gives the width 2^31.
- Colours.ReverseIsExchangeExactly: extended colours (38, 48) under reverse video are left out of the exact condition, because one that goes to the wrong side can by chance be the colour that is there.
- The region functions for user address spaces and `mmap_range`, which repeat the kernel ones on another list, and `krealloc`.
- Mapping the memory map at boot, and every effect of control registers, MSRs, ports and device memory; the scheduler keeps base registers and page-table root as plain fields.
- Pixels, fonts, colour conversion and the canvas; a painted cell is its glyph and two colours. The glyph, character-set, width and 256-colour tables are parameters.
- Float, binary and write-back conversions of the printf engine, which the kernel switches off.
- ELF loading, the PS/2 driver, ACPI, APIC and HPET.
