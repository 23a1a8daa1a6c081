# Verification models for the operating-system course programs

Dafny models of five stateful programs of this repository, with proofs of what each
of them keeps over whole runs. The models follow the code, flaws included: where a
property the code is meant to have is false, there is a theorem that says exactly when
it holds, and for the main ones a concrete run in which it does not.

* **Linear allocator** (`LinearHeap`, `LinearAllocator`, `LinearTheory`). A first-fit heap
  in one array of bytes, headers and payload together, so that writing a header can
  clobber data. A heap is what following the sizes from offset 0 yields (`HeapOf`); every
  operation is proved to leave a coalesced, boundary-tagged tiling.
* **Zone allocator** (`Powers`, `ZoneModel`, `ZoneSizes`, `ZoneSpec`, `ZoneRep`,
  `ZoneAllocator`, `ZoneTheory`, `ZoneRuns`, `ZoneUndo`, `ZoneLosses`, `ZoneLayout`,
  `ZoneSession`).
  Pages cut into blocks of one power-of-two class, free chains through the blocks, doubly
  linked class lists, and page descriptors that are blocks of the same heap. `ZoneModel`
  and `ZoneSpec` are the reference: pages, lists, descriptors and owners without pointers.
  The class `Heap` is the pointer program; each method is proved to do to the reference
  what `ZoneSpec` says, and the mutual recursion of allocating and freeing ends by a rank
  on classes. `ZoneSession.Session` runs any legal calls on it.
* **Flat file system** (`FfsFormat`, `FfsContents`, `FfsModel`, `FfsSteps`, `FfsTree`,
  `FfsDirs`, `FfsLinks`, `FfsNames`, `FfsRemount`, `FfsWriting`, `FfsAstray`, `FfsVolume`,
  `FfsMkfs`, `FfsImage`, `FfsLasting`, `FfsRuns`, `FfsAmple`, `FfsSession`). Device of
  512-byte blocks, bitmaps in memory and on the device, datablocks, descriptors,
  directories as files. `Agrees` ties device, memory and the table of files together, and
  `Rep` adds that every bit has its page on the device; `TreeOf` is what users see: files
  with bytes and link counts. Every method of `Volume` is an equation between trees, and
  directories are proved to be finite maps. `FfsSession.Session` goes from `mkfs` through
  any legal calls to the second mount.
* **Configuration reader** (`ConfMachine`, `ConfTable`, `ConfComments`, `ConfSteps`,
  `ConfGrammar`, `ConfMeaning`). Table-driven machines on a stack, with triggers and
  characters handed back, against the main table alone on text without comments; and the
  main table against a grammar that knows no tables: exactly the texts of the grammar are
  read, and shown is what they say.
* **Virtual memory** (`VirtualMemory`, `VirtualProcesses`). Frames, eviction, process
  death and fault counting with an arbitrary choice among possible victims.

## What the code does not do

* `mem_realloc` of the linear allocator sliding left without a remainder writes the
  enlarged block's header back as a free one, because one variable holds a size and a left
  neighbour's size in turn; taking both neighbours without a remainder loses the slack.
  The three largest sizes are negative as an `int` and come out as 0, so that with a free
  neighbour the block shrinks to nothing. `LinearAllocator.Sound` is the exact condition;
  `LinearTheory.ExactFitRun`, `LinearTheory.SlackRun` and `LinearTheory.WrappedRun` are
  runs that break it. Its calls of `memmove` copy the new size and so read past the old
  block; what lies beyond the arena is left open. `memfree` on the last path is read as
  `mem_free`.
* The zone allocator takes a page out of circulation for good when that page's descriptor
  cannot be allocated, drops a block when a busy page cannot get its descriptor back, and
  keeps page counts of multipage blocks in a signed byte. Each loss is characterised
  exactly (`ZoneRuns.AllocFate`, `ZoneSpec.Release`, `ZoneRuns.ReleaseFate`) and shown by
  a run from the initial heap (`ZoneRuns.FirstRequestLeaks`, `ZoneLosses.BlockLost`,
  `ZoneLosses.LongRunStranded`), and freeing everything restores the initial heap exactly
  when none of them happened.
* Rounding a request through a single-precision float gives the least power of two unless
  the conversion crosses the next one (`Powers.RoundPow2Least`).
* `file_read` returns the wrong bytes at offsets that are no multiple of the block size,
  and more than was asked for when a request of at least one block is no multiple of it
  and does not reach the end of the file (`FfsContents.ReadsRight`).
* Mounting reads a bitmap of several pages to the wrong place: the offset into the buffer
  is decreased after each page, so that the second page goes in front of the buffer
  (`FfsRemount.StraysExactly`, `FfsVolume.Volume.ReadBitmap`). With 4097 to 4103 blocks
  `mkfs` gives the block bitmap one page for more bits than it holds. Such a device can be
  mounted, but once its first 4096 blocks are taken, the bit of the next one is written to
  the block of the descriptor bitmap, and the next mount has lost two of the three files
  (`FfsLasting.PageOverrun`, `FfsLasting.LosesFiles`). What `mkfs` writes is mounted
  within the buffers, holds its files, and survives whatever is allocated, exactly for
  sizes from 9600 bytes up to, but not including, 4097 blocks, on devices whose unwritten
  bitmap bits were clear (`FfsLasting.WorksExactly`); on others it takes free blocks for
  used ones (`FfsImage.FreshExactly`).
* Nobody checks for free space or for the 127 entries of a datablock. `file_write` and
  everything that adds to a directory fail exactly when `FfsTree.Starved` holds: the
  number of no block is read, or an entry written behind the datablock. That is the
  `fault` of `FfsVolume.Volume.FileWrite` and of its callers.
* A write whose position leaves out blocks of the file (`FfsTree.Astray`) goes through,
  and the data can even be read back. But the new block is counted once and entered behind
  entries that are not there, so that size, count and entries no longer fit any files
  whatever (`FfsAstray.AstrayWrite`). One byte at position 5000 of a new file makes a list
  of one entry, which is block 0 (`FfsAstray.GapAt5000`); `FfsSession.GapRun` gets there
  from `mkfs`. A write does what it should exactly when it is neither astray nor starved
  (`FfsAstray.WritesExactly`).
* `choice_lru` does not take a page that was not used lately: it takes one with the highest
  flag word, so that pages with input or output go first, among these the accessed ones,
  and among these the dirty ones (`VirtualMemory.PicksForemost`).
* The configuration reader takes a blank between a section's value and its brace, or
  between a property's value and its semicolon, for a syntax error, and a quote right
  behind the opening quote for the first character of the value
  (`ConfGrammar.BlockOk`, `ConfMeaning.FaultsExactly`).

## Model

| member | source | states |
|---|---|---|
| LinearAllocator.Extent | linear-allocator/allocator.c:38-44 | the block that a header written at an offset really covers once free neighbours behind it are absorbed; the recursion ends |
| LinearAllocator.Arena.constructor | linear-allocator/allocator.c:51-82 | initialisation gives a whole heap: two busy sentinels and one free block |
| LinearAllocator.Arena.WriteHeader | linear-allocator/allocator.c:38-49 | a header write changes exactly the header of the merged block and the left-size tag of the block behind it |
| LinearAllocator.Arena.Alloc | linear-allocator/allocator.c:84-117 | first fit: fails exactly when no free block is large enough and then changes nothing, else the leftmost one is used, the live blocks gain exactly the new one, which is the rounded request or all of a block whose rest could hold no header, and no payload changes |
| LinearAllocator.Arena.Free | linear-allocator/allocator.c:229-251 | the live blocks lose exactly the freed one, the heap is whole and coalesced on both sides, no other payload changes |
| LinearAllocator.Arena.Realloc | linear-allocator/allocator.c:119-227 | in all five strategies, for every size_t, the heap stays whole, the first min(old, new) bytes are kept and every other payload is untouched if and only if Sound held before the call; the block is given exactly, stays where it is whenever it or the free block behind it has room, and keeps at most a header and three bytes too much; None exactly when neither a neighbour nor a free block has room, and then nothing changed |
| LinearAllocator.ResizedFits | linear-allocator/allocator.c:119-213 | the block goes elsewhere exactly when there is no room around it; otherwise it starts where it did, or ends where it did, or takes both sides, in this order, and is no larger than the request rounded up unless the rest could hold no more than a header |
| LinearAllocator.Arena.ReallocShrink | linear-allocator/allocator.c:126-140 | shrinking cuts the block to the rounded size exactly when more than a header is left over; by LinearTheory.Canonical that becomes a free block |
| LinearAllocator.Arena.ReallocRight | linear-allocator/allocator.c:143-160 | growing into the free block behind, with the exact size taken |
| LinearAllocator.RetSize | linear-allocator/allocator.c:18-20 | ceil_4 through an int: the rounded size, and 0 for the three largest sizes |
| LinearAllocator.Arena.ReallocLeft | linear-allocator/allocator.c:163-190 | sliding left over an overlap keeps the contents although headers are written first, exactly when Sound holds |
| LinearAllocator.Arena.ReallocBoth | linear-allocator/allocator.c:192-213 | taking both neighbours keeps heap and contents exactly when Sound holds |
| LinearAllocator.Arena.ReallocElsewhere | linear-allocator/allocator.c:215-219 | allocate, copy, free: contents move, everything else stays, None exactly when no free block is large enough |
| LinearAllocator.FreeHeaderFails | linear-allocator/allocator.c:171-185 | after the exact fit to the left the memory cannot be a heap in which the block was enlarged |
| LinearAllocator.BothOutcome | linear-allocator/allocator.c:196-208 | for every remainder of the both-sides branch, whether the heap survives |
| LinearTheory.Canonical | linear-allocator/allocator.c:229-251 | a heap is determined by its live blocks: no history leaves different free blocks behind |
| LinearTheory.AllFreed | linear-allocator/allocator.c:229-251 | when only the sentinels are live the heap is the initial one |
| LinearTheory.FreeAll | linear-allocator/allocator.c:229-251 | freeing all user blocks in any order restores the initial heap |
| LinearTheory.Conservation | linear-allocator/allocator.c:66-79 | sizes and headers of all blocks add up to the arena |
| LinearTheory.GapShape | linear-allocator/allocator.c:229-246 | between consecutive live blocks lies nothing or exactly one free block |
| LinearTheory.NoneExactlyWhenNoGap | linear-allocator/allocator.c:90-116 | the search fails exactly when no gap between consecutive live blocks holds the rounded request and a header |
| LinearTheory.LeftmostGap | linear-allocator/allocator.c:90-110 | otherwise the leftmost such gap is used |
| LinearTheory.ExactFitRun | linear-allocator/allocator.c:171-185 | a run of public calls after which mem_realloc does not succeed |
| LinearTheory.SlackRun | linear-allocator/allocator.c:192-213 | the same where taking both neighbours leaves less than a header |
| LinearTheory.WrappedRun | linear-allocator/allocator.c:124-160 | the same for the size 0xFFFFFFFF |
| Powers.RoundPow2Least | zone-allocator/allocator.c:22-25 | the result is a power of two and large enough; it is the least one exactly when the float conversion does not cross the next power of two |
| Powers.NoOvershootBelow | zone-allocator/allocator.c:22-25 | below 2^25 the conversion never crosses the next power of two |
| Powers.FirstOvershoot | zone-allocator/allocator.c:22-25 | at 2^25 the result is 2^26, and no smaller request overshoots |
| ZoneSizes.ClassOfLeast | zone-allocator/allocator.c:182-185 | the class is that of the least power of two at or above the request, which counts as 24 at least, or the next one exactly when the conversion overshoots |
| ZoneAllocator.Heap.constructor | zone-allocator/allocator.c:55-90 | the tables represent the initial zone: page 0 held, all others free, all lists empty |
| ZoneAllocator.Heap.AppendPageToClass | zone-allocator/allocator.c:92-107 | the descriptor is linked behind the last one of its class and nothing else changes |
| ZoneAllocator.Heap.RemoveFromClass | zone-allocator/allocator.c:109-118 | the list loses exactly that page; links of its neighbours bypass it |
| ZoneAllocator.Heap.LinkBlocks | zone-allocator/allocator.c:150-153 | all blocks of the page are chained in order, no other block is written |
| ZoneAllocator.Heap.AllocPage | zone-allocator/allocator.c:120-165 | the first free page becomes the only partly used page of the class, with its descriptor in the page or in a block of the descriptor's class; without one the page is stranded |
| ZoneAllocator.LocalExactlyDC | zone-allocator/allocator.c:134-140 | among powers of two exactly one class passes the test for a descriptor in its own page |
| ZoneAllocator.Heap.FindFreePages | zone-allocator/allocator.c:167-180 | the leftmost run of that many free pages, or -1 exactly when there is none |
| ZoneSizes.RunCovers | zone-allocator/allocator.c:223-225 | the page count of a multipage block always covers the rounded size |
| ZoneAllocator.Heap.TakeBlock | zone-allocator/allocator.c:201-218 | the first free block of the page is handed out; a page that runs full leaves its list and gives its descriptor back |
| ZoneAllocator.Heap.MemAlloc | zone-allocator/allocator.c:182-242 | allocation does to the zone what the reference Alloc does and keeps the bytes of all live blocks; terminates by a rank on classes |
| ZoneAllocator.Heap.FreePage | zone-allocator/allocator.c:259-267 | a page whose blocks are all free leaves its list and is free again, its descriptor block released |
| ZoneAllocator.Heap.MemFree | zone-allocator/allocator.c:269-319 | release does to the zone what the reference Release does and keeps the bytes of all other live blocks |
| ZoneAllocator.Heap.MemRealloc | zone-allocator/allocator.c:244-257 | allocate, copy, free: the copied bytes are in the new block, all other live blocks are kept, nothing is freed when allocation fails |
| ZoneAllocator.Heap.Store | zone-allocator/allocator.c:244-257 | writing at most its capacity into one's own block changes that block's bytes only and keeps the zone represented |
| ZoneAllocator.LiveFootprint | zone-allocator/allocator.c:269-277 | whatever users write into their blocks touches no descriptor and no free chain |
| ZoneSpec.Alloc | zone-allocator/allocator.c:182-242 | the well-formedness invariant is kept, exactly one block becomes live, lost blocks stay the same |
| ZoneSpec.Release | zone-allocator/allocator.c:269-319 | the invariant is kept, exactly that block stops being live, and it is lost exactly when its page is busy, of another class than the descriptor's, and no descriptor can be had |
| ZoneSpec.AllocDC | zone-allocator/allocator.c:134-138 | an allocation in the descriptor's class touches only pages and lists of that class; it fails exactly when it has no block and no page is free |
| ZoneTheory.AllocKeepsInv | zone-allocator/allocator.c:182-242 | over every allocation: class lists are exactly the partly used pages, chains and owned blocks make up each page, one descriptor per partly used page, runs contiguous, no page without a used block |
| ZoneTheory.ReleaseKeepsInv | zone-allocator/allocator.c:259-319 | the same over every release |
| ZoneTheory.AllFreed | zone-allocator/allocator.c:259-319 | with nothing live, lost or stranded the zone is the initial one, delegated descriptors included |
| ZoneUndo.ReleaseUndoesAlloc | zone-allocator/allocator.c:201-206 | releasing a block right after allocating it from a page that kept another one brings back the very same heap |
| ZoneUndo.AllocUndoesRelease | zone-allocator/allocator.c:282-285 | a block released into the first page of its class is the next one handed out, and the heap is the same again |
| ZoneRuns.AllocFate | zone-allocator/allocator.c:120-165 | exactly when allocation fails, exactly which page it strands, and no live block changes class or length |
| ZoneRuns.ReleaseFate | zone-allocator/allocator.c:274-280 | a release strands exactly the pages beyond the recorded length, none up to 127 pages, and no other live block changes class or length |
| ZoneRuns.RunKeepsInv | zone-allocator/allocator.c:182-319 | the invariant holds after every run of allocations, releases and reallocations |
| ZoneRuns.RunReach | zone-allocator/allocator.c:120-165 | what is out of reach stays so, and grows over a run exactly when some call leaked |
| ZoneRuns.FreeingAllRestores | zone-allocator/allocator.c:259-319 | a run that ends with nothing live ends in the initial heap if and only if no call leaked |
| ZoneSession.Session | zone-allocator/allocator.c:182-319 | the pointer program over any legal calls from alc_init: the heap is where the reference run ends, the invariant holds, and with nothing live it is the initial heap exactly when no call leaked |
| ZoneRuns.FirstRequestLeaks | zone-allocator/allocator.c:143-145 | in a heap of two pages the first request for 64 bytes fails and strands the only free page |
| ZoneLosses.BlockLost | zone-allocator/allocator.c:295-308 | after four requests for 64 and seven for 24 bytes in a heap of three pages, a freed 64-byte block is lost |
| ZoneLosses.LongRunStranded | zone-allocator/allocator.c:274-280 | a block of 128 pages is recorded with a negative length; freeing it strands all of its pages |
| ZoneLayout.Disjoint | zone-allocator/allocator.c:17-19 | blocks and descriptors never overlap and lie in the arena beyond page 0 |
| ZoneLayout.AllocGivesRoom | zone-allocator/allocator.c:182-238 | a block handed out has at least the requested size and is apart from every other block in use and every descriptor |
| ZoneLayout.AllocLeast | zone-allocator/allocator.c:182-225 | a block of a page has as its capacity the least power of two at or above the request exactly when the conversion does not overshoot, and twice that when it does; it comes from a page exactly when a page holds four; a multipage block has the pages for that size, one at least |
| ZoneLayout.PageFilled | zone-allocator/allocator.c:128 | the blocks of a page fill it |
| ZoneLayout.CopiedExactly | zone-allocator/allocator.c:248-254 | min(old capacity, new size) bytes are copied, unless a block of more than 127 pages is resized past what a signed byte records |
| FfsFormat.BitSet | fs/ffs.h:17-19 | setting or resetting a bit changes that bit and no other |
| FfsFormat.InfoRoundTrip | fs/const.h:8-16 | the information sector written by mkfs reads back as the same geometry; its seven words |
| FfsFormat.FdSpliced | fs/ffs.c:98-113 | a written descriptor reads back, its neighbours in the block are unchanged |
| FfsFormat.FdBytesWords | fs/const.h:20-25 | the four words of a descriptor |
| FfsFormat.FlushSyncs | fs/ffs.c:131-148 | writing out the page of a changed bit brings the device copy of the bitmap up to date |
| FfsContents.FlatPoke | fs/ffs.c:528-540 | writing inside one block of a file writes at that place in the file |
| FfsContents.WriteMore | fs/ffs.c:513-549 | one turn of the write loop extends what has been written by one chunk, whether or not there is a hole before it |
| FfsContents.ChunksAligned | fs/ffs.c:571-596 | from a block boundary the read loop returns the bytes that follow, as far as the request, rounded up to blocks, and the file reach |
| FfsContents.ReadFrom | fs/ffs.c:565-599 | for every offset and request, which bytes file_read returns: first from the start of the block that the offset lies in, then from the next block on |
| FfsContents.ReadsRight | fs/ffs.c:565-599 | file_read returns the requested bytes for every content exactly when the offset is block aligned and the request is below a block, of whole blocks, or reaches the end |
| FfsSteps.AppendRep | fs/ffs.c:516-526 | taking up a new block keeps device, memory and ownership consistent |
| FfsSteps.CreateRep | fs/ffs.c:294-341 | so does creating an inode with an empty datablock |
| FfsSteps.ResizeRep | fs/ffs.c:98-116 | so does writing a changed size or link count |
| FfsSteps.EraseRep | fs/ffs.c:202-230 | so does clearing a file's descriptor and all of its blocks |
| FfsTree.BlockOwnership | fs/ffs.c:150-230 | a block's bit is set exactly when it is a service block or owned; no block belongs to two files or to a file and the service area |
| FfsTree.RoomIsFree | fs/ffs.c:150-165 | there is a clear bit exactly when fewer blocks are owned than there are |
| FfsTree.EraseTree | fs/ffs.c:202-230 | removing a file gives back its datablock and every listed block and changes no other file |
| FfsVolume.Volume.WriteBBitmask | fs/ffs.c:131-148 | the page of the changed bit is written, no other block |
| FfsVolume.Volume.GetEmptyBlock | fs/ffs.c:150-165 | the first clear bit is set in memory and on the device, or 0 exactly when all are set, for every geometry |
| FfsVolume.Volume.GetEmptyFd | fs/ffs.c:186-200 | the same for descriptors |
| FfsVolume.Volume.WriteInode | fs/ffs.c:98-116 | exactly the file's own record changes |
| FfsAstray.AstrayWrite | fs/ffs.c:513-555 | a write that leaves out blocks fails for the same reasons as any other; otherwise count, entries, size and data are as the code leaves them, the data read back, and no table of files agrees with the result |
| FfsAstray.WritesExactly | fs/ffs.c:501-555 | the write succeeds and the result represents the intended files if and only if it is neither astray nor starved |
| FfsAstray.GapAt5000 | fs/ffs.c:513-526 | one byte at position 5000 of an empty new file: one entry counted, which is block 0, and the byte's block entered as the tenth |
| FfsVolume.Volume.FileWrite | fs/ffs.c:501-555 | for every position the volume becomes what WriteFile says; a fault exactly when blocks or entries run out; unless the position leaves out a block the file's bytes are the old ones, filled up to the position, with the data spliced in there or at the end, every other file and the agreement of device and memory are kept, and exactly the blocks needed are taken; else no files agree with the result |
| FfsVolume.Volume.FileRead | fs/ffs.c:565-599 | the bytes copied and the new offset, for every offset and request |
| FfsVolume.Volume.ReadWhole | fs/ffs.c:74-77 | the callers' loop reads exactly the file's bytes |
| FfsVolume.Volume.LookUp | fs/ffs.c:57-94 | the first entry with the name that has an inode |
| FfsVolume.Volume.AddToDir | fs/ffs.c:232-243 | goes wrong exactly when there is no block for the entry; else the directory's bytes gain exactly the encoded entry |
| FfsVolume.Volume.RemoveFromDir | fs/ffs.c:245-283 | the directory's bytes lose exactly the first entry with the name; no block is released |
| FfsVolume.Volume.CreateEntry | fs/ffs.c:285-352 | a new empty file of that kind with one link under the name, in the first free descriptor; an error and no change exactly when there is none, a fault exactly when blocks run out, and exactly the blocks taken |
| FfsVolume.Volume.LinkFile | fs/ffs.c:366-379 | one more entry, one more link, and exactly the blocks taken; a fault exactly when there is no block for the entry |
| FfsVolume.Volume.ReleaseFd | fs/ffs.c:202-230 | the bits of every listed block, of the datablock and of the descriptor are cleared in memory and on the device |
| FfsVolume.Volume.UnlinkFile | fs/ffs.c:381-401 | the entry goes, and with the last link the file, all of whose blocks are free again |
| FfsVolume.Volume.RemoveDir | fs/ffs.c:403-411 | refused exactly when the directory is not empty |
| FfsVolume.Volume.ReadBitmap | fs/ffs.c:693-703 | for any number of pages: a fault exactly when there are two or more, so that a copy leaves the buffer, or one that the device does not have; else the buffer holds the page |
| FfsVolume.Volume.ReadRoot | fs/ffs.c:678-773 | both bitmaps and one inode per set bit are read back, unless a bitmap strays or a service block is missing |
| FfsVolume.Volume.Mount | fs/ffs.c:775-852 | for every device: nothing exactly without the magic; a fault exactly when a bitmap strays or the device ends within the service blocks; a device left by a consistent volume with bitmaps of one page gives that volume back |
| FfsDirs.EntriesAppend | fs/ffs.c:238-241 | appending an encoded entry appends the entry, whatever follows the name's NUL |
| FfsDirs.EntriesCut | fs/ffs.c:262-272 | shifting down removes exactly one entry |
| FfsDirs.MapAppend | fs/ffs.c:232-243 | as a map, the directory gains that name and changes no other |
| FfsDirs.MapRemove | fs/ffs.c:245-283 | as a map, it loses that name and changes no other |
| FfsLinks.CreateKeeps | fs/ffs.c:285-352 | creation keeps the tree well formed and adds one name to one directory |
| FfsLinks.CreateMakes | fs/ffs.c:285-352 | the new file is of the kind asked for, empty, with one link; a new directory has no names; the directory grows by one entry; all other files stay as they are |
| FfsLinks.LinkKeeps | fs/ffs.c:366-379 | so does linking; the link count stays the number of entries |
| FfsLinks.LinkMakes | fs/ffs.c:366-379 | one link more, the same bytes and kind; one entry more; all other files stay as they are |
| FfsNames.LookupIsMap | fs/ffs.c:57-94 | in a well-formed tree lookup is the directory's map |
| FfsNames.UnlinkNameKeeps | fs/ffs.c:381-411 | unlinking removes one name from one directory, and the file goes exactly when no entry names it any more |
| FfsNames.UnlinkMakes | fs/ffs.c:381-401 | one entry less; the file is gone exactly when that was its last link, else has one link less and the same bytes; all other files stay as they are |
| FfsRuns.StepKeeps | fs/ffs.c:285-555 | every call keeps link counts equal to entry counts, does to every directory, as a map, what it should, and to the kinds, links and bytes of all files as well |
| FfsRuns.EveryRunWellFormed | fs/ffs.c:57-411 | so over every run from a fresh file system |
| FfsSession.Perform | fs/ffs.c:285-555 | the methods of the volume do to tree and block counts what a call should; a fault exactly when blocks or entries run out |
| FfsAmple.AmpleNeverStarves | fs/ffs.c:150-165 | after mkfs, calls whose demand is at most the blocks left, with no write behind 127 blocks and at most 4062 calls, can all be met |
| FfsSession.Session | fs/ffs.c:678-852 | made by mkfs, mounted, used by any legal calls and mounted again, the volume holds what the calls make of the three files; it stops exactly when a call starves in the state that the calls before it lead to, and never on an ample run |
| FfsSession.GapRun | fs/ffs.c:513-526 | a run from mkfs that ends in a volume with which no files agree |
| FfsRemount.StraysExactly | fs/ffs.c:693-703 | the offset of the bitmap copy leaves the buffer exactly from the second page on |
| FfsRemount.RemountIdentity | fs/ffs.c:678-773 | for every geometry: remounting stays in its buffers exactly with bitmaps of one page, and then changes nothing: bitmaps, inodes, sizes, link counts and contents |
| FfsMkfs.Mkfs | fs/mkfs.ffs/mkfs.c:55-163 | on any device of ten blocks or more the program writes the intended image, block by block, and leaves the rest as it was |
| FfsMkfs.LayoutTight | fs/mkfs.ffs/mkfs.c:58-72 | one descriptor for every 3200 bytes, and no region larger than it has to be; the block bitmap may lack the place for up to seven bits |
| FfsMkfs.WriteBitmap | fs/mkfs.ffs/mkfs.c:80-93 | exactly the first c bits are set, in whole bytes; bytes behind them keep what they were |
| FfsLasting.WorksExactly | fs/mkfs.ffs/mkfs.c:58-74 | the sizes and devices for which the image is mounted safely, is consistent, and survives every allocation |
| FfsLasting.PageOverrun | fs/ffs.c:131-148 | taking block 4096 with a bitmap of one page overwrites the descriptor bitmap: after a mount the block is free and the files are gone |
| FfsLasting.LosesFiles | fs/ffs.c:150-165 | from 4097 to 4103 blocks, calls of ffs_get_empty_block lead there from the image of mkfs |
| FfsImage.FreshExactly | fs/mkfs.ffs/mkfs.c:77-159 | mounting the image gives a consistent volume with exactly the three files if and only if there are descriptors for them and the bits that mkfs leaves as they were are clear |
| FfsImage.ImageTreeOk | fs/mkfs.ffs/mkfs.c:100-151 | its directory tree is well formed and the root maps the two names |
| ConfMachine.Context.SendChar | email/machine.py:44-66 | one turn of the generator on top of the stack |
| ConfMachine.Context.Stop | email/machine.py:26-31 | the machine goes and its parent takes up the characters handed back, triggers off meanwhile |
| ConfMachine.Context.Process | email/machine.py:68-81 | the whole text and a final newline, up to the first fault |
| ConfComments.MainRows | email/conf2.py:14-90 | no entry for the comment characters outside quotes; triggers are off exactly while a quoted value is read |
| ConfComments.BlockRows | email/conf2.py:104-120 | the table of the block comment machine, state by state |
| ConfComments.SendSlash | email/conf2.py:109-112 | a slash that opens no comment is the main machine's syntax error |
| ConfComments.ShapeKept | email/machine.py:44-66 | between characters the stack has at most two machines and triggers are off exactly in the two quoted states |
| ConfComments.Transparent | email/machine.py:44-81 | from any unquoted state: same sections and same syntax error as the main table alone on the text without comments |
| ConfComments.CommentsTransparent | email/machine.py:68-81 | so for process on every text |
| ConfComments.Read | email/machine.py:68-81 | a whole reading ends with the sections and the syntax error of the main table alone on the text without comments |
| ConfGrammar.Parsed | email/conf2.py:14-90 | a text that the main table reads without a syntax error consists of whole sections of the grammar and the start of a further one, and the handlers have noted what these say |
| ConfGrammar.Accepted | email/conf2.py:14-90 | all such texts are read |
| ConfMeaning.ReadsExactly | email/conf2.py:14-90 | a text is read to its end between two sections, and L shown, if and only if it is made of whole sections that say L |
| ConfMeaning.FaultsExactly | email/machine.py:57-61 | there is no syntax error exactly in the texts of the grammar that may end anywhere |
| ConfMeaning.Unambiguous | email/conf2.py:14-90 | no text says two things |
| ConfMeaning.SayableExactly | email/conf2.py:14-90 | some text says L exactly when names are identifiers, section values words, and property values not empty and without a quote behind their first character |
| ConfMeaning.RoundTrip | email/machine.py:68-81 | sections written out, with any blanks, are read back by the whole stack of machines without a syntax error |
| ConfMeaning.Read | email/machine.py:68-81 | process on any text shows L and ends between two sections exactly when the text without its comments says L |
| ConfMeaning.LineComment | email/conf2.py:97-102 | a line comment leaves its newline |
| ConfMeaning.BlockComment | email/conf2.py:112-120 | a block comment leaves nothing |
| VirtualMemory.VictimExists | virtual-memory/mem.py:184-200 | every choice algorithm finds a victim when a page is resident |
| VirtualMemory.PicksForemost | virtual-memory/mem.py:184-200 | comparing flag words ranks pages without input or output first, then those not accessed, then clean ones; choice_nru takes a first page of this order, choice_lru a last one |
| VirtualMemory.BitsExpire | virtual-memory/mem.py:108-116 | access and dirty bits last as many rounds as the countdown says, 50 after loading, and go in the next; a touch does not change the countdown |
| VirtualMemory.FramesPartition | virtual-memory/mem.py:158-181 | every frame is either free or holds exactly one resident page |
| VirtualMemory.FrameCount | virtual-memory/mem.py:158-181 | free frames and resident pages add up to all frames |
| VirtualMemory.Vm.ReplacePage | virtual-memory/mem.py:163-173 | exactly one page is swapped out and its frame freed: under choice_nru none that a resident page ranks below, under choice_lru none that ranks below a resident one |
| VirtualMemory.Vm.MakeResident | virtual-memory/mem.py:128-147 | a page that was swapped out is loaded with fresh flags into the last free frame, or that of one victim when no frame was free, and a fault is counted exactly when faults count; a resident page stays as it is |
| VirtualMemory.Vm.RequestPage | virtual-memory/mem.py:119-126 | a new page, resident without a fault; the others stay as they are but for one victim when no frame was free |
| VirtualMemory.Vm.AccessPage | virtual-memory/mem.py:149-156 | one access, a fault exactly when the page was swapped out; the page is touched, and what happens to frames and other pages |
| VirtualMemory.Vm.KillPage | virtual-memory/mem.py:175-181 | the page is gone, its frame free exactly once, as the next to be used |
| VirtualMemory.Vm.ResetBits | virtual-memory/mem.py:108-116 | exactly the resident pages age |
| VirtualProcesses.Pcb.Renew | virtual-memory/mem.py:39-44 | exactly the process's pages are killed, all others stay as they are |
| VirtualProcesses.Pcb.Quant | virtual-memory/mem.py:46-64 | a process at the end of its life loses all its pages; otherwise it touches one resident page of its own, the last one or the one under the local number, takes no page of another, evicts one victim at most, and faults exactly when that page was swapped out |
| VirtualProcesses.System.Spawn | virtual-memory/mem.py:93-94 | a new process holds no pages; the others and the memory are as before |
| VirtualProcesses.System.Turn | virtual-memory/mem.py:92-98 | one process runs for a turn, then all resident pages age; page maps divide up the live pages, and evictions equal faults plus pages swapped out plus pages killed while swapped out |

## Left out

* Linear allocator: `malloc` failure, dumps and the statistics of its driver. Arenas have
  less than 2^31 bytes; offsets are then never negative and sizes up to 2^32 - 1 are
  covered. A header takes 12 bytes (a flag padded to a word and two 32-bit words).
* Zone allocator: pointers are a page and a slot; `ZoneLayout` gives the byte addresses.
  Sizes are those of a 32-bit layout, 24 bytes for a descriptor and one word for a link,
  so that a freed descriptor block still holds the page index that is read from it
  afterwards; with 64-bit pointers the link would overwrite it. Requests whose class is 32
  or more are not covered (the shift in `round_pow_2` is then undefined).
* Zone allocator: the tables at the start of page 0 are arrays of their own; page sizes
  are powers of two and page 0 is taken to be large enough for the tables.
* Zone allocator: the branch of `mem_alloc` that updates a left neighbour is never taken,
  because the page is the first of its list; the model asserts that instead. `free_page`
  clears the recorded class after unlinking the page instead of before, which no code in
  between reads.
* ZoneAllocator.Heap.MemRealloc: says nothing about bytes beyond those the user stored; a
  copy that reads past the old block is not followed.
* File system: `ffs_setattr` (its loops do not index the block list), `readdir`, symbolic
  link targets, kernel messages, dentries, reference counts, the inode cache and locks.
  Operations are atomic and each buffer is written through when it is changed.
* File system: what the kernel makes sure of is assumed, as the `requires` clauses say: a
  new name is absent and has at most nine characters, a removed name is present, only
  files are linked and written. What a call leaves behind after a fault is not described.
* FfsRuns.StepKeeps: writes that leave out blocks are not among the calls of a run,
  because no files agree with what they leave behind.
* FfsVolume.Volume.CreateEntry: kinds other than file, directory and link cost a
  descriptor in the model as in the code, but no caller passes one.
* FfsVolume.Volume.LinkFile: assumes that the link count stays below 2^32.
* FfsVolume.Volume.FileRead: two reads of list entries whose values are never used are
  left out.
* FfsVolume.Volume.ReadRoot: what a copy outside the buffer overwrites is not described.
  The block counts that the kernel keeps per inode are not modelled.
* FfsMkfs.Mkfs: files of fewer than ten blocks, on which what is written overlaps or ends
  behind the device, are not covered; the double-precision product that gives the number
  of descriptors is the exact quotient by 3200.
* Configuration reader: line numbers in messages; a table entry is a character class, a
  later one winning over an earlier one as in the dictionary it stands for.
* Virtual memory: printing, the timer loop and its random numbers, which are parameters; a
  new page's missing frame number is written as 0 until it becomes resident. The second
  variant of the model, with another timer, and the older configuration readers are not
  modelled.