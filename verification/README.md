# Golem kernel, verified model

A Dafny 4.11 model of the parts of the Golem kernel whose correctness shows
only over whole runs: paging with its frame allocator and heap, the in-memory
filesystem under the mount table, the scheduler with its context switch, and
Sentinel's audit chain, configuration hand-off, degradation monitor and
virtqueue. `dafny verify dfyconfig.toml` checks all of it.

| files | what they model |
|---|---|
| `Common` | options, results, machine words, number facts |
| `FrameAllocator`, `PageTables`, `TranslateReads`, `Paging`, `HeapInit`, `Heap` | `src/memory` |
| `RamFs`, `RamFsRename`, `RamFsOutcomes`, `RamFsRuns`, `RamFsObject` | `src/fs/ramfs.rs`: tables as values, rename, when each call succeeds and what it leaves, whole runs, the mutable object |
| `Paths`, `Vfs`, `VfsRename` | `src/fs/vfs.rs` |
| `Scheduler`, `SchedulerRuns`, `SchedulerSlices`, `SchedulerObject` | `src/scheduler/scheduler.rs`: decisions, whole runs, slices and blocking over runs, the mutable object |
| `ContextSwitch`, `Switching` | `src/scheduler/context.rs` and `process.rs`; scheduler and machine together |
| `Audit`, `Sha256` | `src/sentinel/audit.rs` |
| `Handoff`, `ConfigSession`, `Migration`, `FloatOrder` | `src/safemode/sentinel_config.rs`, `src/sentinel/migration.rs`; single-precision patterns as numbers |
| `Monitor`, `MonitorScores` | `src/sentinel/monitor.rs`: the monitor, and the laws of its scores |
| `VirtQueue` | the virtqueue and channel of `src/sentinel/ipc.rs` |

Code that updates fields, arrays or memory in place is a class or a method with
loops, each proved to compute a specification function; the properties are
proved about those functions and about every sequence of calls. Machine
integers are unbounded numbers with the wrap-around written out. The kernel is
built in release mode, where overflow wraps; the model follows that.

Parameters of the model: boot memory maps and bootloader page tables, the
addresses of stacks, clocks and timestamps, number parsing in the Safe Mode
console, and the digest function wherever a statement ends in "or else two
inputs with the same digest are at hand". `Sha256.ShaIsDigest` shows that the
embedded SHA-256 is such a digest.

## What is proved

- **Paging** refines a flat map from pages to frames: `map` and `unmap` change
  exactly one page and only on success, even where a failing `map` has already
  created tables. Tables created on the way never stand in the way: a page is
  writable, or open to user code, at all four levels exactly when that was asked
  for and the tables found there allow it. The reader that takes no lock is linearizable against every
  store the writers issue if it loads each entry once; as written, with a read
  for each accessor, exactly when the page is still mapped as the leaf's address
  is read. `heap::init` succeeds exactly when there are frames enough, to the
  frame.
- **Allocators.** The bitmap's count is the number of clear bits, an allocation
  succeeds exactly when there is one, and no frame is handed out twice. A heap
  request is met from the first block that can be cut at a multiple of the
  alignment, and fails exactly when there is none; a block given back is the one
  the same request gets next. Free
  and live heap blocks tile the heap after every run, exactly as long as no
  request is met from a block whose alignment wraps around 2^64.
- **Filesystem.** Every reachable state is one tree; each call succeeds, and gives
  each of its errors, exactly under a condition on entries and walks; renaming moves a subtree
  without changing its meaning; path resolution ignores mount order; and it is
  decided exactly when the destination path of a rename leads to what was moved.
- **Scheduler.** Every process is in exactly one right place, keeps the processor
  for exactly its slice and then hands it to the head of the queue; waiting is
  bounded, also for the woken and the newly spawned; a blocked process never runs
  before it is woken, exit is final, and a resumed process continues with exactly the
  registers and stack it was suspended with.
- **Sentinel.** The audit chain is tamper evident up to digest collisions, and
  ambiguous exactly where text holds the separator. A Safe Mode session emits a
  record exactly on a confirmed save, and it is applied exactly once. The tier
  depends only on the last `window` observations, and the cumulative score is
  fixed by its laws: signals below their gate do not count, one alone counts
  linearly from its gate to one, and together they add up to at most one. The
  virtqueue passes every
  message on once and in order, whole in both directions if and only if the
  full queue size was negotiated, and its polling loop ends when the device has
  done its part.

## Where the code differs from its own description

The model follows the code in each case.

- `translate` promises the state at some instant during the walk. It reads the
  leaf entry twice, for its present bit and for its address. If the page is
  unmapped in between, the answer is the offset in frame zero, which was the
  translation at no instant (`TranslateReads.TornAtOnePage`; the exact condition
  is in `TranslateReads.TornTranslate`). A compiler may merge the two reads, but
  nothing requires it to.
- The entry mask keeps 52 address bits: a larger physical address is cut, not
  refused (`Paging.AddressKept`). A huge bit in an L4 entry is ignored by
  `translate` and refused by `map`.
- Rounding a region's start up to a frame wraps at 2^64; `init` then scans
  frames outside the region (`FrameAllocator.ScansExactlyInside`).
- Rounding a heap block up to an alignment also wraps: the allocator then returns
  null and leaves a list that cannot be right (`Heap.LinkedListAllocator.Alloc`).
  Before that it stores a header at the address that equals the size, outside
  the heap, where a machine may fault; memory is total in the model.
  On this heap that takes an alignment above 2^45 (`Heap.HeapAlignmentBound`,
  `Heap.WideAlignmentWraps`).
- A successful rename may leave the destination path leading nowhere: "/a" to
  "/a/../b" takes away the directory the path climbs out of
  (`VfsRename.ClimbingOutOfTheMoved`; the exact condition is in
  `VfsRename.RenamedIsFound`).
- `src/scheduler/README.md` says that the bootstrap PCB is never resumed; the code
  queues it like any other process.
- `validate_config` says that without `soft <= medium <= hard` the tiers stop
  being monotonic. They are monotonic under all thresholds
  (`Monitor.TierMonotone`); what the order buys is that each threshold decides
  its own tier (`Monitor.OrderIsExactness`).
- A mount at "//" is stored under the empty path, not one beginning with "/", and
  cannot be reached while something else is mounted at "/"
  (`Vfs.MountPointIsRoot`).
- The token sum of a window is a 32-bit sum: a window that put out 2^32 tokens
  without progress scores no stall (`Monitor.StallLostToWrap`;
  `Monitor.StallIsTrueIff` says exactly when the score is that of the true sum).
- The driver takes used-ring slots modulo 16 whatever size was negotiated. With
  a smaller queue some received messages are lost, and with a size that is not a
  power of two some are read at the length of an earlier one
  (`VirtQueue.ShortQueueLosesMessage`, `VirtQueue.StaleAtTwelve`). Sixteen is
  exactly what it needs (`VirtQueue.FaithfulIff`).
- Migrated thresholds last for one boot: later boots find the record clean and
  start from the defaults (`Migration.SavedConfigurationBoots`).

## Model

| member | source | states |
|---|---|---|
| FrameAllocator.BitmapFrameAllocator.MarkFree | src/memory/allocator.rs:85-96 | the set of clear bits gains the frame if it is in range, and the cached count stays its size |
| FrameAllocator.BitmapFrameAllocator.MarkUsed | src/memory/allocator.rs:98-109 | the set of clear bits loses the frame, and the cached count stays its size |
| FrameAllocator.BitmapFrameAllocator.AllocateFrame | src/memory/allocator.rs:120-139 | succeeds exactly when some frame is free, wherever the cursor stands, takes it out of the free set, and takes the one that comes first in the scan rotated to the cursor |
| FrameAllocator.BitmapFrameAllocator.DeallocateFrame | src/memory/allocator.rs:141-154 | the frame is free again and the cursor is at its word; out-of-range frames change nothing |
| FrameAllocator.BitmapFrameAllocator.Init | src/memory/allocator.rs:170-213 | on success exactly the scanned frames have been freed; each error exactly under its condition; total and free counts move together |
| FrameAllocator.ScansExactlyInside | src/memory/allocator.rs:170-213 | the frames scanned of a region are those wholly inside it if and only if rounding its start up does not wrap, or its end lies below the first frame |
| FrameAllocator.ScannedIsUsableRam | src/memory/allocator.rs:170-213 | if no usable region is scanned beyond its bounds, the freed frames are exactly those wholly inside some usable region |
| FrameAllocator.NeverHandedOutTwice | src/memory/allocator.rs:120-154 | over any sequence of calls, a frame handed out twice was returned in between |
| PageTables.CanonicalPathsIdentifyPages | src/memory/paging.rs:207-214 | canonical addresses have the same four indices exactly when they lie in the same page |
| PageTables.TranslateIsLookup | src/memory/paging.rs:354-401 | the four-level walk computes the flat map from page to mapping, applied to the address |
| PageTables.ResolvePage | src/memory/paging.rs:354-401 | a 4 KiB mapping sends an address to the frame's base plus its page offset |
| PageTables.ResolveHuge | src/memory/paging.rs:374-391 | so do 2 MiB and 1 GiB mappings whose frames are aligned to their size |
| PageTables.LinkStep | src/memory/paging.rs:234-252 | publishing a zeroed table adds exactly that table to the tree and changes no mapping |
| PageTables.LeafStep | src/memory/paging.rs:303-315 | a store into an L1 table moves no table and changes exactly one page |
| PageTables.StoreStepKeepsTree | src/memory/paging.rs:222-260 | every store the writers issue keeps tables unshared and every table found before in place |
| PageTables.LockFreeTranslate | src/memory/paging.rs:348-401 | for a reader that loads each entry once: whatever stores happen between its four loads, its answer is the atomic translation at the instant of the last |
| TranslateReads.TraceKeepsUpperEntries | src/memory/paging.rs:222-346 | over any stores, a present entry of an L4, L3 or L2 table never changes |
| TranslateReads.TornTranslate | src/memory/paging.rs:354-401 | for the reader as written, with up to ten reads and stores between any two: its answer is the atomic translation at the instant of its last read if and only if, when that read was the leaf's address, the page was still mapped then |
| TranslateReads.OneLeafReadIsEnough | src/memory/paging.rs:394-399 | so it always is if no store falls between the two reads of the leaf |
| TranslateReads.UnmappedInBetween | src/memory/paging.rs:394-399 | if the page is unmapped between them the answer is the offset in frame zero, while the page was in its own frame before and nowhere after |
| TranslateReads.TornAtOnePage | src/memory/paging.rs:394-399 | this at four tables, one mapped page and one unmap |
| Paging.AddressSpace.Init | src/memory/paging.rs:167-173 | records the offset; the sentinel value is refused and changes nothing |
| Paging.AddressSpace.NextTableOrCreate | src/memory/paging.rs:222-260 | returns the existing table, or a huge-page conflict, or takes one free frame, zeroes it and links it through an entry that is present, writable, user-accessible exactly on request and nothing else, changing no mapping and no other link, or reports that frames are out |
| Paging.AddressSpace.Map | src/memory/paging.rs:286-315 | the outcome as a function of tables and free frames; on success every address of the page translates to the frame plus offset and every other address as before; on failure no translation changes, and the tables created and frames used are accounted for; every table found before is reached through the entry it was, every new one through an entry with exactly the flags of a link; the page is writable, or open to user code, at all four levels if and only if that was requested and the links already there allow it |
| Paging.GrantedWhenLinksGrant | src/memory/paging.rs:248-303 | for any page mapped through such links: writable or user-accessible at all four levels exactly when its own entry is and so are the links that were there before |
| Paging.AddressSpace.NextTable | src/memory/paging.rs:262-274 | the table below, or which of the two errors |
| Paging.AddressSpace.Unmap | src/memory/paging.rs:322-346 | returns exactly what translation gave for the page and erases that page only; failure changes nothing; no table goes away and none is reached through another entry |
| Paging.AddressSpace.MapThenUnmap | src/memory/paging.rs:286-346 | unmapping undoes mapping: the mapped address comes back and all translations are as before |
| Paging.AddressSpace.TranslateAddress | src/memory/paging.rs:354-401 | entry by entry with the early returns: nothing without an offset, else what the flat view's mapping of the page gives for the address |
| Paging.AddressKept | src/memory/paging.rs:98-112 | an address survives the entry's mask if and only if it fits in 52 bits |
| HeapInit.Init | src/memory/heap.rs:207-244 | succeeds if and only if paging is up, the L4 slot is not huge, no page of the range is mapped yet, and there is a free frame for each of the 2048 pages and each missing table; uses exactly those; the backing frames are distinct, now used, and hold no table; each page is writable at all four levels if and only if the links found on its path were, and none is open to user code; the allocator starts with the whole range free |
| HeapInit.AtMostSixTables | src/memory/heap.rs:207-244 | no more than six tables can be missing, so 2054 free frames always do |
| HeapInit.TablesCreated | src/memory/heap.rs:208-232 | backing one page creates exactly the tables that page still lacks |
| Heap.AlignUpIsLeast | src/memory/heap.rs:247-249 | short of wrap-around, the least multiple of the alignment not below the address |
| Heap.AlignUpWraps | src/memory/heap.rs:247-249 | past 2^64 the rounding comes out as zero |
| Heap.HeapAlignmentBound | src/memory/heap.rs:247-249 | every heap address is rounded up and none to zero if and only if the alignment is at most 2^45 |
| Heap.KernelHeapNeverWraps | src/memory/heap.rs:93-149 | up to that alignment no free block of the kernel heap is one that wraps |
| Heap.WideAlignmentWraps | src/memory/heap.rs:93-149 | on the heap as handed over, 16 bytes aligned to 2^47 are taken from a block that wraps |
| Heap.WrappedPrefixRuins | src/memory/heap.rs:134-145 | after such a cut memory spells no list that could tile the heap with any set of live blocks |
| Heap.SizeAlignOk | src/memory/heap.rs:170-177 | the normalised request is the least multiple of the alignment that holds the layout, or 16 bytes; it keeps the layout's alignment and is fit to become a free block again |
| Heap.PiecesTile | src/memory/heap.rs:93-149 | the block taken and the prefix and suffix left over tile the block they were cut from, and none is too small or misaligned |
| Heap.CarveKeepsConsistent | src/memory/heap.rs:93-149 | a cut keeps free and live blocks tiling the heap: disjoint, without gaps, 8-aligned, at least 16 bytes |
| Heap.ReturnKeepsConsistent | src/memory/heap.rs:158-165 | giving a live block back keeps them tiling it |
| Heap.Examine | src/memory/heap.rs:102-132 | short of wrap-around, whether the block can be cut at the first multiple of the alignment inside it, leaving usable ends; with the checked addition and the wrapping subtraction |
| Heap.FitsWhenServes | src/memory/heap.rs:102-132 | the tests pass exactly when the block can be cut so, and only that address is the first multiple |
| Heap.ServesFirstFits | src/memory/heap.rs:93-132 | the first block that can be cut so is the first to pass the tests, and does not wrap |
| Heap.LinkedListAllocator.Init | src/memory/heap.rs:61-67 | the region becomes one free block |
| Heap.LinkedListAllocator.AddFree | src/memory/heap.rs:75-86 | writes the header and the head; at an address not yet listed, the list threaded through memory gains the block at its head |
| Heap.LinkedListAllocator.UserWrite | src/memory/heap.rs:94-97 | whatever the owner of a live block writes into it, the list stays intact |
| Heap.LinkedListAllocator.FindFit | src/memory/heap.rs:93-132 | the walk along the pointers stops at the first block that passes the tests, with the pointer that leads to it, or there is none |
| Heap.LinkedListAllocator.AllocInner | src/memory/heap.rs:93-149 | when no listed block wraps: null if and only if no listed block can be cut at the least multiple of the alignment not below its address with usable ends, and otherwise that address in the first block that can, its ends back on the list and the tiling invariant kept; where the block taken wraps, a suffix header is stored at the address that equals the size, null comes out and the list is ruined |
| Heap.LinkedListAllocator.DeallocInner | src/memory/heap.rs:158-165 | the block moves from the live set to the head of the list; the tiling invariant is kept |
| Heap.LinkedListAllocator.Alloc | src/memory/heap.rs:184-189 | the heap stays intact if and only if the request is not met from a block that wraps; when none does, the answer is the first cut there is for the normalised request, and null exactly when there is none; a returned block is new, aligned as asked and large enough; failure on an intact heap changes nothing |
| Heap.LinkedListAllocator.Dealloc | src/memory/heap.rs:191-197 | with the layout of the allocation, exactly that block comes back |
| Heap.LinkedListAllocator.DeallocThenAlloc | src/memory/heap.rs:184-197 | giving a block back and asking again with the same layout returns the same block and leaves the list as it was |
| RamFs.AddKeepsWellFormed | src/fs/ramfs.rs:248-302 | creating keeps the inodes one tree |
| RamFs.RemoveKeepsWellFormed | src/fs/ramfs.rs:304-358 | removing a childless node keeps the inodes one tree |
| RamFs.NotItsOwnAncestor | src/fs/ramfs.rs:396-408 | no node but the root is its own ancestor |
| RamFsRename.RenameMoves | src/fs/ramfs.rs:360-469 | a successful rename either found the entry already there and changed nothing, or moved exactly one edge under the guards stated |
| RamFsRename.MoveKeepsWellFormed | src/fs/ramfs.rs:430-469 | moving the edge keeps the inodes one tree |
| RamFsRename.SubtreeUnaltered | src/fs/ramfs.rs:430-469 | no node of the moved subtree is altered, but for the parent of its top |
| RamFsRename.RenameKeepsMeaning | src/fs/ramfs.rs:360-469 | the new name followed by any ordinary names leads where the old name followed by them led before |
| RamFsRename.RenameLeavesOldName | src/fs/ramfs.rs:360-469 | the old name is gone, and so is the node that was replaced |
| RamFsOutcomes.AboveIffContains | src/fs/ramfs.rs:396-408 | following parents up and following entries down are inverse |
| RamFsOutcomes.UpUndoesDown | src/fs/ramfs.rs:161-176 | as many ".." as there were names lead back to where a walk began |
| RamFsOutcomes.RenameOutcome | src/fs/ramfs.rs:360-469 | rename succeeds if and only if the new name is valid, there is an entry to move, the destination is a directory the moved directory does not contain, and the new name is free, or names the same node, or a childless node of the same kind; each error has its exact condition in the same terms |
| RamFsOutcomes.RenameKeepsContents | src/fs/ramfs.rs:360-469 | what stays keeps its kind, and everything but the two directories its contents |
| RamFsOutcomes.CreatedKind | src/fs/ramfs.rs:45-52 | a created node has the type asked for and is empty; any other type is unsupported |
| RamFsOutcomes.AddOutcome | src/fs/ramfs.rs:248-302 | creating succeeds if and only if the name is valid and free in an existing directory, the type is supported and a number is left; each error has its exact condition; one node under one name is new and no other node changes |
| RamFsOutcomes.AddKeepsWalks | src/fs/ramfs.rs:248-302 | every walk that led somewhere still leads there |
| RamFsOutcomes.UnlinkOutcome | src/fs/ramfs.rs:304-327 | unlinking succeeds if and only if the name is an entry for something other than a directory; each error has its exact condition; exactly that node and its entry are gone |
| RamFsOutcomes.RmdirOutcome | src/fs/ramfs.rs:329-358 | the same for an empty directory |
| RamFsOutcomes.DroppedWalks | src/fs/ramfs.rs:304-358 | after a removal every walk gives what it gave, value or error, except that taking the removed name is "not found" |
| RamFsOutcomes.RemoveUndoesAdd | src/fs/ramfs.rs:248-358 | removing what was just created restores the whole table; only the inode number is used up |
| RamFsOutcomes.WriteOutcome | src/fs/ramfs.rs:229-246 | a write succeeds if and only if the node is a file and the end fits 64 bits; its bytes are then where they were aimed, every other byte is as before, a gap reads as zeros, and the size is the greater of the old one and the end |
| RamFsOutcomes.TruncateOutcome | src/fs/ramfs.rs:471-482 | a file has the size asked for, keeps the bytes below it and is zero above |
| RamFsOutcomes.ReadOutcome | src/fs/ramfs.rs:211-227 | a read gives the bytes there are from the offset on, as many as there is room for |
| RamFsOutcomes.ReadAfterWrite | src/fs/ramfs.rs:211-246 | what was written is what is read |
| RamFsRuns.StepKeepsWellFormed | src/fs/ramfs.rs:229-536 | every operation, successful or not, keeps the tree invariant |
| RamFsRuns.ReachableIsTree | src/fs/ramfs.rs:80-536 | in every state reachable from an empty filesystem entries and parent pointers are inverse and every parent chain ends at inode 1 |
| RamFsRuns.FailureChangesNothing | src/fs/ramfs.rs:229-536 | an operation that fails changes nothing |
| RamFsRuns.NodeCount | src/fs/ramfs.rs:248-536 | there is one more node than there are directory entries |
| RamFsRuns.NlinkCountsSubdirs | src/fs/ramfs.rs:122-145 | a directory's link count is two plus the subdirectories whose parent it is |
| RamFsRuns.NeverReused | src/fs/ramfs.rs:248-302 | an inode number that has left the table never comes back, whatever is done |
| RamFsObject.RamFileSystem.LookupName | src/fs/ramfs.rs:161-176 | the lookup on the object is the lookup of the table |
| RamFsObject.RamFileSystem.CreateNode | src/fs/ramfs.rs:248-302 | the object makes the creating step of the table and stays a tree |
| RamFsObject.RamFileSystem.CreateSymlink | src/fs/ramfs.rs:498-536 | the same for symbolic links |
| RamFsObject.RamFileSystem.UnlinkName | src/fs/ramfs.rs:304-327 | the object makes the unlinking step and stays a tree; it succeeds exactly on an entry that is no directory, and then that node and that name are gone and nothing else changes |
| RamFsObject.RamFileSystem.RmdirName | src/fs/ramfs.rs:329-358 | the same for a directory without entries |
| RamFsObject.RamFileSystem.ReadAt | src/fs/ramfs.rs:211-227 | the read of the table |
| RamFsObject.RamFileSystem.WriteAt | src/fs/ramfs.rs:229-246 | extending and overwriting make the writing step |
| RamFsObject.RamFileSystem.TruncateTo | src/fs/ramfs.rs:471-482 | the object makes the resizing step |
| RamFsObject.RamFileSystem.IsInside | src/fs/ramfs.rs:396-408 | the ancestor loop ends, never meets a missing node, and answers whether the destination lies at or below the moved node |
| RamFsObject.RamFileSystem.RenameEntry | src/fs/ramfs.rs:360-469 | the object makes the renaming step and stays a tree; it succeeds exactly when there is something to move, somewhere to move it and nothing in the way, and gives each error under its own condition |
| Paths.ComponentsAreNames | src/fs/vfs.rs:288-318 | no looked-up component is empty or ".", and none holds a slash |
| Paths.ParentMatches | src/fs/vfs.rs:500-526 | a mount other than one at the path itself covers the path exactly when it covers the parent that splitting gives |
| Paths.ParentComponents | src/fs/vfs.rs:500-526 | below a common mount, a path's components are its parent's and then its name |
| Vfs.BestIsLongest | src/fs/vfs.rs:288-318 | the scan finds a matching mount of greatest length, or there is none |
| Vfs.ResolveIgnoresOrder | src/fs/vfs.rs:237-318 | resolution does not depend on the order in which mounts were made |
| Vfs.ResolveErrors | src/fs/vfs.rs:288-318 | an invalid path exactly when it is not absolute; otherwise only "not found" or "not a directory" |
| Vfs.MountPointIsRoot | src/fs/vfs.rs:288-318 | for every absolute path, a mount point resolves to the root of what is mounted there, if and only if it is not the empty path hidden by another mount at "/" |
| Vfs.SplitsSomewhere | src/fs/vfs.rs:513-526 | every absolute path has a parent and a name, except one made of slashes only |
| Vfs.ParentOnSameMount | src/fs/vfs.rs:320-335 | a path that does not resolve lies on the same mount as its parent |
| Vfs.MadeIsFound | src/fs/vfs.rs:320-335 | a file created by open lies on the path's own filesystem, is new and empty, and is what the path resolves to from then on; no other filesystem changes |
| Vfs.OpenCreates | src/fs/vfs.rs:320-353 | the handle for a created file names that inode at offset zero |
| Vfs.CreatesIff | src/fs/vfs.rs:320-353 | with `create`, a missing path is opened if and only if its parent resolves to a directory with room and its last name is valid; failing changes nothing |
| Vfs.OpenExisting | src/fs/vfs.rs:320-353 | a path that is there is refused exactly if it had to be new, or if something other than a file had to be emptied; otherwise the handle is at the end with `append` and at the start without, and only the contents of an emptied file change |
| Vfs.OpenMissing | src/fs/vfs.rs:320-335 | without `create` a path that does not resolve gives that error and nothing is made |
| Vfs.MountTable.MountAt | src/fs/vfs.rs:237-248 | adds the normalised path, or says which error; stored paths stay distinct |
| Vfs.MountTable.Unmount | src/fs/vfs.rs:254-263 | removes exactly the mount at the normalised path, or reports that there is none |
| Vfs.MountTable.ResolvePath | src/fs/vfs.rs:288-318 | the loop over mounts and the walk over components compute the resolution |
| VfsRename.WayKept | src/fs/ramfs.rs:360-469 | any names that led somewhere, ".." included, fail afterwards if they look up the moved entry on the way, and otherwise lead where they led, or to the moved node in place of the empty directory it replaced |
| VfsRename.OtherPathsKept | src/fs/ramfs.rs:360-469 | a rename leaves every path alone that does not go through the old name, and hands the replaced node's paths to the moved one |
| VfsRename.RenamedBelow | src/fs/ramfs.rs:360-469 | the destination's names lead to the moved node if and only if the rename had nothing to do or the way to its directory does not take the old entry |
| VfsRename.RenamedIsFound | src/fs/vfs.rs:384-393 | after a successful rename by path the destination resolves to the moved node if and only if it is no mount point and its parent's path does not lead through the moved entry, unless there was nothing to move; only that filesystem changed, and it is still a tree |
| VfsRename.RenamePathOutcome | src/fs/vfs.rs:384-393 | rename by path succeeds if and only if both parents resolve on one filesystem that can do it; failing changes nothing |
| VfsRename.CrossDeviceIff | src/fs/vfs.rs:384-393 | refused as crossing devices exactly when the parents resolve on different filesystems |
| VfsRename.ClimbingOutOfTheMoved | src/fs/vfs.rs:384-393 | renaming "/a" to "/a/../b" succeeds and "/a/../b" is then not found |
| Scheduler.ScheduleCensus | src/scheduler/scheduler.rs:186-264 | a scheduling decision neither loses nor duplicates a process, except that it drops what was in defunct |
| Scheduler.ScheduleKeepsPlaced | src/scheduler/scheduler.rs:186-264 | after a decision every process is in exactly one place and in the state that place asks for |
| SchedulerRuns.StepKeepsOk | src/scheduler/scheduler.rs:103-264 | every call keeps that |
| SchedulerRuns.AlwaysPlaced | src/scheduler/scheduler.rs:78-264 | after init, under every sequence of calls, every unreaped process is in exactly one of current, ready, blocked, idle and defunct with the matching state; idle is in its slot or current; defunct holds at most one |
| SchedulerRuns.IdleMustStay | src/scheduler/scheduler.rs:141-161 | placement survives a block or exit if and only if it is not the idle process that does it |
| SchedulerRuns.BoundedWaiting | src/scheduler/scheduler.rs:103-264 | a queued process runs within max(1, remaining slice of the current one) plus the sum of max(1, slice) of those ahead of it, in ticks, under any interleaving of calls |
| SchedulerRuns.ExitFinishes | src/scheduler/scheduler.rs:141-151 | a process that exits can no longer be picked |
| SchedulerRuns.ExitedNeverRuns | src/scheduler/scheduler.rs:141-151 | it is never current again, so the code after its switch cannot be reached |
| SchedulerRuns.OnlyZombiesDropped | src/scheduler/scheduler.rs:186-192 | a process that a step drops was a zombie waiting in defunct |
| SchedulerSlices.SliceKept | src/scheduler/scheduler.rs:116-129 | under every sequence of ticks, spawns and wake-ups with fewer than max(1, remaining) ticks the current process stays, its remaining time falls by exactly the number of ticks, and the queue only grows at its end |
| SchedulerSlices.SliceEnds | src/scheduler/scheduler.rs:116-264 | the tick after that makes the head of the queue current with a full slice of its own and sends the old process to the back, idle to its slot; with nobody waiting it goes on |
| SchedulerSlices.IdleIsLastResort | src/scheduler/scheduler.rs:186-264 | idle becomes current if and only if nobody is ready and the current process blocks or exits |
| SchedulerSlices.AloneKeepsRunning | src/scheduler/scheduler.rs:194-208 | with nobody waiting neither a tick nor a yield takes the processor away |
| SchedulerSlices.HeadRunsNext | src/scheduler/scheduler.rs:132-264 | a yield, exit or block makes the head of the queue current with a full slice |
| SchedulerSlices.BlockParks | src/scheduler/scheduler.rs:156-161 | a process that blocks is parked and another runs |
| SchedulerSlices.BlockedUntilWoken | src/scheduler/scheduler.rs:156-175 | under every run without its wake-up a blocked process stays blocked and never runs |
| SchedulerSlices.WokenRuns | src/scheduler/scheduler.rs:164-264 | a woken process runs within the time left to the current one and the slices of those waiting, under any interleaving |
| SchedulerSlices.SpawnedRuns | src/scheduler/scheduler.rs:103-264 | so does a new one |
| SchedulerObject.SchedulerState.InitIdle | src/scheduler/scheduler.rs:78-99 | installs idle and bootstrap once; the result is a rightly placed state |
| SchedulerObject.SchedulerState.SpawnProcess | src/scheduler/scheduler.rs:103-109 | the process joins the back of the queue, ready, with a full slice |
| SchedulerObject.SchedulerState.OnTick | src/scheduler/scheduler.rs:116-129 | short of the end of the slice a tick takes one off and changes nothing else; the last one makes the head of the queue current with a full slice, or lets the process go on if nobody waits |
| SchedulerObject.SchedulerState.Exit | src/scheduler/scheduler.rs:141-151 | a process other than idle that exits is not current afterwards, can never be picked, and is in defunct once |
| SchedulerObject.SchedulerState.Block | src/scheduler/scheduler.rs:156-161 | the current process is parked as blocked and a decision is made |
| SchedulerObject.SchedulerState.Wake | src/scheduler/scheduler.rs:164-175 | succeeds exactly when the pid is blocked; the process moves to the back of the queue, its place filled by the last |
| SchedulerObject.SchedulerState.Reschedule | src/scheduler/scheduler.rs:186-264 | the object makes the scheduling decision, with the stack pointer stored in the outgoing PCB |
| ContextSwitch.FramePushed | src/scheduler/context.rs:70-98 | what a switch pushes is what a later switch pops, and nothing else in memory changes |
| ContextSwitch.Machine.Switch | src/scheduler/context.rs:70-98 | push by push and pop by pop: the outgoing state can be loaded back from the saved stack pointer, the incoming one is what its frame holds |
| ContextSwitch.Machine.InitKernelStack | src/scheduler/process.rs:193-242 | a switch onto the returned pointer starts at the trampoline with the entry in r12; writes stay in the top 64 bytes, and inside the stack if it has 80 |
| ContextSwitch.LaunchedShape | src/scheduler/process.rs:169-224 | the stack pointer at the first instruction is 8 modulo 16 and on the stack; the other registers are zero |
| ContextSwitch.LaunchFits | src/scheduler/process.rs:193-204 | 79 bytes is exactly the least stack size that holds the launch frame wherever it lies |
| Switching.SwitchLands | src/scheduler/scheduler.rs:215-282 | a switch puts the processor exactly into the state the incoming process was left in |
| Switching.StepKeepsInv | src/scheduler/scheduler.rs:186-282 | every call, launch and stretch of computation keeps the frame of every suspended process intact on its own stack; the current process always has its stack |
| Switching.BootedInv | src/scheduler/process.rs:154-165 | this holds at boot, with the bootstrap process current and no frame saved for it yet |
| Switching.RunKeepsInv | src/scheduler/scheduler.rs:186-282 | so it holds throughout every run, and every process ever picked has a valid frame |
| Switching.ResumesExactly | src/scheduler/context.rs:64-98 | suspend a process, run anything without it, resume it: registers, stack pointer and program counter are exactly those it had |
| Switching.FirstRunLands | src/scheduler/process.rs:169-242 | the first time a launched process runs it is at the trampoline, entry in r12, stack pointer 8 modulo 16 on its own stack |
| Audit.AuditTrail.Record | src/sentinel/audit.rs:74-105 | appends one entry with what was said, linked to the last, and the chain still verifies; earlier entries are untouched |
| Audit.AuditTrail.Verify | src/sentinel/audit.rs:110-135 | accepts exactly the chains all of whose links and hashes hold, with their length; otherwise reports the first broken link: a wrong predecessor with the hash expected and the one found, or else a wrong hash with the one computed and the one stored |
| Audit.PrefixVerifies | src/sentinel/audit.rs:110-135 | a chain cut short still verifies |
| Audit.PayloadInjective | src/sentinel/audit.rs:90-91 | two entries with the same payload are the same, as soon as one of them has no separator in its text |
| Audit.TamperEvident | src/sentinel/audit.rs:74-135 | two verifying chains of equal length and final hash, one of them free of separators, are the same entry by entry, or two payloads with the same digest are at hand |
| Audit.ForgeryDetected | src/sentinel/audit.rs:110-135 | rewriting an entry in place is detected, or two payloads with the same digest are at hand |
| Audit.AmbiguousIff | src/sentinel/audit.rs:90-91 | another verifying chain with the same payloads exists if and only if some text field holds the separator |
| Sha256.PadInjective | src/sentinel/audit.rs:196-204 | distinct messages have distinct padded forms, even where the 64-bit length has wrapped |
| Sha256.PadLength | src/sentinel/audit.rs:196-204 | the padded length is a multiple of 64, with room for the mark and the length and less than one block to spare |
| Sha256.PadMessage | src/sentinel/audit.rs:196-204 | the loop produces the padding of section 5.1.1 of FIPS 180-4 |
| Sha256.Schedule | src/sentinel/audit.rs:207-219 | the loops fill the table with the message schedule of section 6.2.2 |
| Sha256.CompressBlock | src/sentinel/audit.rs:206-241 | the rotating variables compute the 64 rounds of the recursive definition |
| Sha256.Sha256Hex | src/sentinel/audit.rs:196-249 | the code computes the standard's function, in lower-case hexadecimal |
| Sha256.ShaIsDigest | src/sentinel/audit.rs:194-249 | the result has 64 lower-case hexadecimal characters for every input |
| Handoff.PayloadInjective | src/safemode/sentinel_config.rs:236-251 | the serialization determines every logical field bit for bit |
| Handoff.Hex64ToBytes | src/safemode/sentinel_config.rs:306-315 | the loop decodes 64 characters to 32 bytes |
| Handoff.HexToBytesInjective | src/safemode/sentinel_config.rs:306-325 | on digests the decoding loses nothing |
| Migration.HexRoundTrip | src/sentinel/migration.rs:264-271 | the trail shows the digits that were packed into the checksum |
| Handoff.SealValidates | src/safemode/sentinel_config.rs:265-276 | sealing makes a record valid if and only if magic and version are right; sealing again changes nothing |
| Handoff.SealBinds | src/safemode/sentinel_config.rs:236-276 | changing any logical field while the record stays valid under the same checksum exhibits two inputs with the same digest |
| Handoff.CarriedFaithfully | src/safemode/sentinel_config.rs:192-231 | thresholds come back from a record unchanged if and only if the window fits 32 bits |
| ConfigSession.OperatorSession.HandleLine | src/safemode/sentinel_config.rs:536-669 | the object makes the step of the line-by-line state machine, confirmations included |
| ConfigSession.ArmedIff | src/safemode/sentinel_config.rs:595-614 | a save confirmation is pending exactly right after an accepted save, and then the working configuration is changed and valid |
| ConfigSession.EmitsExactly | src/safemode/sentinel_config.rs:536-641 | for every sequence of lines, a record comes out on a line if and only if the line is "yes" and the one before was an accepted save |
| ConfigSession.EmittedRecord | src/safemode/sentinel_config.rs:616-641 | that record is valid, dirty, in range, ordered, stamped with the line's timestamp, and carries the working thresholds bit for bit |
| ConfigSession.SetChangesOne | src/safemode/sentinel_config.rs:370-409 | an edit is accepted if and only if there is such a setting and the value may be its; then that setting has the value and no other has changed |
| ConfigSession.OnlySetEdits | src/safemode/sentinel_config.rs:536-669 | the working configuration changes by accepted edits only, and the one it is compared with by confirmed saves only |
| ConfigSession.LeavesExactly | src/safemode/sentinel_config.rs:643-669 | for every sequence of lines, the session ends on a line if and only if it asks to leave with nothing unsaved, or is "yes" and the one before asked with something unsaved |
| ConfigSession.ThreeWords | src/safemode/sentinel_config.rs:550-560 | three words come out as such however they are spaced |
| ConfigSession.TrimStrips | src/safemode/sentinel_config.rs:536-538 | trimming takes away the white space at both ends, all of it and no more |
| ConfigSession.LowerLetters | src/safemode/sentinel_config.rs:556-558 | setting names are read with ASCII letters in lower case and every other character as it is |
| FloatOrder.PatternsOrder | src/safemode/sentinel_config.rs:382-390 | the non-negative finite patterns are ordered as the numbers they stand for |
| FloatOrder.InUnitIff | src/safemode/sentinel_config.rs:382-390 | the range check lets through exactly the patterns from zero to one and the negative zero |
| FloatOrder.DefaultsAreValid | src/sentinel/monitor.rs:89-100 | the thresholds the monitor starts from would pass the checks of a save |
| ConfigSession.SetKeepsRanges | src/safemode/sentinel_config.rs:370-409 | an accepted edit leaves every field in range that was in range |
| ConfigSession.WorkingInRange | src/safemode/sentinel_config.rs:536-669 | from an in-range start the working configuration stays in range under every sequence of lines |
| Migration.AppliesIffValid | src/sentinel/migration.rs:232-254 | applied exactly when valid and dirty, no change exactly when valid and clean, rejected exactly when it has the magic and is not valid |
| Migration.RejectsIff | src/sentinel/migration.rs:158-254 | each error exactly under its condition; a record that is valid and dirty becomes the monitor's thresholds and is sealed again as clean, and any other changes neither page nor monitor |
| Migration.NoteNamesOutcome | src/sentinel/migration.rs:158-272 | the entry left in the trail names what was decided and ends in the checksum; there is none exactly when the page holds no record |
| Migration.ClearedIsClean | src/sentinel/migration.rs:190-200 | the record written back is valid, clean, and otherwise the same |
| Migration.Kernel.Migrate | src/sentinel/migration.rs:158-210 | the page, the thresholds and the verdict are those of the decision; the failed-apply error cannot come out; the audit trail grows by exactly the entry that belongs to the decision and still verifies |
| Migration.BootsAfter | src/sentinel/migration.rs:158-254 | over any number of boots a rejected or magic-less record is left untouched with the same verdict; an applied one is found valid and clean, with success, on every later boot |
| Migration.AppliedAtMostOnce | src/sentinel/migration.rs:158-254 | over any number of boots a record is applied once if at all |
| Migration.SavedConfigurationBoots | src/sentinel/migration.rs:158-254 | the first boot after a confirmed save runs with exactly the working thresholds of the session; every later one succeeds without change, on the defaults |
| Monitor.RepetitionScore | src/sentinel/monitor.rs:296-306 | the score is the window's length less its distinct outputs, over its length |
| Monitor.SelfReferentialScore | src/sentinel/monitor.rs:308-312 | the share of observations that announce without acting |
| Monitor.TokenVelocityScore | src/sentinel/monitor.rs:314-325 | the loop computes the stall score, with the token sum in 32 bits |
| Monitor.NoStallIff | src/sentinel/monitor.rs:314-325 | the stall score is zero if and only if the window is empty, its 32-bit token sum is zero, or every observation made progress |
| Monitor.StallLostToWrap | src/sentinel/monitor.rs:314-325 | a window with 2^32 tokens and no progress scores zero |
| Monitor.StallIsTrueIff | src/sentinel/monitor.rs:314-325 | the 32-bit sum gives the score of the true sum if and only if the window is empty, every observation made progress, the sum is below 2^32, or the wrapped sum is at least 256 times the window's length |
| Monitor.ToolRetryScore | src/sentinel/monitor.rs:327-341 | the share of tool calls that repeat an earlier one |
| Monitor.ScoresInUnit | src/sentinel/monitor.rs:296-341 | all four scores lie in [0, 1] |
| Monitor.TierMonotone | src/sentinel/monitor.rs:352-371 | raising signals lowers neither the cumulative score nor the tier, under any thresholds |
| Monitor.OrderIsExactness | src/sentinel/monitor.rs:366-371 | each threshold decides its own tier if and only if soft <= medium <= hard |
| Monitor.SavedTiersAreExact | src/safemode/sentinel_config.rs:415-440 | so it is for every configuration that Safe Mode lets through |
| Monitor.DegradationMonitor.Observe | src/sentinel/monitor.rs:195-220 | the agent's window becomes the last `window` of its observations, the latest scores are those of the window, and other agents are untouched |
| Monitor.DegradationMonitor.RecordSignal | src/sentinel/monitor.rs:227-247 | the clamped score replaces the last one of its kind and the tier follows from the four last scores |
| Monitor.WindowIsRecentHistory | src/sentinel/monitor.rs:195-247 | after any history of observations, signals and deregistrations an agent's window is the last `window` observations of its own |
| Monitor.TierDependsOnWindow | src/sentinel/monitor.rs:195-247 | the tier after an observation is a function of that window alone, whatever signals were injected before |
| Monitor.SameWindowSameTier | src/sentinel/monitor.rs:195-247 | two histories whose last `window` observations agree leave the agent in the same state: window, scores and tier |
| Monitor.RecordedScoresInUnit | src/sentinel/monitor.rs:195-247 | every score on record lies in [0, 1] after any history |
| Monitor.HigherSignalHigherTier | src/sentinel/monitor.rs:227-247 | injecting a higher score never gives a lower tier |
| MonitorScores.SilentSignalIsIgnored | src/sentinel/monitor.rs:352-363 | a signal below its gate changes nothing |
| MonitorScores.AllSilent | src/sentinel/monitor.rs:352-363 | with every signal below its gate the cumulative score is zero |
| MonitorScores.OneSaturates | src/sentinel/monitor.rs:352-363 | one signal at 1 with its gate at most 1 makes the cumulative score 1, whatever the others say |
| MonitorScores.AloneEndpoints | src/sentinel/monitor.rs:352-363 | a signal alone gives 0 at its gate, 1 at 1 and 1/2 halfway |
| MonitorScores.AloneIsLinear | src/sentinel/monitor.rs:352-363 | in between, equal steps of the signal are equal steps of the score |
| MonitorScores.SignalsAdd | src/sentinel/monitor.rs:352-363 | any signals and one more give the smaller of 1 and the sum of what the others give and what that one gives alone |
| MonitorScores.TierIsHighestMet | src/sentinel/monitor.rs:366-371 | the tier is the highest whose threshold is met, in whatever order the thresholds are |
| MonitorScores.SignalReplacesOne | src/sentinel/monitor.rs:227-247 | an injected signal replaces the latest score of its kind, clamped, and no other, and leaves the window alone |
| MonitorScores.SaturatedSignalIsHard | src/sentinel/monitor.rs:227-247 | one injected signal at full strength asks for the hardest tier, for any agent and any thresholds in range |
| MonitorScores.DefaultsGoHard | src/sentinel/monitor.rs:89-247 | so it is with the thresholds the monitor starts from |
| MonitorScores.ScoresAreShares | src/sentinel/monitor.rs:296-341 | repetition, announcements and retries as shares of the window or of its calls, by counting sets of positions |
| MonitorScores.StallIsShare | src/sentinel/monitor.rs:314-325 | the stall score is the token rate, at most one, times the share of observations without progress |
| VirtQueue.StepKeepsInv | src/sentinel/ipc.rs:656-730 | every memory access of driver or device, in any order, keeps the protocol's invariant |
| VirtQueue.OneOutstanding | src/sentinel/ipc.rs:656-707 | the published index is ahead of the consumed one by zero or one modulo 2^16, in every run |
| VirtQueue.BufferOwnership | src/sentinel/ipc.rs:656-730 | whenever the driver may touch the bounce buffer the device holds and sees no descriptor, and whenever the device may, the driver can only poll |
| VirtQueue.SentOnceInOrder | src/sentinel/ipc.rs:928-933 | outgoing messages reach the device once each and in order, all of them by the time the write returns |
| VirtQueue.ReceivedInOrder | src/sentinel/ipc.rs:919-925 | for every negotiated size and every run, incoming messages are read once each and in order, and each read gets the buffer as its message left it, up to the length last returned in the driver's slot and the room it had |
| VirtQueue.ReceivedBySlot | src/sentinel/ipc.rs:694-730 | where driver and device mean the same slot that is the message itself, as far as there is room; in a slot past the queue size it is nothing |
| VirtQueue.StaleLength | src/sentinel/ipc.rs:628-730 | in every run, where driver and device mean different slots, what is read is cut at a length that only earlier messages left |
| VirtQueue.StaleAtTwelve | src/sentinel/ipc.rs:628-730 | in every run with a negotiated size of twelve the seventeenth message is read at the length of the thirteenth |
| VirtQueue.FaithfulIff | src/sentinel/ipc.rs:618-707 | in all runs every message read with room for it arrives whole, if and only if the negotiated size is 16 |
| VirtQueue.ShortQueueLosesMessage | src/sentinel/ipc.rs:694-707 | for every smaller size, a run in which a message that reached the buffer is read as empty |
| VirtQueue.PollingIsNotStuck | src/sentinel/ipc.rs:694-707 | while the driver polls the device always has a step it can make until it has made them all, and exactly then the driver can fetch |
| VirtQueue.PollingEnds | src/sentinel/ipc.rs:694-707 | however polling and device are interleaved, the loop can end exactly when the device has made the steps it had left, four at most |
| VirtQueue.Driver.FillTx | src/sentinel/ipc.rs:710-719 | the buffer's front becomes the message; too long a message is refused and changes nothing |
| VirtQueue.Driver.Submit | src/sentinel/ipc.rs:656-684 | descriptor, ring entry and index are written in the order the protocol takes its steps |
| VirtQueue.Driver.Poll | src/sentinel/ipc.rs:694-707 | one turn of the polling loop: nothing, or the completion's length and the next index |
| VirtQueue.Driver.PollUsed | src/sentinel/ipc.rs:694-707 | against a device that makes its steps in any interleaving, the loop ends with the completion fetched, the index advanced once and the protocol kept |
| VirtQueue.Driver.ReadRx | src/sentinel/ipc.rs:723-730 | copies as much as fits and leaves the rest of the output alone |

## Left out

- TLB flushing and invalidation, cache and store ordering below sequential consistency: the memory model has one value per location and instant.
- Locks: each locked operation is one call, except that the page-table reader and the virtqueue are interleaved with what runs beside them.
- PageTables.LockFreeTranslate: assumes one load for each entry; the source reads an entry through a reference once for each accessor, which is what `TranslateReads` has.
- Timestamps, modes and owners in RamFs metadata, `readdir`, `readlink`, `sync`, open-file offsets after `open`: easy members with no property across operations.
- `mkdir`, `unlink` and `rmdir` by path in the VFS, and unsafe lifetime extension in its mount listing: they repeat the resolution already modelled.
- VfsRename.RenamedIsFound: renaming by path is a function of the mount table and the filesystems, not a method of an object, because it only composes the operations of the two objects.
- Bytes inside free blocks other than list headers, raw pointer provenance, and faults: memory is a total map from address to header, so a store outside the heap succeeds.
- Interrupt flags, the timer's own register saving and the idle loop's `hlt`: a computation step may change any register of the current process.
- Switching.StepKeepsInv: assumes that a process moves its stack pointer only on its own stack with room for one frame, and writes no other stack; a new stack is memory no process owns.
- Exhaustion of process ids: spawning stops one short of the largest 64-bit number, where the code asserts.
- Floating-point rounding and values that are no number in the monitor: scores are real numbers. The configuration side keeps exact bit patterns.
- Parsing of decimal numbers in the console and all text it prints: the parsers are parameters, and responses keep only the action and the record.
- Text encoding: strings are sequences of characters, and the digest of a string is that of its encoding.
- Sha256.Sha256Hex: the round constants, rotation amounts and bit functions are those of sections 4.1.2 and 4.2.2 of FIPS 180-4, taken as the definition; no test vector is worked out.
- Tail truncation of the audit chain and gaps in its sequence numbers: the code does not look for them.
- VirtQueue.StepKeepsInv: the device takes descriptors one by one, in order, moves data only the way a descriptor says and no more than it allows, and follows section 2.7 of VIRTIO 1.2; nothing is said of one that does not.
- VirtQueue.Driver.PollUsed: the loop is given the turns of a device that answers; against one that never does, the code polls for ever.
- Device discovery, feature negotiation, the multiport handshake, the JSON field scanner, the handshake and authorization tables, the system-call table, serial drivers, boot code, the second Safe Mode terminal: register traffic, finite tables or duplicates with nothing to state over runs.
