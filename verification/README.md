# loaf-os verification model

loaf-os is a small 80386 kernel. This project models the parts of it that keep connected state, in Dafny, and
proves what they promise. Code that works by changing things step by step is modelled that way: classes with
the program's own fields, arrays edited in place, loops with invariants. Each such method is proved against a
function or a predicate on the old and new state, and the properties below are proved of those.

- **FAT12 file system** (`Fat*.dfy`, `Dirent.dfy`, `OpenFiles.dfy`). The packed 12-bit table, cluster chains,
  the directory tree, the read-modify-write path and the open-file table. A volume is its table and the bytes
  of its areas; a ghost witness assigns every cluster in use to one chain and every chain to one entry, or to
  the set of lost clusters. `FatInvariant.Inv` says that chains are acyclic, in range, end-marked, disjoint, and
  cover with the lost clusters exactly the clusters in use; that the chain of a file is as long as its size asks
  for, and that of a directory not empty, with size 0; that names in a directory are unique; and that nothing
  follows an end entry. A volume is consistent (`VolumeOk`) when some witness loses nothing. `FatUnique` shows
  that the witness is determined by the volume, so "the volume is consistent" can be decided, both ways, after
  every operation, also after one that stopped half-way.
- **Memory and loading** (`Bits.dfy`, `Pmm.dfy`, `PageTables.dfy`, `Paging.dfy`, `UserSpace.dfy`). The frame
  bitmap, two-level page tables stored in frames, `exec_load` and `SYS_SBRK`. `owner` records who each frame
  belongs to; `PageTables.Owned` ties it to the page tables, `TakenIs` to the bitmap.
- **Processes** (`Keyboard.dfy`, `Processes.dfy`, `ProcessSafety.dfy`, `ProcessProgress.dfy`,
  `ProcessAnswers.dfy`, `Kernel.dfy`). Each system call or interrupt is one step; a process blocked inside a call
  keeps a continuation. `Kernel.Table` is the imperative form, every method of which equals `Processes.Step`.
- **Heaps** (`BlockList.dfy`, `KernelHeap.dfy`, `UserHeap.dfy`). First fit, splitting and one-pass merging over
  an intrusive list in memory.
- **Calendar and paths** (`Rtc.dfy`, `PathNormalize.dfy`).

Hardware is plain state: the disk is a sequence of sectors that may be faulty, memory a sequence of frames, the
clock a counter. A kernel panic is an outcome after which nothing happens.

`dafny verify dfyconfig.toml` checks the whole project.

## Findings

Where the code does not do what one would want, the model keeps the code as it is and states exactly when it does.

- `fat_write_file` frees the old contents before it knows that the new ones fit (`src/fs/fat.c:537-553`). When
  they do not fit, the volume is consistent exactly if it was and there were no old clusters:
  `FatWrite.WriteFile` (`DidNotFit`), shown on a blank volume by `FatFailures.BlankThenReplace`.
- `fat_write_at` keeps the clusters it took when the disk fills up (`src/fs/fat.c:656-663`,
  `src/fs/fat.c:695-702`). The volume is consistent exactly if it was and none was free for the file:
  `FatWriteAt.WriteAt` (`Leaked`), shown by `FatFailures.BlankThenWriteAt`.
- A write behind the end of a file, or to a file it creates, leaves old disk contents in the gap
  (`src/fs/fat.c:653-666`). `FatWriteAt.OverwrittenByte` says which byte a reader then sees, in terms of the
  volume before: the clusters of the file are the old ones and, behind them, the lowest free ones (`NewChain`).
  The gap reads as zeros exactly if those clusters held zeros there: `FatWriteAt.HoleReadsZeroIff`. On a blank
  volume a first write at offset 10 makes ten bytes of cluster 2 readable, whatever they are:
  `FatFailures.BlankThenHole`, with a volume for any contents of that cluster in `FatFailures.SomeBlank`.
- `file_read` copies all clusters of the file into a buffer made for the size in the handle (`src/fs/file.c:64-74`,
  `src/fs/fat.c:1074-1078`). The size formula is right exactly for powers of two: `OpenFiles.RoundsUpIff`,
  `OpenFiles.ThreeSectorClusters`. For these, the buffer is overrun exactly if the file has more clusters by
  then than the stored size asks for (`OpenFiles.OverrunIff`), and by a handle just opened on a path that was not
  cut exactly if it is a directory (`OpenFiles.FreshOverrunIff`), for which the buffer has no bytes
  (`OpenFiles.DirectoryBuffer`): `FatFailures.BlankThenReadDirectory`. A path longer than 63 bytes is cut, and
  then denotes another file: `FatFailures.CutDenotesAnother`.
- After a file has become shorter, `file_read` delivers what the heap held (`src/fs/file.c:70-84`); it does not
  exactly if the file still has clusters for the part asked for: `OpenFiles.HeapHiddenIff`,
  `FatFailures.BlankThenReadEmptied`.
- Neither write function checks that its target is a directory. `fat_write_file` turns the directory into a file,
  and the volume stays consistent exactly if no entry in it had clusters: `FatWrite.UpdatedLoss`,
  `FatFailures.BlankThenOpenDirectory`. `fat_write_at` gives it a size, after which the volume is never
  consistent: `FatWriteAt.PutAtLoss`, `FatFailures.BlankThenWriteDirectory`.
- A name that begins with the byte 0xE5 is stored as it is, so the new entry looks deleted
  (`src/fs/fat.c:575-592`, `src/fs/fat.c:861-873`). The volume stays consistent exactly if the entry was given no
  clusters: `FatWrite.BuriedLoss`, `FatTree.MkdirLoss`, `FatFailures.BlankThenBury`.
- A listed name can be looked up again exactly if it is in 8.3 form: `FatList.ListedNameFound`. The name `A B`,
  which the driver stores, is listed as `A`: `FatList.SpacedName`.
- `heap_end` is one header too small (`src/mm/heap.c:20`), so `kfree` refuses a last block of 12 bytes or less:
  `KernelHeap.RefusedIffSmallLast`, `KernelHeap.LastSmallBlockIsNotReleased`.
- The addition in `SYS_SBRK` wraps (`src/userspace/syscalls.c:153`): `UserSpace.BreakMovesByDelta`,
  `UserSpace.WrappedBreak`. `grow_heap` then writes the header of a new block to memory just given back; `malloc`
  comes to that exactly under the condition of `UserHeap.AstrayIff`: `UserHeap.GrowthExact`,
  `UserHeap.HugeGrowthLowersBreak`, `UserHeap.HugeMallocGoesAstray`. A request whose header no longer fits 32 bits takes all the memory the limit
  allows in blocks of 4096 bytes, and then fails: `UserHeap.Exhausts`.
- The heap of a program without bss can start below another segment (`src/userspace/exe.c:96`); it is clear
  exactly if no code or data page lies above: `UserSpace.HeapClearIff`, and is not for the program of one byte in
  `UserSpace.TinyHeader`: `UserSpace.HeapUnderCode`.
- A child whose parent finishes waiting before the next tick is never cleaned up
  (`src/userspace/syscalls.c:561-566`, `src/devices/pit.c:23-30`): `ProcessProgress.CleanedIffReaped`,
  `ProcessProgress.NeverCleaned`, `ProcessProgress.ChildNeverCleaned`.
- With two waiters for one pid the second one follows a pointer to a process that is gone, whenever it goes
  on (`src/userspace/syscalls.c:561-563`): `ProcessProgress.SecondWaiterLoses`, `ProcessProgress.TwoWaitersLose`.
- `path_normalize` leaves a trailing `/` where the buffer cuts (`src/libc/path.c:47-59`), so it is idempotent,
  and composes, exactly if the buffer does not cut or nothing fits at all: `PathNormalize.Idempotent`,
  `PathNormalize.ComposesIff`, `PathNormalize.CutLeavesSlash`.

## Model

| member | source | states |
|---|---|---|
| BlockList.RoundCovers | src/mm/heap.c:24 | the rounded size is a multiple of four less than four above the request, and covers it exactly when the 32-bit rounding does not wrap |
| BlockList.PartsFill | src/mm/heap.c:29-45 | the two parts fill the block taken, and a second one is split off exactly when sixteen bytes are left |
| BlockList.CoalesceClean | src/mm/heap.c:75-81 | one pass leaves no two neighbours that could be merged |
| BlockList.CoalesceKeepsTiling | src/mm/heap.c:75-81 | merging keeps the blocks tiling the region without gap or overlap |
| BlockList.CoalesceKeepsCover | src/libc/malloc.c:89-95 | merging neither loses nor invents memory: the same addresses are covered |
| BlockList.TakeThenFree | src/mm/heap.c:29-45 | releasing the block just taken and merging gives back the identical list |
| BlockList.FitIffRoom | src/mm/heap.c:28-50 | the first-fit walk finds a block exactly when some contiguous free extent holds header and request |
| BlockList.MergePass | src/mm/heap.c:73-81 | the loop on memory turns the linked list into its one-pass coalescing; live payloads and outside memory stay |
| BlockList.Allocate | src/mm/heap.c:26-50 | the walk on memory takes the first fitting block, splits it, and keeps the list linked and ordered |
| KernelHeap.RunKeepsInv | src/mm/heap.c:23-82 | every run of legal kmalloc and kfree calls keeps the tiling and leaves no two adjacent free blocks |
| KernelHeap.RunKeepsAllocation | src/mm/heap.c:23-82 | over a legal run an allocation stays in place until it is freed and overlaps no other |
| KernelHeap.RunKeepsAlignment | src/mm/heap.c:23-82 | every run keeps headers and payloads word aligned |
| KernelHeap.MallocFailsIffNoRoom | src/mm/heap.c:23-51 | kmalloc returns 0 exactly when no contiguous free extent has room |
| KernelHeap.MallocThenFree | src/mm/heap.c:23-82 | kfree of the address just returned restores the identical list exactly when the address passes the bounds test |
| KernelHeap.RefusedIffSmallLast | src/mm/heap.c:20-57 | the bounds test fails exactly for a last block of 12 bytes or less taken whole |
| KernelHeap.LastSmallBlockIsNotReleased | src/mm/heap.c:20-57 | one frame, kmalloc(4060), kmalloc(12), kfree: the last block stays allocated |
| KernelHeap.Heap.constructor | src/mm/heap.c:11-21 | heap_init leaves one free block that fills the region |
| KernelHeap.Heap.Kmalloc | src/mm/heap.c:23-51 | the new list and the result are those of first fit; payloads of live blocks and memory outside are unchanged |
| KernelHeap.Heap.Kfree | src/mm/heap.c:53-82 | the new list is the released and merged one; null, out-of-bounds and double frees change nothing |
| KernelHeap.Heap.Perform | src/mm/heap.c:23-82 | over a whole run on memory, every allocation not freed keeps every payload byte |
| UserHeap.GrowthExact | src/libc/malloc.c:17-22 | sbrk raises the break by what grow_heap asked for exactly when the sum neither wraps nor passes the limit; otherwise it refuses and changes nothing, or lowers the break |
| UserHeap.HugeGrowthLowersBreak | src/libc/malloc.c:17-22 | a request of almost 4 GiB succeeds by giving the heap back |
| UserHeap.GrownFits | src/libc/malloc.c:46-77 | the block a growth appends is the first one that fits the request that caused it |
| UserHeap.FirstMalloc | src/libc/malloc.c:17-77 | the first malloc takes 4096 bytes from sbrk and returns the address behind the first header |
| UserHeap.GrowsOnce | src/libc/malloc.c:46-77 | a request whose header fits 32 bits grows the heap at most once, and gets the block appended |
| UserHeap.Exhausts | src/libc/malloc.c:71-76 | a larger one grows the heap by 4096 bytes as often as the limit allows, and returns 0 |
| UserHeap.AstrayIff | src/libc/malloc.c:17-44 | the header of a new block goes to memory just given back exactly when no block fits and the sum of break and need wraps to an address not below the start |
| UserHeap.HugeMallocGoesAstray | src/libc/malloc.c:17-44 | one request for which malloc does so, on a heap without free blocks |
| UserHeap.MallocFailsIff | src/libc/malloc.c:46-77 | for every 32-bit request: malloc returns 0 exactly when no free block fits and the break cannot be raised far enough, or the header of the request does not fit 32 bits |
| UserHeap.MallocGives | src/libc/malloc.c:46-77 | the pointer is the payload of a live block of at least the size asked for; other live blocks stay |
| UserHeap.Allocator.GrowHeap | src/libc/malloc.c:17-44 | for every need: appends one block at the old break, or changes nothing, or goes astray exactly when the wrapped sum is not below the start; the list stays address ordered and disjoint |
| UserHeap.Allocator.Malloc | src/libc/malloc.c:46-77 | for every 32-bit size: list, break and result are the specified ones, recursion included; payloads stay |
| UserHeap.Allocator.Free | src/libc/malloc.c:79-96 | marks and merges in one pass; no two adjacent free blocks are left; payloads stay |
| FatTable.PackedSame | src/fs/fat.c:66-85 | fat_next after fat_set_entry of the same cluster gives the value modulo 4096 |
| FatTable.PackedOther | src/fs/fat.c:66-85 | fat_set_entry leaves every other packed entry unchanged |
| FatTable.ThreeBytes | src/fs/fat.c:66-71 | an even entry is the first byte and the lower half of the second of three, an odd one the rest |
| FatTable.TableUpdate | src/fs/fat.c:73-85 | editing the bytes is one update of the table they represent |
| FatTable.ChainUnique | src/fs/fat.c:492-503 | the chain that starts at a cluster is unique |
| FatTable.ChainLinks | src/fs/fat.c:492-503 | a chain: clusters from 2 on, each linked to the next, the last one with 0xFF8 or more |
| FatTable.ChainDistinct | src/fs/fat.c:492-503 | an end-marked chain visits no cluster twice |
| FatTable.FreedAll | src/fs/fat.c:148-156 | when the free loop ends, exactly the clusters reachable from its argument have been cleared |
| FatTable.ChainCleared | src/fs/fat.c:148-156 | for a well-formed chain these are the clusters of the chain |
| FatTable.FreeHead | src/fs/fat.c:134-146 | taking the lowest free cluster takes the head off the list of free clusters |
| FatBuffer.Fat.Next | src/fs/fat.c:66-71 | reads the entry of the table |
| FatBuffer.Fat.SetEntry | src/fs/fat.c:73-85 | changes one entry of the table and no other |
| FatBuffer.Fat.AllocCluster | src/fs/fat.c:134-146 | takes the lowest cluster with entry 0 and sets it to 0xFFF, or reports that there is none |
| FatBuffer.Fat.FreeChain | src/fs/fat.c:148-156 | terminates on every in-range table, cyclic ones included, and clears exactly what is reachable |
| Dirent.NameRoundTrip | src/fs/fat.c:95-125 | to_fat_name undoes from_fat_name exactly on names in 8.3 form |
| Dirent.EncodeName | src/fs/fat.c:95-109 | the loops of to_fat_name compute the padded name that StoredByte describes |
| Dirent.StoredByte | src/fs/fat.c:95-109 | byte k of the stored name: the byte of base or extension with a small letter made a capital, any other byte kept, a space behind the end |
| Dirent.CaseIgnored | src/misc/util.h:19-24 | names that differ at most in the case of letters have the same stored form |
| Dirent.HelloStored | src/fs/fat.c:95-109 | hello.txt is stored as HELLO, three spaces, TXT |
| Dirent.ListedName | src/fs/fat.c:111-125 | a stored name is listed as base, dot and extension, each up to its first space, without a dot when there is no extension |
| Dirent.DecodeName | src/fs/fat.c:111-125 | the loops of from_fat_name compute the dotted name |
| Dirent.WithFieldsRead | src/fs/fat.c:575-592 | first cluster and size written into an entry are read back |
| Dirent.FieldBytes | src/fs/fat.h:29-42 | name, attributes, first cluster and size by byte offset; when an entry is free, last, a directory, a label, a dot entry |
| Dirent.RecordBytes | src/fs/fat.c:582-590 | a new record byte by byte: reserved byte, times and the upper cluster number are zero |
| FatInvariant.Detach | src/fs/fat.c:537-540 | setting an entry aside, with all that is below it, leaves the volume consistent but for that slot and its chain; what was below is lost |
| FatInvariant.StraysIff | src/fs/fat.c:537-540 | nothing is lost by that exactly when the entry is a file, or a directory none of whose entries has clusters |
| FatInvariant.FreePend | src/fs/fat.c:148-156 | freeing the chain set aside keeps the rest consistent |
| FatInvariant.ExtendPend | src/fs/fat.c:545-563 | linking a free cluster to the chain under construction keeps it a chain apart from all others |
| FatInvariant.Attach | src/fs/fat.c:575-592 | storing an entry for the chain under construction completes a consistent volume |
| FatInvariant.Kill | src/fs/fat.c:575-592 | an entry that looks deleted, stored for the chain under construction, leaves a volume that has lost that chain |
| FatInvariant.GrowDir | src/fs/fat.c:318-345 | linking a cluster of end entries to a directory keeps the volume consistent |
| FatContent.ContentSplice | src/fs/fat.c:674-690 | changing bytes of the i-th cluster of a chain changes the same bytes of its contents and no others |
| FatContent.OtherFileKept | src/fs/fat.c:511-932 | under an operation every other file keeps its entry, its chain and its bytes |
| FatDisk.ChsRoundTrip | src/devices/ata.c:120-124 | 16 heads, 63 sectors from 1 on: cylinder, head and sector determine the sector number exactly below 65536 * 16 * 63 |
| FatDisk.AreasTile | src/fs/fat.c:442-466 | table copies, root directory and clusters from number 2 on follow each other without a gap, and behind the last cluster there is no room for another |
| FatDisk.AreasDisjoint | src/fs/fat.c:442-466 | root directory and clusters occupy disjoint sectors |
| FatDisk.WriteInArea | src/fs/fat.c:49-64 | writing sectors of one area changes that area accordingly and no other |
| FatDisk.Disk.ReadLba | src/fs/fat.c:32-47 | reads the sectors asked for, or reports an error of a faulty disk |
| FatDisk.Disk.WriteLba | src/fs/fat.c:49-64 | writes exactly those sectors, or reports an error of a faulty disk |
| FatPath.SplitNext | src/fs/fat.c:169-188 | yields the next component, cut at twelve characters with the rest as another component |
| FatPath.SplitJoined | src/fs/fat.c:169-188 | components of at most twelve bytes, joined by slashes, are the components found again |
| FatPath.LongComponent | src/fs/fat.c:169-188 | the first twelve bytes of a longer one are a component, and the rest is taken apart like a path |
| FatPath.PathsIgnoreCase | src/fs/fat.c:385-440 | paths that differ at most in the case of letters denote the same |
| FatPath.LookupUnique | src/fs/fat.c:190-345 | a name denotes at most one slot of a directory |
| FatUpdate.FreeChainIsFreePend | src/fs/fat.c:148-156 | fat_free_chain of the first cluster frees exactly the file's chain |
| FatUpdate.WalkKept | src/fs/fat.c:385-440 | a path that leads somewhere still leads there after an update of another slot |
| FatUnique.SameDirs | src/fs/fat.c:190-345 | the directory tree is determined by the volume |
| FatUnique.ConsistentIff | src/fs/fat.c:511-932 | between operations the volume is consistent exactly when nothing is lost |
| FatUnique.StoppedHalfWay | src/fs/fat.c:511-725 | an update stopped half-way has left a consistent volume exactly when nothing is lost and the entry owns exactly the clusters held |
| FatUnique.BrokenDirectory | src/fs/fat.c:537-540 | a directory entry that has a size, or leads to a free cluster, is no part of a consistent volume |
| FatVolume.GrowthKeepsInv | src/fs/fat.c:318-345 | a directory that grows by a zeroed cluster keeps the invariant, and all other files |
| FatVolume.GrownCreatable | src/fs/fat.c:318-345 | afterwards the first slot of the new cluster is the first free one, and the name is still absent |
| FatVolume.Volume.Flush | src/fs/fat.c:158-167 | every copy of the table on disk equals the table in memory; no area changes |
| FatVolume.Volume.DirLookup | src/fs/fat.c:190-345 | finds the slot of the name, or the first free slot, or grows the directory by exactly one cluster; 2 and 3 only when no slot is free |
| FatFiles.ResolvePath | src/fs/fat.c:385-440 | the directory and name a path denotes; missing and not-a-directory are reported exactly |
| FatFiles.ReadFile | src/fs/fat.c:468-509 | the size of the file and the bytes of its whole chain; fails only for an absent path or a faulty disk |
| FatFiles.Stat | src/fs/fat.c:766-805 | name, size, first cluster and attributes of what the path denotes; fails only for an absent path or a faulty disk |
| FatFiles.InfoBytes | src/fs/fat.c:766-805 | the fields reported by byte offset of the entry |
| FatWrite.WriteData | src/fs/fat.c:542-573 | a chain with the data and zeros behind it, exactly if the data fits into the free clusters; otherwise the table is as before |
| FatWrite.WriteFile | src/fs/fat.c:511-594 | on a sound disk it succeeds exactly if the path has a place and the data fits; then the file is exactly the data, or its entry looks deleted; all else is unchanged, the tables on disk are current, and the volume is consistent exactly if it was and nothing is lost; on failure the exact condition for a consistent volume |
| FatWrite.UpdatedLoss | src/fs/fat.c:537-540 | a write over a directory leaves a consistent volume exactly if it was and no entry of the directory had clusters |
| FatWrite.BuriedLoss | src/fs/fat.c:575-592 | a write to a name that looks deleted leaves a consistent volume exactly if it was and no clusters were taken |
| FatWrite.ReadBack | src/fs/fat.c:468-594 | a reader then gets the size and the data filled up with zeros to a cluster boundary |
| FatWrite.WrittenRecord | src/fs/fat.c:582-590 | the new entry byte by byte: stored name, attribute 0x20, zeros, first cluster, size |
| FatWrite.WriteThenRead | src/fs/fat.c:468-594 | fat_write_file then fat_read_file returns the data, zero-padded by less than a cluster; it fails only on a faulty disk, without a place or room, or for a name that looks deleted, and then always |
| FatWriteAt.JobWrite | src/fs/fat.c:674-690 | each part written adds the next bytes of the data to the file and changes no other byte |
| FatWriteAt.WriteAt | src/fs/fat.c:596-725 | on a sound disk it succeeds exactly if the path has a place and the chain can be lengthened far enough; the file then consists of the old clusters and the lowest free ones, with the data in place; clusters are accounted for; on failure the exact condition for a consistent volume |
| FatWriteAt.PutAtLoss | src/fs/fat.c:596-725 | a successful write leaves a consistent volume exactly if it was, the target is no directory and its name does not look deleted |
| FatWriteAt.StoppedAt | src/fs/fat.c:656-702 | when it stops for want of clusters, the volume is consistent exactly if it was and none had been taken |
| FatWriteAt.OverwriteIsSplice | src/fs/fat.c:596-725 | for offset up to the old size the file becomes old[..offset] + data + old[offset + len..] |
| FatWriteAt.OverwrittenByte | src/fs/fat.c:596-725 | for every offset, with and without an existing file: the data in the range, the old byte before the old end, and otherwise what the old clusters and the lowest free ones held before |
| FatWriteAt.HoleReadsZeroIff | src/fs/fat.c:653-666 | the gap behind the old end reads as zeros exactly if those clusters held zeros there before |
| FatWriteAt.OverwrittenSize | src/fs/fat.c:711-716 | the new size is max(old, offset + len) |
| FatWriteAt.OverwrittenRecord | src/fs/fat.c:711-725 | name, attributes and times of an existing file stay; those of a new one are its stored name, 0x20 and zeros |
| FatFailures.ReplaceTooMuch | src/fs/fat.c:537-573 | replacing a file that has contents by too much data reports 3 and leaves an inconsistent volume |
| FatFailures.SomeBlank | src/fs/fat.c:442-466 | blank volumes exist, with any contents of the free clusters |
| FatFailures.BlankThenReplace | src/fs/fat.c:537-573 | on any blank volume: one byte, then more than the disk holds, and the volume is inconsistent |
| FatFailures.BlankThenWriteAt | src/fs/fat.c:656-702 | on any blank volume: one write beyond the last free cluster, and the volume is inconsistent |
| FatFailures.BlankThenHole | src/fs/fat.c:653-666 | on any blank volume: a first write at offset 10 yields ten old bytes of cluster 2, then the data |
| FatFailures.BlankThenReadDirectory | src/fs/file.c:59-87 | on any blank volume: make a directory, open it, read: the buffer is overrun |
| FatFailures.BlankThenOpenDirectory | src/fs/file.c:7-50 | on any blank volume: make a directory, write a file in it, open the directory for writing: the volume is inconsistent |
| FatFailures.BlankThenWriteDirectory | src/fs/fat.c:596-725 | on any blank volume: make a directory, fat_write_at to it: success, and the volume is inconsistent |
| FatFailures.BlankThenReadEmptied | src/fs/file.c:59-87 | on any blank volume: a file of one byte is opened, then emptied; a read still delivers one byte, the one the heap held |
| FatFailures.BlankThenBury | src/fs/fat.c:575-592 | on any blank volume: a file named by the byte 0xE5 cannot be found afterwards, and its cluster is lost |
| FatFailures.CutDenotesAnother | src/fs/file.c:33-36 | a path of more than 63 bytes is cut and then leads to another name |
| FatExamples.BlankThenMkdir | src/fs/fat.c:807-874 | on a blank volume: the new directory is in cluster 2, "." leads to 2 and ".." to 0 |
| FatExamples.BlankThenStat | src/fs/fat.c:766-805 | on a blank volume: a file written as "a" is found as "A", with its size and attribute 0x20 |
| FatTree.TakeOut | src/fs/fat.c:749-763 | clearing an entry and its chain keeps the invariant and every other file |
| FatTree.DeleteFile | src/fs/fat.c:727-764 | on success the file is gone, its entry is as before but for the first byte, 0xE5, and nothing else has changed; every other result names its reason |
| FatTree.DirIsEmpty | src/fs/fat.c:347-383 | 1 exactly when no entry but dots, labels and deleted ones is in the directory |
| FatTree.IgnoredBytes | src/fs/fat.c:359-375 | what is passed over, by the bytes of the entry |
| FatTree.Rmdir | src/fs/fat.c:876-932 | removes exactly an empty directory; every other result names its reason |
| FatTree.Mkdir | src/fs/fat.c:807-874 | on success there is a new directory in the lowest free cluster, or an entry that looks deleted, nothing else has changed, and the volume is consistent exactly if it was and the name can be stored; every other result names its reason and keeps all other files |
| FatTree.MadeBytes | src/fs/fat.c:835-874 | the new entry leads to a cluster that starts with "." leading to itself and ".." leading to the directory it is in, and is zero behind them |
| FatTree.MkdirLoss | src/fs/fat.c:861-873 | a new directory leaves a consistent volume exactly if it was and its name does not look deleted |
| FatTree.MadeIsEmpty | src/fs/fat.c:835-860 | the directory just made is empty in the sense of fat_rmdir |
| FatList.ListedOnce | src/fs/fat.c:984-1072 | the listing holds every live entry of the directory exactly once |
| FatList.ListedNameFound | src/fs/fat.c:984-1072 | looking up a listed name finds that same slot exactly when the name is in 8.3 form |
| FatList.SpacedName | src/fs/fat.c:95-125 | the stored name `A B` is listed as `A`, which is another name |
| FatList.ReadDir | src/fs/fat.c:984-1072 | reports entry number index of the listing, and 2 only behind its end |
| FatList.OpenDir | src/fs/fat.c:934-982 | the directory a path denotes; every other result names its reason |
| OpenFiles.RoundsUpIff | src/fs/fat.c:1074-1078 | the formula rounds every size up to whole clusters exactly when the cluster size is a power of two |
| OpenFiles.ThreeSectorClusters | src/fs/fat.c:1074-1078 | with three sectors per cluster one byte gets a buffer of one sector |
| OpenFiles.BufferHolds | src/fs/fat.c:1074-1078 | for a power of two: n clusters fit into the buffer for a size exactly when n is no more than that size asks for |
| OpenFiles.OverrunIff | src/fs/file.c:59-87 | any handle, power-of-two cluster size: file_read overruns its buffer exactly when the file has more clusters than the size in the handle asks for |
| OpenFiles.FreshOverrunIff | src/fs/file.c:7-87 | a handle just opened on an uncut path does so when it is one on a directory, and for powers of two exactly then |
| OpenFiles.DirectoryBuffer | src/fs/file.c:64-65 | for a directory the buffer has no bytes, whatever the cluster size |
| OpenFiles.HeapHiddenIff | src/fs/file.c:59-87 | what is delivered does not depend on what the heap held exactly when the file still has clusters for the part asked for |
| OpenFiles.HandleReads | src/fs/file.c:59-87 | a handle that knows the size of its file never overruns the buffer, and gets the bytes of the file |
| OpenFiles.Files.Open | src/fs/file.c:7-50 | for every path: takes the first free slot with offset 0 and the size of the entry; opened for writing, the file, or directory, is truncated, with the exact condition for a consistent volume; fails only for the listed reasons |
| OpenFiles.Files.Close | src/fs/file.c:52-57 | frees the slot |
| OpenFiles.Files.Read | src/fs/file.c:59-87 | for every index and handle: copies the clusters into a buffer of the computed size and delivers the part asked for, or overruns it exactly when `Overruns` says so; it fails only without a handle, a buffer or a file, or on a faulty disk |
| OpenFiles.Files.Write | src/fs/file.c:89-104 | for every index and handle: does what fat_write_at does at the offset, and moves it; through a handle that knows its file, splices the data in; on a sound disk fails only when the path has no place or the clusters do not suffice |
| OpenFiles.WriteChunks | src/fs/file.c:89-104 | chunks written one after the other give their concatenation, and on a sound disk fail only if it does not fit |
| OpenFiles.ReadSplit | src/fs/file.c:59-87 | reads of any lengths deliver the prefix of the file of their total length |
| OpenFiles.WriteCloseRead | src/fs/file.c:7-104 | write in any split, close, open, read in any split: the concatenation; it fails only without a free slot, on a faulty disk, without a place, or if the data does not fit |
| Pmm.SetTaken | src/mm/pmm.c:23-29 | setting a bit of a word marks that frame and no other |
| Pmm.ClearTaken | src/mm/pmm.c:31-37 | clearing a bit of a word frees that frame and no other |
| Pmm.TakenBit | src/mm/pmm.c:23-43 | frame f is taken exactly when bit f % 32 of word f / 32 is set |
| Pmm.Frames.AllocFrame | src/mm/pmm.c:102-116 | takes the lowest free frame; panics exactly when there is none |
| Pmm.Frames.FreeFrame | src/mm/pmm.c:118-120 | frees that frame and no other |
| Pmm.Frames.AllocFrames | src/mm/pmm.c:122-146 | takes the lowest run of free frames; panics only when there is none |
| Pmm.Frames.FreeFrames | src/mm/pmm.c:148-151 | frees exactly that run |
| PageTables.EntrySet | src/mm/paging.c:90-97 | setting a table entry for a frame in hand keeps every frame owned once |
| PageTables.TableLinked | src/mm/paging.c:76-88 | linking a zeroed table keeps every frame owned once |
| PageTables.MappedOwner | src/mm/paging.c:163-181 | a mapped user page leads to the one frame whose owner is that page |
| PageTables.Translation | src/mm/paging.c:163-181 | when an address is mapped, open to the user or writable, and where it leads, by the bytes of directory and table |
| PageTables.EntryIs | src/mm/paging.c:90-97 | an entry is the address of the frame with the flags in the lower bits, and present |
| PageTables.AddressParts | src/mm/paging.c:163-181 | ten bits of an address select the table, ten the page, and the kernel has the last quarter |
| PageTables.PteAfterSet | src/mm/paging.c:90-97 | setting one entry changes the translation of that page in that space and of no other |
| Paging.Machine.CreateAddressSpace | src/mm/paging.c:31-43 | a new directory with nothing mapped below the kernel; other spaces keep their translations and their frames |
| Paging.Machine.MapPage | src/mm/paging.c:73-98 | changes the translation of exactly one page of one space; pages keep their bytes; panics only when every frame is in use |
| Paging.TableEntry | src/mm/paging.c:76-88 | the entry of a new table is its address and 3, or 7 when the user may use it |
| Paging.Machine.UnmapPage | src/mm/paging.c:100-114 | removes exactly one page of one space, and its frame is back in hand |
| Paging.Machine.Walk | src/mm/paging.c:163-181 | reports a mapping exactly if there is one, with its physical address |
| Paging.Machine.ValidateUserRange | src/mm/paging.c:183-220 | 1 exactly if the range is empty, or does not wrap and every page is present, user and, if asked, writable |
| Paging.RangeIs | src/mm/paging.c:183-220 | every page of a range allows the access exactly when every byte of it does |
| Paging.Machine.DestroyAddressSpace | src/mm/paging.c:45-71 | frees exactly the frames of that space: directory, tables and pages; the rest stays owned as it was |
| UserSpace.MapAndCopy | src/userspace/exe.c:13-53 | maps and fills the pages of a segment; bytes and rights of pages already there are kept or upgraded |
| UserSpace.ImageMade | src/userspace/exe.c:76-88 | the four segments together make the image, also where they share pages |
| UserSpace.ExecLoad | src/userspace/exe.c:55-105 | 4 exactly for a wrong magic number; otherwise the image is in place (ImageReads), nothing else is mapped, entry is the number at byte 4 of the file, the stack ends at 0xBFFFF000 and the heap at 0xBFFFA000; other spaces are untouched |
| UserSpace.HeaderBytes | src/userspace/exe.h:10-19 | the eight fields of the header by byte offset |
| UserSpace.ImageReads | src/userspace/exe.c:76-88 | data and code read as the bytes of the file, at the addresses the header gives; bss and stack read zero; data, bss and stack are writable |
| UserSpace.TouchedIff | src/userspace/exe.c:13-19 | a segment maps exactly the pages that hold one of its bytes |
| UserSpace.RoundUpIs | src/userspace/exe.c:96-98 | the heap starts at the next page boundary |
| UserSpace.SampleHeader | src/userspace/exe.h:10-19 | a header with eight different fields |
| UserSpace.SampleImage | src/userspace/exe.c:76-98 | where the bytes of that program are, which pages it has and has not |
| UserSpace.HeapClearIff | src/userspace/exe.c:96-98 | the heap range is unmapped exactly when no code or data page lies above the bss |
| UserSpace.TinyHeader | src/userspace/exe.c:55-74 | the fields of that header pass every test of exec_load |
| UserSpace.HeapUnderCode | src/userspace/exe.c:96-98 | a header exec_load accepts whose heap starts at 0, with its code at 0x400000 inside the heap area |
| UserSpace.Sbrk | src/userspace/syscalls.c:150-199 | refuses and changes nothing, or moves the break: pages gained read zero and are writable, pages lost are unmapped and their frames freed, all others are as before |
| UserSpace.BreakAccepted | src/userspace/syscalls.c:153-158 | without a wrap exactly the breaks from the start of the heap to 0xBFFFA000 are accepted |
| UserSpace.BreakMovesByDelta | src/userspace/syscalls.c:151-158 | an accepted sbrk moves the break by delta exactly when the sum does not wrap |
| UserSpace.WrappedBreak | src/userspace/syscalls.c:151-158 | a request to lower the break by 2 GiB is accepted as one to raise it by 2 GiB |
| UserSpace.RunHidden | src/mm/paging.c:45-71 | over any interleaving of spaces, taking one down gives back every frame it took: what differs from the beginning is free, or owned by another space that ran, at both ends |
| UserSpace.RunKeepsOthers | src/mm/paging.c:45-71 | kernel frames and frames of spaces that did not run are as they were |
| UserSpace.LifeCycle | src/userspace/exe.c:55-105 | load, any sequence of sbrk calls, teardown: the bitmap is exactly what it was |
| Keyboard.PutIsEnqueue | src/devices/kbd.c:55-63 | the ring is a queue of 255 characters; the 256th empties it |
| Keyboard.GetIsDequeue | src/devices/kbd.c:72-81 | the oldest character, or -1 |
| Keyboard.TypedInOrder | src/devices/kbd.c:33-81 | characters are read in the order in which they were typed |
| Keyboard.TypedIs | src/devices/kbd.c:33-63 | what a scancode does to the shift, which character it gives under either table, and that it is stored last |
| Keyboard.OwnTables | src/devices/kbd.c:12-26 | the two tables row by row |
| Keyboard.LetterRows | src/devices/kbd.c:12-26 | shift turns every letter into its capital; the keys around them |
| Keyboard.Buffer.Scancode | src/devices/kbd.c:33-63 | shift keys, releases and characters change the ring as specified |
| ProcessSafety.OneRunning | src/multi/scheduler.c:41-66 | exactly one process runs, and it is the current one |
| ProcessSafety.WaitersHaveTargets | src/userspace/syscalls.c:540-571 | who is blocked on a pid has a target that is on the list and not dead |
| ProcessSafety.SwitchKeeps | src/multi/scheduler.c:41-66 | the switch keeps the invariant and the chosen process runs |
| ProcessSafety.ResumeKeeps | src/userspace/syscalls.c:540-571 | a resuming wait finds its target dead, returns its exit code and takes it off the list |
| ProcessSafety.StepKeeps | src/userspace/syscalls.c:58-608 | every call and interrupt keeps the invariant |
| ProcessSafety.BootOk | src/multi/process.c:187-194 | the state in which the first program starts satisfies it |
| ProcessSafety.RunKeeps | src/userspace/syscalls.c:58-608 | so it holds in every reachable state |
| ProcessSafety.StepLater | src/userspace/syscalls.c:58-608 | the dead stay dead with their exit code, and nobody returns to the list |
| ProcessProgress.StepCloser | src/multi/scheduler.c:18-66 | the cyclic distance to a ready process falls with every call of schedule, also when dead processes are unlinked |
| ProcessProgress.BoundedWaiting | src/multi/scheduler.c:18-66 | without new processes a process that stays ready is chosen within as many calls as the list is long |
| ProcessProgress.WaitReturnsExitCode | src/userspace/syscalls.c:540-571 | a process chosen with an unfinished wait returns the exit code of its dead target |
| ProcessProgress.RunLater | src/userspace/syscalls.c:58-77 | the dead stay dead with their exit code, and off the list, for the rest of the run |
| ProcessProgress.SleeperWakes | src/devices/pit.c:18-44 | a sleeper becomes ready exactly at the first tick not before its time, and by nothing else |
| ProcessProgress.CleanedByTickOnly | src/devices/pit.c:23-30 | a process is cleaned up exactly by a tick that finds it dead on the list |
| ProcessProgress.CleanedIffReaped | src/devices/pit.c:23-30 | over a run: cleaned up exactly if some tick found it dead on the list |
| ProcessProgress.NeverCleaned | src/userspace/syscalls.c:561-566 | a process unlinked before that is never cleaned up |
| ProcessProgress.ChildNeverCleaned | src/userspace/syscalls.c:561-566 | a waiting parent that runs before the next tick causes it |
| ProcessProgress.SecondWaiterLoses | src/userspace/syscalls.c:561-563 | of two waiters for a pid, the second to go on follows a pointer to a process that is gone, whatever happens in between |
| ProcessProgress.TwoWaitersLose | src/userspace/syscalls.c:561-563 | the state with two waiters in which it happens |
| ProcessAnswers.PickIs | src/multi/scheduler.c:18-39 | the process chosen is the first ready one counted from behind the current one around the list |
| ProcessAnswers.IdleIsPicked | src/multi/scheduler.c:18-39 | with nobody ready on the list the idle process is chosen |
| ProcessAnswers.StepExitCode | src/userspace/syscalls.c:58-60 | an exit code is set by the exit of that process, to the number given, and by nothing else |
| ProcessAnswers.ExitStores | src/userspace/syscalls.c:58-60 | a process that exits is dead with the code given |
| ProcessAnswers.ExitCodeStays | src/userspace/syscalls.c:58-77 | for the rest of the run |
| ProcessAnswers.WaiterGetsCode | src/userspace/syscalls.c:540-571 | over a run: a waiter that goes on after the exit returns the code given to exit |
| ProcessAnswers.LateWaitGetsCode | src/userspace/syscalls.c:549-553 | so does a wait that finds the process dead |
| ProcessAnswers.NoExitNoCode | src/multi/process.c:176 | without an exit the code stays what it was at creation |
| ProcessAnswers.SpawnAnswers | src/userspace/syscalls.c:440-507 | the new pid, and a ready child at the head of the list with exit code -1; or -1 and nothing |
| ProcessAnswers.KillAnswers | src/userspace/syscalls.c:509-538 | 0, the process is dead and those who wait for it are ready, nobody else has changed; -1 without such a process |
| ProcessAnswers.WaitAnswers | src/userspace/syscalls.c:540-556 | -1, or the exit code of a dead process, or a block on that pid |
| ProcessAnswers.GetCharAnswers | src/userspace/syscalls.c:587-608 | the oldest character waiting; without one a block, or -1 |
| ProcessAnswers.EntersAs | src/userspace/syscalls.c:58-585 | what exit, kill of oneself, sleep and yield have changed when they call schedule |
| ProcessAnswers.FaultEnters | src/idt/isr.c:17-40 | a fault kills the process and readies whoever is blocked with it as target |
| ProcessAnswers.ChosenReturns | src/userspace/syscalls.c:79-602 | a process chosen in yield or sleep returns 0, one chosen in getchar the oldest character or -1 |
| ProcessAnswers.KeyWakes | src/devices/kbd.c:49-69 | a character wakes the first process on the list blocked on input and nobody else; other keys nobody |
| ProcessAnswers.SleepsUntil | src/userspace/syscalls.c:573-585 | over a run: sleep(ms) at tick t lasts until tick t + ms, unless the process is killed, and that tick ends it |
| Kernel.Table.PickNext | src/multi/scheduler.c:18-39 | the walk chooses the first ready process behind the current one, else idle |
| Kernel.Table.Schedule | src/multi/scheduler.c:41-66 | equals the specified switch and resumption |
| Kernel.Table.Find | src/multi/process.c:196-207 | finds the process on the list, if it is there |
| Kernel.Table.Unlink | src/multi/process.c:234-248 | removes the process from the list and keeps the order of the others |
| Kernel.Table.TickAll | src/devices/pit.c:18-42 | the loop over the list wakes and cleans up as specified |
| Kernel.Table.Timer | src/devices/pit.c:18-44 | equals the specified tick step |
| Kernel.Table.KeyPressed | src/devices/kbd.c:33-70 | equals the specified key step: the first reader wakes |
| Kernel.Table.UserFault | src/idt/isr.c:17-76 | equals the specified fault step: the process dies, its waiters wake |
| Kernel.Table.SysExit | src/userspace/syscalls.c:58-77 | equals the specified exit step |
| Kernel.Table.SysYield | src/userspace/syscalls.c:79-87 | equals the specified yield step |
| Kernel.Table.SysSpawn | src/userspace/syscalls.c:440-507 | equals the specified spawn step: a fresh ready process at the head of the list |
| Kernel.Table.SysKill | src/userspace/syscalls.c:509-538 | equals the specified kill step |
| Kernel.Table.SysWait | src/userspace/syscalls.c:540-571 | equals the specified wait step |
| Kernel.Table.SysSleep | src/userspace/syscalls.c:573-585 | equals the specified sleep step |
| Kernel.Table.SysGetChar | src/userspace/syscalls.c:587-602 | equals the specified blocking read step |
| Kernel.Table.SysGetCharNb | src/userspace/syscalls.c:604-608 | equals the specified non-blocking read step |
| PathNormalize.PathNormalize | src/libc/path.c:8-62 | the component stack and the output loop write exactly the specified string, terminated, inside the buffer |
| PathNormalize.NormalizeIsFold | src/libc/path.c:8-62 | within the component and depth limits the result is the unbounded stack fold over the components exactly when the buffer does not cut |
| PathNormalize.OneMore | src/libc/path.c:13-41 | one component more: "." stays, ".." goes up, a name is entered, cut after 31 bytes, unless sixteen are there |
| PathNormalize.NothingMore | src/libc/path.c:13-17 | empty components add nothing |
| PathNormalize.DotsResolved | src/libc/path.c:8-62 | /a/./b/../c/ becomes /a/c |
| PathNormalize.OutputShape | src/libc/path.c:43-61 | the output is absolute, fits, and has no empty, "." or ".." component; one '/' too many exactly where it was cut |
| PathNormalize.Idempotent | src/libc/path.c:8-62 | normalizing again changes nothing exactly when the buffer cut nothing or everything |
| PathNormalize.ComposesIff | src/libc/path.c:8-62 | normalize(a/b) = normalize(normalize(a)/b) for every b exactly when a is not cut or no buffer byte is left for a component |
| PathNormalize.CutLeavesSlash | src/libc/path.c:47-59 | an eight-byte buffer for which neither law holds |
| Rtc.EpochOrder | src/devices/rtc.c:78-88 | the epoch orders dates as the calendar does, so no two dates share one |
| Rtc.EpochStart | src/devices/rtc.c:41-48 | midnight of 1 January 1970 is second 0, and no valid date is before it |
| Rtc.EpochCountsSeconds | src/devices/rtc.c:78-88 | one calendar second later the epoch is one larger |
| Rtc.EpochIsPosix | src/devices/rtc.c:78-88 | the formula of POSIX.1-2017 Base Definitions section 4.16, with tm_yday in closed form |
| Rtc.MonthLengths | src/devices/rtc.c:23-26 | 31 days, 30 in April, June, September and November, 28 or 29 in February by the Gregorian rule |
| Rtc.YearDayIs | src/devices/rtc.c:78-86 | the day of the year without a table |
| Rtc.MayDay | src/devices/rtc.c:78-88 | 1 May 2024 is second 1714521600, and the second before it is the end of 30 April |
| Rtc.DaysSinceEpochToYear | src/devices/rtc.c:41-48 | the loop sums the lengths of the years from 1970 on |
| Rtc.RtcToEpoch | src/devices/rtc.c:78-88 | the epoch modulo 2^32, for every date with month at most 13 |
| Rtc.YearOf | src/devices/rtc.c:98-110 | the year loop ends with the year the day falls into, at most 2106 |
| Rtc.MonthOf | src/devices/rtc.c:114-120 | the month loop ends inside the table with the month the day falls into |
| Rtc.EpochToRtc | src/devices/rtc.c:90-124 | every 32-bit value is the epoch of the valid date returned |
| Rtc.DateOfEpochOfDate | src/devices/rtc.c:78-124 | to a date and back: the same value, for every 32-bit value |
| Rtc.EpochOfDateOfEpoch | src/devices/rtc.c:78-124 | to an epoch and back: the same date exactly when its epoch fits 32 bits |

## Left out

- FatWrite.WriteFile: on a faulty disk nothing is promised about the volume, because the code does not attempt recovery; the same holds of every operation that reports a disk error.
- FatWriteAt.WriteAt: for a directory that cannot be lengthened far enough nothing is said of the consistency of the volume, since it depends on what had been written over its entries.
- FatWriteAt.WriteAt: when dir_lookup reports that the directory cannot grow, the code goes on with an unset slot (src/fs/fat.c:525-529, src/fs/fat.c:613-617); the model stops there with a result of its own.
- OpenFiles.Files.Read: after an overrun nothing is promised of the bytes delivered or of the heap.
- OpenFiles.Files.Write: after a write through a handle on a directory the volume is not consistent, and later calls are not described.
- OpenFiles.WriteCloseRead: one handle, a path of at most 63 bytes and a name that does not look deleted; two handles on one file are covered only by the single calls.
- UserHeap.Allocator.Malloc: after it has gone astray nothing is promised of the list; the same holds of GrowHeap.
- KernelHeap.Heap.Kfree: asks for a pointer that is null, out of bounds or the payload of a block on the list; for other pointers the code writes through the address.
- UserSpace.ExecLoad: takes the bytes of the file as given, asks that they hold the header and the segments and that the segments lie below the kernel; the read of the header after its buffer is freed is modelled as a read before.
- UserSpace.LifeCycle: asks that bss ends last (`BssLast`), without which the heap may overlap a segment.
- Paging.Machine.MapPage: asks for a frame in hand and, when the page is mapped already, for the same frame, as its callers ensure.
- ProcessSafety.StepKeeps: asks that a pid has one waiter and that the idle process only yields; two waiters are treated by SecondWaiterLoses.
- Kernel.Table.SysSpawn: atomic, with success or failure as a parameter; the real one enables interrupts in copy_to_user.
- Keyboard.Buffer.Scancode: takes the two scancode tables as parameters; OwnTables are those of the driver.
- Rtc.RtcToEpoch: asks for a month of at most 13; beyond that the code reads outside its table.
- The linked process list is a sequence of pids; pointers are pids.
- Wrap-around of pids and of the tick counter: the model's are unbounded, except that the wake-up time is taken modulo 2^32 as in the code.
- pmm_init, paging_init, heap placement and the boot sequence: the model starts from any well-formed state.
- Address-space switches, CR3, invlpg and the stacks of a real context switch.
- Port I/O and ATA command sequencing, CMOS reads and BCD conversion, PIC, GDT and IDT setup.
- SYS_PRINT, SYS_CHDIR, SYS_GETCWD, SYS_PS and user-pointer copying.
- path_resolve_cwd, rtc_now_epoch, the terminal, the shell and the programs in src/init, and the host tools.
- vsnprintf and the string and memory routines.
