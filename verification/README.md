# WinuxOS kernel model

A Dafny model of three parts of the WinuxOS teaching kernel and of the two data structures they share, with
proofs about every input, every run and every interleaving.

- **File system.** A partition is a sequence of 512-byte sectors, a block bitmap, and a map of inodes.
  `FileSystem` carries out `file_write` and `file_read` on it, with twelve direct blocks and one indirect table,
  block allocation, bitmap and inode synchronisation, root directory insert and lookup, `file_create`,
  `file_close`, and the boot that finds the partition in the disk's partition table and mounts it. The ghost field
  `owner` records which slot of which inode each block belongs to; it makes "no block serves two purposes" a
  property of a map. The main results: a write makes the contents `old + buf` in all cases of the allocation and
  touches nothing else (`FileWrite`), a read returns exactly the bytes asked for (`FileRead`), a freshly formatted
  partition mounts as an empty file system with the layout that its super block gives (`FormattedIsEmpty`), and
  after any sequence of creates, writes, closes and remounts the volume implements the plain map from inode numbers
  to byte sequences that the operations describe (`RunsRefine`); each created name leads to the file that the create
  made, with every byte that the run wrote to it (`CreatedLasts`). Whether the next boot finds the partition
  (`BootAfterRun`), and which names it finds then (`NamesAfterRemount`), is stated exactly.
- **Memory.** `PageMaps` has the kernel's virtual page map, the page frame map and the page table entries between
  them; `KernelHeap` adds arenas, seven size classes with free lists, and the bytes. Every run of `sys_malloc` and
  `sys_free` keeps the invariant that ties all of them together, live regions never overlap, and freeing everything
  in any order restores both maps, every entry and the empty lists (`FullReclamation`). `Paging` models page tables
  in physical memory as the processor walks them, reaches entries through the directory's last entry as the kernel
  does, and proves what a new mapping changes, that all address spaces share the kernel half (`KernelStaysShared`),
  and that each user half is exactly what was mapped through its own directory (`UserSpacesApart`). `HeapPaging`
  ties the two: the heap's entries in physical memory are those of `PageMaps`.
- **Threads.** `Threads` is a step machine: one step is one statement of the current thread outside
  `intr_disable`, one whole `intr_disable` section, or one interrupt handler, so every other point can be
  preempted. On all its runs: mutual exclusion, no lost wakeup, scheduler consistency, the IDE handshake under
  arbitrary interrupts, and a round-robin bound. `ThreadsHistory` watches a run from outside, counting the calls and
  returns of each thread and the commands on each channel: a lock is held to the depth that the calls say
  (`DepthIsCalls`), the outermost release gives it back (`ReleaseGivesBack`), and a transfer issues and awaits all
  its commands (`TransferIssuesAll`). `Cpu` is the imperative code, each method proved to make the machine's step.
- **Bitmap and list.** `Bitmap` models the byte-packed map, `List` the intrusive doubly linked list between
  sentinels.

## Where the code and its intent differ

The model follows the code. Each of these is stated with its exact condition.

- `bitmap_set` keeps its byte index in eight bits: it is exact below bit 2048 and only there (`SetBitIsExact`,
  `RunIsMarked`, `AllocIsFresh`). Where a result needs the guard, it is the caller's check `AllocSafe`, proved to
  mean that no allocation crosses the limit before the map is full (`AllocSafeIsExact`), or a scan result that ends
  below `Reach`.
- `bitmap_scan` looks at one bit after the map when it counts a run, and asserts on a full map (`ScanIsFirstFit`;
  a map of one byte shows it, `ScanFailsAt`).
- A write that makes a file exactly 71680 bytes long stops at an assertion (`FileWrite`); a read whose position or
  end lies in block 139 does too (`FileRead`). A new partition with one file gets there (`FileLimits`).
- The size checks of `file_write` and `file_read` are made in 32 bits. They refuse or cut a request exactly when the
  sum does not wrap (`WriteSizeIs`, `ReadSizeIs`); otherwise the data loop leaves the file (`Overrun`).
- `sync_dir_entry` finds no place when twelve directory blocks are full; it then writes the entry, followed by
  zeros, to sector 0 of the disk and reports success. A name that was inserted is found exactly when there was room
  (`InsertIsMapUpdate`, `SyncDirEntry`). Sector 0 holds the disk's partition table, so the next boot finds no
  partition: it finds one exactly when no create of the run met a full directory, which can be told from the number
  of entries and the kinds of the operations (`BootAfterRun`, `Overflows`). Between a format and the second boot that
  is at most 250 creates (`SecondBootFindsAll`); the 251st loses the partition (`FullDirectory`).
- `file_create` returns -1 when the thread has no free descriptor, and has made the file by then (`FileCreate`).
  Nothing ever takes a descriptor back, so a thread gets five in its life (`FdLimit`); 29 files can be open in the
  system (`FileLimit`).
- The root inode is not stored when the directory grows. No run changes its slot (`RootSlotStays`), so a boot that
  finds the partition sees the directory's first block only: it finds the name of entry j exactly when j is below 21,
  and all names exactly when there are at most 21 entries. The files themselves are kept (`NamesAfterRemount`). Of the
  files created since the format the second boot finds all by name exactly when they are at most 19
  (`SecondBootFindsAll`).
- `file_write` stores an inode through a buffer of one sector, which is large enough exactly for an inode that does
  not straddle two (`OneSectorIsEnough`).
- `file_write` leaves `fd_pos` on the last byte instead of behind it, and at 2^32 - 1 for a file that stays empty:
  the next read through the same struct file returns that one byte (`WriteThenRead`).
- `partition_format` leaves bit `len` free unless the blocks fill the bitmap's sectors, and loses bit 0 on a
  partition of fewer than eight blocks (`FormatMeetsIntent`).
- Directory entries 0 and 768 share a page table, so heap pages are also mapped 3 GB lower (`LowAlias`).

## Model

| member | source | states |
|---|---|---|
| Bitmap.MaskIsShift | lib/kernel/bitmap.c:15 | the mask of bit k is one shifted by k |
| Bitmap.FullByte | lib/kernel/bitmap.c:34 | a byte is 0xff exactly when all its eight bits are set |
| Bitmap.WithBitAt | lib/kernel/bitmap.c:22-26 | setting or clearing one bit of a byte changes that bit and no other |
| Bitmap.SetBitIsExact | lib/kernel/bitmap.c:18-27 | bitmap_set does what it is asked on every map exactly for indices below 2048 |
| Bitmap.BitmapSet | lib/kernel/bitmap.c:18-27 | on the byte array: the bit at the 8-bit byte index gets the value, all other bits stay |
| Bitmap.BitmapScanTest | lib/kernel/bitmap.c:12-16 | true exactly when the indexed bit is set |
| Bitmap.FirstClear | lib/kernel/bitmap.c:46-50 | the lowest clear bit of a byte that is not full |
| Bitmap.FirstFree | lib/kernel/bitmap.c:32-52 | byte loop and bit loop find the first clear bit of the map or none |
| Bitmap.CountRun | lib/kernel/bitmap.c:57-74 | the counting loop returns the first run among the bits of the map and the one after it |
| Bitmap.BitmapScan | lib/kernel/bitmap.c:31-75 | the whole scan on the bytes: stop on a full map, first run, or nowhere |
| Bitmap.ScanIsFirstFit | lib/kernel/bitmap.c:31-75 | the result is exact first fit except in the one case where the bit after the map completes a run |
| Bitmap.ScanFailsAt | lib/kernel/bitmap.c:57-74 | the one case on a map of one byte: two bits are asked for, the last bit is returned |
| Bitmap.ScanOfIsScan | lib/kernel/bitmap.c:31-75 | what the scan may return is one value, computed by a function of the bits |
| Bitmap.ScanOne | lib/kernel/bitmap.c:53-55 | a scan for one bit finds the lowest clear bit, or stops |
| List.LinkedList.constructor | lib/kernel/list.c:5-10 | an empty list between two linked sentinels |
| List.ListInsertBefore | lib/kernel/list.c:12-19 | exactly the links on both sides of the new element change |
| List.ListRemove | lib/kernel/list.c:34-39 | exactly the neighbours' links change; they point to each other |
| List.LinkedWith | lib/kernel/list.c:12-19 | after the relinking the sequence with the element inserted is linked and duplicate-free |
| List.LinkedWithout | lib/kernel/list.c:34-39 | after the relinking the sequence without the element is linked and duplicate-free |
| List.LinkedList.InsertBefore | lib/kernel/list.c:12-19 | the element is at its place in the sequence and the list is well-formed |
| List.LinkedList.Push | lib/kernel/list.c:21-28 | the element is the first, the others follow in order |
| List.LinkedList.Append | lib/kernel/list.c:30-32 | the element is the last |
| List.LinkedList.Remove | lib/kernel/list.c:34-39 | the sequence without that element |
| List.LinkedList.Pop | lib/kernel/list.c:41-45 | the first element, and the rest of a list that is not empty |
| List.LinkedList.ElemFind | lib/kernel/list.c:47-54 | true exactly for elements of the list |
| List.LinkedList.IsEmpty | lib/kernel/list.c:55-57 | true exactly for the empty list |
| List.LinkedList.Len | lib/kernel/list.c:59-67 | the number of elements |
| ThreadsInv.ScheduleOk | thread/thread.c:123-146 | schedule never pops an empty list, finds idle blocked when it needs it, and leaves one running thread |
| ThreadsStep.LockStatementMoves | thread/sync.c:54-75 | each statement of lock_acquire and lock_release keeps the lock's fields as its owner's position dictates |
| ThreadsStep.DownPassKeeps | thread/sync.c:24-33 | a pass of sema_down's loop keeps the invariant and none of its assertions fires |
| ThreadsStep.UpEntryKeeps | thread/sync.c:41-75 | the last statement of an outermost lock_release and sema_up keep the whole invariant |
| ThreadsStep.DiskKeeps | device/ide.c:191-199 | the disk handler keeps the invariant at any time; sema_up's assertion on the value holds |
| ThreadsStep.TimerKeeps | device/time.c:21-31 | the timer handler keeps the invariant |
| ThreadsStep.YieldKeeps | thread/thread.c:149-157 | thread_yield keeps the invariant |
| ThreadsStep.BinarySemaphores | thread/sync.c:24-51 | every semaphore has value 0 or 1 |
| ThreadsStep.StepKeeps | thread/sync.c:24-75 | every enabled step keeps the invariant, or is a release by a thread that does not hold the lock |
| ThreadsStep.BootInv | thread/thread.c:159-168 | the state that thread_init leaves satisfies the invariant |
| ThreadsRun.RunKeeps | thread/thread.c:112-186 | every state of every run satisfies the invariant up to a bad release |
| ThreadsRun.MutualExclusion | thread/sync.c:54-75 | two threads are never both between lock_acquire and the matching outermost lock_release |
| ThreadsRun.RepeatIsDepth | thread/sync.c:54-75 | holder and holder_repeat_nr are the recorded holder and its nesting depth outside the transition statements; what is recorded is what the calls say (DepthIsCalls) |
| ThreadsRun.OnlyBadReleasesPanic | thread/sync.c:31-71 | no assertion but the holder check of a bad release ever fires |
| ThreadsRun.SchedulerConsistent | thread/thread.c:123-186 | one running thread, the ready list is the ready threads once each, one list per thread, idle blocked when neither |
| ThreadsRun.NoLostWakeup | thread/sync.c:24-51 | with a free semaphore and waiters some woken thread is ready and still in sema_down's loop |
| ThreadsRun.SleeperHasWaker | thread/sync.c:24-75 | a thread asleep on a lock has an owner that will release it or a woken thread on the way |
| ThreadsRun.WokenRunsNext | thread/sync.c:41-51 | the first waiter becomes ready at the head of the ready list and is on no waiters list; the other waiters keep their order |
| ThreadsRun.LoserRequeuesOnce | thread/sync.c:26-29 | a woken thread that finds the semaphore taken queues again exactly once, at the end |
| ThreadsRun.DiskHandshake | device/ide.c:92-199 | expected interrupt plus signalled completion equals the issued and not awaited commands, at most one, held by the channel's owner |
| ThreadsRun.InterruptWakesDriver | device/ide.c:191-199 | a sleeping driver still expects its interrupt, which puts it at the head of the ready list |
| ThreadsRun.EarlyCompletionIsTaken | device/ide.c:139-141 | a completion before sema_down is consumed without sleeping |
| ThreadsRun.FreeLockIsTaken | thread/sync.c:24-33 | a thread that comes to a free lock takes it without sleeping and keeps the processor |
| ThreadsHistory.DepthIsCalls | thread/sync.c:54-75 | in every run the depth that a thread holds a lock to is its completed lock_acquire calls less its completed lock_release calls, counted from the calls and the returns alone |
| ThreadsHistory.CallsExclude | thread/sync.c:54-75 | two threads never both have more completed acquires of a lock than completed releases |
| ThreadsHistory.LockShowsCalls | thread/sync.c:54-75 | for a thread outside the kernel code the lock names it as holder, with its acquires still to release as repeat count, exactly when it has any |
| ThreadsHistory.ReleaseGivesBack | thread/sync.c:66-75 | a thread that enters lock_release with one acquire to release and returns has set the holder to NULL, the repeat count to 0 and the semaphore to 1, and has put the first waiter, if any, at the head of the ready list |
| ThreadsHistory.FreeWhenApart | thread/sync.c:54-75 | a lock that no thread holds or is acquiring, counted from the calls, is free |
| ThreadsHistory.PanicIsOverRelease | thread/sync.c:67 | a step fails an assertion exactly when a thread enters lock_release with no acquire left to release |
| ThreadsHistory.TransferIssuesAll | device/ide.c:123-189 | between the call of a transfer of n commands and the release of the channel its thread announces, sends and awaits exactly n commands on it |
| ThreadsBound.StepEffect | thread/thread.c:123-186 | every step ticks, switches, wakes one thread or leaves the order of the ready list alone; a thread whose slice is used up goes to the tail with a slice of its priority, one that yields with what is left of it, and a new thread joins at the tail with a full slice |
| ThreadsBound.LoneThreadGoesOn | thread/thread.c:123-146 | with nobody ready the current thread goes on with a new slice |
| ThreadsBound.StartedIsLast | thread/thread.c:42-51 | a new thread is the last of the ready list, with the priority asked for as its slice |
| ThreadsBound.StepRank | device/time.c:21-31 | a waiting thread's distance in slices falls with every timer interrupt and grows only by woken threads' slices |
| ThreadsBound.RoundRobinBound | device/time.c:21-31 | a ready thread runs within the slices of the current thread and those ahead, plus those of threads woken meanwhile |
| ThreadsCode.Cpu.constructor | thread/thread.c:159-168 | thread_init makes the boot state |
| ThreadsCode.Cpu.ThreadUnblock | thread/thread.c:179-186 | the imperative thread_unblock is the machine's |
| ThreadsCode.Cpu.Dispatch | thread/thread.c:123-146 | the imperative schedule is the machine's |
| ThreadsCode.Cpu.TimerInterrupt | device/time.c:21-31 | the imperative timer handler is the machine's |
| ThreadsCode.Cpu.ThreadYield | thread/thread.c:149-157 | the imperative thread_yield is the machine's |
| ThreadsCode.Cpu.ThreadBlock | thread/thread.c:170-177 | the imperative thread_block is the machine's |
| ThreadsCode.Cpu.SemaDown | thread/sync.c:24-33 | one pass of the imperative sema_down is the machine's |
| ThreadsCode.Cpu.SemaUp | thread/sync.c:41-51 | the imperative sema_up is the machine's |
| ThreadsCode.Cpu.DiskHandler | device/ide.c:191-199 | the imperative disk handler is the machine's |
| Disk.DecodeEncode | fs/file.c:202 | words stored as little-endian bytes come back as they were |
| Disk.AddressFits | device/ide.c:77-89 | the drive understands the registers as meant, 256 as count 0, exactly for 28-bit addresses |
| Disk.RequestsTile | device/ide.c:131-154 | the chunks ask for every sector of the transfer exactly once and for no other |
| Disk.RequestsCount | device/ide.c:131-154 | a transfer of cnt sectors takes (cnt + 255) / 256 commands |
| Disk.Controller.IdeRead | device/ide.c:123-157 | the chunk loop returns exactly the sectors asked for, by exactly those requests |
| Disk.Controller.IdeWrite | device/ide.c:160-189 | the chunk loop replaces exactly the sectors asked for |
| Volume.AllocIsFresh | fs/file.c:63-71 | two allocations in a row differ exactly when the first lies below bit 2048 |
| Volume.AllocSafeIsExact | fs/file.c:63-71 | the guard says exactly that the next k allocations stay inside until the map is full |
| Volume.SyncedIsFaithful | fs/fs.c:40-43 | a bitmap read back at mount is the one that was synced |
| Volume.PackedIsMemory | fs/file.c:74-95 | the bytes of the bitmap on disk are those of the bitmap in memory |
| SuperBlock.SuperRoundTrip | fs/fs.c:96-136 | all thirteen fields of the super block lie where the structure has them, and the layout, the magic number and the constants that a mount takes from it are those that were stored |
| SuperBlock.ReadBitsIsSynced | fs/fs.c:40-48 | a mount reads exactly the bitmap whose bytes are on disk, both ways |
| Volume.BlocksAreDistinct | fs/file.c:167-295 | blocks, tables and indirect entries of all inodes are pairwise distinct |
| Volume.BlocksAreMarked | fs/file.c:63-71 | every block in use lies in the data region and its bit is set |
| Volume.HoldsMore | fs/file.c:300-321 | writing a chunk after the first bytes of a sector extends the contents by the chunk |
| Volume.ContentsUnique | fs/file.c:329-425 | disk and inode determine a file's contents |
| Inodes.Locate | fs/inode.c:23-30 | sector and offset are those of byte 76 times the number, and the flag says whether the inode straddles |
| Inodes.LocateInTable | fs/inode.c:23-30 | every inode of the table lies inside it |
| Inodes.OneSectorIsEnough | fs/inode.c:23-30 | file_write's 512-byte buffer is large enough exactly when 76 * number mod 512 is at most 436; number 6 is the first that straddles |
| Inodes.BytesRoundTrip | fs/inode.c:37-42 | an inode read back has its number, size and block list, open count and write lock cleared |
| Inodes.InodeLayout | fs/inode.h:10-17 | the number is at byte 0 of the slot, the size at 4, the blocks from 16 on |
| Inodes.SlotsDoNotInterfere | fs/inode.c:33-54 | storing one inode leaves every other slot's bytes alone, shared sectors included |
| Inodes.PatchIsSlotWritten | fs/inode.c:45-53 | reading one or two sectors, patching 76 bytes and writing back replaces exactly the slot |
| OpenInodes.Cache.InodeOpen | fs/inode.c:57-99 | an open inode is shared and counted; another is read from its slot and put in front; the list stays in order exactly when the slot holds the number asked for |
| OpenInodes.Cache.InodeClose | fs/inode.c:102-118 | the count falls; the last close drops the inode |
| OpenInodes.CountedBump | fs/inode.c:63-66 | changing one count with its handle keeps list and handles in agreement |
| OpenInodes.CountedPush | fs/inode.c:94-95 | so does adding a new inode |
| OpenInodes.PushCounts | fs/inode.c:90-95 | an inode from a slot of another number puts list and handles out of agreement, and no other does |
| OpenInodes.CountedDrop | fs/inode.c:105-107 | so does removing one |
| OpenInodes.SurvivesReopen | fs/inode.c:70-98 | an uncached open finds the same number, size, blocks and contents as were stored |
| Growth.GrowStep | fs/file.c:216-231 | allocating the next block keeps every other inode's blocks and records this one |
| Growth.TableStep | fs/file.c:240-248 | so does allocating the indirect table |
| Growth.TableWritten | fs/file.c:271 | writing the table makes the indirect entries those that were collected |
| Growth.HoldsGrown | fs/file.c:193-295 | collecting blocks leaves the file's bytes where they were |
| Growth.FinishWrite | fs/file.c:297-325 | data into the new blocks and inode into its slot make a volume that is in order, with the file longer by buf |
| Growth.OtherFilesKept | fs/file.c:137-326 | every other file has the contents it had |
| Files.FileSystem.Mount | fs/fs.c:20-57 | the volume that the super block at start + 1, the bitmaps and the inode slots on the disk give |
| Files.FileSystem.BlockBitmapAlloc | fs/file.c:63-71 | the lowest clear block, or the stop on a full map |
| Files.FileSystem.BitmapSync | fs/file.c:74-94 | exactly the sector with the bit is written |
| Files.FileSystem.InodeBitmapSync | fs/file.c:74-94 | the inode bitmap's sector is written |
| Files.FileSystem.GatherDirect | fs/file.c:207-231 | case 1 collects all blocks, or stops exactly when the map has too few |
| Files.FileSystem.GatherCrossing | fs/file.c:232-271 | case 2, with one block more for the table |
| Files.FileSystem.GatherIndirect | fs/file.c:272-294 | case 3, with the table read and rewritten |
| Files.FileSystem.Collect | fs/file.c:166-295 | all blocks of the file at its new size, and when that stops |
| Files.FileSystem.WriteData | fs/file.c:297-321 | the data loop appends buf to the contents and touches only the blocks of the file; fd_pos ends one behind the size, wrapping at size 0 |
| Files.FileSystem.InodeSync | fs/inode.c:33-54 | exactly the inode's own slot is replaced by its bytes |
| Files.FileSystem.InodeDelete | fs/inode.c:125-139 | exactly the inode's own slot is cleared |
| Files.FileSystem.FileWrite | fs/file.c:137-326 | -1, stop, overrun or success under exact conditions; on success old + buf, fd_pos on the last byte (2^32 - 1 for an empty file), all else unchanged, exactly the needed blocks taken |
| Files.WriteSizeIs | fs/file.c:138 | the size check refuses exactly what does not fit if and only if the sum does not wrap |
| Files.ReadSizeIs | fs/file.c:335-344 | the read ends inside the file if and only if the position does and the sum does not wrap; when -1 is returned |
| Files.FileSystem.GatherForRead | fs/file.c:361-401 | all_blocks has the addresses from the first to the last block read |
| Files.FileSystem.ReadData | fs/file.c:404-421 | the data loop returns the slice and advances fd_pos |
| Files.FileSystem.FileRead | fs/file.c:329-425 | -1, stop, overrun or success under exact conditions, at any position and count; on success exactly the bytes from the position |
| Directory.TextOfName | fs/dir.c:24-28 | a name shorter than its field comes back as it went in |
| Directory.EntryRoundTrip | fs/dir.h:25-29 | an entry's 24 bytes give the entry back |
| Directory.EntryLayout | fs/dir.h:27-31 | the name is at byte 0 of the entry, the inode number at 16, the type at 20 |
| Directory.EntryPut | fs/dir.c:80 | putting an entry into a sector changes that entry only |
| Directory.FindAfterInsert | fs/fs.c:212-256 | a fresh name is added to the map, every other lookup is as before |
| Directory.SearchFile | fs/fs.c:212-256 | the lookup through all block addresses of the root inode, whatever its size |
| Directory.SearchIsFind | fs/fs.c:212-256 | that lookup finds the first of the directory's entries with the name, or none |
| Directory.FirstFree | fs/dir.c:77-86 | the entry loop finds the first free entry of a block, or that it is full |
| Directory.InsertInBlock | fs/dir.c:79-83 | the entry is the directory's last and no other entry changes |
| Directory.InsertNewBlock | fs/dir.c:62-73 | the same when the entry starts a new block |
| Directory.SyncDirEntry | fs/dir.c:30-91 | with room the entry is added and sector 0 kept, without it is lost and sector 0 holds it and zeros; size one entry larger; stop exactly when a block is needed and none is free; files and metadata untouched |
| Directory.LostSectorListsNone | fs/dir.c:69-71 | the sector that a lost entry goes into lists no partition |
| Partitions.PartitionScan | device/ide.c:239-276 | the loop over the four entries of sector 0 finds the primary partitions in order |
| Partitions.PartOfEntry | device/ide.h:59-78 | a table entry has its type in byte 4, its start in bytes 8 to 11 and its length in bytes 12 to 15 |
| Partitions.ListsIff | device/ide.c:247-258 | there is an hdb1 exactly when some entry has a type other than 0 and 5 |
| Descriptors.FileTable.GetFreeSlot | fs/file.c:19-32 | the lowest free place from 3 on, or none |
| Descriptors.Task.FdInstall | fs/file.c:35-50 | the lowest free descriptor from 3 on gets the file, or nothing changes |
| Descriptors.FileLimit | fs/file.c:19-32 | without a close the next open finds a place exactly after fewer than 29 |
| Descriptors.FdLimit | fs/file.c:35-50 | the next open of a thread gets a descriptor exactly after fewer than 5 |
| Descriptors.PlacesBalance | fs/file.c:19-133 | over any run of opens and closes the free places fall by the opens less the closes |
| Directory.InsertIsMapUpdate | fs/dir.c:30-91 | on the disk after sync_dir_entry, search_file finds the fresh name exactly when there was room, and every other name as before |
| Creation.FileCreate | fs/fs.c:259-313 | a new number, an empty file, its slot, its bit and its name, under which a lookup then finds that number exactly when the directory had room; the descriptor returned is a free one and leads through a free place among the open files to the number; -1 with or without the file, and stop under exact conditions on the two tables and the maps |
| Creation.FileClose | fs/file.c:126-133 | the place in the table is free, the open count one less, the write lock off, all else as it was |
| Creation.CreatedIsFound | fs/fs.c:285-310 | a fresh name leads to the new inode, which is an empty regular file opened once, exactly when the directory had room; every other name leads where it led |
| Creation.CreateDone | fs/fs.c:289-310 | storing inode and bitmap after the entry disturbs nothing else |
| Runs.CreateImplements | fs/fs.c:259-313 | a create turns the view into the view with the entry and the empty file; with a full directory, into one that no partition table lists |
| Runs.WriteImplements | fs/file.c:137-326 | a write turns it into the view with the longer file |
| Runs.CloseImplements | fs/file.c:126-133 | a close leaves the view as it is |
| Runs.RemountImplements | fs/fs.c:380-437 | a boot that finds the partition shows the first 21 entries and every file as it was |
| Runs.RunsRefine | fs/fs.c:259-365 | after any creates, writes, closes and remounts the volume implements the view they describe, which tells also whether the partition table is left |
| Runs.BootAfterRun | fs/dir.c:50-74 | the next boot finds the partition exactly when no create of the run met a full directory |
| Runs.OverflowsIff | fs/dir.c:50-74 | without a remount that is when entries and creates are at most 252 together |
| Runs.RootSlotStays | fs/fs.c:298-303 | no run changes the root inode's slot: a mount finds one block and two entries |
| Runs.NamesAfterRemount | fs/fs.c:212-256 | after any run of fresh names every name leads to its file; what a create of the run made is found under its name with every byte written to it since; if a create met a full directory the next boot has nothing to mount; otherwise it finds the name of entry j exactly when j < 21, all exactly when there are at most 21, and the files are kept |
| Runs.CreatedLasts | fs/fs.c:259-313 | a create that found room among the first 21 entries, or with no boot after it, is found at the end of the run under its name, as the inode that it took with the bytes that the writes of the run appended; in the first case also after the next boot |
| Runs.RootSizeIs | fs/dir.c:50-90 | the size of the root inode is 24 bytes for each create since the last boot on top of 48, or of what it was at the start, in 32 bits |
| Runs.OpensBalance | fs/file.c:126-133 | between two boots the open count of a file falls by one with every close, in 32 bits, and changes in no other way |
| Format.LayoutTiles | fs/fs.c:66-120 | the regions follow each other without gap and end with the partition exactly when it is large enough; the bitmap has a bit per block |
| Format.FormatBitmap | fs/fs.c:148-162 | the bits that the tail fill leaves |
| Format.FormatMeetsIntent | fs/fs.c:154-161 | free bits are exactly 1 to len - 1 exactly for len >= 8 that fills the sectors |
| Format.PartitionFormat | fs/fs.c:64-209 | super block, maps, root inode, empty table and root directory are on disk; no sector outside is written |
| Format.FilesysInit | fs/fs.c:380-437 | hdb1 is looked up in sector 0, formatted exactly when it has sectors and no magic number, then mounted from what is on the disk; nothing is mounted exactly when there is no hdb1 |
| Format.BootAgain | fs/fs.c:380-437 | the same code after a volume was in use makes the boot that the runs speak of |
| Format.FormattedIsEmpty | fs/fs.c:20-209 | the mount of a formatted partition takes the layout from the super block and is an empty file system on which all operations work |
| Format.FirstNamesLead | fs/fs.c:190-204 | the first mount finds `.` and `..`, two directory entries that lead to inode 0, and a root of 48 bytes |
| Format.SecondBootFindsAll | fs/fs.c:380-437 | after a format the second boot finds the partition exactly after at most 250 creates, and all files by name exactly after at most 19 |
| Scenarios.FullDirectory | fs/fs.c:259-313 | from a disk without file system one thread makes 251 files, closing each: it gets five descriptors and then -1, all are made, the last name is not found, and the next boot finds no partition |
| Scenarios.FileLimits | fs/file.c:137-425 | from a disk without file system: 71168 bytes are written, reading them stops, writing 512 more stops |
| Scenarios.WriteThenRead | fs/file.c:299-425 | a write of at least one byte and then a read through the same struct file: the read returns the last byte written and nothing more, or stops in block 139 |
| Scenarios.WriteThenReopen | fs/file.c:137-425 | through another struct file a read returns all that was in the file and all that was written |
| Pages.EqualCounts | lib/kernel/memory.c:41-73 | virtual map and frame map have equally many bits set |
| Pages.FrameIsFree | lib/kernel/memory.c:157-163 | while a reachable virtual page is free palloc finds a frame |
| Pages.RunIsMarked | lib/kernel/memory.c:92-94 | the marking loop marks the run and nothing else exactly when it ends below 2048 |
| Pages.MapStep | lib/kernel/memory.c:120-146 | palloc and the new entry keep entries and frames in one-to-one agreement |
| Pages.UnmapStep | lib/kernel/memory.c:342-363 | so do pfree and clearing the entry |
| Pages.PageMaps.constructor | lib/kernel/memory.c:24-80 | empty maps of equal length |
| Pages.PageMaps.VadderGet | lib/kernel/memory.c:82-108 | the run that the scan finds is marked, nothing else changes |
| Pages.PageMaps.MallocPage | lib/kernel/memory.c:148-169 | all pages are mapped, to the lowest free frames in order, or nothing is changed: no half-failed allocation |
| Pages.PageMaps.VaddrRemove | lib/kernel/memory.c:351-357 | the run's bits are cleared |
| Pages.PageMaps.MfreePage | lib/kernel/memory.c:365-381 | exactly the pages from the one the pointer lies in are unmapped, for interior pointers too |
| Arenas.BlockDescInit | lib/kernel/memory.c:225-237 | seven classes from 16 to 1024 with the blocks that fit a page |
| Arenas.BlockRoundTrip | lib/kernel/memory.c:239-247 | block2arena undoes arena2block |
| Arenas.BlockOfAddr | lib/kernel/memory.c:239-247 | a block address is arena2block of its page and index and the block ends in the page |
| Arenas.BlocksApart | lib/kernel/memory.c:239-242 | two blocks of a page do not overlap |
| Arenas.LiveInside | lib/kernel/memory.c:250-337 | a live region lies in its arena's pages, behind the header, and is at least the requested size |
| Arenas.LiveApart | lib/kernel/memory.c:250-337 | two live regions never overlap, small or large |
| Arenas.LiveIsClear | lib/kernel/memory.c:250-337 | a live region is clear of headers, free blocks and get_kernel_page pages |
| Arenas.SmallHasLive | lib/kernel/memory.c:409-416 | every small arena has a live block |
| Arenas.NothingLive | lib/kernel/memory.c:383-419 | with nothing live no arena is left and all free lists are empty |
| Arenas.NewSmallLoose | lib/kernel/memory.c:298-325 | a page split into free blocks keeps lists, counts, cover and live blocks in agreement |
| Arenas.TakeBlockKeeps | lib/kernel/memory.c:328-331 | so does giving out the head of a free list |
| Arenas.PutBlockKeeps | lib/kernel/memory.c:406-408 | so does taking a block back |
| Arenas.DropSmallKeeps | lib/kernel/memory.c:410-416 | so does giving back an arena whose blocks are all free |
| Arenas.NewLargeKeeps | lib/kernel/memory.c:277-285 | so does a large allocation |
| Arenas.DropLargeKeeps | lib/kernel/memory.c:402-404 | so does freeing one |
| Arenas.RemoveNextBlock | lib/kernel/memory.c:411-414 | removing the next block of an arena from the list |
| Arenas.WithoutAllBlocks | lib/kernel/memory.c:411-414 | the loop of removals takes exactly the arena's blocks out of the list |
| Heap.KernelHeap.constructor | lib/kernel/memory.c:423-431 | an empty heap |
| Heap.PagesFor | lib/kernel/memory.c:278 | the least number of pages that hold the header and size bytes |
| Heap.KernelHeap.SysMalloc | lib/kernel/memory.c:250-337 | NULL, stop or a new zeroed region of at least the size, no other live byte changed; when each happens; the region is the head of the free list of the least class that fits, the first block of a fresh page if that is empty, or the run that the scan finds |
| Heap.KernelHeap.SysFree | lib/kernel/memory.c:383-419 | exactly that allocation is gone; no byte and no other mapping changes; the block goes to the end of its free list, or takes all blocks of its arena out of it if it was the last |
| Heap.KernelHeap.GetKernelPage | lib/kernel/memory.c:171-180 | cleared pages that no later malloc or free touches |
| Heap.LargeDone | lib/kernel/memory.c:277-285 | header and zeros of a large allocation keep the whole invariant |
| Heap.SmallDone | lib/kernel/memory.c:328-335 | so does popping and clearing a block |
| Heap.Reclaimed | lib/kernel/memory.c:383-419 | two states with nothing live and the same kernel pages have equal maps, entries and empty lists |
| Heap.RunsKeep | lib/kernel/memory.c:250-419 | every run of mallocs and frees keeps the invariant; live is what was not freed |
| Heap.FullReclamation | lib/kernel/memory.c:250-419 | a run that frees all it allocates, in any order, restores both maps and every entry and empties the lists |
| Paging.PtrsInRange | lib/kernel/memory.c:111-118 | get_pde_ptr and get_pte_ptr as entry addresses in the last 4 MB |
| Paging.PtePtrInjective | lib/kernel/memory.c:116-118 | different pages have different entry addresses |
| Paging.PtrsReachEntries | lib/kernel/memory.c:111-118 | walked through the self-mapped directory they reach exactly the page's entries |
| Paging.Mmu.PageTableAdd | lib/kernel/memory.c:127-146 | the entry is written through the self-map, with a cleared new table if there was none; stops on a mapped page |
| Paging.Mmu.AddrV2P | lib/kernel/memory.c:219-222 | agrees with the processor's translation |
| Paging.Mmu.PageTablePteRemove | lib/kernel/memory.c:360-363 | exactly the page's entry loses its present bit |
| Paging.AddMaps | lib/kernel/memory.c:127-146 | the page is then mapped to the frame, byte by byte |
| Paging.AddChanges | lib/kernel/memory.c:134-136 | exactly the addresses that share the entry change their translation |
| Paging.AddWithTableChanges | lib/kernel/memory.c:137-145 | with a new table: the page, and the self-map page that shows the table |
| Paging.RemoveChanges | lib/kernel/memory.c:360-363 | exactly the addresses that share the entry fault |
| Paging.LowAlias | boot/loader.s:180-181 | a heap page in the first 4 MB is also mapped 3 GB lower |
| Paging.Mmu.CreatePageDir | userprog/process.c:61-71 | the new directory has no user address, the entries 768 to 1022 of the current one, and itself as the last entry; nothing else is written |
| Paging.BootIsShared | boot/loader.s:174-207 | the boot directory has all kernel entries present |
| Paging.AddKeepsShared | lib/kernel/memory.c:127-146 | mapping through any directory keeps the kernel half shared |
| Paging.RemoveKeepsShared | lib/kernel/memory.c:360-363 | so does unmapping |
| Paging.CreateKeepsShared | userprog/process.c:61-71 | so does a new directory |
| HeapPaging.EntriesUnique | lib/kernel/memory.c:127-146 | physical memory determines the heap's entries |
| HeapPaging.HeapByte | lib/kernel/memory.c:219-222 | each byte of a mapped heap page lies at the same place in its frame, and a free page faults |
| HeapPaging.HeapAdd | lib/kernel/memory.c:127-146 | page_table_add turns the heap's entries into pte[v := p] |
| HeapPaging.HeapRemove | lib/kernel/memory.c:360-363 | page_table_pte_remove turns them into pte - {v} |
| HeapPaging.BootIsReady | boot/loader.s:174-207 | with the boot loader's tables the heap starts with no page mapped |
| HeapPaging.MapHeapPage | lib/kernel/memory.c:157-167 | a turn of malloc_page's loop keeps entries in memory and maps in agreement; the page is never mapped already |
| HeapPaging.UnmapHeapPage | lib/kernel/memory.c:369-378 | a turn of mfree_page's loop frees the frame that the table entry names, which is the page's |
| HeapPaging.MallocHeap | lib/kernel/memory.c:148-169 | malloc_page with its page tables: the run is mapped in the maps and for the processor, to the lowest free frames in order, or nothing has changed |
| HeapPaging.MfreeHeap | lib/kernel/memory.c:365-381 | mfree_page with its page tables: exactly these pages fault, and maps and tables agree |
| Paging.KernelStaysShared | userprog/process.c:61-71 | in every run all directories, old and new, translate every kernel address outside the self-map alike |
| Paging.UserSpacesApart | userprog/process.c:61-71 | in every run each created directory translates each user address exactly as the maps and unmaps through that directory say; nothing done through another one reaches it |
| Paging.UserNeedsMap | userprog/process.c:61-71 | a directory that the run created translates a user address only if its page was mapped through that directory |

## Left out

- ThreadsInv.ScheduleOk: address space activation and the stack switch are not modelled; the switch is "current becomes next".
- ThreadsRun.SchedulerConsistent: the list of all threads, into which make_main_thread links the wrong tag, is not part of this model.
- ThreadsRun.DiskHandshake: identify_disk, which never releases the channel lock, and the waits for the drive's status are not part of this model; data moves in `Disk`, the handshake in `Threads`.
- ThreadsStep.BootInv: a new thread appears on the ready list in one step; a preemption between init_thread and list_append is not modelled.
- ThreadsRun.RepeatIsDepth: nesting depths are unbounded numbers.
- Threads: idle's `sti; hlt` is part of its loop; console, keyboard and the ring buffer in device/ioqueue.c are left out.
- Bitmap.BitmapScan: counts are at least 1 and maps shorter than 2^28 bytes, so its index arithmetic does not overflow; the byte after the map exists in memory.
- Files.FileSystem.FileWrite: requires the guard AllocSafe on the block bitmap for a size that fits; after a stop the kernel does not continue, so nothing is said of the state, and what a data loop that leaves the file writes is not modelled; the two sys_malloc calls are one parameter, and the leaked buffers are not modelled.
- Files.FileSystem.InodeSync: the model's buffer has room for two sectors; where file_write's has not (`OneSectorIsEnough`), the memory behind it, which the source overwrites, is not modelled.
- Files.FileSystem.FileRead: the debugging assertion at the start of file_read is ignored; what a data loop that leaves the file reads, and the failed sys_malloc of io_buf, which the code does not act on, are not modelled.
- Files.FileSystem.Mount: requires a super block whose regions lie on the disk, as nothing checks it; the inodes in use are read at the mount instead of at their first inode_open; only one disk with partitions is modelled.
- OpenInodes.Cache.InodeOpen: the inode's own memory is not modelled.
- List.LinkedList.Pop: requires a list that is not empty; on an empty one the source writes through the tail's null link.
- FileSystem: one operation at a time. fs/ takes no lock, so two threads' operations on one partition can interleave in the source between any two disk accesses; only a single disk command is exclusive.
- Directory.SyncDirEntry: entries are never deleted in the source, so the entries of a directory have no gaps; a directory's indirect table, which the source never creates, is left out.
- Creation.FileCreate: requires a name of 1 to 15 characters and a free inode number below 2048 or a full map; the flags and positions in the table of open files are not modelled.
- Runs.RunsRefine: runs of operations that succeed; stopping and failing calls are covered by the contracts of the single operations. A boot without a partition ends a run: the source goes on with a null cur_part.
- Partitions.PartitionScan: the recursion into extended partitions is left out; its partitions are named hdb5 and up and are not mounted. An extended entry that points to sector 0 makes the source scan for ever.
- Format.PartitionFormat: requires room for one block and, on a bitmap of 608 sectors or more, that the bitmap is not full to its last bit, where the source fills beyond its buffer; printing is left out.
- Heap.KernelHeap.SysMalloc: runs of kernel threads only; requires that the run the scan finds ends below bit 2048; the lock around it is that of `Threads`.
- Heap.KernelHeap.GetKernelPage: page tables are all present, as the boot loader leaves them, so no frame goes to a new table here; `Paging` covers that case.
- Pages: the user pool, get_a_page and user heaps use the same code on other maps and are left out.
- Paging.Mmu.PageTableAdd: access rights, the accessed and dirty bits and the translation buffer are not modelled; palloc's frame is a parameter that is not in use.
- file_open and write_deny: any close clears the flag, so it gives no exclusion to state.
- fs/inode.c inode_release is commented out; failure exits that leave bits set are stated only as far as they return.
- Boot code, descriptor tables, interrupt controller, console, printing and strings have no deep property.
